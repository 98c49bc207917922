/**
 * The ChainBridge pallet as an object whose storage items are updated in
 * place (chainbridge/src/lib.rs). Each operation is proved to perform the
 * transition that the `ChainBridge` function of the same name describes.
 */
module ChainBridgePallet {
  import opened Types
  import opened ChainBridge

  class Pallet<A(==, !new)> {
    /** `T::ChainId`: the identifier of this chain, fixed by the runtime's configuration. */
    const localChainId: ChainId

    /** `RelayerThreshold`. */
    var relayerThreshold: U32
    /** `Resources`. */
    var resources: map<ResourceId, Bytes>
    /** `ChainNonces`. */
    var chainNonces: map<ChainId, Option<DepositNonce>>
    /** `Relayers`. */
    var relayers: map<A, bool>
    /** The events deposited so far. */
    var events: seq<Event<A>>

    /** The storage as a value. */
    function Storage(): State<A>
      reads this
    {
      State(relayerThreshold, resources, chainNonces, relayers, events)
    }

    /** The pallet's invariant: see `ChainBridge.Inv`. */
    ghost predicate Valid()
      reads this
    {
      Inv(Storage(), localChainId)
    }

    /** A pallet whose storage items all hold their defaults. */
    constructor (localChainId: ChainId)
      ensures this.localChainId == localChainId
      ensures Storage() == Genesis()
      ensures Valid()
    {
      this.localChainId := localChainId;
      relayerThreshold := 0;
      resources := map[];
      chainNonces := map[];
      relayers := map[];
      events := [];
    }

    /** `chain_whitelisted`. */
    predicate ChainWhitelisted(id: ChainId)
      reads this
      ensures ChainWhitelisted(id) <==> Storage().ChainWhitelisted(id)
    {
      id in chainNonces && chainNonces[id] != None
    }

    /** `is_relayer`. */
    predicate IsRelayer(who: A)
      reads this
      ensures IsRelayer(who) <==> Storage().IsRelayer(who)
    {
      who in relayers && relayers[who]
    }

    /** `deposit_event`: appends to the event log and changes nothing else. */
    method DepositEvent(e: Event<A>)
      modifies this
      ensures events == old(events) + [e]
      ensures relayerThreshold == old(relayerThreshold) && resources == old(resources)
      ensures chainNonces == old(chainNonces) && relayers == old(relayers)
    {
      events := events + [e];
    }

    /** `set_relayer_threshold`. */
    method SetRelayerThreshold(threshold: U32) returns (r: DispatchResult)
      requires Valid()
      modifies this
      ensures Valid()
      ensures Transition(Storage(), r) == ChainBridge.SetRelayerThreshold(old(Storage()), threshold)
    {
      if threshold == 0 {
        return Err(InvalidThreshold);
      }
      relayerThreshold := threshold;
      DepositEvent(RelayerThresholdChanged(threshold));
      r := Ok;
    }

    /** `register_resource`. */
    method RegisterResource(id: ResourceId, handler: Bytes) returns (r: DispatchResult)
      requires Valid()
      modifies this
      ensures Valid()
      ensures Transition(Storage(), r) == ChainBridge.RegisterResource(old(Storage()), id, handler)
    {
      resources := resources[id := handler];
      r := Ok;
    }

    /** `unregister_resource`. */
    method UnregisterResource(id: ResourceId) returns (r: DispatchResult)
      requires Valid()
      modifies this
      ensures Valid()
      ensures Transition(Storage(), r) == ChainBridge.UnregisterResource(old(Storage()), id)
    {
      resources := resources - {id};
      r := Ok;
    }

    /** `whitelist`. */
    method Whitelist(id: ChainId) returns (r: DispatchResult)
      requires Valid()
      modifies this
      ensures Valid()
      ensures Transition(Storage(), r) == ChainBridge.Whitelist(old(Storage()), localChainId, id)
    {
      if id == localChainId {
        return Err(InvalidChainId);
      }
      if ChainWhitelisted(id) {
        return Err(ChainAlreadyWhitelisted);
      }
      chainNonces := chainNonces[id := Some(0)];
      DepositEvent(Event.ChainWhitelisted(id));
      r := Ok;
    }

    /** `register_relayer`. */
    method RegisterRelayer(relayer: A) returns (r: DispatchResult)
      requires Valid()
      modifies this
      ensures Valid()
      ensures Transition(Storage(), r) == ChainBridge.RegisterRelayer(old(Storage()), relayer)
    {
      if IsRelayer(relayer) {
        return Err(RelayerAlreadyExists);
      }
      relayers := relayers[relayer := true];
      r := Ok;
    }

    /** Dispatchable `set_threshold`. */
    method SetThreshold(threshold: U32) returns (r: DispatchResult)
      requires Valid()
      modifies this
      ensures Valid()
      ensures Transition(Storage(), r) == ChainBridge.SetThreshold(old(Storage()), threshold)
    {
      r := EnsureAdmin();
      if r.Err? {
        return;
      }
      r := SetRelayerThreshold(threshold);
    }

    /** Dispatchable `set_resource`. */
    method SetResource(id: ResourceId, handler: Bytes) returns (r: DispatchResult)
      requires Valid()
      modifies this
      ensures Valid()
      ensures Transition(Storage(), r) == ChainBridge.SetResource(old(Storage()), id, handler)
    {
      r := EnsureAdmin();
      if r.Err? {
        return;
      }
      r := RegisterResource(id, handler);
    }

    /** Dispatchable `remove_resource`. */
    method RemoveResource(id: ResourceId) returns (r: DispatchResult)
      requires Valid()
      modifies this
      ensures Valid()
      ensures Transition(Storage(), r) == ChainBridge.RemoveResource(old(Storage()), id)
    {
      r := EnsureAdmin();
      if r.Err? {
        return;
      }
      r := UnregisterResource(id);
    }

    /** Dispatchable `whitelist_chain`. */
    method WhitelistChain(id: ChainId) returns (r: DispatchResult)
      requires Valid()
      modifies this
      ensures Valid()
      ensures Transition(Storage(), r) == ChainBridge.WhitelistChain(old(Storage()), localChainId, id)
    {
      r := EnsureAdmin();
      if r.Err? {
        return;
      }
      r := Whitelist(id);
    }
  }
}
