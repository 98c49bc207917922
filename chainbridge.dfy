/**
 * The ChainBridge pallet's storage, events and errors, and each of its
 * operations as a pure transition on a snapshot of the storage
 * (chainbridge/src/lib.rs). These functions are the specification that the
 * in-place `Pallet` class is proved against.
 */
module ChainBridge {
  import opened Types

  /** The pallet's events. Only `RelayerThresholdChanged` and `ChainWhitelisted` are ever deposited. */
  datatype Event<A> =
    | RelayerThresholdChanged(threshold: U32)
    | ChainWhitelisted(chain: ChainId)
    | RelayerAdded(relayer: A)
    | RelayerRemoved(relayer: A)
    | FungibleTransfer(chain: ChainId, nonce: DepositNonce, resource: ResourceId, amount: U256, recipient: Bytes)
    | NonFungibleTransfer(chain: ChainId, nonce: DepositNonce, resource: ResourceId, tokenId: Bytes, recipient: Bytes, metadata: Bytes)
    | GenericTransfer(chain: ChainId, nonce: DepositNonce, resource: ResourceId, metadata: Bytes)
    | VoteFor(chain: ChainId, nonce: DepositNonce, relayer: A)
    | VoteAgainst(chain: ChainId, nonce: DepositNonce, relayer: A)
    | ProposalApproved(chain: ChainId, nonce: DepositNonce)
    | ProposalRejected(chain: ChainId, nonce: DepositNonce)
    | ProposalSucceeded(chain: ChainId, nonce: DepositNonce)
    | ProposalFailed(chain: ChainId, nonce: DepositNonce)

  /** The pallet's error kinds. */
  datatype Error =
    | ThresholdNotSet
    | InvalidChainId
    | InvalidThreshold
    | ChainNotWhitelisted
    | ChainAlreadyWhitelisted
    | ResourceDoesNotExist
    | RelayerAlreadyExists
    | RelayerInvalid
    | MustBeRelayer
    | RelayerAlreadyVoted
    | ProposalAlreadyExists
    | ProposalDoesNotExist
    | ProposalNotComplete
    | ProposalAlreadyComplete
    | ProposalExpired

  /** The outcome of a call: `Ok(())` or an error. */
  datatype DispatchResult = Ok | Err(error: Error)

  /**
   * The pallet's storage items, as they are stored: a key absent from a map
   * is a key never written (or removed). The getters below give the
   * `ValueQuery` reading, where an absent key reads as the type's default.
   */
  datatype State<A(==, !new)> = State(
    relayerThreshold: U32,
    resources: map<ResourceId, Bytes>,
    chainNonces: map<ChainId, Option<DepositNonce>>,
    relayers: map<A, bool>,
    events: seq<Event<A>>)
  {
    /** The `resources` getter: the method registered for `id`, or the empty vector. */
    function Resource(id: ResourceId): (m: Bytes)
      ensures id in resources ==> m == resources[id]
      ensures id !in resources ==> m == []
    {
      if id in resources then resources[id] else []
    }

    /** The `chains` getter: the stored nonce of chain `id`, or `None`. */
    function Chain(id: ChainId): (n: Option<DepositNonce>)
      ensures id in chainNonces ==> n == chainNonces[id]
      ensures id !in chainNonces ==> n == None
    {
      if id in chainNonces then chainNonces[id] else None
    }

    /** `chain_whitelisted`: a chain is whitelisted when its nonce reads as something other than `None`. */
    predicate ChainWhitelisted(id: ChainId)
      ensures ChainWhitelisted(id) <==> id in chainNonces && chainNonces[id].Some?
    {
      Chain(id) != None
    }

    /** `is_relayer`: the stored membership flag, `false` for an account never written. */
    predicate IsRelayer(who: A)
      ensures IsRelayer(who) <==> who in relayers && relayers[who]
    {
      if who in relayers then relayers[who] else false
    }
  }

  /** The state of a freshly created pallet: every storage item at its default. */
  function Genesis<A(==, !new)>(): (g: State<A>)
    ensures g.relayerThreshold == 0 && g.events == []
    ensures forall id: ResourceId :: g.Resource(id) == []
    ensures forall c: ChainId :: !g.ChainWhitelisted(c)
    ensures forall a: A :: !g.IsRelayer(a)
  {
    State(0, map[], map[], map[], [])
  }

  /**
   * What every reachable state satisfies: the local chain is not
   * whitelisted, every stored chain nonce is `Some(0)` (nothing ever
   * advances a nonce), and every stored membership flag is `true`.
   */
  predicate Inv<A(==, !new)>(s: State<A>, local: ChainId) {
    && !s.ChainWhitelisted(local)
    && (forall c :: c in s.chainNonces ==> s.chainNonces[c] == Some(0))
    && (forall a :: a in s.relayers ==> s.relayers[a])
  }

  /** The state after a call together with the call's result. */
  datatype Transition<A(==, !new)> = Transition(post: State<A>, result: DispatchResult)

  /** `ensure_admin`: the origin check is disabled in the source and admits every caller. */
  function EnsureAdmin(): (r: DispatchResult)
    ensures r.Ok?
  {
    Ok
  }

  /** `set_relayer_threshold`: rejects 0, otherwise stores the threshold and reports it. */
  function SetRelayerThreshold<A(==, !new)>(s: State<A>, threshold: U32): (t: Transition<A>)
    ensures t.result.Ok? <==> threshold > 0
    ensures t.result.Err? ==> t.result.error == InvalidThreshold && t.post == s
    ensures t.result.Ok? ==> t.post.relayerThreshold == threshold
    ensures t.result.Ok? ==> t.post.events == s.events + [RelayerThresholdChanged(threshold)]
    ensures t.post.resources == s.resources && t.post.chainNonces == s.chainNonces
    ensures t.post.relayers == s.relayers
  {
    if threshold > 0 then
      Transition(s.(relayerThreshold := threshold, events := s.events + [RelayerThresholdChanged(threshold)]), Ok)
    else
      Transition(s, Err(InvalidThreshold))
  }

  /** `register_resource`: always succeeds; the last write for an id wins and nothing else changes. */
  function RegisterResource<A(==, !new)>(s: State<A>, id: ResourceId, handler: Bytes): (t: Transition<A>)
    ensures t.result == Ok
    ensures t.post.Resource(id) == handler
    ensures forall other :: other != id ==> t.post.Resource(other) == s.Resource(other)
    ensures t.post.resources.Keys == s.resources.Keys + {id}
    ensures t.post.relayerThreshold == s.relayerThreshold && t.post.chainNonces == s.chainNonces
    ensures t.post.relayers == s.relayers && t.post.events == s.events
  {
    Transition(s.(resources := s.resources[id := handler]), Ok)
  }

  /** `unregister_resource`: always succeeds, also for an id never registered; the id then reads as empty. */
  function UnregisterResource<A(==, !new)>(s: State<A>, id: ResourceId): (t: Transition<A>)
    ensures t.result == Ok
    ensures t.post.Resource(id) == [] && id !in t.post.resources
    ensures forall other :: other != id ==> t.post.Resource(other) == s.Resource(other)
    ensures t.post.resources.Keys == s.resources.Keys - {id}
    ensures t.post.relayerThreshold == s.relayerThreshold && t.post.chainNonces == s.chainNonces
    ensures t.post.relayers == s.relayers && t.post.events == s.events
  {
    Transition(s.(resources := s.resources - {id}), Ok)
  }

  /**
   * `whitelist`: rejects the local chain, then a chain already whitelisted;
   * otherwise starts the chain's nonce at `Some(0)` and reports it.
   */
  function Whitelist<A(==, !new)>(s: State<A>, local: ChainId, id: ChainId): (t: Transition<A>)
    ensures t.result == (if id == local then Err(InvalidChainId)
                         else if s.ChainWhitelisted(id) then Err(ChainAlreadyWhitelisted)
                         else Ok)
    ensures t.result.Err? ==> t.post == s
    ensures t.result.Ok? ==> t.post.Chain(id) == Some(0) && t.post.ChainWhitelisted(id)
    ensures t.result.Ok? ==> t.post.events == s.events + [ChainWhitelisted(id)]
    ensures forall c :: c != id ==> t.post.Chain(c) == s.Chain(c)
    ensures t.post.relayerThreshold == s.relayerThreshold && t.post.resources == s.resources
    ensures t.post.relayers == s.relayers
  {
    if id == local then
      Transition(s, Err(InvalidChainId))
    else if s.ChainWhitelisted(id) then
      Transition(s, Err(ChainAlreadyWhitelisted))
    else
      Transition(s.(chainNonces := s.chainNonces[id := Some(0)],
                    events := s.events + [Event.ChainWhitelisted(id)]), Ok)
  }

  /** `register_relayer`: rejects an existing relayer; otherwise admits it, without an event. */
  function RegisterRelayer<A(==, !new)>(s: State<A>, relayer: A): (t: Transition<A>)
    ensures t.result == (if s.IsRelayer(relayer) then Err(RelayerAlreadyExists) else Ok)
    ensures t.result.Err? ==> t.post == s
    ensures t.post.IsRelayer(relayer)
    ensures forall other :: other != relayer ==> t.post.IsRelayer(other) == s.IsRelayer(other)
    ensures t.post.relayerThreshold == s.relayerThreshold && t.post.resources == s.resources
    ensures t.post.chainNonces == s.chainNonces && t.post.events == s.events
  {
    if s.IsRelayer(relayer) then
      Transition(s, Err(RelayerAlreadyExists))
    else
      Transition(s.(relayers := s.relayers[relayer := true]), Ok)
  }

  /** Runs `then` only when the admin check passes; otherwise the check's error and no change. */
  function AdminGated<A(==, !new)>(s: State<A>, guarded: Transition<A>): (t: Transition<A>)
    ensures t == guarded
  {
    var admin := EnsureAdmin();
    if admin.Err? then Transition(s, admin) else guarded
  }

  /** Dispatchable `set_threshold`: the admin check admits everyone, so it is `set_relayer_threshold`. */
  function SetThreshold<A(==, !new)>(s: State<A>, threshold: U32): (t: Transition<A>)
    ensures t == SetRelayerThreshold(s, threshold)
  {
    AdminGated(s, SetRelayerThreshold(s, threshold))
  }

  /** Dispatchable `set_resource`: behaves as `register_resource`. */
  function SetResource<A(==, !new)>(s: State<A>, id: ResourceId, handler: Bytes): (t: Transition<A>)
    ensures t == RegisterResource(s, id, handler)
  {
    AdminGated(s, RegisterResource(s, id, handler))
  }

  /** Dispatchable `remove_resource`: behaves as `unregister_resource`. */
  function RemoveResource<A(==, !new)>(s: State<A>, id: ResourceId): (t: Transition<A>)
    ensures t == UnregisterResource(s, id)
  {
    AdminGated(s, UnregisterResource(s, id))
  }

  /** Dispatchable `whitelist_chain`: behaves as `whitelist`. */
  function WhitelistChain<A(==, !new)>(s: State<A>, local: ChainId, id: ChainId): (t: Transition<A>)
    ensures t == Whitelist(s, local, id)
  {
    AdminGated(s, Whitelist(s, local, id))
  }
}
