/**
 * Histories of the pallet: any sequence of calls to its public operations,
 * applied one after the other from some state. The lemmas here state what
 * holds of every reachable state, and which call in a history decides each
 * storage item.
 */
module Runs {
  import opened Types
  import CB = ChainBridge

  /** A call to one of the four dispatchables or to `register_relayer`. */
  datatype Call<A> =
    | SetThreshold(threshold: U32)
    | SetResource(id: ResourceId, handler: Bytes)
    | RemoveResource(id: ResourceId)
    | WhitelistChain(chain: ChainId)
    | RegisterRelayer(relayer: A)

  /** The only events the pallet deposits: an accepted threshold, or a whitelisted chain other than the local one. */
  predicate ConfigEvent<A>(e: CB.Event<A>, local: ChainId) {
    || (e.RelayerThresholdChanged? && e.threshold > 0)
    || (e.ChainWhitelisted? && e.chain != local)
  }

  /** One call. A failed call changes nothing, the event log only grows, and the invariant is kept. */
  function Step<A(==, !new)>(s: CB.State<A>, local: ChainId, c: Call<A>): (t: CB.Transition<A>)
    ensures t.result.Err? ==> t.post == s
    ensures s.events <= t.post.events
    ensures forall e :: e in t.post.events[|s.events|..] ==> ConfigEvent(e, local)
    ensures CB.Inv(s, local) ==> CB.Inv(t.post, local)
  {
    match c
    case SetThreshold(threshold) => CB.SetThreshold(s, threshold)
    case SetResource(id, handler) => CB.SetResource(s, id, handler)
    case RemoveResource(id) => CB.RemoveResource(s, id)
    case WhitelistChain(chain) => CB.WhitelistChain(s, local, chain)
    case RegisterRelayer(relayer) => CB.RegisterRelayer(s, relayer)
  }

  /** The calls applied in order; the event log is append-only across the whole history. */
  function Run<A(==, !new)>(s: CB.State<A>, local: ChainId, calls: seq<Call<A>>): (r: CB.State<A>)
    ensures s.events <= r.events
    decreases |calls|
  {
    if calls == [] then s else Run(Step(s, local, calls[0]).post, local, calls[1..])
  }

  /** Running two histories one after the other is running their concatenation. */
  lemma {:induction false} RunAppend<A(!new)>(s: CB.State<A>, local: ChainId, xs: seq<Call<A>>, ys: seq<Call<A>>)
    ensures Run(s, local, xs + ys) == Run(Run(s, local, xs), local, ys)
    decreases |xs|
  {
    if xs != [] {
      assert (xs + ys)[0] == xs[0] && (xs + ys)[1..] == xs[1..] + ys;
      RunAppend(Step(s, local, xs[0]).post, local, xs[1..], ys);
    } else {
      assert xs + ys == ys;
    }
  }

  /** Every state reached from one satisfying the invariant satisfies it too. */
  lemma {:induction false} RunPreservesInv<A(!new)>(s: CB.State<A>, local: ChainId, calls: seq<Call<A>>)
    requires CB.Inv(s, local)
    ensures CB.Inv(Run(s, local, calls), local)
    decreases |calls|
  {
    if calls != [] {
      RunPreservesInv(Step(s, local, calls[0]).post, local, calls[1..]);
    }
  }

  /** Every event a history appends is a threshold change or a chain whitelisting. */
  lemma {:induction false} RunEventsAreConfigEvents<A(!new)>(s: CB.State<A>, local: ChainId, calls: seq<Call<A>>)
    ensures forall e :: e in Run(s, local, calls).events[|s.events|..] ==> ConfigEvent(e, local)
    decreases |calls|
  {
    if calls != [] {
      var s' := Step(s, local, calls[0]).post;
      RunEventsAreConfigEvents(s', local, calls[1..]);
      var r := Run(s, local, calls);
      forall e | e in r.events[|s.events|..] ensures ConfigEvent(e, local) {
        var i :| |s.events| <= i < |r.events| && r.events[i] == e;
        if i < |s'.events| {
          assert e in s'.events[|s.events|..] by { assert s'.events[|s.events|..][i - |s.events|] == e; }
        } else {
          assert e in r.events[|s'.events|..] by { assert r.events[|s'.events|..][i - |s'.events|] == e; }
        }
      }
    }
  }

  /** Once the threshold is positive, no history makes it 0 again. */
  lemma {:induction false} ThresholdStaysPositive<A(!new)>(s: CB.State<A>, local: ChainId, calls: seq<Call<A>>)
    requires s.relayerThreshold > 0
    ensures Run(s, local, calls).relayerThreshold > 0
    decreases |calls|
  {
    if calls != [] {
      ThresholdStaysPositive(Step(s, local, calls[0]).post, local, calls[1..]);
    }
  }

  /** The threshold written by the last accepted `set_threshold` of a history, or `initial` if there is none. */
  function LastThreshold<A>(calls: seq<Call<A>>, initial: U32): (t: U32)
    ensures t == initial || exists i :: 0 <= i < |calls| && calls[i] == SetThreshold(t) && t > 0
  {
    if calls == [] then initial
    else
      var last := calls[|calls| - 1];
      if last.SetThreshold? && last.threshold > 0 then last.threshold
      else LastThreshold(calls[..|calls| - 1], initial)
  }

  /** The stored threshold is the one of the last accepted `set_threshold`: every rejected one is ignored. */
  lemma {:induction false} ThresholdIsLastAccepted<A(!new)>(s: CB.State<A>, local: ChainId, calls: seq<Call<A>>)
    ensures Run(s, local, calls).relayerThreshold == LastThreshold(calls, s.relayerThreshold)
    decreases |calls|
  {
    if calls != [] {
      var init, last := calls[..|calls| - 1], calls[|calls| - 1];
      assert calls == init + [last];
      RunAppend(s, local, init, [last]);
      ThresholdIsLastAccepted(s, local, init);
    }
  }

  /** The method of `id` written by the last `set_resource`/`remove_resource` on `id`, or `initial` if there is none. */
  function LastResource<A>(calls: seq<Call<A>>, id: ResourceId, initial: Bytes): (m: Bytes)
    ensures m == initial || m == [] || exists i :: 0 <= i < |calls| && calls[i] == SetResource(id, m)
  {
    if calls == [] then initial
    else
      var last := calls[|calls| - 1];
      if last == RemoveResource(id) then []
      else if last.SetResource? && last.id == id then last.handler
      else LastResource(calls[..|calls| - 1], id, initial)
  }

  /** The registry reads, for every id, what the last write to that id left: last write wins. */
  lemma {:induction false} ResourceIsLastWrite<A(!new)>(s: CB.State<A>, local: ChainId, calls: seq<Call<A>>, id: ResourceId)
    ensures Run(s, local, calls).Resource(id) == LastResource(calls, id, s.Resource(id))
    decreases |calls|
  {
    if calls != [] {
      var init, last := calls[..|calls| - 1], calls[|calls| - 1];
      assert calls == init + [last];
      RunAppend(s, local, init, [last]);
      ResourceIsLastWrite(s, local, init, id);
    }
  }

  /** An account is a relayer exactly when it was one before or some call registered it. */
  lemma {:induction false} RelayerIffRegistered<A(!new)>(s: CB.State<A>, local: ChainId, calls: seq<Call<A>>, who: A)
    ensures Run(s, local, calls).IsRelayer(who) <==> s.IsRelayer(who) || RegisterRelayer(who) in calls
    decreases |calls|
  {
    if calls != [] {
      assert calls == [calls[0]] + calls[1..];
      RelayerIffRegistered(Step(s, local, calls[0]).post, local, calls[1..], who);
    }
  }

  /** A chain is whitelisted exactly when it was before, or it is not the local chain and some call whitelisted it. */
  lemma {:induction false} WhitelistedIffRequested<A(!new)>(s: CB.State<A>, local: ChainId, calls: seq<Call<A>>, chain: ChainId)
    ensures Run(s, local, calls).ChainWhitelisted(chain)
            <==> s.ChainWhitelisted(chain) || (chain != local && WhitelistChain(chain) in calls)
    decreases |calls|
  {
    if calls != [] {
      assert calls == [calls[0]] + calls[1..];
      WhitelistedIffRequested(Step(s, local, calls[0]).post, local, calls[1..], chain);
    }
  }

  /** The nonce of a whitelisted chain is never changed by any history. */
  lemma {:induction false} WhitelistedNonceUnchanged<A(!new)>(s: CB.State<A>, local: ChainId, calls: seq<Call<A>>, chain: ChainId)
    requires s.ChainWhitelisted(chain)
    ensures Run(s, local, calls).Chain(chain) == s.Chain(chain)
    decreases |calls|
  {
    if calls != [] {
      WhitelistedNonceUnchanged(Step(s, local, calls[0]).post, local, calls[1..], chain);
    }
  }

  /** Whitelisting a chain a second time, at any later point, fails with `ChainAlreadyWhitelisted` and changes nothing. */
  lemma WhitelistAgainFails<A(!new)>(s: CB.State<A>, local: ChainId, calls: seq<Call<A>>, chain: ChainId)
    requires chain != local
    requires WhitelistChain(chain) in calls
    ensures var r := Run(s, local, calls);
            CB.WhitelistChain(r, local, chain) == CB.Transition(r, CB.Err(CB.ChainAlreadyWhitelisted))
  {
    WhitelistedIffRequested(s, local, calls, chain);
  }

  /** Registering a relayer a second time, at any later point, fails with `RelayerAlreadyExists` and changes nothing. */
  lemma RegisterRelayerAgainFails<A(!new)>(s: CB.State<A>, local: ChainId, calls: seq<Call<A>>, who: A)
    requires RegisterRelayer(who) in calls
    ensures var r := Run(s, local, calls);
            CB.RegisterRelayer(r, who) == CB.Transition(r, CB.Err(CB.RelayerAlreadyExists))
  {
    RelayerIffRegistered(s, local, calls, who);
  }

  /** Setting a resource twice in a row leaves the same state as setting it once. */
  lemma SetResourceIdempotent<A(!new)>(s: CB.State<A>, local: ChainId, id: ResourceId, handler: Bytes)
    ensures Run(s, local, [SetResource(id, handler), SetResource(id, handler)])
            == Run(s, local, [SetResource(id, handler)])
  {
    var once := Step(s, local, SetResource(id, handler)).post;
    assert once.resources[id := handler] == once.resources;
  }

  /** Removing a resource twice in a row leaves the same state as removing it once. */
  lemma RemoveResourceIdempotent<A(!new)>(s: CB.State<A>, local: ChainId, id: ResourceId)
    ensures Run(s, local, [RemoveResource(id), RemoveResource(id)]) == Run(s, local, [RemoveResource(id)])
  {
    var once := Step(s, local, RemoveResource(id)).post;
    assert once.resources - {id} == once.resources;
  }

  /** The threshold has been set exactly when some call in the history proposed a positive one. */
  lemma {:induction false} LastThresholdZero<A>(calls: seq<Call<A>>)
    ensures LastThreshold(calls, 0) == 0 <==> forall i :: 0 <= i < |calls| ==> calls[i].SetThreshold? ==> calls[i].threshold == 0
    decreases |calls|
  {
    if calls != [] {
      LastThresholdZero(calls[..|calls| - 1]);
    }
  }

  /**
   * What every history from a freshly created pallet leads to: the
   * invariant holds (so the local chain is never whitelisted), an account is
   * a relayer exactly when it was registered, and the threshold is 0 exactly
   * when no positive threshold was ever proposed.
   */
  lemma FromGenesis<A(!new)>(local: ChainId, calls: seq<Call<A>>)
    ensures CB.Inv(Run(CB.Genesis(), local, calls), local)
    ensures !Run(CB.Genesis(), local, calls).ChainWhitelisted(local)
    ensures forall who :: Run(CB.Genesis(), local, calls).IsRelayer(who) <==> RegisterRelayer(who) in calls
    ensures Run(CB.Genesis(), local, calls).relayerThreshold == 0
            <==> forall i :: 0 <= i < |calls| ==> calls[i].SetThreshold? ==> calls[i].threshold == 0
  {
    var g: CB.State<A> := CB.Genesis();
    RunPreservesInv(g, local, calls);
    forall who ensures Run(g, local, calls).IsRelayer(who) <==> RegisterRelayer(who) in calls {
      RelayerIffRegistered(g, local, calls, who);
    }
    ThresholdIsLastAccepted(g, local, calls);
    LastThresholdZero(calls);
  }
}
