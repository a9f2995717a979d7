/** The handle synchroniser: the single-flight `refresh` with its staleness
    guard, the direct re-read `readHandlesDirect`, and the effect that
    refreshes once a signer and an address are known. */
module Refresh {
  import opened Wrappers
  import opened Contracts
  import opened SyncState

  /** A state change together with the refresh it started, if it started
      one; the snapshot is what the promise continuation compares at the end. */
  datatype Started = Started(state: State, pending: Option<Snapshot>)

  /** The reads issued for the two handles: "mine" only through a signer. */
  function ReadCalls(hasSigner: bool): (r: seq<Call>)
    ensures |r| > 0 && r[0] == GetTotal
    ensures GetMyTally in r <==> hasSigner
  {
    if hasSigner then [GetTotal, GetMyTally] else [GetTotal]
  }

  /** `Promise.all([total, myTotal])`, where without a signer `myTotal` is an
      already resolved `ZeroHash` rather than a call. */
  function JoinReads(hasSigner: bool, tot: Outcome<Handle>, mine: Outcome<Handle>): (r: Outcome<(Handle, Handle)>)
    ensures r.Ok? <==> tot.Ok? && (hasSigner ==> mine.Ok?)
    ensures r.Ok? ==> r.value == (tot.value, if hasSigner then mine.value else ZeroHash)
    ensures r.Err? ==> r.detail == (if tot.Err? then tot.detail else mine.detail)
  {
    if tot.Err? then Err(tot.detail)
    else if !hasSigner then Ok((tot.value, ZeroHash))
    else if mine.Err? then Err(mine.detail)
    else Ok((tot.value, mine.value))
  }

  /** The address `infoRef` holds now. */
  function CurrentAddress(infoRef: Option<ContractInfo>): Option<Address> {
    if infoRef.Some? then infoRef.value.address else None
  }

  /** The commit condition of a completed refresh: the address in `infoRef`
      is the one the refresh started with, and each of `sameChain` /
      `sameSigner` accepts the captured value (an unset ref accepts). */
  predicate StillCurrent(infoRef: Option<ContractInfo>, snap: Snapshot, p: Probe): (b: bool)
    // a binding with another address, or none, makes the result stale
    ensures CurrentAddress(infoRef) != Some(snap.address) ==> !b
    // a predicate that is set and rejects the captured value makes it stale
    ensures p.sameChain.Some? && !p.sameChain.value(snap.chainId) ==> !b
    ensures p.sameSigner.Some? && !p.sameSigner.value(snap.signer) ==> !b
    // with the same address and no rejecting predicate the result is current
    ensures && CurrentAddress(infoRef) == Some(snap.address)
            && (p.sameChain.Some? ==> p.sameChain.value(snap.chainId))
            && (p.sameSigner.Some? ==> p.sameSigner.value(snap.signer))
            ==> b
  {
    && CurrentAddress(infoRef) == Some(snap.address)
    && (p.sameChain.None? || p.sameChain.value(snap.chainId))
    && (p.sameSigner.None? || p.sameSigner.value(snap.signer))
  }

  /** The synchronous part of `refresh()`, up to the point where both reads are in flight. */
  function StartRefresh(s: State, ctx: Ctx): (r: Started)
    // single flight: while a refresh is in flight nothing changes
    ensures s.refreshingRef ==> r == Started(s, None)
    // nothing to read from: both handles are cleared, the in-flight flag stays down
    ensures !s.refreshingRef && !(Present(Info(s, ctx).address) && ctx.provider) ==>
      r == Started(s.(totalHandle := None, myHandle := None), None)
    // otherwise the flag goes up and the reads are issued under a snapshot of the context
    ensures r.pending.Some? <==> !s.refreshingRef && Present(Info(s, ctx).address) && ctx.provider
    ensures r.pending.Some? ==>
      && r.pending.value == Snapshot(Info(s, ctx).address.value, ctx.chainId, ctx.signer)
      && r.state == s.(refreshingRef := true, isRefreshing := true, calls := s.calls + ReadCalls(ctx.signer.Some?))
    // the reads are the only calls it issues
    ensures r.state.calls == s.calls + (if r.pending.Some? then ReadCalls(ctx.signer.Some?) else [])
    // without a signer "mine" is never read
    ensures ctx.signer.None? ==> r.state.calls == s.calls || r.state.calls == s.calls + [GetTotal]
    ensures Consistent(s) ==> Consistent(r.state)
  {
    var info := Info(s, ctx);
    if s.refreshingRef then Started(s, None)
    else if !Present(info.address) || !ctx.provider then Started(s.(totalHandle := None, myHandle := None), None)
    else
      Started(s.(refreshingRef := true, isRefreshing := true, calls := s.calls + ReadCalls(ctx.signer.Some?)),
              Some(Snapshot(info.address.value, ctx.chainId, ctx.signer)))
  }

  /** The continuation of a refresh started under `snap`: the `.then`, `.catch`
      and `.finally` of `Promise.all`, given how the two reads settled. */
  function CompleteRefresh(s: State, snap: Snapshot, probe: Probe, tot: Outcome<Handle>, mine: Outcome<Handle>): (r: State)
    // the finally: the in-flight flag is down after every outcome
    ensures !r.refreshingRef && !r.isRefreshing
    // only the handles and the message can change besides the flag
    ensures r.(totalHandle := s.totalHandle, myHandle := s.myHandle, message := s.message,
               refreshingRef := s.refreshingRef, isRefreshing := s.isRefreshing) == s
    // both handles are committed together exactly when the reads succeeded and the context is still current
    ensures JoinReads(snap.signer.Some?, tot, mine).Ok? && StillCurrent(s.infoRef, snap, probe) ==>
      (r.totalHandle, r.myHandle) == (Some(tot.value), Some(if snap.signer.Some? then mine.value else ZeroHash))
    ensures !(JoinReads(snap.signer.Some?, tot, mine).Ok? && StillCurrent(s.infoRef, snap, probe)) ==>
      r.totalHandle == s.totalHandle && r.myHandle == s.myHandle
    // a stale result is dropped silently; a failed read is reported and nothing else
    ensures JoinReads(snap.signer.Some?, tot, mine).Ok? ==> r.message == s.message
    ensures JoinReads(snap.signer.Some?, tot, mine).Err? ==>
      r.message == ReadFailed(JoinReads(snap.signer.Some?, tot, mine).detail)
    ensures Consistent(s) ==> Consistent(r)
  {
    var joined := JoinReads(snap.signer.Some?, tot, mine);
    var settled :=
      if joined.Err? then s.(message := ReadFailed(joined.detail))
      else if StillCurrent(s.infoRef, snap, probe) then s.(totalHandle := Some(joined.value.0), myHandle := Some(joined.value.1))
      else s;
    settled.(refreshingRef := false, isRefreshing := false)
  }

  /** The effect that calls `refresh()` once a signer and a contract address exist. */
  function Effect(s: State, ctx: Ctx): (r: Started)
    ensures !(ctx.signer.Some? && Present(Info(s, ctx).address)) ==> r == Started(s, None)
    ensures r.pending.Some? ==> ctx.signer.Some? && r.state.refreshingRef && r.state.calls == s.calls + [GetTotal, GetMyTally]
    ensures ctx.signer.Some? && Present(Info(s, ctx).address) ==> r == StartRefresh(s, ctx)
  {
    if ctx.signer.Some? && Present(Info(s, ctx).address) then StartRefresh(s, ctx) else Started(s, None)
  }

  /** `readHandlesDirect()`: both handles read straight away, bypassing the
      single-flight flag; it throws when there is no address or provider.
      Returns the calls it issued and its outcome. */
  function ReadHandlesDirect(info: ContractInfo, ctx: Ctx, tot: Outcome<Handle>, mine: Outcome<Handle>): (r: (seq<Call>, Outcome<(Handle, Handle)>))
    ensures !(Present(info.address) && ctx.provider) ==> r == ([], Err(NoProviderContract))
    ensures Present(info.address) && ctx.provider ==>
      r == (ReadCalls(ctx.signer.Some?), JoinReads(ctx.signer.Some?, tot, mine))
  {
    if !Present(info.address) || !ctx.provider then ([], Err(NoProviderContract))
    else (ReadCalls(ctx.signer.Some?), JoinReads(ctx.signer.Some?, tot, mine))
  }

  /** With both refs unset only the address is compared: a missing predicate counts as "same". */
  lemma MissingProbeCountsAsSame(infoRef: Option<ContractInfo>, snap: Snapshot)
    ensures StillCurrent(infoRef, snap, Probe(None, None)) <==> CurrentAddress(infoRef) == Some(snap.address)
  {
  }
}
