/** The decryption session manager: `decrypt(which)` split at its first
    await into the synchronous guards (with the zero-handle fast path) and
    the signing / user-decryption continuation. */
module Decrypt {
  import opened Wrappers
  import opened Contracts
  import opened SyncState
  import opened Refresh

  /** A decryption that passed the guards and is waiting for a signature. */
  datatype DecryptJob = DecryptJob(which: Which, handle: Handle)

  /** How the awaited calls settle: `loadOrSign` (fulfilled with a signature
      or with nothing) and `userDecrypt` (the handle-to-cleartext mapping). */
  datatype DecryptOracle = DecryptOracle(session: Outcome<bool>, clear: Outcome<map<Handle, nat>>)

  datatype DecryptBegun = DecryptBegun(state: State, pending: Option<Snapshot>, job: Option<DecryptJob>)

  /** The guard of `decrypt`: address, fhevm instance and signer. */
  predicate Ready(s: State, ctx: Ctx) {
    Present(Info(s, ctx).address) && ctx.instance && ctx.signer.Some?
  }

  /** `explicitHandle ?? (which === "total" ? totalHandle : myHandle)`. */
  function Selected(w: Which, explicit: Option<Handle>, held: Held): (r: Option<Handle>)
    // an explicit handle wins, even for the other counter
    ensures explicit.Some? ==> r == explicit
    // otherwise the closure's handle for the counter asked for, possibly absent
    ensures explicit.None? ==> r == (if w == Total then held.total else held.mine)
  {
    if explicit.Some? then explicit else if w == Total then held.total else held.mine
  }

  /** The `await refresh()` that precedes a decryption of the total; it does
      not wait for the reads, whose completion is a later, separate event. */
  function PreRefresh(s: State, ctx: Ctx, w: Which): Started {
    if w == Total then StartRefresh(s, ctx) else Started(s, None)
  }

  /** `decrypt` up to its first await on `loadOrSign`. The handle comes from
      the closure (`held`), not from the state the refresh may just have cleared. */
  function BeginDecrypt(s: State, ctx: Ctx, w: Which, explicit: Option<Handle>, held: Held): (r: DecryptBegun)
    // missing address, instance or signer: a no-op
    ensures !Ready(s, ctx) ==> r == DecryptBegun(s, None, None)
    // only a decryption of the total starts a refresh
    ensures Ready(s, ctx) ==> r.pending == PreRefresh(s, ctx, w).pending
    ensures w == Mine ==> r.pending == None
    // no (or an empty) handle: nothing beyond that refresh
    ensures Ready(s, ctx) && !Present(Selected(w, explicit, held)) ==>
      r.state == PreRefresh(s, ctx, w).state && r.job == None
    // the zero handle: only the selected field becomes 0, no signature, no busy flag
    ensures Ready(s, ctx) && Selected(w, explicit, held) == Some(ZeroHash) ==>
      && r.job == None
      && r.state == SetDecrypted(PreRefresh(s, ctx, w).state, w, Some(0)).(message := ValueText(w, 0))
      && r.state.isWorking == PreRefresh(s, ctx, w).state.isWorking
      && r.state.workingRef == PreRefresh(s, ctx, w).state.workingRef
      && r.state.calls == PreRefresh(s, ctx, w).state.calls
    // any other handle: announce, raise the busy flag, go on to sign
    ensures Ready(s, ctx) && Present(Selected(w, explicit, held)) && Selected(w, explicit, held) != Some(ZeroHash) ==>
      && r.job == Some(DecryptJob(w, Selected(w, explicit, held).value))
      && r.state == PreRefresh(s, ctx, w).state.(message := Decrypting(w), isWorking := true, workingRef := true)
    // there is no busy-flag guard: a decryption starts whatever workingRef says
    ensures r.job.Some? <==> Ready(s, ctx) && Present(Selected(w, explicit, held)) && Selected(w, explicit, held) != Some(ZeroHash)
    ensures r.job.Some? ==> r.job.value.which == w
    // the only calls issued are the reads of the refresh
    ensures r.state.calls == (if Ready(s, ctx) then PreRefresh(s, ctx, w).state.calls else s.calls)
    ensures Consistent(s) ==> Consistent(r.state)
  {
    if !Ready(s, ctx) then DecryptBegun(s, None, None)
    else
      var pre := PreRefresh(s, ctx, w);
      var h := Selected(w, explicit, held);
      if !Present(h) then DecryptBegun(pre.state, pre.pending, None)
      else if h.value == ZeroHash then
        DecryptBegun(SetDecrypted(pre.state, w, Some(0)).(message := ValueText(w, 0)), pre.pending, None)
      else
        DecryptBegun(pre.state.(message := Decrypting(w), isWorking := true, workingRef := true),
                     pre.pending, Some(DecryptJob(w, h.value)))
  }

  /** The try / catch / finally after `loadOrSign`. */
  function FinishDecrypt(s: State, job: DecryptJob, o: DecryptOracle): (r: State)
    // the finally: the busy flag is down afterwards, whoever raised it
    ensures !r.isWorking && !r.workingRef
    // loadOrSign is always asked; userDecrypt only with a signature in hand
    ensures r.calls == s.calls + [LoadOrSign] + (if o.session == Ok(true) then [UserDecrypt(job.handle)] else [])
    // only the decrypted fields, the message and the busy flag can change
    ensures r.(decTotal := s.decTotal, decMine := s.decMine, message := s.message,
               isWorking := s.isWorking, workingRef := s.workingRef, calls := s.calls) == s
    // success: the cleartext for that handle goes into the selected field only
    ensures o.session == Ok(true) && o.clear.Ok? && job.handle in o.clear.value ==>
      && r == SetDecrypted(r.(decTotal := s.decTotal, decMine := s.decMine), job.which, Some(o.clear.value[job.handle]))
      && r.message == ValueText(job.which, o.clear.value[job.handle])
    // no signature, or a rejected call: both decrypted fields keep their values
    ensures o.session.Err? ==> r.decTotal == s.decTotal && r.decMine == s.decMine && r.message == DecryptFailed(job.which, o.session.detail)
    ensures o.session == Ok(false) ==> r.decTotal == s.decTotal && r.decMine == s.decMine && r.message == DecryptFailed(job.which, SignatureUnavailable)
    ensures o.session == Ok(true) && o.clear.Err? ==>
      r.decTotal == s.decTotal && r.decMine == s.decMine && r.message == DecryptFailed(job.which, o.clear.detail)
    // a mapping without that handle: the field is set to undefined before `.toString()` throws
    ensures o.session == Ok(true) && o.clear.Ok? && job.handle !in o.clear.value ==>
      && r == SetDecrypted(r.(decTotal := s.decTotal, decMine := s.decMine), job.which, None)
      && r.message == DecryptFailed(job.which, UndefinedToString)
    ensures Consistent(s) ==> Consistent(r)
  {
    var w := job.which;
    var asked := s.(calls := s.calls + [LoadOrSign]);
    var settled :=
      match o.session
      case Err(d) => asked.(message := DecryptFailed(w, d))
      case Ok(signed) =>
        if !signed then asked.(message := DecryptFailed(w, SignatureUnavailable))
        else
          var sent := asked.(calls := asked.calls + [UserDecrypt(job.handle)]);
          match o.clear
          case Err(d) => sent.(message := DecryptFailed(w, d))
          case Ok(res) =>
            if job.handle in res then SetDecrypted(sent, w, Some(res[job.handle])).(message := ValueText(w, res[job.handle]))
            else SetDecrypted(sent, w, None).(message := DecryptFailed(w, UndefinedToString));
    settled.(isWorking := false, workingRef := false)
  }

  /** A whole `await decrypt(which)`, as a workflow runs it. */
  function RunDecrypt(s: State, ctx: Ctx, w: Which, explicit: Option<Handle>, held: Held, o: DecryptOracle): (r: Started)
    ensures !Ready(s, ctx) ==> r == Started(s, None)
    ensures r.pending == BeginDecrypt(s, ctx, w, explicit, held).pending
    ensures BeginDecrypt(s, ctx, w, explicit, held).job.None? ==> r.state == BeginDecrypt(s, ctx, w, explicit, held).state
    // when it got past the guards, its finally clears the busy flag, even one a caller raised
    ensures BeginDecrypt(s, ctx, w, explicit, held).job.Some? ==>
      r.state == FinishDecrypt(BeginDecrypt(s, ctx, w, explicit, held).state, BeginDecrypt(s, ctx, w, explicit, held).job.value, o)
      && !r.state.workingRef
    ensures BeginDecrypt(s, ctx, w, explicit, held).job.None? ==> r.state.workingRef == s.workingRef
    ensures Consistent(s) ==> Consistent(r.state)
  {
    var b := BeginDecrypt(s, ctx, w, explicit, held);
    if b.job.None? then Started(b.state, b.pending)
    else Started(FinishDecrypt(b.state, b.job.value, o), b.pending)
  }
}
