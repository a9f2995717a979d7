/** The action coordinator: the two state-changing workflows `react(amount)`
    and `requestTotalAccess()`, each split at its first await into the
    guarded start and the continuation that runs encrypt / submit / confirm,
    re-read, refresh and the follow-up decryption. */
module Actions {
  import opened Wrappers
  import opened Contracts
  import opened SyncState
  import opened Refresh
  import opened Decrypt

  /** A `react` past its guards: the closure's context, the amount, and the
      handles the closure's `decrypt` holds. */
  datatype ReactJob = ReactJob(ctx: Ctx, amount: nat, held: Held)

  /** How the awaited steps of `react` settle, in order: `getAddress`,
      `encrypt`, sending `contract.react`, `tx.wait`, the two direct reads
      and the nested decryption of "mine". */
  datatype ReactOracle = ReactOracle(
    user: Outcome<Address>, encrypted: Outcome<()>, sent: Outcome<()>, mined: Outcome<()>,
    total: Outcome<Handle>, mine: Outcome<Handle>, decrypt: DecryptOracle)

  datatype ReactBegun = ReactBegun(state: State, job: Option<ReactJob>)

  /** A `requestTotalAccess` past its guard. */
  datatype AccessJob = AccessJob(ctx: Ctx, held: Held)

  /** Sending `contract.requestTotalAccess`, `tx.wait`, and the nested decryption of the total. */
  datatype AccessOracle = AccessOracle(sent: Outcome<()>, mined: Outcome<()>, decrypt: DecryptOracle)

  datatype AccessBegun = AccessBegun(state: State, job: Option<AccessJob>)

  /** The shared finally of both workflows. */
  function Settle(s: State): (r: State)
    ensures !r.isWorking && !r.workingRef
    ensures r.(isWorking := s.isWorking, workingRef := s.workingRef) == s
  {
    s.(isWorking := false, workingRef := false)
  }

  /** The guard of `react` apart from the busy flag. */
  predicate CanReact(s: State, ctx: Ctx, amount: int) {
    Present(Info(s, ctx).address) && ctx.instance && ctx.signer.Some? && amount > 0
  }

  /** `react(amount)` up to its first await. */
  function BeginReact(s: State, ctx: Ctx, amount: int): (r: ReactBegun)
    // single flight: nothing happens while workingRef is set
    ensures s.workingRef ==> r == ReactBegun(s, None)
    // nothing happens without address, instance or signer, or for amount <= 0
    ensures !CanReact(s, ctx, amount) ==> r == ReactBegun(s, None)
    ensures r.job.Some? <==> !s.workingRef && CanReact(s, ctx, amount)
    // otherwise: announce, raise the busy flag, remember the closure
    ensures r.job.Some? ==>
      && r.job.value == ReactJob(ctx, amount, Held(s.totalHandle, s.myHandle))
      && r.state == s.(message := Reacting(amount), isWorking := true, workingRef := true)
    ensures Consistent(s) ==> Consistent(r.state)
  {
    if s.workingRef || !CanReact(s, ctx, amount) then ReactBegun(s, None)
    else ReactBegun(s.(message := Reacting(amount), isWorking := true, workingRef := true),
                    Some(ReactJob(ctx, amount, Held(s.totalHandle, s.myHandle))))
  }

  /** The transaction was encrypted, sent and mined. */
  predicate Confirmed(o: ReactOracle) {
    o.user.Ok? && o.encrypted.Ok? && o.sent.Ok? && o.mined.Ok?
  }

  /** Everything up to the direct re-read succeeded: the point from which nothing can throw. */
  predicate ReactSucceeded(s: State, job: ReactJob, o: ReactOracle) {
    Confirmed(o) && ReadHandlesDirect(Info(s, job.ctx), job.ctx, o.total, o.mine).1.Ok?
  }

  /** The state after a successful confirmation and re-read, before the
      refresh and the decryption: "Reacted", the reads logged, "mine" updated. */
  function AfterReread(s: State, job: ReactJob, o: ReactOracle): (r: State)
    requires ReactSucceeded(s, job, o)
    ensures r.myHandle == Some(ReadHandlesDirect(Info(s, job.ctx), job.ctx, o.total, o.mine).1.value.1)
    ensures r.message == Reacted(job.amount)
    ensures r.calls == s.calls + [SubmitReact(job.amount)] + ReadCalls(job.ctx.signer.Some?)
    ensures r.(myHandle := s.myHandle, message := s.message, calls := s.calls) == s
  {
    var direct := ReadHandlesDirect(Info(s, job.ctx), job.ctx, o.total, o.mine);
    s.(calls := s.calls + [SubmitReact(job.amount)] + direct.0, message := Reacted(job.amount), myHandle := Some(direct.1.value.1))
  }

  /** The try / catch / finally of `react` after its first await. */
  function FinishReact(s: State, job: ReactJob, o: ReactOracle): (r: Started)
    // the finally: the busy flag is down afterwards
    ensures !r.state.isWorking && !r.state.workingRef
    // failing before the transaction is sent: only "React failed"
    ensures !(o.user.Ok? && o.encrypted.Ok?) ==>
      r == Started(Settle(s.(message := ReactFailed)), None)
    // sent but not confirmed, or confirmed but not re-read: the attempt (and the
    // reads, if issued) are logged, the message is "React failed", the view is kept
    ensures o.user.Ok? && o.encrypted.Ok? && !ReactSucceeded(s, job, o) ==>
      r == Started(Settle(s.(message := ReactFailed,
                             calls := s.calls + [SubmitReact(job.amount)]
                                      + (if Confirmed(o) then ReadHandlesDirect(Info(s, job.ctx), job.ctx, o.total, o.mine).0 else []))),
                   None)
    // success: refresh (unless one is in flight), then decrypt "mine" from the
    // handle the closure held, then the finally
    ensures ReactSucceeded(s, job, o) ==>
      r == Started(Settle(RunDecrypt(StartRefresh(AfterReread(s, job, o), job.ctx).state, job.ctx, Mine, None, job.held, o.decrypt).state),
                   StartRefresh(AfterReread(s, job, o), job.ctx).pending)
    ensures Consistent(s) ==> Consistent(r.state)
  {
    if !(o.user.Ok? && o.encrypted.Ok?) then Started(Settle(s.(message := ReactFailed)), None)
    else
      var submitted := s.(calls := s.calls + [SubmitReact(job.amount)]);
      if !(o.sent.Ok? && o.mined.Ok?) then Started(Settle(submitted.(message := ReactFailed)), None)
      else
        var direct := ReadHandlesDirect(Info(s, job.ctx), job.ctx, o.total, o.mine);
        var read := submitted.(message := Reacted(job.amount), calls := submitted.calls + direct.0);
        if direct.1.Err? then Started(Settle(read.(message := ReactFailed)), None)
        else
          var updated := read.(myHandle := Some(direct.1.value.1));
          assert updated == AfterReread(s, job, o);
          var refreshed := StartRefresh(updated, job.ctx);
          var decrypted := RunDecrypt(refreshed.state, job.ctx, Mine, None, job.held, o.decrypt);
          Started(Settle(decrypted.state), refreshed.pending)
  }

  /** `requestTotalAccess()` up to its first await. It has no busy-flag guard. */
  function BeginRequestAccess(s: State, ctx: Ctx): (r: AccessBegun)
    ensures !(Present(Info(s, ctx).address) && ctx.signer.Some?) ==> r == AccessBegun(s, None)
    // it starts whenever address and signer exist, even with workingRef set
    ensures r.job.Some? <==> Present(Info(s, ctx).address) && ctx.signer.Some?
    ensures r.job.Some? ==>
      && r.job.value == AccessJob(ctx, Held(s.totalHandle, s.myHandle))
      && r.state == s.(message := Requesting, isWorking := true, workingRef := true)
    ensures Consistent(s) ==> Consistent(r.state)
  {
    if !Present(Info(s, ctx).address) || ctx.signer.None? then AccessBegun(s, None)
    else AccessBegun(s.(message := Requesting, isWorking := true, workingRef := true),
                     Some(AccessJob(ctx, Held(s.totalHandle, s.myHandle))))
  }

  /** The state after the access grant was confirmed, before refresh and decryption. */
  function AfterGrant(s: State): (r: State)
    ensures r.calls == s.calls + [SubmitAccess]
    ensures r.message == AccessGranted
    // the view (handles, decrypted values, flags) is left as it was
    ensures r.(calls := s.calls, message := s.message) == s
  {
    s.(calls := s.calls + [SubmitAccess], message := AccessGranted)
  }

  /** The try / catch / finally of `requestTotalAccess` after its first await. */
  function FinishRequestAccess(s: State, job: AccessJob, o: AccessOracle): (r: Started)
    ensures !r.state.isWorking && !r.state.workingRef
    // a failed send or confirmation is reported with its detail; the view is kept
    ensures o.sent.Err? ==>
      r == Started(Settle(s.(calls := s.calls + [SubmitAccess], message := RequestFailed(o.sent.detail))), None)
    ensures o.sent.Ok? && o.mined.Err? ==>
      r == Started(Settle(s.(calls := s.calls + [SubmitAccess], message := RequestFailed(o.mined.detail))), None)
    // confirmed: refresh, then decrypt the total (which asks for a refresh once
    // more) from the handle the closure held, then the finally
    ensures o.sent.Ok? && o.mined.Ok? ==>
      r.state == Settle(RunDecrypt(StartRefresh(AfterGrant(s), job.ctx).state, job.ctx, Total, None, job.held, o.decrypt).state)
    ensures Consistent(s) ==> Consistent(r.state)
  {
    var submitted := s.(calls := s.calls + [SubmitAccess]);
    if o.sent.Err? then Started(Settle(submitted.(message := RequestFailed(o.sent.detail))), None)
    else if o.mined.Err? then Started(Settle(submitted.(message := RequestFailed(o.mined.detail))), None)
    else
      var granted := submitted.(message := AccessGranted);
      var refreshed := StartRefresh(granted, job.ctx);
      var decrypted := RunDecrypt(refreshed.state, job.ctx, Total, None, job.held, o.decrypt);
      Started(Settle(decrypted.state), if refreshed.pending.Some? then refreshed.pending else decrypted.pending)
  }
}
