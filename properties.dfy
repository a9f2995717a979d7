/** Properties that relate several steps of the hook: the staleness guard
    across a chain switch, idempotent refresh, single flight of `react`,
    the zero-handle fast path, and what the stale closures of the two
    workflows do. */
module Properties {
  import opened Wrappers
  import opened Contracts
  import opened SyncState
  import opened Refresh
  import opened Decrypt
  import opened Actions

  /** How many `contract.react` transactions a log holds. */
  function Submissions(calls: seq<Call>): nat
    decreases |calls|
  {
    if calls == [] then 0
    else Submissions(calls[..|calls| - 1]) + (if calls[|calls| - 1].SubmitReact? then 1 else 0)
  }

  lemma {:induction false} SubmissionsAppend(a: seq<Call>, b: seq<Call>)
    ensures Submissions(a + b) == Submissions(a) + Submissions(b)
    decreases |b|
  {
    if b == [] {
      assert a + b == a;
    } else {
      assert (a + b)[..|a + b| - 1] == a + b[..|b| - 1];
      assert (a + b)[|a + b| - 1] == b[|b| - 1];
      SubmissionsAppend(a, b[..|b| - 1]);
    }
  }

  /** A log without `contract.react` calls counts none. */
  lemma {:induction false} NoSubmissions(t: seq<Call>)
    requires forall i :: 0 <= i < |t| ==> !t[i].SubmitReact?
    ensures Submissions(t) == 0
    decreases |t|
  {
    if t != [] {
      NoSubmissions(t[..|t| - 1]);
    }
  }

  lemma StartRefreshSubmitsNothing(s: State, ctx: Ctx)
    ensures Submissions(StartRefresh(s, ctx).state.calls) == Submissions(s.calls)
  {
    var issued := if StartRefresh(s, ctx).pending.Some? then ReadCalls(ctx.signer.Some?) else [];
    NoSubmissions(issued);
    SubmissionsAppend(s.calls, issued);
  }

  lemma FinishDecryptSubmitsNothing(s: State, job: DecryptJob, o: DecryptOracle)
    ensures Submissions(FinishDecrypt(s, job, o).calls) == Submissions(s.calls)
  {
    var issued := [LoadOrSign] + (if o.session == Ok(true) then [UserDecrypt(job.handle)] else []);
    NoSubmissions(issued);
    SubmissionsAppend(s.calls, issued);
  }

  /** A refresh or a decryption never submits a reaction. */
  lemma RunDecryptSubmitsNothing(s: State, ctx: Ctx, w: Which, held: Held, o: DecryptOracle)
    ensures Submissions(RunDecrypt(s, ctx, w, None, held, o).state.calls) == Submissions(s.calls)
  {
    var b := BeginDecrypt(s, ctx, w, None, held);
    if Ready(s, ctx) && w == Total {
      StartRefreshSubmitsNothing(s, ctx);
    }
    if b.job.Some? {
      FinishDecryptSubmitsNothing(b.state, b.job.value, o);
    }
  }

  /** One `react` continuation submits exactly one transaction once encryption
      succeeded, and none otherwise. */
  lemma FinishReactSubmitsOnce(s: State, job: ReactJob, o: ReactOracle)
    ensures Submissions(FinishReact(s, job, o).state.calls) ==
            Submissions(s.calls) + (if o.user.Ok? && o.encrypted.Ok? then 1 else 0)
  {
    if o.user.Ok? && o.encrypted.Ok? {
      var submitted := s.calls + [SubmitReact(job.amount)];
      SubmissionsAppend(s.calls, [SubmitReact(job.amount)]);
      var direct := ReadHandlesDirect(Info(s, job.ctx), job.ctx, o.total, o.mine);
      if Confirmed(o) {
        SubmissionsAppend(submitted, direct.0);
        assert Submissions(direct.0) == 0 by {
          if direct.0 != [] {
            SubmissionsAppend(s.calls, direct.0);
            StartRefreshSubmitsNothing(s.(refreshingRef := false), job.ctx);
          }
        }
        assert s.calls + [SubmitReact(job.amount)] + direct.0 == submitted + direct.0;
      }
      if ReactSucceeded(s, job, o) {
        var after := AfterReread(s, job, o);
        StartRefreshSubmitsNothing(after, job.ctx);
        RunDecryptSubmitsNothing(StartRefresh(after, job.ctx).state, job.ctx, Mine, job.held, o.decrypt);
      }
    }
  }

  /** Single flight of `react`: while the first one is running, a second one
      is a no-op, so both together send one transaction. */
  lemma ReactSingleFlight(s: State, ctx: Ctx, amount: int, ctx2: Ctx, amount2: int, o: ReactOracle)
    requires BeginReact(s, ctx, amount).job.Some?
    requires o.user.Ok? && o.encrypted.Ok?
    ensures var first := BeginReact(s, ctx, amount);
      && BeginReact(first.state, ctx2, amount2) == ReactBegun(first.state, None)
      && Submissions(FinishReact(first.state, first.job.value, o).state.calls) == Submissions(s.calls) + 1
  {
    var first := BeginReact(s, ctx, amount);
    FinishReactSubmitsOnce(first.state, first.job.value, o);
  }

  /** Decryption has no busy guard of its own and its finally clears the
      shared flag: a decryption that finishes while a `react` is in flight
      lets a second `react` start. */
  lemma DecryptReopensReact(s: State, ctx: Ctx, amount: int, ctx2: Ctx, w: Which, o: DecryptOracle)
    requires BeginReact(s, ctx, amount).job.Some?
    requires Ready(s, ctx2)
    requires Present(Selected(w, None, Held(s.totalHandle, s.myHandle))) && Selected(w, None, Held(s.totalHandle, s.myHandle)) != Some(ZeroHash)
    ensures var inFlight := BeginReact(s, ctx, amount).state;
      var dec := BeginDecrypt(inFlight, ctx2, w, None, Held(s.totalHandle, s.myHandle));
      && dec.job.Some?
      && BeginReact(FinishDecrypt(dec.state, dec.job.value, o), ctx, amount).job.Some?
  {
  }

  /** The zero handle is decrypted to 0 without asking for a signature and
      without touching the busy flag. */
  lemma ZeroHandleShortCircuit(s: State, ctx: Ctx, w: Which)
    requires Ready(s, ctx)
    requires Selected(w, None, Held(s.totalHandle, s.myHandle)) == Some(ZeroHash)
    ensures var b := BeginDecrypt(s, ctx, w, None, Held(s.totalHandle, s.myHandle));
      && b.job.None?
      && (if w == Total then b.state.decTotal else b.state.decMine) == Some(0)
      && (if w == Total then b.state.decMine == s.decMine else b.state.decTotal == s.decTotal)
      && b.state.message == Name(w) + " = 0"
      && |s.calls| <= |b.state.calls| && LoadOrSign !in b.state.calls[|s.calls|..]
      && b.state.workingRef == s.workingRef && b.state.isWorking == s.isWorking
  {
    ZeroText(w);
    var pre := PreRefresh(s, ctx, w);
    if w == Total && pre.pending.Some? {
      assert pre.state.calls[|s.calls|..] == ReadCalls(ctx.signer.Some?);
    } else {
      assert pre.state.calls[|s.calls|..] == [];
    }
  }

  /** The staleness guard: a refresh started on one chain and completed after
      a render on a chain where the contract has another address (or none)
      leaves the handles and the message as they were before the refresh. */
  lemma StaleRefreshDiscarded(s: State, ctx: Ctx, chainB: Option<int>, probe: Probe, tot: Handle, mine: Handle)
    requires Consistent(s)
    requires StartRefresh(s, ctx).pending.Some?
    requires ByChain(s.registry, chainB).address != Some(Info(s, ctx).address.value)
    ensures var st := StartRefresh(s, ctx);
      var r := CompleteRefresh(Render(st.state, chainB), st.pending.value, probe, Ok(tot), Ok(mine));
      && r.totalHandle == s.totalHandle && r.myHandle == s.myHandle
      && r.message == s.message && r.decTotal == s.decTotal && r.decMine == s.decMine
      && r.refreshingRef == s.refreshingRef && r.isRefreshing == s.isRefreshing
  {
    var st := StartRefresh(s, ctx);
    var rendered := Render(st.state, chainB);
    assert CurrentAddress(rendered.infoRef) == ByChain(s.registry, chainB).address;
    assert !StillCurrent(rendered.infoRef, st.pending.value, probe);
    assert rendered.totalHandle == s.totalHandle && rendered.myHandle == s.myHandle && rendered.message == s.message;
    assert rendered.decTotal == s.decTotal && rendered.decMine == s.decMine;
    var r := CompleteRefresh(rendered, st.pending.value, probe, Ok(tot), Ok(mine));
  }

  /** The staleness guard for a signer switch: a `sameSigner` that rejects the
      captured signer drops the result whatever the reads returned. */
  lemma SignerSwitchDiscarded(s: State, snap: Snapshot, probe: Probe, tot: Outcome<Handle>, mine: Outcome<Handle>)
    requires probe.sameSigner.Some? && !probe.sameSigner.value(snap.signer)
    ensures CompleteRefresh(s, snap, probe, tot, mine).totalHandle == s.totalHandle
    ensures CompleteRefresh(s, snap, probe, tot, mine).myHandle == s.myHandle
  {
  }

  /** One full refresh under an unchanged context that reads `tot` / `mine`. */
  function RefreshCycle(s: State, ctx: Ctx, probe: Probe, tot: Handle, mine: Handle): State
    requires StartRefresh(s, ctx).pending.Some?
  {
    var st := StartRefresh(s, ctx);
    CompleteRefresh(st.state, st.pending.value, probe, Ok(tot), Ok(mine))
  }

  /** Refreshing twice with nothing written in between gives the same handles,
      and the second refresh can start because the first cleared its flag. */
  lemma RefreshIdempotent(s: State, ctx: Ctx, probe: Probe, tot: Handle, mine: Handle)
    requires StartRefresh(s, ctx).pending.Some?
    requires s.infoRef == Some(Info(s, ctx))
    requires probe.sameChain.None? || probe.sameChain.value(ctx.chainId)
    requires probe.sameSigner.None? || probe.sameSigner.value(ctx.signer)
    ensures StartRefresh(RefreshCycle(s, ctx, probe, tot, mine), ctx).pending.Some?
    ensures var once := RefreshCycle(s, ctx, probe, tot, mine);
      var twice := RefreshCycle(once, ctx, probe, tot, mine);
      && once.totalHandle == Some(tot)
      && once.myHandle == Some(if ctx.signer.Some? then mine else ZeroHash)
      && twice.totalHandle == once.totalHandle && twice.myHandle == once.myHandle
      && twice.message == once.message
  {
  }

  /** Without a signer the committed "mine" is the zero handle, whatever a
      tally read would have returned. */
  lemma NoSignerMineIsZero(s: State, ctx: Ctx, probe: Probe, tot: Handle, mine: Outcome<Handle>)
    requires ctx.signer.None?
    requires StartRefresh(s, ctx).pending.Some?
    requires StillCurrent(StartRefresh(s, ctx).state.infoRef, StartRefresh(s, ctx).pending.value, probe)
    ensures var st := StartRefresh(s, ctx);
      && GetMyTally !in st.state.calls[|s.calls|..]
      && CompleteRefresh(st.state, st.pending.value, probe, Ok(tot), mine).myHandle == Some(ZeroHash)
  {
    var st := StartRefresh(s, ctx);
    assert st.state.calls[|s.calls|..] == [GetTotal];
  }

  /** `react` decrypts the "mine" handle its closure held, not the one it has
      just re-read: with a zero handle before the first reaction, the
      follow-up reports 0 although "mine" now holds the new handle. */
  lemma ReactDecryptsHeldHandle(s: State, job: ReactJob, o: ReactOracle)
    requires ReactSucceeded(s, job, o)
    requires job.held.mine == Some(ZeroHash)
    requires Ready(s, job.ctx)
    ensures var r := FinishReact(s, job, o).state;
      && r.decMine == Some(0)
      && r.message == Name(Mine) + " = 0"
      && r.myHandle == AfterReread(s, job, o).myHandle
      && r.decTotal == s.decTotal && r.totalHandle == s.totalHandle
  {
    ZeroText(Mine);
  }

  /** No decryption outcome reads "React failed". */
  lemma FinishDecryptNotReactFailed(s: State, job: DecryptJob, o: DecryptOracle)
    ensures FinishDecrypt(s, job, o).message != ReactFailed
  {
    var m := FinishDecrypt(s, job, o).message;
    assert ReactFailed[0] == 'R';
    if o.session == Ok(true) && o.clear.Ok? && job.handle in o.clear.value {
      assert m == ValueText(job.which, o.clear.value[job.handle]);
      assert m[0] == Name(job.which)[0];
    } else {
      assert m[0] == 'D';
    }
  }

  /** Starting a decryption of "mine" after "Reacted" never reads "React failed". */
  lemma BeginDecryptMineNotReactFailed(s: State, ctx: Ctx, held: Held, amount: nat)
    requires s.message == Reacted(amount)
    ensures BeginDecrypt(s, ctx, Mine, None, held).state.message != ReactFailed
  {
    var m := BeginDecrypt(s, ctx, Mine, None, held).state.message;
    assert ReactFailed[0] == 'R' && ReactFailed[5] == ' ';
    if m == s.message {
      assert m[5] == 'e';
    } else {
      assert m[0] == 'm' || m[0] == 'D';
    }
  }

  /** Any failure in `react` before the decryption sets exactly "React
      failed"; on the success path the message is never that text. */
  lemma ReactFailedIffFailure(s: State, job: ReactJob, o: ReactOracle)
    ensures FinishReact(s, job, o).state.message == ReactFailed <==> !ReactSucceeded(s, job, o)
  {
    if ReactSucceeded(s, job, o) {
      var mid := StartRefresh(AfterReread(s, job, o), job.ctx).state;
      assert mid.message == Reacted(job.amount);
      var b := BeginDecrypt(mid, job.ctx, Mine, None, job.held);
      BeginDecryptMineNotReactFailed(mid, job.ctx, job.held, job.amount);
      if b.job.Some? {
        FinishDecryptNotReactFailed(b.state, b.job.value, o.decrypt);
      }
    }
  }

  /** `requestTotalAccess` starts at most one refresh: the one `decrypt("total")`
      asks for is always refused or impossible after the first. */
  lemma AccessStartsOneRefresh(s: State, job: AccessJob, o: AccessOracle)
    requires o.sent.Ok? && o.mined.Ok?
    ensures FinishRequestAccess(s, job, o).pending == StartRefresh(AfterGrant(s), job.ctx).pending
  {
    var st := StartRefresh(AfterGrant(s), job.ctx);
    var d := RunDecrypt(st.state, job.ctx, Total, None, job.held, o.decrypt);
    assert st.pending.None? ==> d.pending.None? by {
      if st.pending.None? && Ready(st.state, job.ctx) {
        assert PreRefresh(st.state, job.ctx, Total) == StartRefresh(st.state, job.ctx);
      }
    }
  }

  /** `requestTotalAccess` does not ask for an fhevm instance; without one the
      grant goes through and the follow-up decryption silently does nothing. */
  lemma AccessWithoutInstance(s: State, ctx: Ctx, o: AccessOracle)
    requires BeginRequestAccess(s, ctx).job.Some?
    requires !ctx.instance
    requires o.sent.Ok? && o.mined.Ok?
    ensures var b := BeginRequestAccess(s, ctx);
      var r := FinishRequestAccess(b.state, b.job.value, o).state;
      && r.message == AccessGranted && r.decTotal == s.decTotal && r.decMine == s.decMine
      && LoadOrSign !in r.calls[|s.calls|..]
  {
    var b := BeginRequestAccess(s, ctx);
    var st := StartRefresh(AfterGrant(b.state), ctx);
    var r := FinishRequestAccess(b.state, b.job.value, o).state;
    assert r.calls == st.state.calls;
    if st.pending.Some? {
      assert r.calls[|s.calls|..] == [SubmitAccess] + ReadCalls(ctx.signer.Some?);
    } else {
      assert r.calls[|s.calls|..] == [SubmitAccess];
    }
  }

  /** `requestTotalAccess` has no busy guard: it starts while `react` runs. */
  lemma AccessIgnoresBusyFlag(s: State, ctx: Ctx, amount: int, ctx2: Ctx)
    requires BeginReact(s, ctx, amount).job.Some?
    requires ctx2.signer.Some? && Present(Info(s, ctx2).address)
    ensures BeginRequestAccess(BeginReact(s, ctx, amount).state, ctx2).job.Some?
  {
  }
}
