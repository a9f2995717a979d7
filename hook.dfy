/** The hook instance itself: the `useState` values and refs as fields,
    every setter a field write, every callback a method. Each method makes
    its writes in the order the source makes them and is proved to land in
    the state its step function describes. */
module Hook {
  import opened Wrappers
  import opened Contracts
  import opened SyncState
  import opened Refresh
  import opened Decrypt
  import opened Actions

  class ReactionHook {
    const registry: Registry
    var infoRef: Option<ContractInfo>
    var totalHandle: Option<Handle>
    var myHandle: Option<Handle>
    var decTotal: Option<nat>
    var decMine: Option<nat>
    var isRefreshing: bool
    var isWorking: bool
    var message: string
    var refreshingRef: bool
    var workingRef: bool
    /** The external calls issued so far. */
    ghost var calls: seq<Call>

    /** The fields as a value. */
    ghost function Model(): State
      reads this
    {
      State(registry, infoRef, totalHandle, myHandle, decTotal, decMine,
            isRefreshing, isWorking, message, refreshingRef, workingRef, calls)
    }

    ghost predicate Valid()
      reads this
    {
      Consistent(Model())
    }

    /** The first render of the hook on chain `chainId`. */
    constructor (registry: Registry, chainId: Option<int>)
      ensures Valid() && Model() == Initial(registry, chainId)
    {
      this.registry := registry;
      infoRef := Some(ByChain(registry, chainId));
      totalHandle, myHandle := None, None;
      decTotal, decMine := None, None;
      isRefreshing, isWorking := false, false;
      message := "";
      refreshingRef, workingRef := false, false;
      calls := [];
    }

    /** A render on a (possibly new) chain: the `info` memo writes `infoRef`. */
    method Render(chainId: Option<int>)
      requires Valid()
      modifies this
      ensures Valid() && Model() == SyncState.Render(old(Model()), chainId)
    {
      infoRef := Some(ByChain(registry, chainId));
    }

    /** `refresh()` up to the point where both reads are in flight. */
    method StartRefresh(ctx: Ctx) returns (pending: Option<Snapshot>)
      requires Valid()
      modifies this
      ensures Valid() && Started(Model(), pending) == Refresh.StartRefresh(old(Model()), ctx)
    {
      pending := None;
      if refreshingRef {
        return;
      }
      var info := ByChain(registry, ctx.chainId);
      if !Present(info.address) || !ctx.provider {
        totalHandle := None;
        myHandle := None;
        return;
      }
      refreshingRef := true;
      isRefreshing := true;
      calls := calls + [GetTotal];
      if ctx.signer.Some? {
        calls := calls + [GetMyTally];
      }
      pending := Some(Snapshot(info.address.value, ctx.chainId, ctx.signer));
    }

    /** The `.then` / `.catch` / `.finally` of the refresh started under `snap`. */
    method CompleteRefresh(snap: Snapshot, probe: Probe, tot: Outcome<Handle>, mine: Outcome<Handle>)
      requires Valid()
      modifies this
      ensures Valid() && Model() == Refresh.CompleteRefresh(old(Model()), snap, probe, tot, mine)
    {
      var joined := JoinReads(snap.signer.Some?, tot, mine);
      match joined {
        case Ok(pair) =>
          var stillSameChain := if probe.sameChain.Some? then probe.sameChain.value(snap.chainId) else true;
          var stillSameSigner := if probe.sameSigner.Some? then probe.sameSigner.value(snap.signer) else true;
          if CurrentAddress(infoRef) == Some(snap.address) && stillSameChain && stillSameSigner {
            totalHandle := Some(pair.0);
            myHandle := Some(pair.1);
          }
        case Err(detail) =>
          message := ReadFailed(detail);
      }
      refreshingRef := false;
      isRefreshing := false;
    }

    /** The effect that refreshes once a signer and an address exist. */
    method Effect(ctx: Ctx) returns (pending: Option<Snapshot>)
      requires Valid()
      modifies this
      ensures Valid() && Started(Model(), pending) == Refresh.Effect(old(Model()), ctx)
    {
      pending := None;
      if ctx.signer.Some? && Present(ByChain(registry, ctx.chainId).address) {
        pending := StartRefresh(ctx);
      }
    }

    /** `decrypt(which, explicitHandle)` as the buttons call it, up to its first await. */
    method BeginDecrypt(ctx: Ctx, which: Which, explicit: Option<Handle>) returns (pending: Option<Snapshot>, job: Option<DecryptJob>)
      requires Valid()
      modifies this
      ensures Valid()
      ensures DecryptBegun(Model(), pending, job) ==
              Decrypt.BeginDecrypt(old(Model()), ctx, which, explicit, Held(old(totalHandle), old(myHandle)))
    {
      pending, job := DecryptFrom(ctx, which, explicit, Held(totalHandle, myHandle));
    }

    /** The guards of `decrypt` for a closure holding `held`. */
    method DecryptFrom(ctx: Ctx, which: Which, explicit: Option<Handle>, held: Held) returns (pending: Option<Snapshot>, job: Option<DecryptJob>)
      requires Valid()
      modifies this
      ensures Valid() && DecryptBegun(Model(), pending, job) == Decrypt.BeginDecrypt(old(Model()), ctx, which, explicit, held)
    {
      pending, job := None, None;
      var info := ByChain(registry, ctx.chainId);
      if !Present(info.address) || !ctx.instance || ctx.signer.None? {
        return;
      }
      if which == Total {
        pending := StartRefresh(ctx);
      }
      var handle := Selected(which, explicit, held);
      if !Present(handle) {
        return;
      }
      if handle.value == ZeroHash {
        if which == Total {
          decTotal := Some(0);
        } else {
          decMine := Some(0);
        }
        message := ValueText(which, 0);
        return;
      }
      message := Decrypting(which);
      isWorking := true;
      workingRef := true;
      job := Some(DecryptJob(which, handle.value));
    }

    /** The try / catch / finally of `decrypt` after `loadOrSign`. */
    method FinishDecrypt(job: DecryptJob, o: DecryptOracle)
      requires Valid()
      modifies this
      ensures Valid() && Model() == Decrypt.FinishDecrypt(old(Model()), job, o)
    {
      var w := job.which;
      calls := calls + [LoadOrSign];
      match o.session {
        case Err(detail) =>
          message := DecryptFailed(w, detail);
        case Ok(signed) =>
          if !signed {
            message := DecryptFailed(w, SignatureUnavailable);
          } else {
            calls := calls + [UserDecrypt(job.handle)];
            match o.clear {
              case Err(detail) =>
                message := DecryptFailed(w, detail);
              case Ok(res) =>
                var clear := if job.handle in res then Some(res[job.handle]) else None;
                if w == Total {
                  decTotal := clear;
                } else {
                  decMine := clear;
                }
                if clear.Some? {
                  message := ValueText(w, clear.value);
                } else {
                  message := DecryptFailed(w, UndefinedToString);
                }
            }
          }
      }
      isWorking := false;
      workingRef := false;
    }

    /** `await decrypt(which)` from inside a workflow, for a closure holding `held`. */
    method RunDecrypt(ctx: Ctx, which: Which, held: Held, o: DecryptOracle) returns (pending: Option<Snapshot>)
      requires Valid()
      modifies this
      ensures Valid() && Started(Model(), pending) == Decrypt.RunDecrypt(old(Model()), ctx, which, None, held, o)
    {
      var job;
      pending, job := DecryptFrom(ctx, which, None, held);
      if job.Some? {
        FinishDecrypt(job.value, o);
      }
    }

    /** `react(amount)` up to its first await. */
    method BeginReact(ctx: Ctx, amount: int) returns (job: Option<ReactJob>)
      requires Valid()
      modifies this
      ensures Valid() && ReactBegun(Model(), job) == Actions.BeginReact(old(Model()), ctx, amount)
    {
      job := None;
      if workingRef {
        return;
      }
      if !Present(ByChain(registry, ctx.chainId).address) || !ctx.instance || ctx.signer.None? || amount <= 0 {
        return;
      }
      message := Reacting(amount);
      isWorking := true;
      workingRef := true;
      job := Some(ReactJob(ctx, amount, Held(totalHandle, myHandle)));
    }

    /** The rest of `react`: encrypt, send, confirm, re-read, refresh, decrypt "mine". */
    method FinishReact(job: ReactJob, o: ReactOracle) returns (pending: Option<Snapshot>)
      requires Valid()
      modifies this
      ensures Valid() && Started(Model(), pending) == Actions.FinishReact(old(Model()), job, o)
    {
      pending := None;
      if o.user.Ok? && o.encrypted.Ok? {
        calls := calls + [SubmitReact(job.amount)];
        if o.sent.Ok? && o.mined.Ok? {
          message := Reacted(job.amount);
          var direct := ReadHandlesDirect(ByChain(registry, job.ctx.chainId), job.ctx, o.total, o.mine);
          calls := calls + direct.0;
          if direct.1.Ok? {
            myHandle := Some(direct.1.value.1);
            pending := StartRefresh(job.ctx);
            var decryptPending := RunDecrypt(job.ctx, Mine, job.held, o.decrypt);
          } else {
            message := ReactFailed;
          }
        } else {
          message := ReactFailed;
        }
      } else {
        message := ReactFailed;
      }
      isWorking := false;
      workingRef := false;
    }

    /** `requestTotalAccess()` up to its first await. */
    method BeginRequestAccess(ctx: Ctx) returns (job: Option<AccessJob>)
      requires Valid()
      modifies this
      ensures Valid() && AccessBegun(Model(), job) == Actions.BeginRequestAccess(old(Model()), ctx)
    {
      job := None;
      if !Present(ByChain(registry, ctx.chainId).address) || ctx.signer.None? {
        return;
      }
      message := Requesting;
      isWorking := true;
      workingRef := true;
      job := Some(AccessJob(ctx, Held(totalHandle, myHandle)));
    }

    /** The rest of `requestTotalAccess`: send, confirm, refresh, decrypt the total. */
    method FinishRequestAccess(job: AccessJob, o: AccessOracle) returns (pending: Option<Snapshot>)
      requires Valid()
      modifies this
      ensures Valid() && Started(Model(), pending) == Actions.FinishRequestAccess(old(Model()), job, o)
    {
      pending := None;
      calls := calls + [SubmitAccess];
      if o.sent.Err? {
        message := RequestFailed(o.sent.detail);
      } else if o.mined.Err? {
        message := RequestFailed(o.mined.detail);
      } else {
        message := AccessGranted;
        pending := StartRefresh(job.ctx);
        var again := RunDecrypt(job.ctx, Total, job.held, o.decrypt);
        if pending.None? {
          pending := again;
        }
      }
      isWorking := false;
      workingRef := false;
    }
  }
}
