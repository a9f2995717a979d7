# Secret reactions: the client-side handle and decryption state machine

This project models `useSecretReactions`, the React hook that keeps one
client's view of two encrypted counters on the SecretReactions contract for a
single (post, reaction) key: the aggregate total and the caller's own tally.
The hook holds their ciphertext handles, the values it has decrypted, two
single-flight flags and a status message. Around that state it runs five
things: the contract resolver `byChain`, a staleness-guarded `refresh`,
`decrypt` with its zero-handle fast path, and the two workflows `react(amount)`
and `requestTotalAccess()`.

## Shape of the model

- `Contracts` holds the registry, `ByChain`, `IsDeployed` and `CanInteract`.
  These are pure functions.
- `SyncState` holds the hook's state as a value (`State`). It also holds the
  render context a callback closes over (`Ctx`), the refresh snapshot, the
  status texts character for character, and a log of the external calls
  issued (`Call`).
- `Refresh`, `Decrypt` and `Actions` give one step function per atomic step.
  Each asynchronous callback is cut at its first `await` that can yield.
  `await refresh()` awaits `undefined`, because `refresh` returns nothing.
  The model treats it as not yielding, so `BeginDecrypt` runs on through
  the zero-handle check and the busy flag (useSecretReactions.tsx:180-194)
  to `loadOrSign`:
  - `StartRefresh` / `CompleteRefresh`
  - `BeginDecrypt` / `FinishDecrypt`
  - `BeginReact` / `FinishReact`
  - `BeginRequestAccess` / `FinishRequestAccess`

  A start step returns what the continuation needs: the refresh `Snapshot`,
  or a job record. The finish step takes how each awaited call settled, as
  `Outcome` values (`Ok(x)` or `Err(detail)`).
- `Hook.ReactionHook` is a class whose fields are the hook's `useState`
  values and refs. Its methods make the setter calls as field writes, in the
  order the source makes them. Each method is proved to reach exactly the
  state its step function gives. `Valid()` says each displayed flag equals
  its ref (`isRefreshing == refreshingRef`, `isWorking == workingRef`).
- `Properties` relates several steps. It covers the staleness guard across a
  chain or signer switch, idempotent refresh, single flight of `react` (one
  transaction), the zero-handle short circuit, and the effects of the
  workflows' stale closures.

Behaviour that the model keeps from the code, even where a plain reading
would differ:

- `refresh` returns nothing, so `await refresh()` does not wait for the
  reads. The refresh started inside a workflow completes later, as its own
  `CompleteRefresh` event.
- A callback runs under the `Ctx` of the render in which it was last
  memoised, and that render may be older than the current one. Every
  closure a workflow reaches was memoised with the same values for the
  props it reads, so one `Ctx` serves the workflow and its nested
  `refresh`, `readHandlesDirect` and `decrypt`. The argument rests on
  `useCallback` returning the old function only while all its deps are
  equal:
  - `react` lists `refresh` (and so the provider and chain id), the instance
    and the signer among its deps. Its context is therefore the current
    render's.
  - `requestTotalAccess` lists neither the instance, the provider nor
    `refresh` and `decrypt`. Its context is the render it was memoised in.
    That render may lack an fhevm instance the current one has, and then the
    follow-up decryption does nothing (`Properties.AccessWithoutInstance`).
  - `decrypt` does not list `refresh`. The `refresh` it captured is reused
    only while `refresh`'s own deps are equal, so its provider, chain id,
    signer and address are those of the render `decrypt` was memoised in.
- A nested `decrypt` uses the handles its closure held. `react` therefore
  decrypts the "mine" handle held before the reaction, not the one it has
  just re-read (`Properties.ReactDecryptsHeldHandle`). The model takes
  them from the state when the workflow starts. In the source they are the
  handles of the render `decrypt` was memoised in (see "## Left out").
- `decrypt` has no busy guard. Its `finally` clears `workingRef` even when
  the flag was raised by a running `react`, so a second `react` can then
  start (`Properties.DecryptReopensReact`).
- `requestTotalAccess` checks neither `workingRef` nor the fhevm instance.
  Without an instance its follow-up decryption does nothing.
- When `userDecrypt` returns a mapping without the handle, `setDec…(undefined)`
  runs before `clear.toString()` throws. The decrypted field then becomes
  `None` and the message is a failure.

## Model

| member | source | states |
|---|---|---|
| `Contracts.ByChain` | packages/site/hooks/useSecretReactions.tsx:20-32 | A falsy chain id gives no address and no chain id. A missing entry, or one with an empty or zero address, gives the input chain id and no address. Otherwise the address and name come from the entry, and the chain id is the entry's if it has one, else the input. A returned address is never empty and never the zero address. |
| `Contracts.IsDeployed` | packages/site/hooks/useSecretReactions.tsx:73-76 | `isDeployed` holds iff the binding has an address that is neither empty nor the zero address. |
| `Contracts.CanInteract` | packages/site/hooks/useSecretReactions.tsx:78-81 | A running workflow, a missing instance or a missing signer each rule interaction out. When none of these applies, interaction is possible iff the binding has a nonempty address. |
| `Contracts.DeployedIffResolved` | packages/site/hooks/useSecretReactions.tsx:73-76 | For a resolved binding, `isDeployed` holds iff an address was returned, iff the registry has a usable deployment for the chain. |
| `Contracts.CanInteractImpliesDeployed` | packages/site/hooks/useSecretReactions.tsx:78-81 | `canInteract` needs an address, an instance, a signer and no running workflow. It implies the contract is deployed on that chain. |
| `SyncState.Initial` | packages/site/hooks/useSecretReactions.tsx:55-71 | The first render starts with no handles, no decrypted values, both flags down, an empty message, and `infoRef` set to the resolved binding. |
| `SyncState.Render` | packages/site/hooks/useSecretReactions.tsx:67-71 | A render writes `infoRef` with the binding for its chain and changes nothing else. |
| `Decimal.Digits` | packages/site/hooks/useSecretReactions.tsx:218 | How `clear.toString()` and `${amount}` print a natural number: a nonempty run of decimal digits with no leading zero, and a single digit below ten. |
| `Decimal.ParseDigits` | packages/site/hooks/useSecretReactions.tsx:218 | Reading back the decimal text of a cleartext (`clear.toString()`) gives the cleartext. |
| `Refresh.JoinReads` | packages/site/hooks/useSecretReactions.tsx:105-111 | Both reads succeed iff the total read succeeds and, with a signer, the tally read succeeds. Without a signer "mine" is `ZeroHash`. A failure carries the failing read's detail. |
| `Refresh.StartRefresh` | packages/site/hooks/useSecretReactions.tsx:83-108 | While `refreshingRef` is set nothing changes. With no address or no read-only provider both handles are cleared and the flag stays down. Otherwise the flag goes up, the reads are logged, and a snapshot (address, chain id, signer) is taken. Without a signer no tally read is issued. |
| `Refresh.CompleteRefresh` | packages/site/hooks/useSecretReactions.tsx:110-131 | Both handles are written together iff the reads succeeded, `infoRef`'s address equals the snapshot's, and both predicates accept. A stale result changes neither handles nor message. A failed read sets `Read failed: <detail>` and keeps the handles. The flag is down after every outcome, and nothing else changes. |
| `Refresh.StillCurrent` | packages/site/hooks/useSecretReactions.tsx:112-121 | A completed refresh is current iff `infoRef` holds the snapshot's address and no set `sameChain` / `sameSigner` predicate rejects the captured chain id or signer. Another address, or none, makes it stale. |
| `Refresh.MissingProbeCountsAsSame` | packages/site/hooks/useSecretReactions.tsx:112-117 | With both predicate refs unset, the commit depends only on the address. |
| `Refresh.Effect` | packages/site/hooks/useSecretReactions.tsx:166-170 | The effect refreshes only when a signer and an address exist; otherwise it is a no-op. |
| `Refresh.ReadHandlesDirect` | packages/site/hooks/useSecretReactions.tsx:144-164 | With no address or provider it fails with `No provider/contract` and issues no call. Otherwise it issues the same reads as a refresh and joins them the same way. |
| `Decrypt.Selected` | packages/site/hooks/useSecretReactions.tsx:180-181 | An explicit handle is used whichever counter is asked for. Without one, the closure's handle for the chosen counter is used, which may be absent. |
| `Decrypt.BeginDecrypt` | packages/site/hooks/useSecretReactions.tsx:172-194 | It is a no-op without address, instance or signer. Only `total` starts a refresh. An absent or empty handle stops there. `ZeroHash` sets only the selected field to 0 with message `<which> = 0`, leaving the busy flag and the call log alone. Any other handle sets `Decrypt <which>…` and raises the busy flag, whatever `workingRef` was. |
| `Decrypt.FinishDecrypt` | packages/site/hooks/useSecretReactions.tsx:195-224 | `loadOrSign` is always logged; `userDecrypt` only with a signature. On success only the selected field gets `res[handle]`, with message `<which> = <value>`. A missing signature or a rejected call keeps both fields and sets `Decrypt <which> failed: <detail>`. A missing entry clears the selected field and reports the TypeError. Afterwards both busy flags are down. |
| `Decrypt.RunDecrypt` | packages/site/hooks/useSecretReactions.tsx:172-224 | A nested `decrypt` that passed the guards ends with `workingRef` cleared, even if a caller raised it. Otherwise it leaves `workingRef` as it was. |
| `Actions.BeginReact` | packages/site/hooks/useSecretReactions.tsx:229-236 | It is a no-op while `workingRef` is set, for `amount <= 0`, or without address, instance or signer. Otherwise it sets `React +<amount>…`, raises the busy flag and captures the closure. |
| `Actions.AfterReread` | packages/site/hooks/useSecretReactions.tsx:251-264 | After confirmation the transaction and reads are logged, the message is `Reacted +<amount>`, and "mine" holds the re-read handle. |
| `Actions.FinishReact` | packages/site/hooks/useSecretReactions.tsx:238-274 | A failure before sending sets exactly `React failed`. A failure after sending does the same and logs the attempt, changing nothing else. Success refreshes if no refresh is in flight, then decrypts "mine" from the held handle. Every path ends with both busy flags down. |
| `Actions.BeginRequestAccess` | packages/site/hooks/useSecretReactions.tsx:287-292 | It starts whenever address and signer exist, with no `workingRef` check. It sets `Request total access…` and raises the busy flag. |
| `Actions.AfterGrant` | packages/site/hooks/useSecretReactions.tsx:300-302 | A confirmed grant logs one `requestTotalAccess` submission and sets the grant message. Handles, decrypted values and flags are unchanged. |
| `Actions.FinishRequestAccess` | packages/site/hooks/useSecretReactions.tsx:294-310 | A failed send or confirmation sets `Request failed: <detail>` and keeps the view. Success sets the grant message, refreshes, and decrypts the total from the held handle. Both busy flags end down. |
| `Properties.FinishReactSubmitsOnce` | packages/site/hooks/useSecretReactions.tsx:241-257 | A `react` continuation logs exactly one `contract.react` once encryption succeeded, and none otherwise. |
| `Properties.ReactSingleFlight` | packages/site/hooks/useSecretReactions.tsx:231-236 | While one `react` runs, a second call is a no-op, so the two together submit one transaction. |
| `Properties.DecryptReopensReact` | packages/site/hooks/useSecretReactions.tsx:192-194 | A decryption that starts and finishes while `react` runs clears `workingRef`, after which a new `react` can start. |
| `Properties.ZeroHandleShortCircuit` | packages/site/hooks/useSecretReactions.tsx:184-190 | With the zero handle selected: no job, the selected field is 0, the other field is kept, the message is `<which> = 0`, no `loadOrSign` among the calls it adds, and the busy flag is untouched. |
| `Properties.StaleRefreshDiscarded` | packages/site/hooks/useSecretReactions.tsx:110-125 | A refresh whose reads succeed, completing after a render on a chain where the contract has another address or none, leaves handles, message, decrypted values and the flag as they were before it started. A failed read is not guarded this way: it still writes `Read failed: …` (`Refresh.CompleteRefresh`). |
| `Properties.SignerSwitchDiscarded` | packages/site/hooks/useSecretReactions.tsx:115-122 | When `sameSigner` rejects the captured signer, neither handle is written. |
| `Properties.RefreshIdempotent` | packages/site/hooks/useSecretReactions.tsx:83-131 | Two refreshes under an unchanged context, reading the same handles, commit the same handles and message. The second can start because the first cleared its flag. |
| `Properties.NoSignerMineIsZero` | packages/site/hooks/useSecretReactions.tsx:98-108 | Without a signer no tally read is issued and the committed "mine" is `ZeroHash`. |
| `Properties.ReactDecryptsHeldHandle` | packages/site/hooks/useSecretReactions.tsx:260-267 | `react` decrypts the "mine" handle its closure held. With a zero handle held, the result is 0 and `mine = 0`, although "mine" now holds the re-read handle. |
| `Properties.ReactFailedIffFailure` | packages/site/hooks/useSecretReactions.tsx:268-270 | The message after `react` is `React failed` iff the workflow failed before its decryption. |
| `Properties.AccessStartsOneRefresh` | packages/site/hooks/useSecretReactions.tsx:303-304 | After a confirmed grant, the only refresh started is the workflow's own. The one `decrypt("total")` asks for never starts a second. |
| `Properties.AccessWithoutInstance` | packages/site/hooks/useSecretReactions.tsx:288 | Without an fhevm instance the grant still goes through. The message stays `Access granted…`, no decrypted value changes, and no signature is requested. |
| `Properties.AccessIgnoresBusyFlag` | packages/site/hooks/useSecretReactions.tsx:287-292 | `requestTotalAccess` starts while a `react` is running. |
| `Hook.ReactionHook.constructor` | packages/site/hooks/useSecretReactions.tsx:55-71 | The fields equal `Initial`, and the flags are consistent. |
| `Hook.ReactionHook.Render` | packages/site/hooks/useSecretReactions.tsx:67-71 | The field writes give `Render`'s state. |
| `Hook.ReactionHook.StartRefresh` | packages/site/hooks/useSecretReactions.tsx:83-108 | The field writes and returned snapshot equal `StartRefresh`'s. |
| `Hook.ReactionHook.CompleteRefresh` | packages/site/hooks/useSecretReactions.tsx:110-131 | The field writes equal `CompleteRefresh`'s state. |
| `Hook.ReactionHook.Effect` | packages/site/hooks/useSecretReactions.tsx:166-170 | The state equals `Effect`'s. |
| `Hook.ReactionHook.BeginDecrypt` | packages/site/hooks/useSecretReactions.tsx:172-194 | With the closure taken from the current handles, the state equals `BeginDecrypt`'s. |
| `Hook.ReactionHook.DecryptFrom` | packages/site/hooks/useSecretReactions.tsx:174-194 | The same guards for a closure holding given handles. |
| `Hook.ReactionHook.FinishDecrypt` | packages/site/hooks/useSecretReactions.tsx:195-224 | The try/catch/finally writes equal `FinishDecrypt`'s state. |
| `Hook.ReactionHook.RunDecrypt` | packages/site/hooks/useSecretReactions.tsx:172-224 | A whole nested decryption equals `RunDecrypt`'s state. |
| `Hook.ReactionHook.BeginReact` | packages/site/hooks/useSecretReactions.tsx:229-236 | The state and job equal `BeginReact`'s. |
| `Hook.ReactionHook.FinishReact` | packages/site/hooks/useSecretReactions.tsx:238-274 | The state and pending refresh equal `FinishReact`'s. |
| `Hook.ReactionHook.BeginRequestAccess` | packages/site/hooks/useSecretReactions.tsx:287-292 | The state and job equal `BeginRequestAccess`'s. |
| `Hook.ReactionHook.FinishRequestAccess` | packages/site/hooks/useSecretReactions.tsx:294-310 | The state and pending refresh equal `FinishRequestAccess`'s. |

## Left out

- React scheduling is not modelled. Every setter is an immediate field write
  and a render is the `Render` step. Re-render timing and batching are left
  out.
- Closures are approximated. The `Ctx` a callback is given stands for the
  render it was memoised in; the model does not derive it from a render
  history. It therefore does not show how a `requestTotalAccess` memoised
  before the fhevm instance, provider or chain id changed keeps the older
  values in its nested `refresh` and `decrypt` (the caller passes that
  older `Ctx`). Handles are approximated too. A top-level callback reads
  the current handle fields. A workflow's nested `decrypt` uses the handles
  current when the workflow started. In the source that `decrypt` is the
  one memoised with `react` or `requestTotalAccess`, which may be older
  still.
- The 60 ms `setTimeout` at the start of `react` is not modelled. It changes
  no state.
- Network calls are not modelled. These are the contract reads, sending the
  transactions and `tx.wait()`. Each appears only as the `Outcome` it settles
  to, and the call log records which were issued.
- `getAddress`, the FHE encryption builder, `loadOrSign` and `userDecrypt`
  are opaque capabilities given as outcomes. The model does not cover the
  session's key material, caching, validity window, or the 32-bit range
  check in `add32`.
- Exception texts are taken as given. An error's `e?.message ?? e` is the
  `detail` string of an `Err`. For a mapping without the handle, the message
  uses V8's TypeError wording.
- Promise ordering is fixed. When both reads of one `Promise.all` reject, the
  model reports the total read's error; the source reports whichever rejects
  first.
- A refresh started inside a workflow completes after the workflow in the
  model. In the source it may land during the nested decryption's awaits.
  Only the order of the message writes could differ.
- Synchronous throws are not modelled. A throw from a `sameChain` or
  `sameSigner` predicate happens inside `.then`, so the source's `.catch`
  reports it as `Read failed: …`. A throw from the `ethers.Contract`
  constructor in `refresh` (lines 92-100) happens before the promise chain
  exists. It escapes `refresh` with `refreshingRef` still down.
- Values are narrowed. Chain ids are integers. Cleartexts are natural
  numbers (the counters are unsigned 32-bit), so a boolean or string from
  `userDecrypt` is out of scope. `react`'s amount is an integer printed in
  decimal.
- The ABI object and `chainName` display are not modelled; `chainName` is
  carried in the binding with no behaviour.
- Disconnecting is not modelled. `packages/site/components/HeaderWallet.tsx`
  reloads the page, outside the hook.
- packages/site/lib/ids.ts, the components, the page, the relayer proxy
  route, the ABI and data files, and the Hardhat tests and deployment script
  are not part of this model. They are UI, static data, or need a chain to
  run.
