/** The view state one `useSecretReactions` hook keeps for a (post, reaction)
    key, the render context its callbacks close over, and the status texts. */
module SyncState {
  import opened Wrappers
  import opened Contracts
  import Decimal

  /** A ciphertext handle as the contract returns it: a 32-byte hex string. */
  type Handle = string

  /** `ethers.ZeroHash`: the handle of a counter that was never written. */
  const ZeroHash: Handle := "0x0000000000000000000000000000000000000000000000000000000000000000"

  /** Which counter a decryption is about; `Name` is how the source spells it. */
  datatype Which = Total | Mine

  function Name(w: Which): string {
    if w == Total then "total" else "mine"
  }

  /** The connected wallet signer, identified by its account. */
  datatype Signer = Signer(account: Address)

  /** The hook's props in the render in which the running callback was last
      memoised: the wallet's chain id, whether an fhevm instance and a
      read-only provider exist, and the signer. A workflow's nested `refresh`,
      `readHandlesDirect` and `decrypt` see the same values. */
  datatype Ctx = Ctx(chainId: Option<int>, instance: bool, signer: Option<Signer>, provider: bool)

  /** What a refresh captures when it starts and compares when it completes. */
  datatype Snapshot = Snapshot(address: Address, chainId: Option<int>, signer: Option<Signer>)

  /** The current values of the `sameChain` / `sameSigner` refs at the moment a
      refresh completes; `None` is a ref whose `current` is unset. */
  datatype Probe = Probe(sameChain: Option<Option<int> -> bool>, sameSigner: Option<Option<Signer> -> bool>)

  /** The handles a callback's closure holds (`totalHandle`, `myHandle` of its render). */
  datatype Held = Held(total: Option<Handle>, mine: Option<Handle>)

  /** The external calls the hook issues, in order. */
  datatype Call =
    | GetTotal                  // contract.getTotal through the read-only provider
    | GetMyTally                // contract.getMyTally through the signer
    | SubmitReact(amount: int)  // contract.react(postId, reactionId, ciphertext, proof)
    | SubmitAccess              // contract.requestTotalAccess(postId, reactionId)
    | LoadOrSign                // FhevmDecryptionSignature.loadOrSign
    | UserDecrypt(handle: Handle) // instance.userDecrypt for one handle

  /** The hook's state: the seven `useState` values, `infoRef`, the two
      single-flight refs, the immutable registry, and the log of external calls. */
  datatype State = State(
    registry: Registry,
    infoRef: Option<ContractInfo>,
    totalHandle: Option<Handle>,
    myHandle: Option<Handle>,
    decTotal: Option<nat>,
    decMine: Option<nat>,
    isRefreshing: bool,
    isWorking: bool,
    message: string,
    refreshingRef: bool,
    workingRef: bool,
    calls: seq<Call>)

  /** The `info` memo of the render `ctx` belongs to. */
  function Info(s: State, ctx: Ctx): ContractInfo {
    ByChain(s.registry, ctx.chainId)
  }

  /** Each displayed flag mirrors its ref: both are written together everywhere. */
  predicate Consistent(s: State) {
    s.isRefreshing == s.refreshingRef && s.isWorking == s.workingRef
  }

  /** The state right after the first render on chain `chainId`. */
  function Initial(reg: Registry, chainId: Option<int>): (s: State)
    ensures Consistent(s) && !s.refreshingRef && !s.workingRef
    ensures s.totalHandle == None && s.myHandle == None && s.decTotal == None && s.decMine == None
    ensures s.infoRef == Some(ByChain(reg, chainId)) && s.message == "" && s.calls == []
  {
    State(reg, Some(ByChain(reg, chainId)), None, None, None, None, false, false, "", false, false, [])
  }

  /** A render on chain `chainId`: the `info` memo updates `infoRef`, nothing else. */
  function Render(s: State, chainId: Option<int>): (r: State)
    ensures r.infoRef == Some(ByChain(s.registry, chainId))
    ensures r.(infoRef := s.infoRef) == s
  {
    s.(infoRef := Some(ByChain(s.registry, chainId)))
  }

  /** Decrypted field for `w` set to `v`, the other one kept. */
  function SetDecrypted(s: State, w: Which, v: Option<nat>): (r: State)
    ensures (if w == Total then r.decTotal else r.decMine) == v
    ensures w == Total ==> r == s.(decTotal := v)
    ensures w == Mine ==> r == s.(decMine := v)
  {
    if w == Total then s.(decTotal := v) else s.(decMine := v)
  }

  // ---------------------------------------------------------------------------
  // Status texts, character for character.

  const Ellipsis: string := "\U{2026}"

  function ReadFailed(detail: string): string { "Read failed: " + detail }

  function ValueText(w: Which, v: nat): string { Name(w) + " = " + Decimal.Digits(v) }

  function Decrypting(w: Which): string { "Decrypt " + Name(w) + Ellipsis }

  function DecryptFailed(w: Which, detail: string): string { "Decrypt " + Name(w) + " failed: " + detail }

  function Reacting(amount: nat): string { "React +" + Decimal.Digits(amount) + Ellipsis }

  function Reacted(amount: nat): string { "Reacted +" + Decimal.Digits(amount) }

  const ReactFailed: string := "React failed"

  const Requesting: string := "Request total access" + Ellipsis

  const AccessGranted: string := "Access granted. You can decrypt the total now."

  function RequestFailed(detail: string): string { "Request failed: " + detail }

  /** The message of the error `decrypt` throws when `loadOrSign` yields nothing. */
  const SignatureUnavailable: string := "Decryption signature unavailable"

  /** The message of the error `readHandlesDirect` throws. */
  const NoProviderContract: string := "No provider/contract"

  /** V8's message for `undefined.toString()`, thrown when the decryption result
      has no entry for the handle. */
  const UndefinedToString: string := "Cannot read properties of undefined (reading 'toString')"

  /** The zero-handle message `${which} = 0` is the value text of 0. */
  lemma ZeroText(w: Which)
    ensures ValueText(w, 0) == Name(w) + " = 0"
  {
  }
}
