/** The contract resolver: from the wallet's chain id to the deployed
    SecretReactions binding, and the two flags the hook derives from it. */
module Contracts {
  import opened Wrappers

  /** A `0x`-prefixed hex address, compared as a string. */
  type Address = string

  /** `ethers.ZeroAddress`: the registry's marker for "not deployed here". */
  const ZeroAddress: Address := "0x0000000000000000000000000000000000000000"

  /** One record of the generated address registry. */
  datatype Entry = Entry(address: Option<Address>, chainId: Option<int>, chainName: Option<string>)

  /** The registry, keyed by chain id (the source indexes it by `String(chainId)`,
      which is injective on integers). */
  type Registry = map<int, Entry>

  /** What `byChain` hands to the hook (the ABI, a constant, is omitted). */
  datatype ContractInfo = ContractInfo(address: Option<Address>, chainId: Option<int>, chainName: Option<string>)

  /** JavaScript truthiness of a `number | undefined` chain id (NaN does not arise). */
  predicate Truthy(chainId: Option<int>) {
    chainId.Some? && chainId.value != 0
  }

  /** JavaScript truthiness of a `string | undefined`. */
  predicate Present(s: Option<string>) {
    s.Some? && s.value != ""
  }

  /** The registry holds a usable deployment for this chain. */
  predicate DeployedOn(reg: Registry, chainId: int) {
    chainId in reg && Present(reg[chainId].address) && reg[chainId].address.value != ZeroAddress
  }

  /** `byChain`: resolve the binding for a chain id. */
  function ByChain(reg: Registry, chainId: Option<int>): (r: ContractInfo)
    // a falsy chain id resolves to nothing at all
    ensures !Truthy(chainId) ==> r == ContractInfo(None, None, None)
    // an address is returned exactly when the registry has a usable deployment
    ensures r.address.Some? <==> Truthy(chainId) && DeployedOn(reg, chainId.value)
    // not deployed on a known chain: the input chain id comes back, nothing else
    ensures Truthy(chainId) && !DeployedOn(reg, chainId.value) ==> r == ContractInfo(None, chainId, None)
    // deployed: address and name from the entry, chain id from the entry if it has one
    ensures r.address.Some? ==>
      && r.address == reg[chainId.value].address
      && r.chainName == reg[chainId.value].chainName
      && r.chainId == (if reg[chainId.value].chainId.Some? then reg[chainId.value].chainId else chainId)
    // so a resolved address is never empty and never the zero address
    ensures r.address.Some? ==> r.address.value != "" && r.address.value != ZeroAddress
  {
    if !Truthy(chainId) then ContractInfo(None, None, None)
    else if chainId.value !in reg then ContractInfo(None, chainId, None)
    else
      var entry := reg[chainId.value];
      if !Present(entry.address) || entry.address.value == ZeroAddress then ContractInfo(None, chainId, None)
      else ContractInfo(entry.address, if entry.chainId.Some? then entry.chainId else chainId, entry.chainName)
  }

  /** `isDeployed`: an address is present and it is not the zero address. */
  predicate IsDeployed(info: ContractInfo): (b: bool)
    ensures b <==> info.address.Some? && info.address.value != "" && info.address.value != ZeroAddress
  {
    Present(info.address) && info.address.value != ZeroAddress
  }

  /** `canInteract`: address, fhevm instance and signer present, and no workflow running. */
  predicate CanInteract(info: ContractInfo, hasInstance: bool, hasSigner: bool, isWorking: bool): (b: bool)
    // a running workflow, a missing instance or a missing signer always disable interaction
    ensures isWorking || !hasInstance || !hasSigner ==> !b
    // otherwise it is decided by the address alone, and a zero address still counts as present
    ensures !isWorking && hasInstance && hasSigner ==> (b <==> info.address.Some? && info.address.value != "")
  {
    Present(info.address) && hasInstance && hasSigner && !isWorking
  }

  /** For a binding produced by the resolver, `isDeployed` is just "has an address". */
  lemma DeployedIffResolved(reg: Registry, chainId: Option<int>)
    ensures IsDeployed(ByChain(reg, chainId)) <==> ByChain(reg, chainId).address.Some?
    ensures IsDeployed(ByChain(reg, chainId)) <==> Truthy(chainId) && DeployedOn(reg, chainId.value)
  {
  }

  /** Interaction is only ever offered on a chain where the contract is deployed. */
  lemma CanInteractImpliesDeployed(reg: Registry, chainId: Option<int>, hasInstance: bool, hasSigner: bool, isWorking: bool)
    requires CanInteract(ByChain(reg, chainId), hasInstance, hasSigner, isWorking)
    ensures IsDeployed(ByChain(reg, chainId)) && DeployedOn(reg, chainId.value)
    ensures hasInstance && hasSigner && !isWorking
  {
  }
}
