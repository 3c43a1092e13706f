/**
 * The older decoder, `ABIService`: a fixed table from contract type names to the
 * bundled ABIs, and `decodeCall`, which scans the chosen ABI's functions for the
 * call's sighash. The bundled ABI files, ethers and web3's parameter decoder are
 * passed in; the service's `context` is set once and only read.
 */
module Services {
  import opened Wrappers
  import opened Abi

  /** The ABIs `schema` loads from the `../contracts` directory, one field per file. */
  datatype ContractArtifacts = ContractArtifacts(
    dxAvatar: Interface,
    dxController: Interface,
    genesisProtocol: Interface,
    dxdVotingMachine: Interface,
    dxReputation: Interface,
    walletScheme: Interface,
    erc20: Interface,
    permissionRegistry: Interface,
    multicall: Interface)

  /** The nine contract type names the schema knows. */
  const SchemaNames: set<string> := {
    "Avatar", "Controller", "VotingMachine", "DXDVotingMachine", "Reputation",
    "WalletScheme", "ERC20", "PermissionRegistry", "Multicall"
  }

  /** `schema`: contract type name to ABI. */
  function Schema(artifacts: ContractArtifacts): (table: map<string, Interface>)
    ensures table.Keys == SchemaNames
  {
    map[
      "Avatar" := artifacts.dxAvatar,
      "Controller" := artifacts.dxController,
      "VotingMachine" := artifacts.genesisProtocol,
      "DXDVotingMachine" := artifacts.dxdVotingMachine,
      "Reputation" := artifacts.dxReputation,
      "WalletScheme" := artifacts.walletScheme,
      "ERC20" := artifacts.erc20,
      "PermissionRegistry" := artifacts.permissionRegistry,
      "Multicall" := artifacts.multicall
    ]
  }

  /** web3's `eth.abi.decodeParameters(types, hex)`, a foreign decoder. */
  datatype Web3Library = Web3Library(decodeParameters: (seq<string>, string) -> seq<Arg>)

  /** The parts of the root context the service reads: the provider store's active library. */
  datatype ProviderStore = ProviderStore(activeLibrary: Web3Library)
  datatype RootContext = RootContext(providerStore: ProviderStore)

  /** What `decodeCall` returns on a match: the function and its decoded arguments. */
  datatype ServiceDecodedCall = ServiceDecodedCall(fragment: Fragment, args: seq<Arg>)

  /** `new Interface(undefined)` throws when the contract type is not in the schema. */
  datatype ServiceError = UnknownContractType(contractType: string)

  /** The result `decodeCall` must give: the first function with the call's sighash, decoded, or none. */
  function FirstDecodedCall(e: Ethers, library: Web3Library, functions: Interface, data: string): (r: Option<ServiceDecodedCall>)
    ensures r.None? <==> forall j :: 0 <= j < |functions| ==> FragmentSighash(e, functions[j]) != DataSighash(data)
    ensures r.Some? ==> exists i :: (IsFirstWithSighash(e, functions, DataSighash(data), i)
      && r.value == ServiceDecodedCall(functions[i], library.decodeParameters(functions[i].inputs, Payload(data))))
  {
    match FirstIndex(functions, HasSighash(e, DataSighash(data)))
    case None => None
    case Some(i) => Some(ServiceDecodedCall(functions[i], library.decodeParameters(functions[i].inputs, Payload(data))))
  }

  class AbiService {
    const context: RootContext

    constructor(context: RootContext)
      ensures this.context == context
    {
      this.context := context;
    }

    /** `getAbi`: exactly the schema's entry, or none for a name outside it. */
    function GetAbi(artifacts: ContractArtifacts, contractType: string): (r: Option<Interface>)
      ensures r.Some? <==> contractType in SchemaNames
      ensures r.Some? ==> r.value == Schema(artifacts)[contractType]
    {
      var table := Schema(artifacts);
      if contractType in table then Some(table[contractType]) else None
    }

    /**
     * `decodeCall`: scan the ABI's functions in order and return the first whose
     * sighash is the first ten characters of `data`, with its arguments decoded
     * from the rest of `data` against its input types; none when no function matches.
     */
    method DecodeCall(artifacts: ContractArtifacts, e: Ethers, contractType: string, data: string)
      returns (r: Result<Option<ServiceDecodedCall>, ServiceError>)
      ensures r.Failure? <==> contractType !in SchemaNames
      ensures r.Failure? ==> r.error == UnknownContractType(contractType)
      ensures r.Success? ==> r.value == FirstDecodedCall(e, context.providerStore.activeLibrary, Schema(artifacts)[contractType], data)
      ensures r.Success? && r.value.Some? ==> FragmentSighash(e, r.value.value.fragment) == DataSighash(data)
    {
      var library := context.providerStore.activeLibrary;
      var abi := GetAbi(artifacts, contractType);
      if abi.None? {
        return Failure(UnknownContractType(contractType));
      }
      var functions := abi.value;
      var functionSignature := DataSighash(data);
      var i := 0;
      while i < |functions|
        invariant 0 <= i <= |functions|
        invariant forall j :: 0 <= j < i ==> FragmentSighash(e, functions[j]) != functionSignature
      {
        if FragmentSighash(e, functions[i]) == functionSignature {
          var args := library.decodeParameters(functions[i].inputs, Payload(data));
          ghost var k := FirstIndex(functions, HasSighash(e, functionSignature));
          assert k == Some(i) by {
            assert k.Some?;
            assert !(k.value < i) && !(i < k.value);
          }
          return Success(Some(ServiceDecodedCall(functions[i], args)));
        }
        i := i + 1;
      }
      return Success(None);
    }
  }
}
