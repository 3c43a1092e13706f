/**
 * The call-resolution pipeline of the Guilds `useDecodedCall` hook: a proposal
 * action `{to, data}` is resolved to an interface (registry contract first, the
 * known-sighash table second) and its selector is matched against that interface.
 * The hook's inputs from React (`chainId` and the registry's `contracts`) are
 * parameters.
 */
module DecodedCallHook {
  import opened Wrappers
  import opened Hex
  import opened Abi

  /** The action kinds the hook produces. */
  datatype SupportedAction = Erc20Transfer | GenericCall

  /** A proposal action: target address and call data, both as hex text. */
  datatype Call = Call(to: string, data: string)

  /** Registry metadata: parameters and functions in declared order, addresses per chain id. */
  datatype Param = Param(typeName: string, name: string)
  datatype FunctionSpec = FunctionSpec(functionName: string, params: seq<Param>)
  datatype RegistryContract = RegistryContract(networks: map<nat, string>, functions: seq<FunctionSpec>)

  datatype DecodedCall = DecodedCall(callType: SupportedAction, fragment: Fragment, args: seq<Arg>)

  /** An interface together with the action kind it implies. */
  datatype Resolution = Resolution(contractInterface: Interface, callType: SupportedAction)

  /** What the hook returns when it does not fail: the interface used and the decoded call, if any. */
  datatype HookResult = HookResult(contract: Interface, decodedCall: Option<DecodedCall>)

  /**
   * The ways the hook fails. `KnownSigHashMiss` is the TypeError raised when the
   * known-sighash lookup yields undefined and its `ABI` is read; `InterfaceRejected`
   * is ethers refusing a signature; `MalformedData` is the argument decoder failing.
   */
  datatype Fault = KnownSigHashMiss | InterfaceRejected(signature: string) | MalformedData

  // ---------------------------------------------------------------------------
  // Known sighashes

  const Erc20TransferSignature: string := "0xa9059cbb"
  const Erc20ApproveSignature: string := "0x095ea7b3"

  datatype KnownSigHash = KnownSigHash(callType: SupportedAction, abi: Interface)

  /** `knownSigHashes`: EIP-20 `transfer` and `approve`, both on the ERC20 ABI. */
  function KnownSigHashes(erc20Abi: Interface): (table: map<string, KnownSigHash>)
    ensures table.Keys == {Erc20TransferSignature, Erc20ApproveSignature}
    ensures forall k :: k in table ==> |k| == 10 && table[k].abi == erc20Abi
    ensures table[Erc20TransferSignature].callType == Erc20Transfer
    ensures table[Erc20ApproveSignature].callType == GenericCall
  {
    map[
      Erc20TransferSignature := KnownSigHash(Erc20Transfer, erc20Abi),
      Erc20ApproveSignature := KnownSigHash(GenericCall, erc20Abi)
    ]
  }

  /** `getContractFromKnownSighashes`: look the call's sighash up; a miss fails at `match.ABI`. */
  function GetContractFromKnownSighashes(erc20Abi: Interface, data: string): (r: Result<Resolution, Fault>)
    ensures r.Success? <==> DataSighash(data) in KnownSigHashes(erc20Abi)
    ensures r.Success? ==> (r.value.contractInterface == erc20Abi
      && r.value.callType == KnownSigHashes(erc20Abi)[DataSighash(data)].callType)
    ensures r.Success? ==> (r.value.callType == Erc20Transfer <==> DataSighash(data) == Erc20TransferSignature)
    ensures r.Failure? ==> r.error == KnownSigHashMiss
  {
    var sigHash := DataSighash(data);
    var table := KnownSigHashes(erc20Abi);
    if sigHash in table then
      Success(Resolution(table[sigHash].abi, table[sigHash].callType))
    else
      Failure(KnownSigHashMiss)
  }

  // ---------------------------------------------------------------------------
  // Interface from registry metadata

  /** One parameter as the builder writes it: type, a space, name. */
  function ParamText(p: Param): (r: string) {
    p.typeName + " " + p.name
  }

  /** Reference definition: the "type name" texts of the parameters, one after another. */
  function ConcatParams(params: seq<Param>): (r: string) {
    if |params| == 0 then "" else ParamText(params[0]) + ConcatParams(params[1..])
  }

  /**
   * `params.reduce((acc, cur) => acc.concat(`${cur.type} ${cur.name}`), acc)`: the
   * seed followed by every "type name" text in declared order, with nothing between.
   */
  function ReduceParams(acc: string, params: seq<Param>): (r: string)
    ensures r == acc + ConcatParams(params)
    decreases |params|
  {
    if |params| == 0 then acc
    else
      var r := ReduceParams(acc + ParamText(params[0]), params[1..]);
      assert acc + ParamText(params[0]) + ConcatParams(params[1..]) == acc + (ParamText(params[0]) + ConcatParams(params[1..]));
      r
  }

  /** The parameter list text the builder emits for one function. */
  function ParamsText(params: seq<Param>): (r: string)
    ensures r == ConcatParams(params)
  {
    ReduceParams("", params)
  }

  /** The "type name" text of each parameter, in order. */
  function ParamTexts(params: seq<Param>): (texts: seq<string>)
    ensures |texts| == |params|
    ensures forall i :: 0 <= i < |params| ==> texts[i] == ParamText(params[i])
  {
    seq(|params|, i requires 0 <= i < |params| => ParamText(params[i]))
  }

  /** The human-readable form ethers expects: "type name" texts separated by ", ". */
  function IntendedParamsText(params: seq<Param>): (r: string) {
    Join(ParamTexts(params), ", ")
  }

  /** The signature the builder writes for one registry function. */
  function SignatureText(f: FunctionSpec): (r: string)
    ensures r == "function " + f.functionName + "(" + ConcatParams(f.params) + ")"
  {
    "function " + f.functionName + "(" + ParamsText(f.params) + ")"
  }

  /** The signature strings handed to `new utils.Interface`: one per registry function, in declared order. */
  function Signatures(rc: RegistryContract): (r: seq<string>)
    ensures |r| == |rc.functions|
    ensures forall i :: 0 <= i < |rc.functions| ==>
      r[i] == "function " + rc.functions[i].functionName + "(" + ConcatParams(rc.functions[i].params) + ")"
  {
    seq(|rc.functions|, i requires 0 <= i < |rc.functions| => SignatureText(rc.functions[i]))
  }

  /** `new utils.Interface(signatures)`: every signature parsed, in order; the first rejected one fails. */
  function NewInterface(e: Ethers, sigs: seq<string>): (r: Result<Interface, Fault>)
    ensures r.Success? <==> forall i :: 0 <= i < |sigs| ==> e.parseSignature(sigs[i]).Some?
    ensures r.Success? ==> (|r.value| == |sigs|
      && forall i :: 0 <= i < |sigs| ==> e.parseSignature(sigs[i]) == Some(r.value[i]))
    ensures r.Failure? ==> exists i :: (0 <= i < |sigs| && e.parseSignature(sigs[i]).None?
      && r.error == InterfaceRejected(sigs[i]))
  {
    if |sigs| == 0 then Success([])
    else match e.parseSignature(sigs[0])
      case None => Failure(InterfaceRejected(sigs[0]))
      case Some(f) =>
        match NewInterface(e, sigs[1..])
        case Failure(err) =>
          assert forall i :: 1 <= i < |sigs| ==> sigs[i] == sigs[1..][i - 1];
          Failure(err)
        case Success(rest) =>
          assert forall i :: 1 <= i < |sigs| ==> sigs[i] == sigs[1..][i - 1];
          Success([f] + rest)
  }

  /** `getContractInterfaceFromRegistryContract`: the registry's functions as an interface, tagged GENERIC_CALL. */
  function GetContractInterfaceFromRegistryContract(e: Ethers, rc: RegistryContract): (r: Result<Resolution, Fault>)
    ensures r.Success? <==> NewInterface(e, Signatures(rc)).Success?
    ensures r.Success? ==> r.value == Resolution(NewInterface(e, Signatures(rc)).value, GenericCall)
    ensures r.Failure? ==> r.error.InterfaceRejected?
  {
    match NewInterface(e, Signatures(rc))
    case Failure(err) => Failure(err)
    case Success(iface) => Success(Resolution(iface, GenericCall))
  }

  // ---------------------------------------------------------------------------
  // Selector matching

  /**
   * `decodeFunctionData` for static arguments: the payload after the selector must
   * be hex of even length, with one fitting slot per input, read in order.
   */
  function DecodeFunctionData(f: Fragment, data: string): (r: Option<seq<Arg>>)
    ensures r.Some? ==> IsHexString(Payload(data)) && |Payload(data)| % 2 == 0
    ensures r.Some? ==> |r.value| == |f.inputs|
  {
    DecodeArguments(f.inputs, Payload(data))
  }

  /**
   * `decodeCallUsingEthersInterface`: None when no fragment has the call's sighash;
   * otherwise the first such fragment with its decoded arguments, tagged with the
   * given action kind or GENERIC_CALL when none is given.
   */
  function DecodeCallUsingEthersInterface(e: Ethers, data: string, iface: Interface, callType: Option<SupportedAction>)
    : (r: Result<Option<DecodedCall>, Fault>)
    ensures r == Success(None) <==> forall j :: 0 <= j < |iface| ==> FragmentSighash(e, iface[j]) != DataSighash(data)
    ensures r.Failure? ==> r.error == MalformedData
    ensures r.Success? && r.value.Some? ==> exists i :: (IsFirstWithSighash(e, iface, DataSighash(data), i)
      && DecodeFunctionData(iface[i], data).Some?
      && r.value.value == DecodedCall(callType.GetOr(GenericCall), iface[i], DecodeFunctionData(iface[i], data).value))
    ensures r.Failure? ==> exists i :: (IsFirstWithSighash(e, iface, DataSighash(data), i)
      && DecodeFunctionData(iface[i], data).None?)
  {
    var sigHash := DataSighash(data);
    match GetFunction(e, iface, sigHash)
    case None => Success(None)
    case Some(fragment) =>
      match DecodeFunctionData(fragment, data)
      case None => Failure(MalformedData)
      case Some(args) => Success(Some(DecodedCall(callType.GetOr(GenericCall), fragment, args)))
  }

  // ---------------------------------------------------------------------------
  // The hook

  /** `contract.networks[chainId] === to`: strict string equality; a missing chain id or entry never matches. */
  predicate NetworkMatches(c: RegistryContract, chainId: Option<nat>, to: string)
    ensures NetworkMatches(c, chainId, to) ==> chainId.Some? && to in c.networks.Values
  {
    chainId.Some? && chainId.value in c.networks && c.networks[chainId.value] == to
  }

  function TargetedBy(chainId: Option<nat>, to: string): (p: RegistryContract -> bool) {
    c => NetworkMatches(c, chainId, to)
  }

  /** `i` is the first registry position whose address on `chainId` is `to`. */
  predicate IsFirstMatch(contracts: seq<RegistryContract>, chainId: Option<nat>, to: string, i: int) {
    && 0 <= i < |contracts|
    && NetworkMatches(contracts[i], chainId, to)
    && forall j :: 0 <= j < i ==> !NetworkMatches(contracts[j], chainId, to)
  }

  /** `contracts?.find(...)`: the first registry contract at `to` on `chainId`; none while the registry is undefined. */
  function MatchedContract(registry: Option<seq<RegistryContract>>, chainId: Option<nat>, to: string)
    : (r: Option<RegistryContract>)
    ensures r.None? <==> registry.None? || forall j :: 0 <= j < |registry.value| ==> !NetworkMatches(registry.value[j], chainId, to)
    ensures r.Some? ==> exists i :: IsFirstMatch(registry.value, chainId, to, i) && r.value == registry.value[i]
  {
    match registry
    case None => None
    case Some(contracts) =>
      match FirstIndex(contracts, TargetedBy(chainId, to))
      case None => None
      case Some(i) => Some(contracts[i])
  }

  /**
   * The interface and action kind the hook settles on before selector matching:
   * the table miss is the only way to fail without a registry match, and
   * ERC20_TRANSFER comes only from the table's `transfer` entry.
   */
  function Resolve(e: Ethers, erc20Abi: Interface, chainId: Option<nat>, registry: Option<seq<RegistryContract>>, call: Call)
    : (r: Result<Resolution, Fault>)
    ensures r == Failure(KnownSigHashMiss) <==>
      MatchedContract(registry, chainId, call.to).None? && DataSighash(call.data) !in KnownSigHashes(erc20Abi)
    ensures r.Success? && r.value.callType == Erc20Transfer <==>
      MatchedContract(registry, chainId, call.to).None? && DataSighash(call.data) == Erc20TransferSignature
    ensures MatchedContract(registry, chainId, call.to).None? && r.Success? ==> r.value.contractInterface == erc20Abi
  {
    match MatchedContract(registry, chainId, call.to)
    case Some(c) => GetContractInterfaceFromRegistryContract(e, c)
    case None => GetContractFromKnownSighashes(erc20Abi, call.data)
  }

  /**
   * The hook's last step: decode the call data against the resolved interface
   * with its action kind. A resolution failure passes through; otherwise the only
   * failure is malformed data, and a decoded function belongs to the interface.
   */
  function DecodeResolved(e: Ethers, data: string, resolved: Result<Resolution, Fault>): (r: Result<HookResult, Fault>)
    ensures resolved.Failure? ==> r == Failure(resolved.error)
    ensures resolved.Success? && r.Failure? ==> r.error == MalformedData
    ensures r.Success? ==> resolved.Success? && r.value.contract == resolved.value.contractInterface
    ensures r.Success? && r.value.decodedCall.Some? ==> (
      var dc := r.value.decodedCall.value;
      && dc.callType == resolved.value.callType
      && dc.fragment in r.value.contract
      && FragmentSighash(e, dc.fragment) == DataSighash(data))
    ensures r.Success? && r.value.decodedCall.None? ==>
      forall j :: 0 <= j < |r.value.contract| ==> FragmentSighash(e, r.value.contract[j]) != DataSighash(data)
  {
    match resolved
    case Failure(err) => Failure(err)
    case Success(Resolution(iface, callType)) =>
      match DecodeCallUsingEthersInterface(e, data, iface, Some(callType))
      case Failure(err) => Failure(err)
      case Success(decodedCall) => Success(HookResult(iface, decodedCall))
  }

  /**
   * `useDecodedCall` with the chain id and the registry snapshot passed in: a
   * decoded call is a function of the returned contract with the data's sighash,
   * an ERC20_TRANSFER comes only from the known table's `transfer` entry on the
   * ERC20 ABI, and the table miss happens exactly without a registry match and
   * with a selector outside the table.
   */
  function UseDecodedCall(e: Ethers, erc20Abi: Interface, chainId: Option<nat>, registry: Option<seq<RegistryContract>>, call: Call)
    : (r: Result<HookResult, Fault>)
    ensures r == Failure(KnownSigHashMiss) <==>
      MatchedContract(registry, chainId, call.to).None? && DataSighash(call.data) !in KnownSigHashes(erc20Abi)
    ensures r.Success? && r.value.decodedCall.Some? ==> (
      var dc := r.value.decodedCall.value;
      && dc.fragment in r.value.contract
      && FragmentSighash(e, dc.fragment) == DataSighash(call.data)
      && (dc.callType == Erc20Transfer ==>
            && MatchedContract(registry, chainId, call.to).None?
            && DataSighash(call.data) == Erc20TransferSignature
            && r.value.contract == erc20Abi))
    ensures r.Success? && r.value.decodedCall.None? ==>
      forall j :: 0 <= j < |r.value.contract| ==> FragmentSighash(e, r.value.contract[j]) != DataSighash(call.data)
  {
    DecodeResolved(e, call.data, Resolve(e, erc20Abi, chainId, registry, call))
  }
}
