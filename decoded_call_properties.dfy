/** What the `useDecodedCall` pipeline guarantees, stated over the model in DecodedCallHook. */
module DecodedCallProperties {
  import opened Wrappers
  import opened Hex
  import opened Abi
  import opened DecodedCallHook

  // ---------------------------------------------------------------------------
  // Interface builder

  /** No parameter type or name contains a comma. */
  predicate CommaFree(params: seq<Param>) {
    forall i :: 0 <= i < |params| ==> ',' !in params[i].typeName && ',' !in params[i].name
  }

  lemma {:induction false} ConcatParamsCommaFree(params: seq<Param>)
    requires CommaFree(params)
    ensures ',' !in ConcatParams(params)
  {
    if |params| > 0 {
      assert CommaFree(params[1..]) by {
        forall i | 0 <= i < |params| - 1 ensures params[1..][i] == params[i + 1] { }
      }
      ConcatParamsCommaFree(params[1..]);
      var head := ParamText(params[0]);
      assert ',' !in head by {
        assert head == params[0].typeName + " " + params[0].name;
        assert ',' !in params[0].typeName && ',' !in params[0].name;
      }
    }
  }

  /** The builder inserts no separator: with comma-free metadata the parameter text has no comma. */
  lemma NoSeparatorInserted(params: seq<Param>)
    requires CommaFree(params)
    ensures ',' !in ParamsText(params)
  {
    ConcatParamsCommaFree(params);
  }

  /** The sum of the lengths of some texts. */
  function TotalLength(xs: seq<string>): (n: nat) {
    if |xs| == 0 then 0 else |xs[0]| + TotalLength(xs[1..])
  }

  /** Joining n texts with ", " adds two characters per gap. */
  lemma {:induction false} JoinCommaLength(xs: seq<string>)
    requires |xs| > 0
    ensures |Join(xs, ", ")| == TotalLength(xs) + 2 * (|xs| - 1)
  {
    if |xs| > 1 {
      JoinCommaLength(xs[1..]);
    }
  }

  /** The builder's parameter text is exactly as long as the parameter texts together. */
  lemma {:induction false} ConcatParamsLength(params: seq<Param>)
    ensures |ConcatParams(params)| == TotalLength(ParamTexts(params))
  {
    if |params| > 0 {
      assert ParamTexts(params)[1..] == ParamTexts(params[1..]);
      ConcatParamsLength(params[1..]);
    }
  }

  /**
   * The emitted parameter text is the comma-separated list ethers expects exactly
   * when the function has at most one parameter; with two or more it is shorter
   * by two characters per missing ", ".
   */
  lemma ParamsTextIntendedIffAtMostOneParam(params: seq<Param>)
    ensures ParamsText(params) == IntendedParamsText(params) <==> |params| <= 1
  {
    var texts := ParamTexts(params);
    if |params| == 1 {
      assert ConcatParams(params) == ParamText(params[0]) + ConcatParams(params[1..]);
      assert IntendedParamsText(params) == texts[0];
    } else if |params| >= 2 {
      JoinCommaLength(texts);
      ConcatParamsLength(params);
    }
  }

  // ---------------------------------------------------------------------------
  // Resolver

  /** The first registry match is the one `MatchedContract` returns. */
  lemma MatchedIsFirst(contracts: seq<RegistryContract>, chainId: Option<nat>, to: string, i: nat)
    requires IsFirstMatch(contracts, chainId, to, i)
    ensures MatchedContract(Some(contracts), chainId, to) == Some(contracts[i])
  {
    var r := MatchedContract(Some(contracts), chainId, to);
    assert r.Some?;
    var k :| IsFirstMatch(contracts, chainId, to, k) && r.value == contracts[k];
    assert !(k < i) && !(i < k);
  }

  /**
   * Registry precedence: when a registry contract is at `to` on the chain, the first
   * such contract's interface is used and the call is GENERIC_CALL, whatever the
   * known-sighash table says about the selector.
   */
  lemma RegistryPrecedence(e: Ethers, erc20Abi: Interface, chainId: Option<nat>, contracts: seq<RegistryContract>, call: Call, i: nat)
    requires IsFirstMatch(contracts, chainId, call.to, i)
    ensures var r := UseDecodedCall(e, erc20Abi, chainId, Some(contracts), call);
      && (r.Failure? ==> r.error != KnownSigHashMiss)
      && (r.Success? ==> NewInterface(e, Signatures(contracts[i])) == Success(r.value.contract))
      && (r.Success? && r.value.decodedCall.Some? ==> r.value.decodedCall.value.callType == GenericCall)
  {
    MatchedIsFirst(contracts, chainId, call.to, i);
  }

  /**
   * Resolution is chain-scoped: it depends on each registry contract only through
   * whether its address on the active chain is `to`, and on its functions.
   */
  lemma ResolutionDependsOnlyOnChainEntry(
    e: Ethers, erc20Abi: Interface, call: Call,
    chainA: Option<nat>, registryA: seq<RegistryContract>,
    chainB: Option<nat>, registryB: seq<RegistryContract>)
    requires |registryA| == |registryB|
    requires forall k :: 0 <= k < |registryA| ==>
      && registryA[k].functions == registryB[k].functions
      && (NetworkMatches(registryA[k], chainA, call.to) <==> NetworkMatches(registryB[k], chainB, call.to))
    ensures UseDecodedCall(e, erc20Abi, chainA, Some(registryA), call) == UseDecodedCall(e, erc20Abi, chainB, Some(registryB), call)
  {
    var a := MatchedContract(Some(registryA), chainA, call.to);
    var b := MatchedContract(Some(registryB), chainB, call.to);
    if a.Some? {
      var i :| IsFirstMatch(registryA, chainA, call.to, i) && a.value == registryA[i];
      assert IsFirstMatch(registryB, chainB, call.to, i);
      MatchedIsFirst(registryB, chainB, call.to, i);
      assert Signatures(registryA[i]) == Signatures(registryB[i]);
    } else {
      assert b.None?;
    }
  }

  /**
   * The same `transfer` call on two chains: on chain 1 the target is a registry
   * contract and wins as GENERIC_CALL; on chain 100 it is not, and the known table
   * classifies the call as ERC20_TRANSFER.
   */
  lemma ChainSwitchChangesOutcome(e: Ethers, erc20Abi: Interface)
    ensures var target := "0x698dd4ddeeda3cca704dc4c2ae4942137edd99d5";
      var registry := Some([RegistryContract(map[1 := target], [])]);
      var call := Call(target, Erc20TransferSignature);
      && Resolve(e, erc20Abi, Some(1), registry, call) == Success(Resolution([], GenericCall))
      && Resolve(e, erc20Abi, Some(100), registry, call) == Success(Resolution(erc20Abi, Erc20Transfer))
  {
    var target := "0x698dd4ddeeda3cca704dc4c2ae4942137edd99d5";
    var contracts := [RegistryContract(map[1 := target], [])];
    MatchedIsFirst(contracts, Some(1), target, 0);
    assert NewInterface(e, Signatures(contracts[0])) == Success([]);
    assert !NetworkMatches(contracts[0], Some(100), target);
    assert DataSighash(Erc20TransferSignature) == Erc20TransferSignature;
  }

  /** Addresses are compared as strings: an upper-case spelling of the same address does not match. */
  lemma AddressMatchIsCaseSensitive(fns: seq<FunctionSpec>)
    ensures var registered := "0x698DD4DDEEDA3CCA704DC4C2AE4942137EDD99D5";
      var to := "0x698dd4ddeeda3cca704dc4c2ae4942137edd99d5";
      MatchedContract(Some([RegistryContract(map[1 := registered], fns)]), Some(1), to).None?
  {
    var registered := "0x698DD4DDEEDA3CCA704DC4C2AE4942137EDD99D5";
    var to := "0x698dd4ddeeda3cca704dc4c2ae4942137edd99d5";
    assert registered[5] != to[5];
  }

  /**
   * Known-table fallback: with no registry match, `transfer`'s selector gives
   * ERC20_TRANSFER and `approve`'s gives GENERIC_CALL, both on the ERC20 ABI.
   */
  lemma KnownTableFallback(e: Ethers, erc20Abi: Interface, chainId: Option<nat>, registry: Option<seq<RegistryContract>>, call: Call)
    requires MatchedContract(registry, chainId, call.to).None?
    requires DataSighash(call.data) == Erc20TransferSignature || DataSighash(call.data) == Erc20ApproveSignature
    ensures var r := UseDecodedCall(e, erc20Abi, chainId, registry, call);
      && (r.Failure? ==> r.error == MalformedData)
      && (r.Success? ==> r.value.contract == erc20Abi)
      && (r.Success? && r.value.decodedCall.Some? ==>
            r.value.decodedCall.value.callType == if DataSighash(call.data) == Erc20TransferSignature then Erc20Transfer else GenericCall)
  {
  }

  /** With no registry match and a selector outside the table, the hook fails at the table lookup. */
  lemma KnownTableMiss(e: Ethers, erc20Abi: Interface, chainId: Option<nat>, registry: Option<seq<RegistryContract>>, call: Call)
    requires MatchedContract(registry, chainId, call.to).None?
    requires DataSighash(call.data) != Erc20TransferSignature && DataSighash(call.data) != Erc20ApproveSignature
    ensures UseDecodedCall(e, erc20Abi, chainId, registry, call) == Failure(KnownSigHashMiss)
  {
  }

  /** Call data shorter than ten characters can only resolve through the registry. */
  lemma ShortDataNeedsRegistry(e: Ethers, erc20Abi: Interface, chainId: Option<nat>, registry: Option<seq<RegistryContract>>, call: Call)
    requires |call.data| < 10
    requires MatchedContract(registry, chainId, call.to).None?
    ensures UseDecodedCall(e, erc20Abi, chainId, registry, call) == Failure(KnownSigHashMiss)
  {
    KnownTableMiss(e, erc20Abi, chainId, registry, call);
  }

  /**
   * The resolver and the decoder read the same ten-character prefix: on the
   * fallback path the decoded fragment's sighash is a table key, and the action
   * kind is the one that key carries.
   */
  lemma TableAndDecoderShareSighash(e: Ethers, erc20Abi: Interface, chainId: Option<nat>, registry: Option<seq<RegistryContract>>, call: Call)
    requires MatchedContract(registry, chainId, call.to).None?
    requires UseDecodedCall(e, erc20Abi, chainId, registry, call).Success?
    requires UseDecodedCall(e, erc20Abi, chainId, registry, call).value.decodedCall.Some?
    ensures var dc := UseDecodedCall(e, erc20Abi, chainId, registry, call).value.decodedCall.value;
      && FragmentSighash(e, dc.fragment) == DataSighash(call.data)
      && FragmentSighash(e, dc.fragment) in KnownSigHashes(erc20Abi)
      && dc.callType == KnownSigHashes(erc20Abi)[FragmentSighash(e, dc.fragment)].callType
  {
  }

  /** With a selector oracle of the standard shape, a decoded call's sighash is the first ten characters of the data. */
  lemma DecodedSighashIsDataPrefix(e: Ethers, erc20Abi: Interface, chainId: Option<nat>, registry: Option<seq<RegistryContract>>, call: Call)
    requires WellShapedSelectors(e)
    requires UseDecodedCall(e, erc20Abi, chainId, registry, call).Success?
    requires UseDecodedCall(e, erc20Abi, chainId, registry, call).value.decodedCall.Some?
    ensures var dc := UseDecodedCall(e, erc20Abi, chainId, registry, call).value.decodedCall.value;
      |call.data| >= 10 && FragmentSighash(e, dc.fragment) == call.data[..10]
  {
    var iface := Resolve(e, erc20Abi, chainId, registry, call).value.contractInterface;
    var dc := UseDecodedCall(e, erc20Abi, chainId, registry, call).value.decodedCall.value;
    assert |FragmentSighash(e, dc.fragment)| == 10;
  }

  // ---------------------------------------------------------------------------
  // Decoder and the commented sample action

  /**
   * The arguments decode exactly when the text after the selector is hex of even
   * length and holds, for each input in turn, a static type's fitting slot.
   */
  lemma DecodeFunctionDataSucceedsIff(f: Fragment, data: string)
    ensures DecodeFunctionData(f, data).Some? <==>
      && IsHexString(Payload(data)) && |Payload(data)| % 2 == 0
      && (forall i :: 0 <= i < |f.inputs| ==> IsStaticType(f.inputs[i])) && SlotsFit(f.inputs, Payload(data))
  {
    DecodeArgumentsSucceedsIff(f.inputs, Payload(data));
  }

  /** When the first fragment with the call's sighash decodes, the decoder returns it with its arguments. */
  lemma DecodeAtFirstMatch(e: Ethers, data: string, iface: Interface, callType: Option<SupportedAction>, i: nat)
    requires IsFirstWithSighash(e, iface, DataSighash(data), i)
    requires DecodeFunctionData(iface[i], data).Some?
    ensures DecodeCallUsingEthersInterface(e, data, iface, callType)
      == Success(Some(DecodedCall(callType.GetOr(GenericCall), iface[i], DecodeFunctionData(iface[i], data).value)))
  {
    assert GetFunction(e, iface, DataSighash(data)).Some?;
    var k :| IsFirstWithSighash(e, iface, DataSighash(data), k) && GetFunction(e, iface, DataSighash(data)).value == iface[k];
    assert !(k < i) && !(i < k);
  }

  /**
   * Round trip: a call encoded as a fragment's sighash followed by one slot per
   * static argument (an address within 20 bytes) decodes to that fragment, with exactly those words as its
   * arguments, tagged with the fragment's input types.
   */
  lemma CallRoundTrip(e: Ethers, iface: Interface, i: nat, words: seq<nat>, callType: Option<SupportedAction>)
    requires 0 <= i < |iface| && |FragmentSighash(e, iface[i])| == 10
    requires IsFirstWithSighash(e, iface, FragmentSighash(e, iface[i]), i)
    requires Encodable(iface[i].inputs, words)
    ensures DecodeCallUsingEthersInterface(e, FragmentSighash(e, iface[i]) + EncodeWords(words), iface, callType)
      == Success(Some(DecodedCall(callType.GetOr(GenericCall), iface[i], Tagged(iface[i].inputs, words))))
  {
    var data := FragmentSighash(e, iface[i]) + EncodeWords(words);
    assert DataSighash(data) == FragmentSighash(e, iface[i]);
    assert Payload(data) == EncodeWords(words);
    DecodeArgumentsOfEncodeWords(iface[i].inputs, words);
    assert DecodeFunctionData(iface[i], data) == Some(Tagged(iface[i].inputs, words));
    DecodeAtFirstMatch(e, data, iface, callType, i);
  }

  /** The commented sample proposal action of the Guilds actions builder. */
  const SampleTo: string := "0x698dd4ddeeda3cca704dc4c2ae4942137edd99d5"
  const SampleArguments: string :=
    "00000000000000000000000001349510117dc9081937794939552463f5616dfb00000000000000000000000000000000000000000000021e19e0c9bab2400000"
  const SampleData: string := Erc20TransferSignature + SampleArguments

  /** The sample's first ten characters are the `transfer` selector. */
  lemma SampleSighash()
    ensures DataSighash(SampleData) == Erc20TransferSignature
  {
    assert SampleData[..10] == Erc20TransferSignature;
  }

  /**
   * The sample action, with its target absent from the registry, resolves through
   * the known table to the ERC20 ABI as ERC20_TRANSFER.
   */
  lemma SampleActionIsErc20Transfer(e: Ethers, erc20Abi: Interface, chainId: Option<nat>, registry: Option<seq<RegistryContract>>)
    requires MatchedContract(registry, chainId, SampleTo).None?
    ensures Resolve(e, erc20Abi, chainId, registry, Call(SampleTo, SampleData)) == Success(Resolution(erc20Abi, Erc20Transfer))
  {
    SampleSighash();
  }
}
