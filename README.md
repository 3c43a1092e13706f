# dxvote call resolution, modelled in Dafny

This project models how the dxvote Guilds front end turns a proposal call (a target
address `to` and hex call data) into a human-readable action. It also models the
older `ABIService.decodeCall` used by the DAO views.

* **Resolver.** `useDecodedCall` first looks on the active chain for a contract in the
  guild's contract registry whose address for that chain is `to`. If one matches, an
  ethers interface is built from that contract's function metadata and the call is a
  GENERIC_CALL. Otherwise the call data's four-byte selector is looked up in a table
  of two known ERC20 sighashes: `transfer` (ERC20_TRANSFER) and `approve`
  (GENERIC_CALL).
* **Decoder.** `decodeCallUsingEthersInterface` looks for the interface's function
  whose sighash equals the first ten characters of the data. It decodes the rest of
  the data against that function's inputs, or returns null when none matches.
* **ABIService.** `getAbi` returns one of nine fixed contract ABIs by name.
  `decodeCall` returns the first function of that ABI whose sighash matches the data,
  with arguments decoded by the active web3 library, or nothing.

Modules:

* `Wrappers`: Option and Result.
* `Hex`: hex digits, values and fixed-width encoding.
* `Abi`: the ethers `Interface` view.
  * Fragments, selectors, first-match lookup.
  * A static 32-byte-slot argument decoder that follows the ABI type grammar
    (`uint<M>`/`int<M>` with M a multiple of 8 up to 256, `bytes<M>` with M in
    1..32, `address`, `bool`). It rejects non-hex or odd-length payloads and
    address words wider than 20 bytes.
* `DecodedCallHook`: `src/hooks/Guilds/contracts/useDecodedCall.ts`.
* `DecodedCallProperties`: lemmas about the hook.
* `Services`: `src/services/ABIService.ts`.
  * `ABIService` is a class whose constructor stores the root context, which
    `decodeCall` later reads. The model keeps it as a class with a `const context`
    field set by the constructor.
  * `DecodeCall` is a method with the source's `for … in` loop. It has no `modifies`
    clause, so it provably changes no state.

Two pieces of ethers are explicit parameters, collected in the `Ethers` value:

* `keccakSelector`: "0x" followed by the first four bytes of the Keccak-256 hash of
  the canonical signature.
* `parseSignature`: the human-readable signature parser.

The connected chain (`useWeb3React`) and the registry contents (`useContractRegistry`)
are also parameters.

## Model

| member | source | states |
|---|---|---|
| Abi.DataSighash | src/hooks/Guilds/contracts/useDecodedCall.ts:34-35 | The function selector is the data's prefix of length min(10, length of data), as `substring(0, 10)` gives. |
| Abi.Payload | src/services/ABIService.ts:38-39 | The argument text is what follows the selector: selector + payload reconstructs the data. |
| Abi.FragmentSighash | src/services/ABIService.ts:35 | A function's `sighash` is the selector of its canonical signature; with a selector oracle of the standard shape it has ten characters. |
| Abi.TransferCanonicalSignature | src/hooks/Guilds/contracts/useDecodedCall.ts:8 | The canonical signature behind 0xa9059cbb is `transfer(address,uint256)`: types joined by single commas, no names. |
| Abi.FirstIndex | src/hooks/Guilds/contracts/useDecodedCall.ts:88-90 | First-match search. None iff no element satisfies the predicate. Otherwise the found index satisfies it and every earlier index does not. |
| Abi.GetFunction | src/hooks/Guilds/contracts/useDecodedCall.ts:37-39 | `getFunction(sigHash)` is null iff no fragment has that sighash. Otherwise it is the first fragment that has it. |
| Abi.DecodeStatic | src/hooks/Guilds/contracts/useDecodedCall.ts:41-42 | One decoded argument per input type. When it succeeds and what each argument is are stated by `DecodeStaticSucceedsIff` and `DecodeStaticSlots`. |
| Abi.DecodeStaticSucceedsIff | src/hooks/Guilds/contracts/useDecodedCall.ts:41-42 | Static-slot decoding succeeds iff every input type is static and, for each input, the payload holds a 64-hex-digit slot whose word fits the type (an address below 2^160). |
| Abi.DecodeStaticSlots | src/hooks/Guilds/contracts/useDecodedCall.ts:41-42 | Decoded argument i carries input type i and the value of the payload's i-th 64-digit slot. |
| Abi.DecodeArguments | src/hooks/Guilds/contracts/useDecodedCall.ts:41-42 | A decode succeeds only on whole hex bytes (hex text of even length), and on such text it is the static-slot decode. |
| Abi.DecodeArgumentsSucceedsIff | src/hooks/Guilds/contracts/useDecodedCall.ts:41-42 | Argument decoding succeeds iff the payload is hex of even length, every type is static, and every slot is hex and fits its type. |
| Abi.DecodeEncodeWords | src/hooks/Guilds/contracts/useDecodedCall.ts:41-42 | Round trip: static slots encoded from words below 16^64 (addresses below 16^40) decode to exactly those words, tagged with their types. |
| Abi.EncodeWordsEven | src/hooks/Guilds/contracts/useDecodedCall.ts:41-42 | The slot encoding is an even number of hex digits, i.e. whole bytes. |
| Abi.DecodeArgumentsOfEncodeWords | src/hooks/Guilds/contracts/useDecodedCall.ts:41-42 | The round trip also holds for the whole-bytes decode that `decodeFunctionData` performs. |
| Abi.ValidIntegerWidthsAreStatic | src/hooks/Guilds/contracts/useDecodedCall.ts:41-42 | `uint256`, `uint8`, `int128` and the alias `uint` are static types the decoder accepts. |
| Abi.ValidBytesWidthsAreStatic | src/hooks/Guilds/contracts/useDecodedCall.ts:41-42 | `bytes32` and `bytes1` are static types the decoder accepts. |
| Abi.InvalidIntegerWidthsAreNotStatic | src/hooks/Guilds/contracts/useDecodedCall.ts:41-42 | `uint7`, `int0` and `uint264` are rejected: widths must be multiples of 8 in 8..256. |
| Abi.InvalidBytesWidthsAreNotStatic | src/hooks/Guilds/contracts/useDecodedCall.ts:41-42 | `bytes99` and `bytes0` are rejected, and the dynamic `bytes` and `string` are not static. |
| DecodedCallHook.KnownSigHashes | src/hooks/Guilds/contracts/useDecodedCall.ts:8-21 | The known table has exactly the keys 0xa9059cbb and 0x095ea7b3, each ten characters long; both carry the ERC20 ABI; 0xa9059cbb carries ERC20_TRANSFER and 0x095ea7b3 GENERIC_CALL. |
| DecodedCallHook.GetContractFromKnownSighashes | src/hooks/Guilds/contracts/useDecodedCall.ts:68-79 | Success iff the data's selector is a table key, giving the ERC20 ABI and that key's call type, which is ERC20_TRANSFER iff the selector is 0xa9059cbb. A miss is the explicit failure `KnownSigHashMiss`. |
| DecodedCallHook.ReduceParams | src/hooks/Guilds/contracts/useDecodedCall.ts:57-60 | The reducer yields its seed followed by every "type name" text in declared order, nothing in between (equal to seed + the reference `ConcatParams`). |
| DecodedCallHook.ParamsText | src/hooks/Guilds/contracts/useDecodedCall.ts:57-60 | The builder's parameter text, from the empty seed, is the reference concatenation of the parameter texts. |
| DecodedCallHook.SignatureText | src/hooks/Guilds/contracts/useDecodedCall.ts:56-61 | One registry function becomes `function name(params)` with the concatenated parameter texts. |
| DecodedCallHook.Signatures | src/hooks/Guilds/contracts/useDecodedCall.ts:55-62 | One signature per registry function, in declared order, of the form `function name(params)`. |
| DecodedCallHook.NewInterface | src/hooks/Guilds/contracts/useDecodedCall.ts:54-63 | `new utils.Interface(signatures)` succeeds iff every signature parses. It then holds one fragment per signature, in order. Otherwise a particular unparsable signature is reported. |
| DecodedCallHook.GetContractInterfaceFromRegistryContract | src/hooks/Guilds/contracts/useDecodedCall.ts:50-66 | A registry contract yields the interface of its signatures with call type GENERIC_CALL. It fails iff that interface is rejected. |
| DecodedCallHook.DecodeFunctionData | src/hooks/Guilds/contracts/useDecodedCall.ts:42 | A successful decode reads whole hex bytes after the selector and yields one argument per input; `DecodeFunctionDataSucceedsIff` states exactly when it succeeds. |
| DecodedCallHook.DecodeCallUsingEthersInterface | src/hooks/Guilds/contracts/useDecodedCall.ts:29-48 | Null iff no fragment has the data's sighash. A decoded call uses the first such fragment, with the given call type or GENERIC_CALL when none is given. A failure means that fragment's arguments do not decode. |
| DecodedCallHook.NetworkMatches | src/hooks/Guilds/contracts/useDecodedCall.ts:89 | A registry contract matches only with a connected chain and only when `to` is one of its registered addresses. |
| DecodedCallHook.MatchedContract | src/hooks/Guilds/contracts/useDecodedCall.ts:87-90 | `contracts?.find(...)` is none iff the registry is absent or no contract has address `to` on the chain. Otherwise it is the first such contract. |
| DecodedCallHook.Resolve | src/hooks/Guilds/contracts/useDecodedCall.ts:91-93 | Resolution fails with the table miss iff no registry contract matches and the selector is not a table key. It yields ERC20_TRANSFER iff no registry contract matches and the selector is 0xa9059cbb. Without a registry match its interface is the ERC20 ABI. |
| DecodedCallHook.DecodeResolved | src/hooks/Guilds/contracts/useDecodedCall.ts:95-106 | A resolution failure passes through unchanged; after a resolution the only failure is malformed data. The returned contract is the resolved interface. A decoded call keeps the resolved call type, and its function belongs to that interface with the data's sighash. No decoded call means no function of the interface has the sighash. |
| DecodedCallHook.UseDecodedCall | src/hooks/Guilds/contracts/useDecodedCall.ts:81-107 | The hook fails at the table lookup iff no registry contract matches and the selector is not a table key. A decoded call's function is in the returned contract with the data's sighash; an ERC20_TRANSFER call comes only from the table's 0xa9059cbb entry on the ERC20 ABI. No decoded call means no function of the contract has the sighash. |
| DecodedCallProperties.NoSeparatorInserted | src/hooks/Guilds/contracts/useDecodedCall.ts:57-60 | The reducer inserts no separator: with comma-free metadata the parameter text contains no comma. |
| DecodedCallProperties.ParamsTextIntendedIffAtMostOneParam | src/hooks/Guilds/contracts/useDecodedCall.ts:57-61 | For every parameter list, the emitted parameter text equals the ", "-separated list ethers expects iff the function has at most one parameter (with more it is shorter by two characters per gap). |
| DecodedCallProperties.MatchedIsFirst | src/hooks/Guilds/contracts/useDecodedCall.ts:88-90 | When contract i is the first to match `to` on the chain, the lookup returns contract i. |
| DecodedCallProperties.RegistryPrecedence | src/hooks/Guilds/contracts/useDecodedCall.ts:88-93 | With a registry match, the known table is never consulted. The contract is the first match's interface, and a decoded call is GENERIC_CALL. |
| DecodedCallProperties.ResolutionDependsOnlyOnChainEntry | src/hooks/Guilds/contracts/useDecodedCall.ts:82-90 | The outcome depends on each registry contract only through whether its address on the active chain is `to`, and through its functions. |
| DecodedCallProperties.ChainSwitchChangesOutcome | src/hooks/Guilds/contracts/useDecodedCall.ts:88-93 | The same transfer call resolves as a registry GENERIC_CALL on chain 1, where the target is registered, and as ERC20_TRANSFER on chain 100, where it is not. |
| DecodedCallProperties.AddressMatchIsCaseSensitive | src/hooks/Guilds/contracts/useDecodedCall.ts:89 | `===` compares addresses as strings, so an upper-case registry spelling of the same address does not match. |
| DecodedCallProperties.KnownTableFallback | src/hooks/Guilds/contracts/useDecodedCall.ts:91-101 | With no registry match, a transfer selector decodes as ERC20_TRANSFER and an approve selector as GENERIC_CALL, both against the ERC20 ABI. |
| DecodedCallProperties.KnownTableMiss | src/hooks/Guilds/contracts/useDecodedCall.ts:73-74 | With no registry match and a selector outside the table, the hook fails at the table lookup. |
| DecodedCallProperties.ShortDataNeedsRegistry | src/hooks/Guilds/contracts/useDecodedCall.ts:70-74 | Data shorter than ten characters can only resolve through the registry. |
| DecodedCallProperties.TableAndDecoderShareSighash | src/hooks/Guilds/contracts/useDecodedCall.ts:91-101 | On the fallback path the decoded fragment's sighash is the data's selector. That selector is a table key, and the call type is the one the key carries. |
| DecodedCallProperties.DecodedSighashIsDataPrefix | src/hooks/Guilds/contracts/useDecodedCall.ts:34-42 | With ten-character selectors, a decoded call's function sighash equals the first ten characters of the data. |
| DecodedCallProperties.DecodeFunctionDataSucceedsIff | src/hooks/Guilds/contracts/useDecodedCall.ts:42 | `decodeFunctionData` succeeds iff the text after the selector is hex of even length and holds, for each input in turn, a static type's fitting slot. |
| DecodedCallProperties.DecodeAtFirstMatch | src/hooks/Guilds/contracts/useDecodedCall.ts:37-47 | When the first fragment with the data's sighash decodes, the decoder returns that fragment with its arguments and the defaulted call type. |
| DecodedCallProperties.CallRoundTrip | src/hooks/Guilds/contracts/useDecodedCall.ts:41-47 | A fragment's sighash followed by encoded static words (addresses within 20 bytes) decodes to that fragment with exactly those words as arguments. |
| DecodedCallProperties.SampleSighash | src/components/Guilds/ActionsBuilder/index.tsx:35 | The sample action's data starts with the transfer selector 0xa9059cbb. |
| DecodedCallProperties.SampleActionIsErc20Transfer | src/components/Guilds/ActionsBuilder/index.tsx:33-37 | The sample action, with its target absent from the registry, resolves to the ERC20 ABI as ERC20_TRANSFER. |
| Services.Schema | src/services/ABIService.ts:4-14 | The schema has exactly the nine contract names Avatar … Multicall as keys. |
| Services.FirstDecodedCall | src/services/ABIService.ts:33-44 | None iff no function has the data's sighash. Otherwise it is the first such function, with arguments decoded by the library from the data after the selector, against its input types in order. |
| Services.AbiService.constructor | src/services/ABIService.ts:19-21 | The service stores the given root context. |
| Services.AbiService.GetAbi | src/services/ABIService.ts:23-25 | An ABI is returned iff the name is one of the nine schema keys, and it is that key's ABI. |
| Services.AbiService.DecodeCall | src/services/ABIService.ts:27-45 | Fails iff the contract type is unknown. Otherwise it returns the first function whose sighash matches, as `FirstDecodedCall` specifies, and a returned function's sighash is the data's selector. No state changes. |

## Left out

- Keccak-256 and the ethers human-readable signature parser are not computed. They are the parameters `keccakSelector` and `parseSignature` of `Ethers`. The parser is assumed to normalise type aliases, as ethers does.
- React hooks (`useWeb3React`, `useContractRegistry`) become parameters. The chain id is `Option<nat>` because it is undefined when no wallet is connected. The registry is `Option<seq<…>>` because it is undefined while loading.
- The ABI JSON files (`ERC20.json` and the nine `../contracts` artifacts) are opaque already-parsed parameters. Parsing JSON ABIs is not modelled.
- The definition of `SupportedAction` is not part of this model. It is treated as a string enum, so every value is truthy in `callType || GENERIC_CALL`. Only the two values the core uses are declared.
- ethers' `Interface` constructor skips duplicate definitions with a warning. Fragments are kept in declared order, and lookup returns the first match.
- DecodedCallHook.DecodeCallUsingEthersInterface: `Success(None)` stands for the source's null check at useDecodedCall.ts:39, not for its run-time behaviour. ethers' `Interface.getFunction` throws when no function has the sighash, so at run time that branch is not taken and the hook throws instead.
- The branch `if (!contractInterface) return null` (useDecodedCall.ts:95) is unreachable: both resolver paths return an interface or fail first. The model has no such branch.
- Hook mismatch: `knownSigHashes[sigHash]` on a miss gives undefined or a prototype member, and `match.ABI` or `new Interface(undefined)` then throws. Both are folded into the failure `KnownSigHashMiss`, not into a thrown exception.
- Abi.DecodeStatic: argument decoding covers static types only; each reads one 64-hex-digit slot.
  - The decoder fails on dynamic types (`string`, `bytes`, arrays, tuples), which ethers does decode.
  - Slots after the inputs' region are not read, as in ethers.
  - Values stay raw 256-bit words. ethers masks `uint<M>`/`int<M>` words to M bits and reads `int<M>` as two's complement. It turns `bool` into word ≠ 0, keeps the first M bytes of `bytes<M>` and checksums addresses.
  - Only the slots after the selector are checked for hex. The selector's own form comes from the selector oracle, since the fragment was found by it.
  - ethers' check that the data's first four bytes equal the fragment's selector always holds here, because the fragment was looked up by that selector.
- Services.FirstDecodedCall: web3's `eth.abi.decodeParameters` is an opaque total function of the input types and the payload. Its own errors are not modelled.
- `providerStore.getActiveWeb3React().library` becomes the field `activeLibrary` of the stored context.
- Iteration over `contractInterface.functions` is modelled as declaration order. That object is keyed by name and by signature, but the first key reaching a matching fragment yields the same fragment.
- Services.AbiService.GetAbi: gives None for every name outside the nine schema keys. In the source, `schema[contractType]` is undefined for most such names. For names inherited from `Object.prototype` (`toString`, `constructor`, `__proto__`, …) it is an inherited member that `new Interface` then receives. The model's `DecodeCall` reports `UnknownContractType` for all of them instead of the source's exception or the inherited member's effect.
- DecodedCallProperties.SampleActionIsErc20Transfer: proves the resolution of the sample (the ERC20 ABI, ERC20_TRANSFER) but not its concrete argument values. Decoding of such data is covered generally by `CallRoundTrip`.
- The address comparison follows the code's strict `===`, which is case-sensitive, not a case-insensitive address comparison.
- The parameter list follows the code's reducer, which inserts no separator between parameters, not a comma-separated list.
- A known-table miss follows the code, which dereferences the missing entry; it is an error outcome, not a quiet "unresolved".
- The configuration store, the actions builder UI and the proposal-creation components that call the hook are not part of this model.
