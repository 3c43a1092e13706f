/**
 * The part of the Solidity Contract ABI that the call decoders rely on: function
 * fragments, their selectors (section "Function Selector" of the Solidity Contract
 * ABI Specification), selector matching over an ordered fragment list, and a
 * decoder for static arguments (section "Formal Specification of the Encoding":
 * one 32-byte slot per static argument).
 */
module Abi {
  import opened Wrappers
  import opened Hex

  /** A function fragment: its name and its input types in declared order. */
  datatype Fragment = Fragment(name: string, inputs: seq<string>)

  /** An interface: the function fragments of one ABI, in declared order. */
  type Interface = seq<Fragment>

  /**
   * The foreign library. `keccakSelector` maps a canonical signature to "0x" and the
   * first four bytes of its Keccak-256 hash in hex; `parseSignature` is the ethers
   * parser for human-readable signatures such as "function f(address to)", which
   * yields None where ethers rejects the text.
   */
  datatype Ethers = Ethers(keccakSelector: string -> string, parseSignature: string -> Option<Fragment>)

  /** The oracle produces selectors of the standard shape: "0x" and eight hex digits. */
  ghost predicate WellShapedSelectors(e: Ethers) {
    forall s :: |e.keccakSelector(s)| == 10
  }

  /** The texts of `xs` with `sep` between neighbours. */
  function Join(xs: seq<string>, sep: string): (r: string) {
    if |xs| == 0 then ""
    else if |xs| == 1 then xs[0]
    else xs[0] + sep + Join(xs[1..], sep)
  }

  /** The canonical signature: name and parenthesised parameter types, split by single commas. */
  function CanonicalSignature(f: Fragment): (r: string) {
    f.name + "(" + Join(f.inputs, ",") + ")"
  }

  /** The sighash of a fragment: the selector of its canonical signature. */
  function FragmentSighash(e: Ethers, f: Fragment): (r: string)
    ensures WellShapedSelectors(e) ==> |r| == 10
  {
    e.keccakSelector(CanonicalSignature(f))
  }

  /** `data.substring(0, 10)`: the first ten characters of the call data, "0x" and four bytes. */
  function DataSighash(data: string): (r: string)
    ensures |r| == if |data| < 10 then |data| else 10
    ensures r <= data
  {
    if |data| < 10 then data else data[..10]
  }

  /** `data.substring(10)`: the payload after the selector. */
  function Payload(data: string): (r: string)
    ensures DataSighash(data) + r == data
  {
    if |data| < 10 then "" else data[10..]
  }

  /** The canonical signature of EIP-20 `transfer`, whose selector is 0xa9059cbb. */
  lemma TransferCanonicalSignature()
    ensures CanonicalSignature(Fragment("transfer", ["address", "uint256"])) == "transfer(address,uint256)"
  {
    assert Join(["address", "uint256"], ",") == "address" + "," + Join(["uint256"], ",");
  }

  /** The index of the first element satisfying `p`, or None when there is none. */
  function FirstIndex<T>(s: seq<T>, p: T -> bool): (r: Option<nat>)
    ensures r.None? <==> forall j :: 0 <= j < |s| ==> !p(s[j])
    ensures r.Some? ==> r.value < |s| && p(s[r.value])
    ensures r.Some? ==> forall j :: 0 <= j < r.value ==> !p(s[j])
  {
    if |s| == 0 then None
    else if p(s[0]) then Some(0)
    else match FirstIndex(s[1..], p)
      case None =>
        assert forall j :: 1 <= j < |s| ==> s[j] == s[1..][j - 1];
        None
      case Some(k) =>
        assert forall j :: 1 <= j < k + 1 ==> s[j] == s[1..][j - 1];
        Some(k + 1)
  }

  /** The test a fragment passes when its sighash is `key`. */
  function HasSighash(e: Ethers, key: string): (p: Fragment -> bool) {
    f => FragmentSighash(e, f) == key
  }

  /** `i` is the first position in `iface` whose fragment has sighash `key`. */
  predicate IsFirstWithSighash(e: Ethers, iface: Interface, key: string, i: int) {
    && 0 <= i < |iface|
    && FragmentSighash(e, iface[i]) == key
    && forall j :: 0 <= j < i ==> FragmentSighash(e, iface[j]) != key
  }

  /** `Interface.getFunction(sighash)`: the first fragment, in declared order, whose sighash is `key`. */
  function GetFunction(e: Ethers, iface: Interface, key: string): (r: Option<Fragment>)
    ensures r.None? <==> forall j :: 0 <= j < |iface| ==> FragmentSighash(e, iface[j]) != key
    ensures r.Some? ==> exists i :: IsFirstWithSighash(e, iface, key, i) && iface[i] == r.value
  {
    match FirstIndex(iface, HasSighash(e, key))
    case None => None
    case Some(i) => Some(iface[i])
  }

  /** A typed argument: the ABI type it was read as and the 256-bit word of its slot. */
  datatype Arg = Arg(typeName: string, value: nat)

  /** Characters per 32-byte slot in hex text. */
  const SlotChars: nat := 64

  /** Hex digits of a 20-byte address. */
  const AddressChars: nat := 40

  predicate AllDigits(s: string) {
    forall i :: 0 <= i < |s| ==> '0' <= s[i] <= '9'
  }

  /** The number a decimal digit string denotes, as `parseInt` reads it (leading zeros allowed). */
  function DecimalValue(s: string): (r: nat)
    requires AllDigits(s)
    ensures |s| == 0 ==> r == 0
  {
    if |s| == 0 then 0 else DecimalValue(s[..|s| - 1]) * 10 + (s[|s| - 1] as int - '0' as int)
  }

  /** The width suffix of `uint`/`int`: absent (256 bits) or a multiple of 8 in 8..256. */
  predicate IsIntegerWidth(d: string) {
    AllDigits(d) && (|d| == 0 || (0 < DecimalValue(d) <= 256 && DecimalValue(d) % 8 == 0))
  }

  /** The width suffix of `bytes<M>`: 1..32 bytes. */
  predicate IsBytesWidth(d: string) {
    |d| > 0 && AllDigits(d) && 0 < DecimalValue(d) <= 32
  }

  /** Types encoded in place in one slot: address, bool, uint<M>, int<M> and bytes<M>. */
  predicate IsStaticType(t: string) {
    || t == "address"
    || t == "bool"
    || (|t| >= 4 && t[..4] == "uint" && IsIntegerWidth(t[4..]))
    || (|t| >= 3 && t[..3] == "int" && IsIntegerWidth(t[3..]))
    || (|t| >= 5 && t[..5] == "bytes" && IsBytesWidth(t[5..]))
  }

  /** A slot's word is acceptable for its type: an address word must fit in 20 bytes. */
  predicate WordFits(t: string, v: nat) {
    t == "address" ==> v < Pow16(AddressChars)
  }

  /** The i-th slot of a payload. */
  function Slot(payload: string, i: nat): (r: string)
    requires |payload| >= SlotChars * (i + 1)
    ensures |r| == SlotChars
  {
    payload[SlotChars * i..SlotChars * (i + 1)]
  }

  /** The payload holds, for each type in turn, a hex slot whose word fits that type. */
  predicate SlotsFit(types: seq<string>, payload: string) {
    && |payload| >= SlotChars * |types|
    && forall i :: 0 <= i < |types| ==> IsHexString(Slot(payload, i)) && WordFits(types[i], Value(Slot(payload, i)))
  }

  /**
   * Static-slot decoding of a payload against input types, read positionally.
   * A dynamic type, a payload too short for the static region, a non-hex character
   * in it or an address word wider than 20 bytes is a decode failure; characters
   * after the region are not read.
   */
  function DecodeStatic(types: seq<string>, payload: string): (r: Option<seq<Arg>>)
    ensures r.Some? ==> |r.value| == |types|
  {
    if |types| == 0 then Some([])
    else if !IsStaticType(types[0]) || |payload| < SlotChars || !IsHexString(payload[..SlotChars])
         || !WordFits(types[0], Value(payload[..SlotChars])) then
      None
    else
      match DecodeStatic(types[1..], payload[SlotChars..])
      case None => None
      case Some(args) => Some([Arg(types[0], Value(payload[..SlotChars]))] + args)
  }

  /** The slots fit when the first does and the rest fit the remaining types. */
  lemma SlotsFitStep(types: seq<string>, payload: string)
    requires |types| > 0 && |payload| >= SlotChars
    ensures SlotsFit(types, payload) <==>
      && IsHexString(payload[..SlotChars]) && WordFits(types[0], Value(payload[..SlotChars]))
      && SlotsFit(types[1..], payload[SlotChars..])
  {
    assert Slot(payload, 0) == payload[..SlotChars];
    var rest := payload[SlotChars..];
    if |payload| >= SlotChars * |types| {
      forall i | 1 <= i < |types|
        ensures Slot(payload, i) == Slot(rest, i - 1) && types[i] == types[1..][i - 1]
      {
      }
      if IsHexString(payload[..SlotChars]) && WordFits(types[0], Value(payload[..SlotChars])) && SlotsFit(types[1..], rest) {
        forall i | 0 <= i < |types|
          ensures IsHexString(Slot(payload, i)) && WordFits(types[i], Value(Slot(payload, i)))
        {
          if i > 0 {
            assert IsHexString(Slot(rest, i - 1)) && WordFits(types[1..][i - 1], Value(Slot(rest, i - 1)));
          }
        }
      }
      if SlotsFit(types, payload) {
        forall i | 0 <= i < |types| - 1
          ensures IsHexString(Slot(rest, i)) && WordFits(types[1..][i], Value(Slot(rest, i)))
        {
          assert IsHexString(Slot(payload, i + 1)) && WordFits(types[i + 1], Value(Slot(payload, i + 1)));
        }
      }
    }
  }

  /** Decoding succeeds exactly when every type is static and each slot is hex and fits its type. */
  lemma {:induction false} DecodeStaticSucceedsIff(types: seq<string>, payload: string)
    ensures DecodeStatic(types, payload).Some? <==>
      (forall i :: 0 <= i < |types| ==> IsStaticType(types[i])) && SlotsFit(types, payload)
  {
    if |types| > 0 && |payload| >= SlotChars {
      SlotsFitStep(types, payload);
      DecodeStaticSucceedsIff(types[1..], payload[SlotChars..]);
      assert forall i :: 0 <= i < |types| - 1 ==> types[1..][i] == types[i + 1];
    }
  }

  /** The i-th decoded argument is the i-th slot's value, tagged with the i-th type. */
  lemma {:induction false} DecodeStaticSlots(types: seq<string>, payload: string, i: nat)
    requires DecodeStatic(types, payload).Some?
    requires i < |types|
    ensures SlotChars * (i + 1) <= |payload| && IsHexString(Slot(payload, i))
    ensures DecodeStatic(types, payload).value[i] == Arg(types[i], Value(Slot(payload, i)))
  {
    assert |payload| >= SlotChars && IsHexString(payload[..SlotChars]);
    var rest := payload[SlotChars..];
    var tail := DecodeStatic(types[1..], rest);
    assert tail.Some? && DecodeStatic(types, payload).value == [Arg(types[0], Value(payload[..SlotChars]))] + tail.value;
    if i == 0 {
      assert Slot(payload, 0) == payload[..SlotChars];
    } else {
      DecodeStaticSlots(types[1..], rest, i - 1);
      assert Slot(payload, i) == Slot(rest, i - 1);
    }
  }

  /**
   * ethers' `decodeFunctionData` reads the data as bytes first: the whole payload
   * must be hex of even length, then its static slots are decoded.
   */
  function DecodeArguments(types: seq<string>, payload: string): (r: Option<seq<Arg>>)
    ensures r.Some? ==> IsHexString(payload) && |payload| % 2 == 0 && |r.value| == |types|
    ensures IsHexString(payload) && |payload| % 2 == 0 ==> r == DecodeStatic(types, payload)
  {
    if IsHexString(payload) && |payload| % 2 == 0 then DecodeStatic(types, payload) else None
  }

  /** Argument decoding succeeds exactly on whole hex bytes with a fitting slot for each static type. */
  lemma DecodeArgumentsSucceedsIff(types: seq<string>, payload: string)
    ensures DecodeArguments(types, payload).Some? <==>
      && IsHexString(payload) && |payload| % 2 == 0
      && (forall i :: 0 <= i < |types| ==> IsStaticType(types[i])) && SlotsFit(types, payload)
  {
    DecodeStaticSucceedsIff(types, payload);
  }

  /** The payload for static arguments: each word as one zero-padded 64-digit slot. */
  function EncodeWords(words: seq<nat>): (s: string)
    ensures |s| == SlotChars * |words| && IsHexString(s)
  {
    if |words| == 0 then "" else ToHex(words[0], SlotChars) + EncodeWords(words[1..])
  }

  lemma EncodeWordsSplit(words: seq<nat>)
    requires |words| > 0
    ensures EncodeWords(words)[..SlotChars] == ToHex(words[0], SlotChars)
    ensures EncodeWords(words)[SlotChars..] == EncodeWords(words[1..])
  {
  }

  /** Each word tagged with the type at its position. */
  function Tagged(types: seq<string>, words: seq<nat>): (r: seq<Arg>)
    requires |types| == |words|
    ensures |r| == |words|
    ensures forall i :: 0 <= i < |r| ==> r[i] == Arg(types[i], words[i])
  {
    if |words| == 0 then [] else [Arg(types[0], words[0])] + Tagged(types[1..], words[1..])
  }

  /** One decoding step: a static first type and a fitting hex first slot, then the rest. */
  lemma DecodeStaticStep(types: seq<string>, payload: string, head: nat, rest: seq<Arg>)
    requires |types| > 0 && IsStaticType(types[0])
    requires |payload| >= SlotChars && IsHexString(payload[..SlotChars]) && Value(payload[..SlotChars]) == head
    requires WordFits(types[0], head)
    requires DecodeStatic(types[1..], payload[SlotChars..]) == Some(rest)
    ensures DecodeStatic(types, payload) == Some([Arg(types[0], head)] + rest)
  {
  }

  /** Words that static types can carry: one per type, each within a slot and fitting its type. */
  predicate Encodable(types: seq<string>, words: seq<nat>) {
    && |types| == |words|
    && (forall i :: 0 <= i < |types| ==> IsStaticType(types[i]) && WordFits(types[i], words[i]))
    && (forall i :: 0 <= i < |words| ==> words[i] < Pow16(SlotChars))
  }

  /** Dropping the first type and word keeps the rest encodable. */
  lemma EncodableTail(types: seq<string>, words: seq<nat>)
    requires Encodable(types, words) && |words| > 0
    ensures Encodable(types[1..], words[1..])
    ensures IsStaticType(types[0]) && WordFits(types[0], words[0]) && words[0] < Pow16(SlotChars)
  {
    assert forall i :: 0 <= i < |words| - 1 ==> types[1..][i] == types[i + 1] && words[1..][i] == words[i + 1];
  }

  /** Decoding the encoding of static arguments gives back each word, tagged with its type. */
  lemma {:induction false} DecodeEncodeWords(types: seq<string>, words: seq<nat>)
    requires Encodable(types, words)
    ensures DecodeStatic(types, EncodeWords(words)) == Some(Tagged(types, words))
  {
    if |words| > 0 {
      var payload := EncodeWords(words);
      EncodeWordsSplit(words);
      EncodableTail(types, words);
      ValueOfToHex(words[0], SlotChars);
      DecodeEncodeWords(types[1..], words[1..]);
      DecodeStaticStep(types, payload, words[0], Tagged(types[1..], words[1..]));
    }
  }

  /** Adding one slot keeps a digit count even. */
  lemma SlotKeepsEven(x: nat)
    requires x % 2 == 0
    ensures (SlotChars + x) % 2 == 0
  {
    assert SlotChars + x == 2 * (32 + x / 2);
  }

  /** The encoding consists of whole bytes: an even number of hex digits. */
  lemma {:induction false} EncodeWordsEven(words: seq<nat>)
    ensures |EncodeWords(words)| % 2 == 0
  {
    if |words| > 0 {
      var rest := EncodeWords(words[1..]);
      EncodeWordsEven(words[1..]);
      assert EncodeWords(words) == ToHex(words[0], SlotChars) + rest;
      SlotKeepsEven(|rest|);
    }
  }

  /** The encoding is whole hex bytes, so argument decoding reads it back as `DecodeStatic` does. */
  lemma DecodeArgumentsOfEncodeWords(types: seq<string>, words: seq<nat>)
    requires Encodable(types, words)
    ensures DecodeArguments(types, EncodeWords(words)) == Some(Tagged(types, words))
  {
    DecodeEncodeWords(types, words);
    EncodeWordsEven(words);
  }

  /** Valid integer widths and the `uint`/`int` aliases are static types. */
  lemma ValidIntegerWidthsAreStatic()
    ensures IsStaticType("uint256") && IsStaticType("uint8") && IsStaticType("int128") && IsStaticType("uint")
  {
    assert "256"[..2] == "25" && "25"[..1] == "2" && "128"[..2] == "12" && "12"[..1] == "1";
    assert "uint256"[..4] == "uint" && "uint256"[4..] == "256";
    assert "uint8"[..4] == "uint" && "uint8"[4..] == "8";
    assert "int128"[..3] == "int" && "int128"[3..] == "128";
    assert "uint"[..4] == "uint" && "uint"[4..] == "";
  }

  /** Byte widths in 1..32 are static types. */
  lemma ValidBytesWidthsAreStatic()
    ensures IsStaticType("bytes32") && IsStaticType("bytes1")
  {
    assert "32"[..1] == "3";
    assert "bytes32"[..5] == "bytes" && "bytes32"[5..] == "32";
    assert "bytes1"[..5] == "bytes" && "bytes1"[5..] == "1";
  }

  /** Integer widths that are zero, not a multiple of 8 or above 256 are not types. */
  lemma InvalidIntegerWidthsAreNotStatic()
    ensures !IsStaticType("uint7") && !IsStaticType("int0") && !IsStaticType("uint264")
  {
    assert "264"[..2] == "26" && "26"[..1] == "2";
    assert "uint7"[4..] == "7" && "int0"[3..] == "0" && "uint264"[4..] == "264";
    assert "uint7"[0] != "int"[0] && "uint264"[0] != "int"[0] && "int0"[0] != "uint"[0];
    assert "uint7"[0] != "bytes"[0] && "uint264"[0] != "bytes"[0] && "int0"[0] != "bytes"[0];
  }

  /** Byte widths outside 1..32 and the dynamic `bytes` and `string` are not static types. */
  lemma InvalidBytesWidthsAreNotStatic()
    ensures !IsStaticType("bytes99") && !IsStaticType("bytes0") && !IsStaticType("bytes") && !IsStaticType("string")
  {
    assert "99"[..1] == "9";
    assert "bytes99"[5..] == "99" && "bytes0"[5..] == "0" && "bytes"[5..] == "";
    assert "bytes99"[0] != "uint"[0] && "bytes99"[0] != "int"[0] && "bytes0"[0] != "uint"[0] && "bytes0"[0] != "int"[0];
    assert "bytes"[0] != "uint"[0] && "bytes"[0] != "int"[0] && "string"[0] != "uint"[0] && "string"[0] != "int"[0];
    assert "string"[0] != "bytes"[0];
  }
}
