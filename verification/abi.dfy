/** The strict event decoder, an encoder after the Contract ABI Specification, and their inversion. */
module Abi {
  import opened Wrappers
  import opened Text
  import opened Projector
  import opened Consumer
  import opened AbiTable
  import opened EventIds

  // ---------- words ----------

  predicate IsWord(s: string) {
    HasPrefix0x(s) && |s| == 66 && IsHex(s[2..])
  }

  function NormalizeWord(s: string): Option<string> {
    if IsWord(s) then Some(Lower(s)) else None
  }

  function NormalizeAddress(s: string): Option<string> {
    if HasPrefix0x(s) && |s| == 42 && IsHex(s[2..]) then Some(Lower(s)) else None
  }

  function Words(hex: string): (r: seq<string>)
    requires |hex| % 64 == 0
    ensures |r| == |hex| / 64
    ensures forall i :: 0 <= i < |r| ==> |r[i]| == 66
  {
    if hex == "" then [] else ["0x" + hex[..64]] + Words(hex[64..])
  }

  function DataWords(data: string): Option<seq<string>> {
    if HasPrefix0x(data) && (|data| - 2) % 64 == 0 && IsHex(data[2..]) then Some(Words(data[2..])) else None
  }

  /** `_decode_word`. */
  function DecodeWord(value: string, abiType: AbiType): Option<string> {
    if NormalizeWord(value).None? then None
    else
      var word := NormalizeWord(value).value;
      var raw := word[2..];
      HexOfLower(value[2..]);
      assert raw == Lower(value[2..]);
      match abiType
      case Address => if raw[..24] != Zeros(24) then None else Some("0x" + raw[24..])
      case Bytes32 => Some(word)
      case Bool =>
        var number := HexValue(raw);
        if number !in {0, 1} then None else Some(if number != 0 then "true" else "false")
      case Uint8 => if HexValue(raw) > 0xFF then None else Some(Decimal(HexValue(raw)))
      case Uint64 => if HexValue(raw) > 0xFFFFFFFFFFFFFFFF then None else Some(Decimal(HexValue(raw)))
      case Uint256 => Some(Decimal(HexValue(raw)))
  }

  lemma HexOfLower(s: string)
    ensures IsHex(s) ==> IsHex(Lower(s))
  {
    if IsHex(s) {
      HexValueOfLower(s);
    }
  }

  // ---------- values and their encoding ----------

  /** The number of values of a type; a value is its number in the 32-byte word. */
  function Limit(abiType: AbiType): nat {
    match abiType
    case Address => Pow16(40)
    case Bytes32 => Pow16(64)
    case Bool => 2
    case Uint8 => 0x100
    case Uint64 => 0x10000000000000000
    case Uint256 => Pow16(64)
  }

  function EncodeWord(value: nat): (s: string)
    ensures |s| == 66
  {
    "0x" + HexPad(value, 64)
  }

  /** How the payload prints a value. */
  function Render(abiType: AbiType, value: nat): string {
    match abiType
    case Address => "0x" + HexPad(value, 40)
    case Bytes32 => "0x" + HexPad(value, 64)
    case Bool => if value != 0 then "true" else "false"
    case Uint8 => Decimal(value)
    case Uint64 => Decimal(value)
    case Uint256 => Decimal(value)
  }

  function WordValue(word: string): nat
    requires IsWord(word)
  {
    HexValue(word[2..])
  }

  lemma EncodedWordIsWord(value: nat)
    requires value < Pow16(64)
    ensures IsWord(EncodeWord(value)) && WordValue(EncodeWord(value)) == value && IsLower(EncodeWord(value))
  {
    assert EncodeWord(value)[2..] == HexPad(value, 64);
    HexPadIsHex(value, 64);
    HexValueOfPad(value, 64);
  }

  /** A word is, up to letter case, the encoding of its value. */
  lemma WordIsEncoding(word: string)
    requires IsWord(word)
    ensures Lower(word) == EncodeWord(WordValue(word)) && WordValue(word) < Pow16(64)
  {
    HexPadOfValue(word[2..]);
    assert Lower(word) == "0x" + Lower(word[2..]);
  }

  lemma LimitFitsWord(abiType: AbiType)
    ensures Limit(abiType) <= Pow16(64)
  {
    match abiType
    case Address => Pow16Monotone(40, 64);
    case Bool => SmallPowers(); Pow16Monotone(2, 64);
    case Uint8 => SmallPowers(); Pow16Monotone(2, 64);
    case Uint64 => SmallPowers(); Pow16Monotone(16, 64);
    case _ =>
  }

  lemma SmallPowers()
    ensures Pow16(2) == 0x100 && Pow16(16) == 0x10000000000000000
  {
    assert Pow16(4) == 0x10000;
    assert Pow16(8) == 0x100000000;
    assert Pow16(12) == 0x1000000000000;
  }

  lemma SmallHasLeadingZeros(value: nat, v: nat, w: nat)
    requires v <= w && value < Pow16(v)
    ensures HexPad(value, w)[..w - v] == Zeros(w - v) && HexPad(value, w)[w - v..] == HexPad(value, v)
  {
    HexPadWider(value, v, w);
  }

  lemma LeadingZerosMeanSmall(text: string, n: nat)
    requires n <= |text| && IsHex(text) && text[..n] == Zeros(n)
    ensures HexValue(text) < Pow16(|text| - n)
  {
    assert text == text[..n] + text[n..];
    LeadingZerosAddNothing(n, text[n..]);
  }

  lemma {:induction false} LeadingZerosAddNothing(w: nat, s: string)
    requires IsHex(s)
    ensures IsHex(Zeros(w) + s) && HexValue(Zeros(w) + s) == HexValue(s)
    decreases |s|, w
  {
    var t := Zeros(w) + s;
    if s != "" {
      LeadingZerosAddNothing(w, s[..|s| - 1]);
      assert t[..|t| - 1] == Zeros(w) + s[..|s| - 1];
    } else if w > 0 {
      LeadingZerosAddNothing(w - 1, "");
      assert t[..w - 1] == Zeros(w - 1) + "";
    } else {
      assert t == s;
    }
  }

  lemma DecodeAddressExact(word: string)
    requires IsWord(word)
    ensures DecodeWord(word, Address) ==
            if WordValue(word) < Pow16(40) then Some("0x" + HexPad(WordValue(word), 40)) else None
  {
    var raw := Lower(word[2..]);
    assert Lower(word)[2..] == raw;
    HexPadOfValue(word[2..]);
    HexValueOfLower(word[2..]);
    if WordValue(word) < Pow16(40) {
      SmallHasLeadingZeros(WordValue(word), 40, 64);
    } else if raw[..24] == Zeros(24) {
      LeadingZerosMeanSmall(raw, 24);
    }
  }

  lemma DecodeNumberExact(word: string, abiType: AbiType)
    requires IsWord(word) && !abiType.Address? && !abiType.Bytes32?
    ensures DecodeWord(word, abiType) ==
            if WordValue(word) < Limit(abiType) then Some(Render(abiType, WordValue(word))) else None
  {
    HexValueOfLower(word[2..]);
    assert Lower(word)[2..] == Lower(word[2..]);
    if abiType.Uint256? {
      WordIsEncoding(word);
    }
  }

  /** A word decodes exactly when its value is in range, and then to the print of that value. */
  lemma DecodeWordExact(word: string, abiType: AbiType)
    ensures DecodeWord(word, abiType) ==
            if IsWord(word) && WordValue(word) < Limit(abiType) then Some(Render(abiType, WordValue(word))) else None
  {
    if IsWord(word) {
      if abiType.Address? {
        DecodeAddressExact(word);
      } else if abiType.Bytes32? {
        WordIsEncoding(word);
      } else {
        DecodeNumberExact(word, abiType);
      }
    }
  }

  lemma RenderInjective(abiType: AbiType, a: nat, b: nat)
    requires a < Limit(abiType) && b < Limit(abiType) && Render(abiType, a) == Render(abiType, b)
    ensures a == b
  {
    match abiType {
      case Address =>
        assert HexPad(a, 40) == Render(abiType, a)[2..] == HexPad(b, 40);
        HexValueOfPad(a, 40);
        HexValueOfPad(b, 40);
      case Bytes32 =>
        assert HexPad(a, 64) == Render(abiType, a)[2..] == HexPad(b, 64);
        HexValueOfPad(a, 64);
        HexValueOfPad(b, 64);
      case Bool =>
        assert |"true"| != |"false"|;
      case _ =>
        DecimalInjective(a, b);
    }
  }

  // ---------- the fields of one event ----------

  function Count(fields: seq<Field>, indexed: bool): nat {
    if fields == [] then 0 else (if fields[0].indexed == indexed then 1 else 0) + Count(fields[1..], indexed)
  }

  /** Takes each field's word from the topics or from the data, in field order. */
  function Merge(fields: seq<Field>, topics: seq<string>, words: seq<string>): Option<seq<(string, string)>>
    requires |topics| == Count(fields, true) && |words| == Count(fields, false)
  {
    if fields == [] then Some([])
    else
      var f := fields[0];
      var raw := if f.indexed then topics[0] else words[0];
      var rest := Merge(fields[1..], if f.indexed then topics[1..] else topics,
                        if f.indexed then words else words[1..]);
      var text := DecodeWord(raw, f.abiType);
      if text.None? || rest.None? then None else Some([(f.name, text.value)] + rest.value)
  }

  predicate InRange(fields: seq<Field>, values: seq<nat>) {
    |values| == |fields| && forall i :: 0 <= i < |fields| ==> values[i] < Limit(fields[i].abiType)
  }

  function Rendered(fields: seq<Field>, values: seq<nat>): (r: seq<(string, string)>)
    requires |values| == |fields|
    ensures |r| == |fields|
    ensures forall i :: 0 <= i < |r| ==> r[i] == (fields[i].name, Render(fields[i].abiType, values[i]))
  {
    seq(|fields|, i requires 0 <= i < |fields| && |values| == |fields| =>
      (fields[i].name, Render(fields[i].abiType, values[i])))
  }

  /** The encoded words of the indexed, or of the other, fields. */
  function Slots(fields: seq<Field>, values: seq<nat>, indexed: bool): (r: seq<string>)
    requires |values| == |fields|
    ensures |r| == Count(fields, indexed)
  {
    if fields == [] then []
    else
      (if fields[0].indexed == indexed then [EncodeWord(values[0])] else []) + Slots(fields[1..], values[1..], indexed)
  }

  lemma RenderedCons(fields: seq<Field>, value: nat, rest: seq<nat>)
    requires |fields| == |rest| + 1
    ensures Rendered(fields, [value] + rest) ==
            [(fields[0].name, Render(fields[0].abiType, value))] + Rendered(fields[1..], rest)
  {
  }

  lemma SlotsCons(fields: seq<Field>, value: nat, rest: seq<nat>, indexed: bool)
    requires |fields| == |rest| + 1
    ensures Slots(fields, [value] + rest, indexed) ==
            if fields[0].indexed == indexed then [EncodeWord(value)] + Slots(fields[1..], rest, indexed)
            else Slots(fields[1..], rest, indexed)
  {
    assert ([value] + rest)[1..] == rest;
    assert [] + Slots(fields[1..], rest, indexed) == Slots(fields[1..], rest, indexed);
  }

  lemma LowerAllCons(ss: seq<string>)
    requires ss != []
    ensures LowerAll(ss) == [Lower(ss[0])] + LowerAll(ss[1..])
  {
  }

  lemma {:induction false} MergeOfSlots(fields: seq<Field>, values: seq<nat>)
    requires InRange(fields, values)
    ensures Merge(fields, Slots(fields, values, true), Slots(fields, values, false)) == Some(Rendered(fields, values))
  {
    if fields != [] {
      var f, value, rest := fields[0], values[0], values[1..];
      MergeOfSlots(fields[1..], rest);
      LimitFitsWord(f.abiType);
      EncodedWordIsWord(value);
      DecodeWordExact(EncodeWord(value), f.abiType);
      assert values == [value] + rest;
      SlotsCons(fields, value, rest, true);
      SlotsCons(fields, value, rest, false);
      RenderedCons(fields, value, rest);
      assert Slots(fields, values, f.indexed)[1..] == Slots(fields[1..], rest, f.indexed);
    }
  }

  /** Whatever merges is, up to letter case, the encoding of in-range values that print as the result. */
  lemma {:induction false} MergedIsEncoding(fields: seq<Field>, topics: seq<string>, words: seq<string>)
    returns (values: seq<nat>)
    requires |topics| == Count(fields, true) && |words| == Count(fields, false)
    requires Merge(fields, topics, words).Some?
    ensures InRange(fields, values)
    ensures Merge(fields, topics, words).value == Rendered(fields, values)
    ensures LowerAll(topics) == Slots(fields, values, true) && LowerAll(words) == Slots(fields, values, false)
  {
    if fields == [] {
      values := [];
    } else {
      var f := fields[0];
      var raw := if f.indexed then topics[0] else words[0];
      var topics1, words1 := if f.indexed then topics[1..] else topics, if f.indexed then words else words[1..];
      var rest := MergedIsEncoding(fields[1..], topics1, words1);
      DecodeWordExact(raw, f.abiType);
      WordIsEncoding(raw);
      var value := WordValue(raw);
      values := [value] + rest;
      SlotsCons(fields, value, rest, true);
      SlotsCons(fields, value, rest, false);
      RenderedCons(fields, value, rest);
      LowerAllCons(if f.indexed then topics else words);
    }
  }

  lemma RenderedInjective(fields: seq<Field>, a: seq<nat>, b: seq<nat>)
    requires InRange(fields, a) && InRange(fields, b) && Rendered(fields, a) == Rendered(fields, b)
    ensures a == b
  {
    forall i | 0 <= i < |fields| ensures a[i] == b[i] {
      assert Rendered(fields, a)[i] == Rendered(fields, b)[i];
      RenderInjective(fields[i].abiType, a[i], b[i]);
    }
  }

  // ---------- data words ----------

  function DataText(words: seq<string>): string
    requires forall i :: 0 <= i < |words| ==> |words[i]| == 66
  {
    if words == [] then "" else words[0][2..] + DataText(words[1..])
  }

  lemma {:induction false} WordsOfDataText(words: seq<string>)
    requires forall i :: 0 <= i < |words| ==> |words[i]| == 66 && IsWord(words[i])
    ensures |DataText(words)| == 64 * |words| && IsHex(DataText(words)) && Words(DataText(words)) == words
  {
    if words != [] {
      var first, rest := words[0][2..], DataText(words[1..]);
      assert IsWord(words[0]);
      WordsOfDataText(words[1..]);
      assert (first + rest)[..64] == first && (first + rest)[64..] == rest;
      assert "0x" + first == words[0];
    }
  }

  lemma {:induction false} LowerWords(hex: string)
    requires |hex| % 64 == 0
    ensures LowerAll(Words(hex)) == Words(Lower(hex))
    ensures DataText(Words(hex)) == hex
  {
    if hex != "" {
      LowerWords(hex[64..]);
      assert Lower(hex)[..64] == Lower(hex[..64]) && Lower(hex)[64..] == Lower(hex[64..]);
      assert Lower("0x" + hex[..64]) == "0x" + Lower(hex[..64]);
      LowerAllCons(Words(hex));
      assert Words(hex)[1..] == Words(hex[64..]);
      assert hex == hex[..64] + hex[64..];
      assert ("0x" + hex[..64])[2..] == hex[..64];
    }
  }

  lemma {:induction false} SlotsAreWords(fields: seq<Field>, values: seq<nat>, indexed: bool)
    requires InRange(fields, values)
    ensures forall i :: 0 <= i < |Slots(fields, values, indexed)| ==>
              |Slots(fields, values, indexed)[i]| == 66 && IsWord(Slots(fields, values, indexed)[i])
  {
    if fields != [] {
      SlotsAreWords(fields[1..], values[1..], indexed);
      LimitFitsWord(fields[0].abiType);
      EncodedWordIsWord(values[0]);
    }
  }

  // ---------- whole logs ----------

  /** The payload of an event with the given fields. */
  function DecodeFields(fields: seq<Field>, topics: seq<string>, data: string): Option<seq<(string, string)>> {
    if |topics| != 1 + Count(fields, true) then None
    else
      var words := DataWords(data);
      if words.None? || |words.value| != Count(fields, false) then None
      else Merge(fields, topics[1..], words.value)
  }

  /** The name and payload that topics and data stand for. */
  function DecodeBody(topics: seq<string>, data: string): Option<(string, seq<(string, string)>)> {
    if topics == [] || !IsWord(topics[0]) then None
    else
      var found := ByTopic(WordValue(topics[0]));
      if found.None? then None
      else
        var payload := DecodeFields(Fields(found.value), topics, data);
        if payload.None? then None else Some((Name(found.value), payload.value))
  }

  /** `decode_secure_asset_log`. */
  function Decode(log: RawChainLog, chainId: int, contract: string, version: int): Decoded {
    if chainId < 1 || version < 1 then Malformed
    else if NormalizeAddress(log.address) != NormalizeAddress(contract) then Malformed
    else if NormalizeAddress(contract).None? then Malformed
    else if !HasPrefix0x(log.transactionHash) || |log.transactionHash| != 66 then Malformed
    else
      var body := DecodeBody(log.topics, log.data);
      if body.None? then Malformed
      else Event(CanonicalEvent(
        EventKey(chainId, Lower(contract), Lower(log.transactionHash), log.logIndex, version),
        log.blockNumber, log.blockHash, body.value.0, body.value.1))
  }

  /** The table is keyed by lower-case topic text; looking up by the number of the word finds the same spec. */
  lemma LookupByText(word: string, spec: Spec)
    requires IsWord(word)
    ensures ByTopic(WordValue(word)) == Some(spec) <==> Lower(word) == EncodeWord(Topic(spec))
  {
    WordIsEncoding(word);
    ByTopicExact(WordValue(word), spec);
    if Lower(word) == EncodeWord(Topic(spec)) {
      TopicFits(spec);
      EncodedWordIsWord(Topic(spec));
      HexValueOfLower(word[2..]);
      assert Lower(word)[2..] == Lower(word[2..]);
    }
  }

  lemma TopicFits(spec: Spec)
    ensures Topic(spec) < Pow16(64)
  {
    ByTopicExact(Topic(spec), spec);
    WordLimit(16);
  }

  lemma WordLimit(w: nat)
    requires w == 16
    ensures Pow16(4 * w) == 0x1_0000000000000000_0000000000000000_0000000000000000_0000000000000000
  {
    SmallPowers();
    Pow16Adds(w, w);
    Pow16Adds(2 * w, 2 * w);
  }

  lemma {:induction false} Pow16Adds(v: nat, w: nat)
    ensures Pow16(v + w) == Pow16(v) * Pow16(w)
  {
    if w > 0 {
      Pow16Adds(v, w - 1);
      assert Pow16(v) * (16 * Pow16(w - 1)) == 16 * (Pow16(v) * Pow16(w - 1));
    }
  }

  function FieldData(fields: seq<Field>, values: seq<nat>): string
    requires InRange(fields, values)
  {
    SlotsAreWords(fields, values, false);
    "0x" + DataText(Slots(fields, values, false))
  }

  function EncodedTopics(spec: Spec, values: seq<nat>): seq<string>
    requires |values| == |Fields(spec)|
  {
    [EncodeWord(Topic(spec))] + Slots(Fields(spec), values, true)
  }

  function EncodedData(spec: Spec, values: seq<nat>): string
    requires InRange(Fields(spec), values)
  {
    FieldData(Fields(spec), values)
  }

  /** The parts of a log outside its topics and data that the decoder insists on. */
  predicate Addressed(log: RawChainLog, chainId: int, contract: string, version: int) {
    && chainId >= 1 && version >= 1
    && NormalizeAddress(contract).Some? && NormalizeAddress(log.address) == NormalizeAddress(contract)
    && HasPrefix0x(log.transactionHash) && |log.transactionHash| == 66
  }

  lemma DataOfWords(words: seq<string>)
    requires forall i :: 0 <= i < |words| ==> |words[i]| == 66 && IsWord(words[i])
    ensures DataWords("0x" + DataText(words)) == Some(words)
  {
    WordsOfDataText(words);
    assert ("0x" + DataText(words))[2..] == DataText(words);
  }

  lemma LowerData(data: string)
    requires DataWords(data).Some?
    ensures forall i :: 0 <= i < |LowerAll(DataWords(data).value)| ==> |LowerAll(DataWords(data).value)[i]| == 66
    ensures Lower(data) == "0x" + DataText(LowerAll(DataWords(data).value))
  {
    var hex := data[2..];
    LowerWords(hex);
    LowerWords(Lower(hex));
    assert Lower(data) == "0x" + Lower(hex);
  }

  lemma FieldsOfEncoded(fields: seq<Field>, values: seq<nat>, signature: string)
    requires InRange(fields, values)
    ensures DecodeFields(fields, [signature] + Slots(fields, values, true), FieldData(fields, values)) ==
            Some(Rendered(fields, values))
  {
    SlotsAreWords(fields, values, false);
    DataOfWords(Slots(fields, values, false));
    assert ([signature] + Slots(fields, values, true))[1..] == Slots(fields, values, true);
    MergeOfSlots(fields, values);
  }

  lemma FieldsAreEncoding(fields: seq<Field>, topics: seq<string>, data: string) returns (values: seq<nat>)
    requires DecodeFields(fields, topics, data).Some?
    ensures InRange(fields, values) && DecodeFields(fields, topics, data).value == Rendered(fields, values)
    ensures topics != [] && LowerAll(topics) == [Lower(topics[0])] + Slots(fields, values, true)
    ensures Lower(data) == FieldData(fields, values)
  {
    values := MergedIsEncoding(fields, topics[1..], DataWords(data).value);
    LowerAllCons(topics);
    LowerData(data);
  }

  lemma BodyOfEncoded(spec: Spec, values: seq<nat>)
    requires InRange(Fields(spec), values)
    ensures DecodeBody(EncodedTopics(spec, values), EncodedData(spec, values)) ==
            Some((Name(spec), Rendered(Fields(spec), values)))
  {
    TopicFits(spec);
    EncodedWordIsWord(Topic(spec));
    ByTopicExact(Topic(spec), spec);
    FieldsOfEncoded(Fields(spec), values, EncodeWord(Topic(spec)));
  }

  lemma BodyIsEncoding(topics: seq<string>, data: string) returns (spec: Spec, values: seq<nat>)
    requires DecodeBody(topics, data).Some?
    ensures InRange(Fields(spec), values)
    ensures DecodeBody(topics, data).value == (Name(spec), Rendered(Fields(spec), values))
    ensures LowerAll(topics) == EncodedTopics(spec, values) && Lower(data) == EncodedData(spec, values)
  {
    spec := ByTopic(WordValue(topics[0])).value;
    values := FieldsAreEncoding(Fields(spec), topics, data);
    LookupByText(topics[0], spec);
  }

  /** Decoding inverts encoding. */
  lemma DecodeOfEncoded(log: RawChainLog, chainId: int, contract: string, version: int, spec: Spec, values: seq<nat>)
    requires Addressed(log, chainId, contract, version) && InRange(Fields(spec), values)
    requires log.topics == EncodedTopics(spec, values) && log.data == EncodedData(spec, values)
    ensures Decode(log, chainId, contract, version) == Event(CanonicalEvent(
              EventKey(chainId, Lower(contract), Lower(log.transactionHash), log.logIndex, version),
              log.blockNumber, log.blockHash, Name(spec), Rendered(Fields(spec), values)))
  {
    BodyOfEncoded(spec, values);
  }

  /** Encoding inverts decoding: an accepted log is, up to hex letter case, the encoding of what it decodes to. */
  lemma AcceptedIsEncoding(log: RawChainLog, chainId: int, contract: string, version: int)
    returns (spec: Spec, values: seq<nat>)
    requires Decode(log, chainId, contract, version).Event?
    ensures Addressed(log, chainId, contract, version) && InRange(Fields(spec), values)
    ensures Decode(log, chainId, contract, version) == Event(CanonicalEvent(
              EventKey(chainId, Lower(contract), Lower(log.transactionHash), log.logIndex, version),
              log.blockNumber, log.blockHash, Name(spec), Rendered(Fields(spec), values)))
    ensures LowerAll(log.topics) == EncodedTopics(spec, values) && Lower(log.data) == EncodedData(spec, values)
  {
    spec, values := BodyIsEncoding(log.topics, log.data);
  }

  /** Accepted logs with equal decoded output have equal topics and data, up to hex letter case. */
  lemma DecodedDeterminesText(a: RawChainLog, b: RawChainLog, chainId: int, contract: string, version: int)
    requires Decode(a, chainId, contract, version).Event? && Decode(b, chainId, contract, version).Event?
    requires Decode(a, chainId, contract, version).event.name == Decode(b, chainId, contract, version).event.name
    requires Decode(a, chainId, contract, version).event.payload == Decode(b, chainId, contract, version).event.payload
    ensures LowerAll(a.topics) == LowerAll(b.topics) && Lower(a.data) == Lower(b.data)
  {
    var spec, values := AcceptedIsEncoding(a, chainId, contract, version);
    var spec', values' := AcceptedIsEncoding(b, chainId, contract, version);
    NamesDistinct(spec, spec');
    RenderedInjective(Fields(spec), values, values');
  }

  // ---------- the decoder that the scanners use ----------

  function DecoderFor(chainId: int, contract: string): Decoder {
    log => Decode(log, chainId, contract, 1)
  }

  /** It copies the block identity, and its keys have the fixed lower-case shape. */
  lemma DecoderFaithful(chainId: int, contract: string)
    ensures CopiesBlock(DecoderFor(chainId, contract))
    ensures forall log :: Decode(log, chainId, contract, 1).Event? ==>
              var k := Decode(log, chainId, contract, 1).event.key;
              DecoderShaped(k) && k.chainId == chainId && k.contractAddress == Lower(contract)
  {
    forall log | Decode(log, chainId, contract, 1).Event?
      ensures DecoderShaped(Decode(log, chainId, contract, 1).event.key)
    {
      LowerIsLower(contract);
      LowerIsLower(log.transactionHash);
    }
  }

  /** The loop of the decoder: two cursors feed the fields in order. */
  method MergeFields(fields: seq<Field>, topics: seq<string>, words: seq<string>)
    returns (r: Option<seq<(string, string)>>)
    requires |topics| == Count(fields, true) && |words| == Count(fields, false)
    ensures r == Merge(fields, topics, words)
  {
    var payload: seq<(string, string)> := [];
    var indexedValues, dataValues := topics, words;
    ghost var rest := fields;
    PrependNothing(Merge(fields, topics, words));
    for i := 0 to |fields|
      invariant rest == fields[i..]
      invariant |indexedValues| == Count(rest, true) && |dataValues| == Count(rest, false)
      invariant Merge(fields, topics, words) == Prepend(payload, Merge(rest, indexedValues, dataValues))
    {
      var field := fields[i];
      assert rest[0] == field && rest[1..] == fields[i + 1..];
      rest := rest[1..];
      var raw;
      if field.indexed {
        raw, indexedValues := indexedValues[0], indexedValues[1..];
      } else {
        raw, dataValues := dataValues[0], dataValues[1..];
      }
      var text := DecodeWord(raw, field.abiType);
      if text.None? {
        return None;
      }
      PrependPrepend(payload, (field.name, text.value), Merge(rest, indexedValues, dataValues));
      payload := payload + [(field.name, text.value)];
    }
    assert Merge(rest, indexedValues, dataValues) == Some([]);
    assert payload + [] == payload;
    return Some(payload);
  }

  lemma PrependNothing(rest: Option<seq<(string, string)>>)
    ensures Prepend([], rest) == rest
  {
    if rest.Some? {
      assert [] + rest.value == rest.value;
    }
  }

  function Prepend(payload: seq<(string, string)>, rest: Option<seq<(string, string)>>): Option<seq<(string, string)>> {
    if rest.None? then None else Some(payload + rest.value)
  }

  lemma PrependPrepend(payload: seq<(string, string)>, entry: (string, string), rest: Option<seq<(string, string)>>)
    ensures Prepend(payload, Prepend([entry], rest)) == Prepend(payload + [entry], rest)
  {
    if rest.Some? {
      assert payload + ([entry] + rest.value) == payload + [entry] + rest.value;
    }
  }

  method DecodeSecureAssetLog(log: RawChainLog, chainId: int, contract: string, version: int)
      returns (r: Outcome<CanonicalEvent>)
    ensures r == if Decode(log, chainId, contract, version).Event?
                 then Returned(Decode(log, chainId, contract, version).event) else Raised(AbiDecodeError)
  {
    if chainId < 1 || version < 1 {
      return Raised(AbiDecodeError);
    }
    var normalized := NormalizeAddress(contract);
    if NormalizeAddress(log.address) != normalized || normalized.None? {
      return Raised(AbiDecodeError);
    }
    if !HasPrefix0x(log.transactionHash) || |log.transactionHash| != 66 {
      return Raised(AbiDecodeError);
    }
    if log.topics == [] || !IsWord(log.topics[0]) {
      return Raised(AbiDecodeError);
    }
    var found := ByTopic(WordValue(log.topics[0]));
    if found.None? {
      return Raised(AbiDecodeError);
    }
    var fields := Fields(found.value);
    if |log.topics| != 1 + Count(fields, true) {
      return Raised(AbiDecodeError);
    }
    var words := DataWords(log.data);
    if words.None? || |words.value| != Count(fields, false) {
      return Raised(AbiDecodeError);
    }
    var payload := MergeFields(fields, log.topics[1..], words.value);
    if payload.None? {
      return Raised(AbiDecodeError);
    }
    var key := EventKey(chainId, normalized.value, Lower(log.transactionHash), log.logIndex, version);
    return Returned(CanonicalEvent(key, log.blockNumber, log.blockHash, Name(found.value), payload.value));
  }
}
