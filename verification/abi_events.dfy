/** What each of the seventeen events decodes to, for logs made of literal topics and data words. */
module AbiEvents {
  import opened Wrappers
  import opened Text
  import opened Projector
  import opened Consumer
  import opened AbiTable
  import opened Abi

  /** Numbers as topics. */
  function WordsOf(ns: seq<nat>): (r: seq<string>)
    ensures |r| == |ns| && forall i :: 0 <= i < |r| ==> r[i] == EncodeWord(ns[i])
  {
    seq(|ns|, i requires 0 <= i < |ns| => EncodeWord(ns[i]))
  }

  function Digits(ns: seq<nat>): string {
    if ns == [] then "" else HexPad(ns[0], 64) + Digits(ns[1..])
  }

  /** Numbers as data. */
  function DataOf(ns: seq<nat>): string {
    "0x" + Digits(ns)
  }

  ghost predicate AreWords(ns: seq<nat>) {
    forall i :: 0 <= i < |ns| ==> ns[i] < Pow16(64)
  }

  /** The event of a log with the given name and payload: everything else is copied or lower-cased. */
  function Says(log: RawChainLog, chainId: int, contract: string, version: int, name: string,
                payload: seq<(string, string)>): Decoded
  {
    Event(CanonicalEvent(
            EventKey(chainId, Lower(contract), Lower(log.transactionHash), log.logIndex, version),
            log.blockNumber, log.blockHash, name, payload))
  }

  /** The values of the indexed, or of the other, fields. */
  function Pick(fields: seq<Field>, values: seq<nat>, indexed: bool): seq<nat>
    requires |values| == |fields|
  {
    if fields == [] then []
    else (if fields[0].indexed == indexed then [values[0]] else []) + Pick(fields[1..], values[1..], indexed)
  }

  lemma {:induction false} SlotsArePicked(fields: seq<Field>, values: seq<nat>, indexed: bool)
    requires |values| == |fields|
    ensures Slots(fields, values, indexed) == WordsOf(Pick(fields, values, indexed))
    decreases |fields|
  {
    if fields != [] {
      SlotsArePicked(fields[1..], values[1..], indexed);
    }
  }

  lemma {:induction false} DataTextIsDigits(ns: seq<nat>)
    ensures DataText(WordsOf(ns)) == Digits(ns)
  {
    if ns != [] {
      DataTextIsDigits(ns[1..]);
      assert WordsOf(ns)[1..] == WordsOf(ns[1..]);
      assert EncodeWord(ns[0])[2..] == HexPad(ns[0], 64);
    }
  }

  lemma EncodeWordInjective(a: nat, b: nat)
    requires a < Pow16(64) && b < Pow16(64) && EncodeWord(a) == EncodeWord(b)
    ensures a == b
  {
    EncodedWordIsWord(a);
    EncodedWordIsWord(b);
  }

  lemma WordsAreLower(ns: seq<nat>)
    requires AreWords(ns)
    ensures LowerAll(WordsOf(ns)) == WordsOf(ns)
  {
    forall i | 0 <= i < |ns| ensures Lower(EncodeWord(ns[i])) == EncodeWord(ns[i]) {
      EncodedWordIsWord(ns[i]);
      LowerIsLower(EncodeWord(ns[i]));
    }
  }

  lemma {:induction false} DigitsInjective(a: seq<nat>, b: seq<nat>)
    requires AreWords(a) && AreWords(b) && |a| == |b| && Digits(a) == Digits(b)
    ensures a == b
  {
    if a != [] {
      assert HexPad(a[0], 64) == Digits(a)[..64] && HexPad(b[0], 64) == Digits(b)[..64];
      assert Digits(a[1..]) == Digits(a)[64..] && Digits(b[1..]) == Digits(b)[64..];
      HexValueOfPad(a[0], 64);
      HexValueOfPad(b[0], 64);
      DigitsInjective(a[1..], b[1..]);
    }
  }

  lemma {:induction false} DigitsAreLower(ns: seq<nat>)
    ensures IsLower(Digits(ns)) && |Digits(ns)| == 64 * |ns|
  {
    if ns != [] {
      HexPadIsHex(ns[0], 64);
      DigitsAreLower(ns[1..]);
    }
  }

  lemma {:induction false} PickInjective(fields: seq<Field>, a: seq<nat>, b: seq<nat>)
    requires |a| == |fields| == |b|
    requires Pick(fields, a, true) == Pick(fields, b, true) && Pick(fields, a, false) == Pick(fields, b, false)
    ensures a == b
    decreases |fields|
  {
    if fields != [] {
      var p := fields[0].indexed;
      assert Pick(fields, a, p)[0] == a[0] && Pick(fields, b, p)[0] == b[0];
      assert Pick(fields, a, p)[1..] == Pick(fields[1..], a[1..], p);
      assert Pick(fields, b, p)[1..] == Pick(fields[1..], b[1..], p);
      assert Pick(fields, a, !p) == Pick(fields[1..], a[1..], !p);
      assert Pick(fields, b, !p) == Pick(fields[1..], b[1..], !p);
      PickInjective(fields[1..], a[1..], b[1..]);
    }
  }

  lemma {:induction false} PickedAreWords(fields: seq<Field>, values: seq<nat>, indexed: bool)
    requires |values| == |fields| && AreWords(values)
    ensures AreWords(Pick(fields, values, indexed)) && |Pick(fields, values, indexed)| == Count(fields, indexed)
    decreases |fields|
  {
    if fields != [] {
      PickedAreWords(fields[1..], values[1..], indexed);
    }
  }

  lemma InRangeAreWords(fields: seq<Field>, values: seq<nat>)
    requires InRange(fields, values)
    ensures AreWords(values)
  {
    forall i | 0 <= i < |values| ensures values[i] < Pow16(64) {
      LimitFitsWord(fields[i].abiType);
    }
  }

  /** A log whose words stand for values out of range is refused. */
  lemma AcceptedAreInRange(log: RawChainLog, chainId: int, contract: string, version: int, spec: Spec, values: seq<nat>)
    requires |values| == |Fields(spec)| && AreWords(values)
    requires log.topics == [EncodeWord(Topic(spec))] + WordsOf(Pick(Fields(spec), values, true))
    requires log.data == DataOf(Pick(Fields(spec), values, false))
    requires Decode(log, chainId, contract, version).Event?
    ensures InRange(Fields(spec), values)
  {
    var spec', values' := AcceptedIsEncoding(log, chainId, contract, version);
    TopicFits(spec);
    TopicFits(spec');
    EncodedWordIsWord(Topic(spec));
    LowerIsLower(EncodeWord(Topic(spec)));
    assert LowerAll(log.topics)[0] == EncodeWord(Topic(spec'));
    EncodeWordInjective(Topic(spec), Topic(spec'));
    ByTopicExact(Topic(spec), spec);
    ByTopicExact(Topic(spec), spec');
    SameValues(log, spec, values, values');
  }

  lemma WordsOfInjective(a: seq<nat>, b: seq<nat>)
    requires AreWords(a) && AreWords(b) && WordsOf(a) == WordsOf(b)
    ensures a == b
  {
    assert |a| == |WordsOf(a)| == |WordsOf(b)| == |b|;
    forall i | 0 <= i < |a| ensures a[i] == b[i] {
      assert WordsOf(a)[i] == WordsOf(b)[i];
      EncodeWordInjective(a[i], b[i]);
    }
  }

  lemma SameTopics(a: seq<nat>, b: seq<nat>, signature: string)
    requires AreWords(a) && AreWords(b) && LowerAll([signature] + WordsOf(a)) == [signature] + WordsOf(b)
    ensures a == b
  {
    WordsAreLower(a);
    LowerAllCons([signature] + WordsOf(a));
    assert ([signature] + WordsOf(a))[1..] == WordsOf(a);
    assert ([signature] + WordsOf(b))[1..] == WordsOf(b);
    assert LowerAll([signature] + WordsOf(a))[1..] == LowerAll(WordsOf(a));
    WordsOfInjective(a, b);
  }

  lemma SameData(c: seq<nat>, d: seq<nat>)
    requires AreWords(c) && AreWords(d) && |c| == |d| && Lower(DataOf(c)) == "0x" + DataText(WordsOf(d))
    ensures c == d
  {
    DataTextIsDigits(d);
    DigitsAreLower(c);
    LowerIsLower(DataOf(c));
    assert Digits(c) == DataOf(c)[2..] && Digits(d) == ("0x" + DataText(WordsOf(d)))[2..];
    DigitsInjective(c, d);
  }

  lemma SameValues(log: RawChainLog, spec: Spec, values: seq<nat>, values': seq<nat>)
    requires |values| == |Fields(spec)| && AreWords(values) && InRange(Fields(spec), values')
    requires log.topics == [EncodeWord(Topic(spec))] + WordsOf(Pick(Fields(spec), values, true))
    requires log.data == DataOf(Pick(Fields(spec), values, false))
    requires LowerAll(log.topics) == EncodedTopics(spec, values') && Lower(log.data) == EncodedData(spec, values')
    ensures values' == values
  {
    var fields := Fields(spec);
    TopicFits(spec);
    InRangeAreWords(fields, values');
    PickedAreWords(fields, values, true);
    PickedAreWords(fields, values', true);
    PickedAreWords(fields, values, false);
    PickedAreWords(fields, values', false);
    SlotsArePicked(fields, values', true);
    SlotsArePicked(fields, values', false);
    SameTopics(Pick(fields, values, true), Pick(fields, values', true), EncodeWord(Topic(spec)));
    SameData(Pick(fields, values, false), Pick(fields, values', false));
    PickInjective(fields, values, values');
  }

  lemma RawLogDecodes(log: RawChainLog, chainId: int, contract: string, version: int, spec: Spec, values: seq<nat>)
    requires Addressed(log, chainId, contract, version) && |values| == |Fields(spec)| && AreWords(values)
    requires log.topics == [EncodeWord(Topic(spec))] + WordsOf(Pick(Fields(spec), values, true))
    requires log.data == DataOf(Pick(Fields(spec), values, false))
    ensures Decode(log, chainId, contract, version) ==
            if InRange(Fields(spec), values) then
              Says(log, chainId, contract, version, Name(spec), Rendered(Fields(spec), values))
            else Malformed
  {
    if InRange(Fields(spec), values) {
      SlotsArePicked(Fields(spec), values, true);
      SlotsArePicked(Fields(spec), values, false);
      DataTextIsDigits(Pick(Fields(spec), values, false));
      DecodeOfEncoded(log, chainId, contract, version, spec, values);
    } else {
      if Decode(log, chainId, contract, version).Event? {
        AcceptedAreInRange(log, chainId, contract, version, spec, values);
      }
      assert !Decode(log, chainId, contract, version).Skip?;
    }
  }

  // ---------- at most six fields, one by one ----------

  /** The picked values from field `i` on. */
  function PickFrom(fields: seq<Field>, values: seq<nat>, indexed: bool, i: nat): seq<nat>
    requires |values| == |fields|
    decreases |fields| - i
  {
    if i >= |fields| then []
    else if fields[i].indexed == indexed then [values[i]] + PickFrom(fields, values, indexed, i + 1)
    else PickFrom(fields, values, indexed, i + 1)
  }

  lemma {:induction false} PickFromIsPick(fields: seq<Field>, values: seq<nat>, indexed: bool, i: nat)
    requires |values| == |fields| && i <= |fields|
    ensures PickFrom(fields, values, indexed, i) == Pick(fields[i..], values[i..], indexed)
    decreases |fields| - i
  {
    if i < |fields| {
      PickFromIsPick(fields, values, indexed, i + 1);
      assert fields[i..][1..] == fields[i + 1..] && values[i..][1..] == values[i + 1..];
    }
  }

  /** What a layout of fields makes of values: the indexed ones, the others, and the payload. */
  ghost predicate LaidOut(fields: seq<Field>, values: seq<nat>, indexed: seq<nat>, data: seq<nat>,
                          payload: seq<(string, string)>) {
    && |values| == |fields| == |payload|
    && PickFrom(fields, values, true, 0) == indexed && PickFrom(fields, values, false, 0) == data
    && forall i :: 0 <= i < |fields| ==> payload[i] == (fields[i].name, Render(fields[i].abiType, values[i]))
  }

  lemma LogDecodes(log: RawChainLog, chainId: int, contract: string, version: int, spec: Spec, values: seq<nat>,
                   indexed: seq<nat>, data: seq<nat>, payload: seq<(string, string)>)
    requires Addressed(log, chainId, contract, version) && AreWords(values)
    requires LaidOut(Fields(spec), values, indexed, data, payload)
    requires log.topics == WordsOf([Topic(spec)] + indexed) && log.data == DataOf(data)
    ensures Decode(log, chainId, contract, version) ==
            if InRange(Fields(spec), values) then Says(log, chainId, contract, version, Name(spec), payload)
            else Malformed
  {
    var f := Fields(spec);
    assert f[0..] == f && values[0..] == values;
    PickFromIsPick(f, values, true, 0);
    PickFromIsPick(f, values, false, 0);
    assert WordsOf([Topic(spec)] + indexed) == [EncodeWord(Topic(spec))] + WordsOf(indexed);
    assert Rendered(f, values) == payload;
    RawLogDecodes(log, chainId, contract, version, spec, values);
  }

  // ---------- the seventeen events, each spelled out ----------

  /** How a log with certain words reads: its signature topic, its words, whether they are in range, its name and
      payload. */
  datatype Reading = Reading(
    topic: nat, indexed: seq<nat>, data: seq<nat>, inRange: bool, name: string, payload: seq<(string, string)>)

  function Bool(value: nat): string {
    if value == 0 then "false" else "true"
  }

  function Arity(spec: Spec): nat {
    match spec
    case EmergencyStateChanged => 1
    case Paused => 1
    case Unpaused => 1
    case IdentityOffboarded => 2
    case IdentityRegistered => 2
    case IdentityStatusChanged => 2
    case Approval => 3
    case ApprovalForAll => 3
    case AssetStatusChanged => 3
    case IdentityKeyReplaced => 3
    case RoleAdminChanged => 3
    case RoleGranted => 3
    case RoleRevoked => 3
    case Transfer => 3
    case AccessDecision => 4
    case AssetMintedAndAllocated => 4
    case AccessRuleSet => 6
  }

  /** The reading of each event, for the values of its fields in declaration order. */
  function ReadingOf(spec: Spec, v: seq<nat>): Reading
    requires |v| == Arity(spec)
  {
    match spec
    case AccessDecision =>
      Reading(0x94312429f260fe5dbea4725e0cbd9b951191f77a6d0dc08f455c2298b7442256,
              [v[0], v[1], v[2]], [v[3]], v[0] < Pow16(40) && v[3] < 2,
              "AccessDecision",
              [("requester", "0x" + HexPad(v[0], 40)), ("tokenId", Decimal(v[1])),
               ("action", "0x" + HexPad(v[2], 64)), ("granted", Bool(v[3]))])
    case AccessRuleSet =>
      Reading(0x3b4ab6be9b7d284cf5de5eb7ca44dcc2ba048759cbb6a726491cc52b70d620fb,
              [v[0], v[1], v[2]], [v[3], v[4], v[5]], v[2] < Pow16(40) && v[3] < 2 && v[4] < 0x10000000000000000
                  && v[5] < Pow16(40),
              "AccessRuleSet",
              [("tokenId", Decimal(v[0])), ("action", "0x" + HexPad(v[1], 64)),
               ("requester", "0x" + HexPad(v[2], 40)), ("allowed", Bool(v[3])), ("expiresAt", Decimal(v[4])),
               ("actor", "0x" + HexPad(v[5], 40))])
    case Approval =>
      Reading(0x8c5be1e5ebec7d5bd14f71427d1e84f3dd0314c0f7b2291e5b200ac8c7c3b925,
              [v[0], v[1], v[2]], [], v[0] < Pow16(40) && v[1] < Pow16(40),
              "Approval",
              [("owner", "0x" + HexPad(v[0], 40)), ("approved", "0x" + HexPad(v[1], 40)), ("tokenId", Decimal(v[2]))])
    case ApprovalForAll =>
      Reading(0x17307eab39ab6107e8899845ad3d59bd9653f200f220920489ca2b5937696c31,
              [v[0], v[1]], [v[2]], v[0] < Pow16(40) && v[1] < Pow16(40) && v[2] < 2,
              "ApprovalForAll",
              [("owner", "0x" + HexPad(v[0], 40)), ("operator", "0x" + HexPad(v[1], 40)), ("approved", Bool(v[2]))])
    case AssetMintedAndAllocated =>
      Reading(0x91867a1b7f2f56edd0a567161e5afa13b52888641c804cb3863eb43d180107cb,
              [v[0], v[1], v[2]], [v[3]], v[1] < Pow16(40),
              "AssetMintedAndAllocated",
              [("tokenId", Decimal(v[0])), ("owner", "0x" + HexPad(v[1], 40)), ("assetId", "0x" + HexPad(v[2], 64)),
               ("metadataHash", "0x" + HexPad(v[3], 64))])
    case AssetStatusChanged =>
      Reading(0x9386daf266029c56017df27d0827d3635a1423608822b59fd5e0fe3bb72b0e50,
              [v[0], v[2]], [v[1]], v[1] < 0x100 && v[2] < Pow16(40),
              "AssetStatusChanged",
              [("tokenId", Decimal(v[0])), ("status", Decimal(v[1])), ("actor", "0x" + HexPad(v[2], 40))])
    case EmergencyStateChanged =>
      Reading(0x9ff55b2c2cd39ce39fc122ab9119a05d0f3d8d94b35ec69df732cb566b1fc070,
              [], [v[0]], v[0] < 2,
              "EmergencyStateChanged",
              [("paused", Bool(v[0]))])
    case IdentityKeyReplaced =>
      Reading(0x1fea1dd22edb774a8aa7b1252b8c6376b1307ebf761147111591064d6385ca89,
              [v[0], v[1], v[2]], [], v[0] < Pow16(40) && v[1] < Pow16(40),
              "IdentityKeyReplaced",
              [("oldSubject", "0x" + HexPad(v[0], 40)), ("newSubject", "0x" + HexPad(v[1], 40)),
               ("newDidHash", "0x" + HexPad(v[2], 64))])
    case IdentityOffboarded =>
      Reading(0x6aa405f69eb282372189d089ec26622c3d028747682dae0ec30ae2c76aef275b,
              [v[0], v[1]], [], v[0] < Pow16(40),
              "IdentityOffboarded",
              [("subject", "0x" + HexPad(v[0], 40)), ("reason", "0x" + HexPad(v[1], 64))])
    case IdentityRegistered =>
      Reading(0x209ae2eb4ff1890ce972a80ec3e167b52d41ab089135cc6430447b1430e824be,
              [v[0], v[1]], [], v[0] < Pow16(40),
              "IdentityRegistered",
              [("subject", "0x" + HexPad(v[0], 40)), ("didHash", "0x" + HexPad(v[1], 64))])
    case IdentityStatusChanged =>
      Reading(0x4441c59c6c1b36498a0353d4ce9279a1ec9f94cafa52b52f5a5c8f30903e064a,
              [v[0]], [v[1]], v[0] < Pow16(40) && v[1] < 2,
              "IdentityStatusChanged",
              [("subject", "0x" + HexPad(v[0], 40)), ("isActive", Bool(v[1]))])
    case Paused =>
      Reading(0x62e78cea01bee320cd4e420270b5ea74000d11b0c9f74754ebdbfc544b05a258,
              [], [v[0]], v[0] < Pow16(40),
              "Paused",
              [("account", "0x" + HexPad(v[0], 40))])
    case RoleAdminChanged =>
      Reading(0xbd79b86ffe0ab8e8776151514217cd7cacd52c909f66475c3af44e129f0b00ff,
              [v[0], v[1], v[2]], [], true,
              "RoleAdminChanged",
              [("role", "0x" + HexPad(v[0], 64)), ("previousAdminRole", "0x" + HexPad(v[1], 64)),
               ("newAdminRole", "0x" + HexPad(v[2], 64))])
    case RoleGranted =>
      Reading(0x2f8788117e7eff1d82e926ec794901d17c78024a50270940304540a733656f0d,
              [v[0], v[1], v[2]], [], v[1] < Pow16(40) && v[2] < Pow16(40),
              "RoleGranted",
              [("role", "0x" + HexPad(v[0], 64)), ("account", "0x" + HexPad(v[1], 40)),
               ("sender", "0x" + HexPad(v[2], 40))])
    case RoleRevoked =>
      Reading(0xf6391f5c32d9c69d2a47ea670b442974b53935d1edc7fd64eb21e047a839171b,
              [v[0], v[1], v[2]], [], v[1] < Pow16(40) && v[2] < Pow16(40),
              "RoleRevoked",
              [("role", "0x" + HexPad(v[0], 64)), ("account", "0x" + HexPad(v[1], 40)),
               ("sender", "0x" + HexPad(v[2], 40))])
    case Transfer =>
      Reading(0xddf252ad1be2c89b69c2b068fc378daa952ba7f163c4a11628f55a4df523b3ef,
              [v[0], v[1], v[2]], [], v[0] < Pow16(40) && v[1] < Pow16(40),
              "Transfer",
              [("from", "0x" + HexPad(v[0], 40)), ("to", "0x" + HexPad(v[1], 40)), ("tokenId", Decimal(v[2]))])
    case Unpaused =>
      Reading(0x5db9ee0a495bf2e6ff9c91a7834c1ba4fdd244a5e8aa4e537bd38aeae4b073aa,
              [], [v[0]], v[0] < Pow16(40),
              "Unpaused",
              [("account", "0x" + HexPad(v[0], 40))])
  }

  // ---------- field by field ----------

  function At(fields: seq<Field>, values: seq<nat>, indexed: bool, i: nat): seq<nat>
    requires |values| == |fields|
  {
    if i < |fields| && fields[i].indexed == indexed then [values[i]] else []
  }

  lemma PickFromStep(fields: seq<Field>, values: seq<nat>, indexed: bool, i: nat)
    requires |values| == |fields|
    ensures PickFrom(fields, values, indexed, i) ==
            At(fields, values, indexed, i) + PickFrom(fields, values, indexed, i + 1)
  {
    if i >= |fields| {
      assert [] + PickFrom(fields, values, indexed, i + 1) == [];
    } else if fields[i].indexed != indexed {
      assert [] + PickFrom(fields, values, indexed, i + 1) == PickFrom(fields, values, indexed, i + 1);
    }
  }

  lemma PickFromThree(fields: seq<Field>, values: seq<nat>, indexed: bool, i: nat)
    requires |values| == |fields|
    ensures PickFrom(fields, values, indexed, i) ==
            At(fields, values, indexed, i) + (At(fields, values, indexed, i + 1) + (At(fields, values, indexed, i + 2) +
            PickFrom(fields, values, indexed, i + 3)))
  {
    PickFromStep(fields, values, indexed, i);
    PickFromStep(fields, values, indexed, i + 1);
    PickFromStep(fields, values, indexed, i + 2);
  }

  /** No event has more than six fields. */
  lemma FieldByField(fields: seq<Field>, values: seq<nat>, indexed: bool)
    requires |values| == |fields| <= 6
    ensures PickFrom(fields, values, indexed, 0) ==
            At(fields, values, indexed, 0) + (At(fields, values, indexed, 1) + (At(fields, values, indexed, 2) +
            PickFrom(fields, values, indexed, 3)))
    ensures PickFrom(fields, values, indexed, 3) ==
            At(fields, values, indexed, 3) + (At(fields, values, indexed, 4) + (At(fields, values, indexed, 5) + []))
  {
    PickFromThree(fields, values, indexed, 0);
    PickFromThree(fields, values, indexed, 3);
    assert PickFrom(fields, values, indexed, 6) == [];
  }

  predicate InRangeAt(fields: seq<Field>, values: seq<nat>, i: nat)
    requires |values| == |fields|
  {
    i < |fields| ==> values[i] < Limit(fields[i].abiType)
  }

  predicate AllInRange(fields: seq<Field>, values: seq<nat>)
    requires |values| == |fields|
  {
    && InRangeAt(fields, values, 0) && InRangeAt(fields, values, 1) && InRangeAt(fields, values, 2)
    && InRangeAt(fields, values, 3) && InRangeAt(fields, values, 4) && InRangeAt(fields, values, 5)
  }

  /** Types that take every word. */
  predicate Wide(abiType: AbiType) {
    abiType.Bytes32? || abiType.Uint256?
  }

  predicate WideAt(fields: seq<Field>, values: seq<nat>, i: nat)
    requires |values| == |fields|
  {
    i < |fields| && Wide(fields[i].abiType) ==> InRangeAt(fields, values, i)
  }

  predicate WideInRange(fields: seq<Field>, values: seq<nat>)
    requires |values| == |fields|
  {
    && WideAt(fields, values, 0) && WideAt(fields, values, 1) && WideAt(fields, values, 2)
    && WideAt(fields, values, 3) && WideAt(fields, values, 4) && WideAt(fields, values, 5)
  }

  lemma RangeFieldByField(fields: seq<Field>, values: seq<nat>)
    requires |values| == |fields| <= 6
    ensures InRange(fields, values) <==> AllInRange(fields, values)
  {
    forall i | 0 <= i < |fields| ensures values[i] < Limit(fields[i].abiType) <==> InRangeAt(fields, values, i) {
    }
  }

  lemma ReadsName(spec: Spec)
    ensures |Fields(spec)| == Arity(spec)
    ensures forall v: seq<nat> :: |v| == Arity(spec) ==>
              ReadingOf(spec, v).topic == Topic(spec) && ReadingOf(spec, v).name == Name(spec)
  {
    match spec
    case AccessDecision =>
    case AccessRuleSet =>
    case Approval =>
    case ApprovalForAll =>
    case AssetMintedAndAllocated =>
    case AssetStatusChanged =>
    case EmergencyStateChanged =>
    case IdentityKeyReplaced =>
    case IdentityOffboarded =>
    case IdentityRegistered =>
    case IdentityStatusChanged =>
    case Paused =>
    case RoleAdminChanged =>
    case RoleGranted =>
    case RoleRevoked =>
    case Transfer =>
    case Unpaused =>
  }

  /** The events in 6 groups, which keeps the proofs below small. */
  function Group(spec: Spec): nat {
    match spec
    case AccessDecision => 0
    case AccessRuleSet => 1
    case Approval => 2
    case ApprovalForAll => 2
    case AssetMintedAndAllocated => 2
    case AssetStatusChanged => 2
    case EmergencyStateChanged => 3
    case IdentityKeyReplaced => 3
    case IdentityOffboarded => 3
    case IdentityRegistered => 3
    case IdentityStatusChanged => 4
    case Paused => 4
    case RoleAdminChanged => 4
    case RoleGranted => 4
    case RoleRevoked => 5
    case Transfer => 5
    case Unpaused => 5
  }

  /** The payload of a reading shows each field's name and printed value. */
  ghost predicate PayloadShown(spec: Spec, v: seq<nat>)
    requires |v| == Arity(spec) == |Fields(spec)|
  {
    var payload := ReadingOf(spec, v).payload;
    && |payload| == |v|
    && forall i :: 0 <= i < |v| ==> payload[i] == (Fields(spec)[i].name, Render(Fields(spec)[i].abiType, v[i]))
  }

  lemma ReadsWords0(spec: Spec, v: seq<nat>, indexed: bool)
    requires (spec.AccessDecision?) && |v| == Arity(spec) == |Fields(spec)|
    ensures PickFrom(Fields(spec), v, indexed, 0) ==
            if indexed then ReadingOf(spec, v).indexed else ReadingOf(spec, v).data
  {
    FieldByField(Fields(spec), v, indexed);
    match spec {
      case AccessDecision =>
    }
  }

  lemma ReadsRange0(spec: Spec, v: seq<nat>)
    requires (spec.AccessDecision?) && |v| == Arity(spec) == |Fields(spec)|
    requires WideInRange(Fields(spec), v)
    ensures ReadingOf(spec, v).inRange <==> AllInRange(Fields(spec), v)
  {
    match spec {
      case AccessDecision =>
    }
  }

  lemma ReadsPayload0(spec: Spec, v: seq<nat>)
    requires (spec.AccessDecision?) && |v| == Arity(spec) == |Fields(spec)|
    ensures PayloadShown(spec, v)
  {
    match spec {
      case AccessDecision =>
    }
  }

  lemma ReadsWords1(spec: Spec, v: seq<nat>, indexed: bool)
    requires (spec.AccessRuleSet?) && |v| == Arity(spec) == |Fields(spec)|
    ensures PickFrom(Fields(spec), v, indexed, 0) ==
            if indexed then ReadingOf(spec, v).indexed else ReadingOf(spec, v).data
  {
    FieldByField(Fields(spec), v, indexed);
    match spec {
      case AccessRuleSet =>
    }
  }

  lemma ReadsRange1(spec: Spec, v: seq<nat>)
    requires (spec.AccessRuleSet?) && |v| == Arity(spec) == |Fields(spec)|
    requires WideInRange(Fields(spec), v)
    ensures ReadingOf(spec, v).inRange <==> AllInRange(Fields(spec), v)
  {
    match spec {
      case AccessRuleSet =>
    }
  }

  lemma ReadsPayload1(spec: Spec, v: seq<nat>)
    requires (spec.AccessRuleSet?) && |v| == Arity(spec) == |Fields(spec)|
    ensures PayloadShown(spec, v)
  {
    match spec {
      case AccessRuleSet =>
    }
  }

  lemma ReadsWords2(spec: Spec, v: seq<nat>, indexed: bool)
    requires (spec.Approval? || spec.ApprovalForAll? || spec.AssetMintedAndAllocated? || spec.AssetStatusChanged?)
             && |v| == Arity(spec) == |Fields(spec)|
    ensures PickFrom(Fields(spec), v, indexed, 0) ==
            if indexed then ReadingOf(spec, v).indexed else ReadingOf(spec, v).data
  {
    FieldByField(Fields(spec), v, indexed);
    match spec {
      case Approval =>
      case ApprovalForAll =>
      case AssetMintedAndAllocated =>
      case AssetStatusChanged =>
    }
  }

  lemma ReadsRange2(spec: Spec, v: seq<nat>)
    requires (spec.Approval? || spec.ApprovalForAll? || spec.AssetMintedAndAllocated? || spec.AssetStatusChanged?)
             && |v| == Arity(spec) == |Fields(spec)|
    requires WideInRange(Fields(spec), v)
    ensures ReadingOf(spec, v).inRange <==> AllInRange(Fields(spec), v)
  {
    match spec {
      case Approval =>
      case ApprovalForAll =>
      case AssetMintedAndAllocated =>
      case AssetStatusChanged =>
    }
  }

  lemma ReadsPayload2(spec: Spec, v: seq<nat>)
    requires (spec.Approval? || spec.ApprovalForAll? || spec.AssetMintedAndAllocated? || spec.AssetStatusChanged?)
             && |v| == Arity(spec) == |Fields(spec)|
    ensures PayloadShown(spec, v)
  {
    match spec {
      case Approval =>
      case ApprovalForAll =>
      case AssetMintedAndAllocated =>
      case AssetStatusChanged =>
    }
  }

  lemma ReadsWords3(spec: Spec, v: seq<nat>, indexed: bool)
    requires (spec.EmergencyStateChanged? || spec.IdentityKeyReplaced? || spec.IdentityOffboarded?
                 || spec.IdentityRegistered?) && |v| == Arity(spec) == |Fields(spec)|
    ensures PickFrom(Fields(spec), v, indexed, 0) ==
            if indexed then ReadingOf(spec, v).indexed else ReadingOf(spec, v).data
  {
    FieldByField(Fields(spec), v, indexed);
    match spec {
      case EmergencyStateChanged =>
      case IdentityKeyReplaced =>
      case IdentityOffboarded =>
      case IdentityRegistered =>
    }
  }

  lemma ReadsRange3(spec: Spec, v: seq<nat>)
    requires (spec.EmergencyStateChanged? || spec.IdentityKeyReplaced? || spec.IdentityOffboarded?
                 || spec.IdentityRegistered?) && |v| == Arity(spec) == |Fields(spec)|
    requires WideInRange(Fields(spec), v)
    ensures ReadingOf(spec, v).inRange <==> AllInRange(Fields(spec), v)
  {
    match spec {
      case EmergencyStateChanged =>
      case IdentityKeyReplaced =>
      case IdentityOffboarded =>
      case IdentityRegistered =>
    }
  }

  lemma ReadsPayload3(spec: Spec, v: seq<nat>)
    requires (spec.EmergencyStateChanged? || spec.IdentityKeyReplaced? || spec.IdentityOffboarded?
                 || spec.IdentityRegistered?) && |v| == Arity(spec) == |Fields(spec)|
    ensures PayloadShown(spec, v)
  {
    match spec {
      case EmergencyStateChanged =>
      case IdentityKeyReplaced =>
      case IdentityOffboarded =>
      case IdentityRegistered =>
    }
  }

  lemma ReadsWords4(spec: Spec, v: seq<nat>, indexed: bool)
    requires (spec.IdentityStatusChanged? || spec.Paused? || spec.RoleAdminChanged? || spec.RoleGranted?)
             && |v| == Arity(spec) == |Fields(spec)|
    ensures PickFrom(Fields(spec), v, indexed, 0) ==
            if indexed then ReadingOf(spec, v).indexed else ReadingOf(spec, v).data
  {
    FieldByField(Fields(spec), v, indexed);
    match spec {
      case IdentityStatusChanged =>
      case Paused =>
      case RoleAdminChanged =>
      case RoleGranted =>
    }
  }

  lemma ReadsRange4(spec: Spec, v: seq<nat>)
    requires (spec.IdentityStatusChanged? || spec.Paused? || spec.RoleAdminChanged? || spec.RoleGranted?)
             && |v| == Arity(spec) == |Fields(spec)|
    requires WideInRange(Fields(spec), v)
    ensures ReadingOf(spec, v).inRange <==> AllInRange(Fields(spec), v)
  {
    match spec {
      case IdentityStatusChanged =>
      case Paused =>
      case RoleAdminChanged =>
      case RoleGranted =>
    }
  }

  lemma ReadsPayload4(spec: Spec, v: seq<nat>)
    requires (spec.IdentityStatusChanged? || spec.Paused? || spec.RoleAdminChanged? || spec.RoleGranted?)
             && |v| == Arity(spec) == |Fields(spec)|
    ensures PayloadShown(spec, v)
  {
    match spec {
      case IdentityStatusChanged =>
      case Paused =>
      case RoleAdminChanged =>
      case RoleGranted =>
    }
  }

  lemma ReadsWords5(spec: Spec, v: seq<nat>, indexed: bool)
    requires (spec.RoleRevoked? || spec.Transfer? || spec.Unpaused?) && |v| == Arity(spec) == |Fields(spec)|
    ensures PickFrom(Fields(spec), v, indexed, 0) ==
            if indexed then ReadingOf(spec, v).indexed else ReadingOf(spec, v).data
  {
    FieldByField(Fields(spec), v, indexed);
    match spec {
      case RoleRevoked =>
      case Transfer =>
      case Unpaused =>
    }
  }

  lemma ReadsRange5(spec: Spec, v: seq<nat>)
    requires (spec.RoleRevoked? || spec.Transfer? || spec.Unpaused?) && |v| == Arity(spec) == |Fields(spec)|
    requires WideInRange(Fields(spec), v)
    ensures ReadingOf(spec, v).inRange <==> AllInRange(Fields(spec), v)
  {
    match spec {
      case RoleRevoked =>
      case Transfer =>
      case Unpaused =>
    }
  }

  lemma ReadsPayload5(spec: Spec, v: seq<nat>)
    requires (spec.RoleRevoked? || spec.Transfer? || spec.Unpaused?) && |v| == Arity(spec) == |Fields(spec)|
    ensures PayloadShown(spec, v)
  {
    match spec {
      case RoleRevoked =>
      case Transfer =>
      case Unpaused =>
    }
  }

  lemma ReadsWords(spec: Spec, v: seq<nat>, indexed: bool)
    requires |v| == Arity(spec) == |Fields(spec)|
    ensures PickFrom(Fields(spec), v, indexed, 0) ==
            if indexed then ReadingOf(spec, v).indexed else ReadingOf(spec, v).data
  {
    if Group(spec) == 0 {
      ReadsWords0(spec, v, indexed);
    } else if Group(spec) == 1 {
      ReadsWords1(spec, v, indexed);
    } else if Group(spec) == 2 {
      ReadsWords2(spec, v, indexed);
    } else if Group(spec) == 3 {
      ReadsWords3(spec, v, indexed);
    } else if Group(spec) == 4 {
      ReadsWords4(spec, v, indexed);
    } else {
      ReadsWords5(spec, v, indexed);
    }
  }

  lemma ReadsRange(spec: Spec, v: seq<nat>)
    requires |v| == Arity(spec) == |Fields(spec)|
    requires WideInRange(Fields(spec), v)
    ensures ReadingOf(spec, v).inRange <==> AllInRange(Fields(spec), v)
  {
    if Group(spec) == 0 {
      ReadsRange0(spec, v);
    } else if Group(spec) == 1 {
      ReadsRange1(spec, v);
    } else if Group(spec) == 2 {
      ReadsRange2(spec, v);
    } else if Group(spec) == 3 {
      ReadsRange3(spec, v);
    } else if Group(spec) == 4 {
      ReadsRange4(spec, v);
    } else {
      ReadsRange5(spec, v);
    }
  }

  lemma ReadsPayload(spec: Spec, v: seq<nat>)
    requires |v| == Arity(spec) == |Fields(spec)|
    ensures PayloadShown(spec, v)
  {
    if Group(spec) == 0 {
      ReadsPayload0(spec, v);
    } else if Group(spec) == 1 {
      ReadsPayload1(spec, v);
    } else if Group(spec) == 2 {
      ReadsPayload2(spec, v);
    } else if Group(spec) == 3 {
      ReadsPayload3(spec, v);
    } else if Group(spec) == 4 {
      ReadsPayload4(spec, v);
    } else {
      ReadsPayload5(spec, v);
    }
  }

  /** The table above says, for each event, what its declared fields make of the values ... */
  lemma ReadingIsLayout(spec: Spec, v: seq<nat>)
    requires |v| == Arity(spec) == |Fields(spec)|
    ensures LaidOut(Fields(spec), v, ReadingOf(spec, v).indexed, ReadingOf(spec, v).data, ReadingOf(spec, v).payload)
  {
    ReadsWords(spec, v, true);
    ReadsWords(spec, v, false);
    ReadsPayload(spec, v);
  }

  lemma WordsFitWideTypes(fields: seq<Field>, v: seq<nat>)
    requires |v| == |fields| && AreWords(v)
    ensures WideInRange(fields, v)
  {
  }

  /** ... and when these are in range. */
  lemma ReadingIsRange(spec: Spec, v: seq<nat>)
    requires |v| == Arity(spec) == |Fields(spec)| && AreWords(v)
    ensures ReadingOf(spec, v).inRange <==> InRange(Fields(spec), v)
  {
    WordsFitWideTypes(Fields(spec), v);
    RangeFieldByField(Fields(spec), v);
    ReadsRange(spec, v);
  }

  /** What a log with these words decodes to, for each event: the event as spelled out when the words are in range, and
      otherwise a refusal. */
  lemma EventDecodes(log: RawChainLog, chainId: int, contract: string, version: int, spec: Spec, v: seq<nat>)
    requires Addressed(log, chainId, contract, version) && |v| == Arity(spec) && AreWords(v)
    requires log.topics == WordsOf([ReadingOf(spec, v).topic] + ReadingOf(spec, v).indexed)
    requires log.data == DataOf(ReadingOf(spec, v).data)
    ensures Decode(log, chainId, contract, version) ==
            if ReadingOf(spec, v).inRange then
              Says(log, chainId, contract, version, ReadingOf(spec, v).name, ReadingOf(spec, v).payload)
            else Malformed
  {
    var r := ReadingOf(spec, v);
    ReadsName(spec);
    ReadingIsLayout(spec, v);
    ReadingIsRange(spec, v);
    LogDecodes(log, chainId, contract, version, spec, v, r.indexed, r.data, r.payload);
  }

  /** For one: who sent what to whom. */
  lemma TransferDecodes(log: RawChainLog, chainId: int, contract: string, version: int, a: nat, b: nat, tokenId: nat)
    requires Addressed(log, chainId, contract, version) && AreWords([a, b, tokenId]) && a < Pow16(40) && b < Pow16(40)
    requires log.topics == WordsOf([0xddf252ad1be2c89b69c2b068fc378daa952ba7f163c4a11628f55a4df523b3ef, a, b, tokenId])
    requires log.data == "0x"
    ensures Decode(log, chainId, contract, version) ==
            Says(log, chainId, contract, version, "Transfer",
                 [("from", "0x" + HexPad(a, 40)), ("to", "0x" + HexPad(b, 40)), ("tokenId", Decimal(tokenId))])
  {
    var r := ReadingOf(Transfer, [a, b, tokenId]);
    assert [r.topic] + r.indexed == [r.topic, a, b, tokenId];
    EventDecodes(log, chainId, contract, version, Transfer, [a, b, tokenId]);
  }

  /** A status takes one byte: the next number up is refused. */
  lemma StatusDecodesExactlyWhen(log: RawChainLog, chainId: int, contract: string, version: int,
                                 tokenId: nat, status: nat, actor: nat)
    requires Addressed(log, chainId, contract, version) && AreWords([tokenId, status, actor]) && actor < Pow16(40)
    requires log.topics == WordsOf([0x9386daf266029c56017df27d0827d3635a1423608822b59fd5e0fe3bb72b0e50, tokenId, actor])
    requires log.data == DataOf([status])
    ensures if status < 256 then Decode(log, chainId, contract, version).Event?
            else Decode(log, chainId, contract, version) == Malformed
  {
    var r := ReadingOf(AssetStatusChanged, [tokenId, status, actor]);
    assert [r.topic] + r.indexed == [r.topic, tokenId, actor];
    EventDecodes(log, chainId, contract, version, AssetStatusChanged, [tokenId, status, actor]);
  }

  /** A flag is one or zero. */
  lemma DecisionDecodes(log: RawChainLog, chainId: int, contract: string, version: int,
                        requester: nat, tokenId: nat, action: nat, granted: nat)
    requires Addressed(log, chainId, contract, version)
    requires AreWords([requester, tokenId, action, granted]) && requester < Pow16(40)
    requires log.topics ==
             WordsOf([0x94312429f260fe5dbea4725e0cbd9b951191f77a6d0dc08f455c2298b7442256, requester, tokenId, action])
    requires log.data == DataOf([granted])
    ensures Decode(log, chainId, contract, version) ==
            if granted > 1 then Malformed
            else
              Says(log, chainId, contract, version, "AccessDecision",
                   [("requester", "0x" + HexPad(requester, 40)), ("tokenId", Decimal(tokenId)),
                    ("action", "0x" + HexPad(action, 64)), ("granted", if granted == 1 then "true" else "false")])
  {
    var r := ReadingOf(AccessDecision, [requester, tokenId, action, granted]);
    assert [r.topic] + r.indexed == [r.topic, requester, tokenId, action];
    EventDecodes(log, chainId, contract, version, AccessDecision, [requester, tokenId, action, granted]);
  }

  /** Read as above, a log is the encoding of its values. */
  lemma ReadingIsEncoding(spec: Spec, v: seq<nat>)
    requires |v| == Arity(spec) && AreWords(v) && ReadingOf(spec, v).inRange
    ensures |Fields(spec)| == |v| && InRange(Fields(spec), v)
    ensures WordsOf([ReadingOf(spec, v).topic] + ReadingOf(spec, v).indexed) == EncodedTopics(spec, v)
    ensures DataOf(ReadingOf(spec, v).data) == EncodedData(spec, v)
    ensures ReadingOf(spec, v).name == Name(spec) && ReadingOf(spec, v).payload == Rendered(Fields(spec), v)
  {
    ReadsName(spec);
    ReadingIsLayout(spec, v);
    ReadingIsRange(spec, v);
    LayoutIsEncoding(spec, v, ReadingOf(spec, v).indexed, ReadingOf(spec, v).data, ReadingOf(spec, v).payload);
  }

  lemma LayoutIsEncoding(spec: Spec, v: seq<nat>, indexed: seq<nat>, data: seq<nat>, payload: seq<(string, string)>)
    requires LaidOut(Fields(spec), v, indexed, data, payload) && InRange(Fields(spec), v)
    ensures WordsOf([Topic(spec)] + indexed) == EncodedTopics(spec, v)
    ensures DataOf(data) == EncodedData(spec, v) && payload == Rendered(Fields(spec), v)
  {
    LayoutIsSlots(Fields(spec), v, true);
    LayoutIsSlots(Fields(spec), v, false);
    DataTextIsDigits(data);
    assert WordsOf([Topic(spec)] + indexed) == [EncodeWord(Topic(spec))] + WordsOf(indexed);
  }

  lemma LayoutIsSlots(f: seq<Field>, v: seq<nat>, indexed: bool)
    requires |v| == |f|
    ensures Slots(f, v, indexed) == WordsOf(PickFrom(f, v, indexed, 0))
  {
    assert f[0..] == f && v[0..] == v;
    PickFromIsPick(f, v, indexed, 0);
    SlotsArePicked(f, v, indexed);
  }

  /** Topics and data stand, up to hex letter case, for the name and payload of some reading in range. */
  ghost predicate Encodes(topics: seq<string>, data: string, name: string, payload: seq<(string, string)>) {
    exists spec: Spec, v: seq<nat> :: EncodesAs(spec, v, topics, data, name, payload)
  }

  ghost predicate EncodesAs(spec: Spec, v: seq<nat>, topics: seq<string>, data: string, name: string,
                            payload: seq<(string, string)>) {
    && |v| == Arity(spec) && AreWords(v)
    && var r := ReadingOf(spec, v);
       && r.inRange && r.name == name && r.payload == payload
       && LowerAll(topics) == WordsOf([r.topic] + r.indexed) && Lower(data) == DataOf(r.data)
  }

  /** A decoded log encodes its own name and payload, and no others. */
  lemma DecodedExactly(log: RawChainLog, chainId: int, contract: string, version: int, name: string,
                       payload: seq<(string, string)>)
    requires Decode(log, chainId, contract, version).Event?
    ensures var e := Decode(log, chainId, contract, version).event;
            Encodes(log.topics, log.data, name, payload) <==> name == e.name && payload == e.payload
  {
    var e := Decode(log, chainId, contract, version).event;
    var spec, values := AcceptedIsEncoding(log, chainId, contract, version);
    DecodedEncodes(log, chainId, contract, version, spec, values);
    BodyOfEncoded(spec, values);
    if Encodes(log.topics, log.data, name, payload) {
      var spec', v :| EncodesAs(spec', v, log.topics, log.data, name, payload);
      ReadingIsEncoding(spec', v);
      BodyOfEncoded(spec', v);
    }
  }

  lemma DecodedEncodes(log: RawChainLog, chainId: int, contract: string, version: int, spec: Spec, values: seq<nat>)
    requires Decode(log, chainId, contract, version).Event? && InRange(Fields(spec), values)
    requires Decode(log, chainId, contract, version).event.name == Name(spec)
    requires Decode(log, chainId, contract, version).event.payload == Rendered(Fields(spec), values)
    requires LowerAll(log.topics) == EncodedTopics(spec, values) && Lower(log.data) == EncodedData(spec, values)
    ensures Encodes(log.topics, log.data, Decode(log, chainId, contract, version).event.name,
                    Decode(log, chainId, contract, version).event.payload)
  {
    ReadsName(spec);
    InRangeAreWords(Fields(spec), values);
    ReadingIsRange(spec, values);
    ReadingIsEncoding(spec, values);
    assert EncodesAs(spec, values, log.topics, log.data, Name(spec), Rendered(Fields(spec), values));
  }

  /** Outside its words a log must name the configured contract and carry a transaction hash of the right width. */
  lemma AddressedExactlyWhen(log: RawChainLog, chainId: int, contract: string, version: int)
    ensures Addressed(log, chainId, contract, version) <==>
            && chainId >= 1 && version >= 1
            && |contract| == 42 && "0x" <= contract && IsHex(contract[2..])
            && "0x" <= log.address && Lower(log.address) == Lower(contract)
            && |log.transactionHash| == 66 && "0x" <= log.transactionHash
  {
    assert "0x" <= contract <==> HasPrefix0x(contract);
    assert "0x" <= log.address <==> HasPrefix0x(log.address);
    assert "0x" <= log.transactionHash <==> HasPrefix0x(log.transactionHash);
    if Lower(log.address) == Lower(contract) && |contract| == 42 && IsHex(contract[2..]) {
      assert |log.address| == 42;
      forall i | 0 <= i < 40 ensures IsHexChar(log.address[2..][i]) {
        assert LowerChar(log.address[i + 2]) == Lower(log.address)[i + 2] == LowerChar(contract[i + 2]);
        assert IsHexChar(contract[2..][i]);
      }
    }
  }
}
