/** What a successful scan with the approved decoder leaves, in terms of the provider's replies, field by field. */
module WireLaws {
  import opened Wrappers
  import opened Text
  import opened Projector
  import opened Consumer
  import opened ScanLaws
  import opened ScanRuns
  import opened EventIds
  import opened Repository
  import opened DurableSteps
  import opened StoredRows
  import opened Persistent
  import opened Abi
  import opened AbiEvents

  /** The event is what the i-th log of block n says. */
  ghost predicate SaidBy(e: CanonicalEvent, chain: Chain, n: int, i: int, chainId: int, address: string) {
    && chain(n).Block? && 0 <= i < |chain(n).logs|
    && var log := chain(n).logs[i];
       && e.blockNumber == n && e.blockHash == chain(n).hash
       && e.key.chainId == chainId && e.key.contractAddress == Lower(address)
       && e.key.transactionHash == Lower(log.transactionHash) && e.key.logIndex == log.logIndex
            && e.key.eventVersion == 1
       && Encodes(log.topics, log.data, e.name, e.payload)
  }

  /** One of the replies of the range says the event. */
  ghost predicate SaidInRange(e: CanonicalEvent, chain: Chain, low: int, high: int, chainId: int, address: string) {
    exists n, i :: low <= n <= high && SaidBy(e, chain, n, i, chainId, address)
  }

  // ---------- steps and replies ----------

  lemma {:induction false} StepOfLog(logs: seq<RawChainLog>, decode: Decoder, i: nat)
    requires i < |logs|
    ensures match decode(logs[i])
            case Event(e) => Project(e, logs[i]) in LogSteps(logs, decode)
            case Skip => true
            case Malformed => Halt(AbiDecodeError) in LogSteps(logs, decode)
    decreases |logs|
  {
    if i > 0 {
      StepOfLog(logs[1..], decode, i - 1);
    }
  }

  lemma {:induction false} LogOfStep(logs: seq<RawChainLog>, decode: Decoder, x: Step) returns (i: nat)
    requires x in LogSteps(logs, decode) && x.Project?
    ensures i < |logs| && logs[i] == x.raw && decode(logs[i]) == Event(x.event)
    decreases |logs|
  {
    if x in DecodeStep(logs[0], decode) {
      i := 0;
    } else {
      var j := LogOfStep(logs[1..], decode, x);
      i := j + 1;
    }
  }

  /** The step of each log of the range is among the steps of the scan. */
  lemma {:induction false} StepOfReply(chain: Chain, low: int, high: int, address: string, decode: Decoder, n: int,
                                       i: nat)
    requires low <= n <= high && chain(n).Block? && i < |chain(n).logs|
    ensures var raw := ParseLog(chain(n).logs[i], n, chain(n).hash, address);
            match decode(raw)
            case Event(e) => Project(e, raw) in ScanSteps(chain, low, high, address, decode)
            case Skip => true
            case Malformed => Halt(AbiDecodeError) in ScanSteps(chain, low, high, address, decode)
    decreases n - low
  {
    ScanStepsAt(chain, low, high, address, decode);
    if low < n {
      StepOfReply(chain, low + 1, high, address, decode, n, i);
    } else {
      StepOfLog(ParseLogs(chain(n).logs, n, chain(n).hash, address), decode, i);
    }
  }

  lemma LogOfBlockStep(reply: BlockReply, n: int, address: string, decode: Decoder, x: Step) returns (i: nat)
    requires x in BlockSteps(reply, n, address, decode) && x.Project?
    ensures reply.Block? && i < |reply.logs|
    ensures x.raw == ParseLog(reply.logs[i], n, reply.hash, address) && decode(x.raw) == Event(x.event)
  {
    i := LogOfStep(ParseLogs(reply.logs, n, reply.hash, address), decode, x);
  }

  lemma {:induction false} ReplyOfStep(chain: Chain, low: int, high: int, address: string, decode: Decoder, x: Step)
    returns (n: int, i: nat)
    requires x in ScanSteps(chain, low, high, address, decode) && x.Project?
    ensures low <= n <= high && chain(n).Block? && i < |chain(n).logs|
    ensures x.raw == ParseLog(chain(n).logs[i], n, chain(n).hash, address) && decode(x.raw) == Event(x.event)
    decreases high - low
  {
    var block, rest := BlockSteps(chain(low), low, address, decode), ScanSteps(chain, low + 1, high, address, decode);
    ScanStepsAt(chain, low, high, address, decode);
    assert x in block || x in rest;
    if x in block {
      n := low;
      i := LogOfBlockStep(chain(low), low, address, decode, x);
    } else {
      n, i := ReplyOfStep(chain, low + 1, high, address, decode, x);
    }
  }

  /** What one log says is what its decoded event is. */
  lemma SaidExactly(e: CanonicalEvent, chain: Chain, n: int, i: nat, chainId: int, address: string)
    requires chain(n).Block? && i < |chain(n).logs|
    requires DecoderFor(chainId, address)(ParseLog(chain(n).logs[i], n, chain(n).hash, address)).Event?
    ensures SaidBy(e, chain, n, i, chainId, address) <==>
            DecoderFor(chainId, address)(ParseLog(chain(n).logs[i], n, chain(n).hash, address)) == Event(e)
  {
    DecodedExactly(ParseLog(chain(n).logs[i], n, chain(n).hash, address), chainId, address, 1, e.name, e.payload);
  }

  /** A scan whose steps all succeed projects exactly the events that its replies say. */
  lemma ProjectedExactlyWhenSaid(chain: Chain, low: int, high: int, chainId: int, address: string, e: CanonicalEvent)
    requires forall x :: x in ScanSteps(chain, low, high, address, DecoderFor(chainId, address)) ==> !x.Halt?
    ensures (exists x :: x in ScanSteps(chain, low, high, address, DecoderFor(chainId, address))
                         && x.Project? && x.event == e) <==>
            SaidInRange(e, chain, low, high, chainId, address)
  {
    var decode := DecoderFor(chainId, address);
    var xs := ScanSteps(chain, low, high, address, decode);
    if x :| x in xs && x.Project? && x.event == e {
      var n, i := ReplyOfStep(chain, low, high, address, decode, x);
      SaidExactly(e, chain, n, i, chainId, address);
      assert low <= n <= high && SaidBy(e, chain, n, i, chainId, address);
    }
    if SaidInRange(e, chain, low, high, chainId, address) {
      var n, i :| low <= n <= high && SaidBy(e, chain, n, i, chainId, address);
      var raw := ParseLog(chain(n).logs[i], n, chain(n).hash, address);
      StepOfReply(chain, low, high, address, decode, n, i);
      SaidExactly(e, chain, n, i, chainId, address);
      assert Project(e, raw) in xs;
    }
  }

  // ---------- the in-memory scan ----------

  lemma CanonicalExactlyWhenStep(s: State, chain: Chain, low: int, high: int, address: string, decode: Decoder,
                                 e: CanonicalEvent)
    requires Sound(s) && Anchored(s) && CopiesBlock(decode)
    requires Run(s, ScanSteps(chain, low, high, address, decode)).1.Returned?
    ensures var xs := ScanSteps(chain, low, high, address, decode);
            && (forall x :: x in xs ==> !x.Halt?)
            && ((e.key in Run(s, xs).0.events && Run(s, xs).0.events[e.key] == e) <==>
                (e.key in s.events && s.events[e.key] == e) || exists x :: x in xs && x.Project? && x.event == e)
  {
    var xs := ScanSteps(chain, low, high, address, decode);
    ScanLeaves(s, chain, low, high, address, decode);
    RanWithoutHalt(Run(s, xs).0, xs);
    CanonicalExactlyWhenProjected(s, xs, e);
  }

  /** After a successful scan an event is canonical exactly when it was before or some reply of the range says it. */
  lemma CanonicalExactlyWhenSaid(s: State, chain: Chain, low: int, high: int, chainId: int, address: string,
                                 e: CanonicalEvent)
    requires Sound(s) && Anchored(s)
    requires Run(s, ScanSteps(chain, low, high, address, DecoderFor(chainId, address))).1.Returned?
    ensures var s1 := Run(s, ScanSteps(chain, low, high, address, DecoderFor(chainId, address))).0;
            (e.key in s1.events && s1.events[e.key] == e) <==>
            (e.key in s.events && s.events[e.key] == e) || SaidInRange(e, chain, low, high, chainId, address)
  {
    DecoderFaithful(chainId, address);
    CanonicalExactlyWhenStep(s, chain, low, high, address, DecoderFor(chainId, address), e);
    ProjectedExactlyWhenSaid(chain, low, high, chainId, address, e);
  }

  /** From nothing: the canonical events are exactly those that the replies of the range say. */
  lemma FirstScanExactly(chain: Chain, low: int, high: int, chainId: int, address: string, e: CanonicalEvent)
    requires Run(EMPTY, ScanSteps(chain, low, high, address, DecoderFor(chainId, address))).1.Returned?
    ensures var s1 := Run(EMPTY, ScanSteps(chain, low, high, address, DecoderFor(chainId, address))).0;
            (e.key in s1.events && s1.events[e.key] == e) <==> SaidInRange(e, chain, low, high, chainId, address)
  {
    assert Highest({}) == None;
    CanonicalExactlyWhenSaid(EMPTY, chain, low, high, chainId, address, e);
  }

  /** The blocks of the range are stored with the hashes of their replies. */
  lemma BlocksAreReplies(s: State, chain: Chain, low: int, high: int, address: string, decode: Decoder, n: int)
    requires Run(s, ScanSteps(chain, low, high, address, decode)).1.Returned? && low <= n <= high
    ensures var s1 := Run(s, ScanSteps(chain, low, high, address, decode)).0;
            chain(n).Block? && n in s1.blocks && s1.blocks[n] == chain(n).hash
  {
    RunMakesDone(s, ScanSteps(chain, low, high, address, decode));
    BlockInScan(chain, low, n, high, address, decode);
  }

  lemma RanWithoutHalt(s: State, xs: seq<Step>)
    requires forall x :: x in xs ==> Done(s, x)
    ensures forall x :: x in xs ==> !x.Halt?
  {
  }

  lemma CanonicalExactlyWhenProjected(s: State, xs: seq<Step>, e: CanonicalEvent)
    requires Run(s, xs).1.Returned? && Within(s.events, Run(s, xs).0.events)
    requires forall x :: x in xs ==> Done(Run(s, xs).0, x)
    requires forall k :: k in Run(s, xs).0.events <==> k in s.events || Projects(xs, k)
    ensures var s1 := Run(s, xs).0;
            (e.key in s1.events && s1.events[e.key] == e) <==>
            (e.key in s.events && s.events[e.key] == e) || exists x :: x in xs && x.Project? && x.event == e
  {
    var s1 := Run(s, xs).0;
    if e.key in s1.events && s1.events[e.key] == e && e.key !in s.events {
      assert Projects(xs, e.key);
      var x :| x in xs && x.Project? && x.event.key == e.key;
      assert Done(s1, x);
    }
    if x :| x in xs && x.Project? && x.event == e {
      assert Done(s1, x);
    }
    if e.key in s1.events && s1.events[e.key] == e && e.key in s.events {
      assert s.events[e.key] == e;
    }
  }

  // ---------- what the result counts ----------

  /** The places of all logs in the replies of the range. */
  ghost function LogPlaces(chain: Chain, low: int, high: int): set<(int, int)> {
    set n, i | low <= n <= high && chain(n).Block? && 0 <= i < |chain(n).logs| :: (n, i)
  }

  lemma {:induction false} RowOfPlaces(n: int, m: nat)
    ensures |set i | 0 <= i < m :: (n, i)| == m
  {
    var row := set i | 0 <= i < m :: (n, i);
    if m > 0 {
      RowOfPlaces(n, m - 1);
      assert row == (set i | 0 <= i < m - 1 :: (n, i)) + {(n, m - 1)};
    }
  }

  lemma PlacesSplit(chain: Chain, low: int, high: int, m: nat)
    requires low <= high && m == if chain(low).Block? then |chain(low).logs| else 0
    ensures LogPlaces(chain, low, high) == (set i | 0 <= i < m :: (low, i)) + LogPlaces(chain, low + 1, high)
    ensures (set i | 0 <= i < m :: (low, i)) !! LogPlaces(chain, low + 1, high)
  {
    var row, rest := set i | 0 <= i < m :: (low, i), LogPlaces(chain, low + 1, high);
    forall p ensures p in LogPlaces(chain, low, high) <==> p in row || p in rest {
    }
  }

  /** The observed logs of a scan are all logs in the replies of its range. */
  lemma {:induction false} ObservedExactly(chain: Chain, low: int, high: int)
    ensures Observed(chain, low, high) == |LogPlaces(chain, low, high)|
    decreases high - low
  {
    if low > high {
      assert LogPlaces(chain, low, high) == {};
    } else {
      var m := if chain(low).Block? then |chain(low).logs| else 0;
      PlacesSplit(chain, low, high, m);
      RowOfPlaces(low, m);
      ObservedExactly(chain, low + 1, high);
    }
  }

  /** The result of a successful scan: the head, the confirmed height, the number of blocks and of logs, and the growth
      of the canonical log. Below the confirmation depth nothing is fetched. */
  lemma ScanReports(s: State, provider: Provider, start: int, confirmations: int, address: string, decode: Decoder)
    requires Scanned(s, provider, start, confirmations, address, decode).1.Returned?
    ensures provider.head.Some? && start >= 0 && confirmations >= 0
    ensures var (s1, r) := Scanned(s, provider, start, confirmations, address, decode);
            Reports(provider, start, confirmations, r.value) && r.value.projectedEvents == |s1.events| - |s.events|
  {
    var through := provider.head.value - confirmations;
    ObservedExactly(provider.chain, start, through);
    if through >= start {
      RunCounts(s, ScanSteps(provider.chain, start, through, address, decode));
    } else {
      NoPlaces(provider.chain, start, through);
    }
  }

  /** The head, the confirmed height, the number of blocks in between, and the number of logs in their replies. */
  ghost predicate Reports(provider: Provider, start: int, confirmations: int, r: ScanResult)
    requires provider.head.Some?
  {
    && r.head == provider.head.value && r.confirmedThrough == r.head - confirmations
    && r.scannedBlocks == (if r.confirmedThrough < start then 0 else r.confirmedThrough + 1 - start)
    && r.observedLogs == |LogPlaces(provider.chain, start, r.confirmedThrough)|
  }

  lemma NoPlaces(chain: Chain, low: int, high: int)
    requires low > high
    ensures |LogPlaces(chain, low, high)| == 0
  {
    assert LogPlaces(chain, low, high) == {};
  }

  // ---------- the durable scan ----------

  /** The rows under an id are those of the i-th log of block n, field by field. */
  ghost predicate RowsOfLog(t: Tables, id: string, chain: Chain, n: int, i: nat, chainId: int, address: string)
    requires chain(n).Block? && i < |chain(n).logs|
  {
    var log := chain(n).logs[i];
    && id in t.rawLogs
    && t.rawLogs[id] == RawRow(chainId, Lower(address), Lower(log.transactionHash), log.logIndex, n, chain(n).hash,
                               log.topics, Lower(log.data))
    && id in t.events && t.events[id].blockNumber == n && t.events[id].blockHash == chain(n).hash
    && exists payload :: Encodes(log.topics, log.data, t.events[id].name, payload)
                         && t.events[id].payload == Dictionary(payload)
  }

  lemma LeftRowsOfLog(t: Tables, scope: Scope, head: int, chain: Chain, n: int, i: nat, address: string)
    requires chain(n).Block? && i < |chain(n).logs|
    requires var raw := ParseLog(chain(n).logs[i], n, chain(n).hash, address);
             var decoded := Decode(raw, scope.chainId, address, 1);
             decoded.Event? && Left(t, scope, head, Project(decoded.event, raw))
    ensures var raw := ParseLog(chain(n).logs[i], n, chain(n).hash, address);
            var id := EventId(Decode(raw, scope.chainId, address, 1).event.key);
            && IsIdOf(id, scope.chainId, address, chain(n).logs[i].transactionHash, chain(n).logs[i].logIndex, 1)
            && RowsOfLog(t, id, chain, n, i, scope.chainId, address)
  {
    var raw := ParseLog(chain(n).logs[i], n, chain(n).hash, address);
    var e := Decode(raw, scope.chainId, address, 1).event;
    EventIdIs(e.key);
    LowerIsLower(address);
    LowerIsLower(raw.transactionHash);
    DecodedExactly(raw, scope.chainId, address, 1, e.name, e.payload);
  }

  /** After a successful durable scan each log of the range has its rows, under the id made of its own fields. */
  lemma RepliesHaveRows(t: Tables, scope: Scope, head: int, chain: Chain, low: int, high: int, address: string, n: int,
                        i: nat)
    returns (id: string)
    requires Store(t, scope, head, ScanSteps(chain, low, high, address, DecoderFor(scope.chainId, address))).1.Returned?
    requires low <= n <= high && chain(n).Block? && i < |chain(n).logs|
    ensures IsIdOf(id, scope.chainId, address, chain(n).logs[i].transactionHash, chain(n).logs[i].logIndex, 1)
    ensures RowsOfLog(Store(t, scope, head, ScanSteps(chain, low, high, address, DecoderFor(scope.chainId, address))).0,
                      id, chain, n, i, scope.chainId, address)
  {
    var decode := DecoderFor(scope.chainId, address);
    var raw := ParseLog(chain(n).logs[i], n, chain(n).hash, address);
    StoreLeaves(t, scope, head, ScanSteps(chain, low, high, address, decode));
    StepOfReply(chain, low, high, address, decode, n, i);
    StoreCounts(t, scope, head, ScanSteps(chain, low, high, address, decode));
    id := EventId(decode(raw).event.key);
    LeftRowsOfLog(Store(t, scope, head, ScanSteps(chain, low, high, address, decode)).0, scope, head, chain, n, i,
                  address);
  }

  /** And every new row is that of some log of the range. */
  lemma NewRowsAreReplies(t: Tables, scope: Scope, head: int, chain: Chain, low: int, high: int, address: string,
                          id: string)
    returns (n: int, i: nat)
    requires id in Store(t, scope, head,
                 ScanSteps(chain, low, high, address, DecoderFor(scope.chainId, address))).0.events
    requires id !in t.events
    ensures low <= n <= high && chain(n).Block? && i < |chain(n).logs|
    ensures IsIdOf(id, scope.chainId, address, chain(n).logs[i].transactionHash, chain(n).logs[i].logIndex, 1)
  {
    var decode := DecoderFor(scope.chainId, address);
    var xs := ScanSteps(chain, low, high, address, decode);
    StoreInventsNothing(t, scope, head, xs, id);
    var x :| x in xs && x.Project? && EventId(x.event.key) == id;
    n, i := ReplyOfStep(chain, low, high, address, decode, x);
    EventIdIs(x.event.key);
    LowerIsLower(address);
    LowerIsLower(x.raw.transactionHash);
  }

  lemma {:induction false} LogProjections(logs: seq<RawChainLog>, decode: Decoder)
    requires forall i :: 0 <= i < |logs| ==> decode(logs[i]).Event?
    ensures Projections(LogSteps(logs, decode)) == |logs|
    decreases |logs|
  {
    if logs != [] {
      LogProjections(logs[1..], decode);
      ProjectionsOfTwo(DecodeStep(logs[0], decode), LogSteps(logs[1..], decode));
      assert Projections([Project(decode(logs[0]).event, logs[0])]) == 1;
    }
  }

  lemma BlockProjections(hash: string, logs: seq<WireLog>, n: int, address: string, decode: Decoder)
    requires forall i :: 0 <= i < |logs| ==> decode(ParseLog(logs[i], n, hash, address)).Event?
    ensures Projections(BlockSteps(Block(hash, logs), n, address, decode)) == |logs|
  {
    LogProjections(ParseLogs(logs, n, hash, address), decode);
    ProjectionsOfTwo([Mark(n, hash)], LogSteps(ParseLogs(logs, n, hash, address), decode));
    assert Projections([Mark(n, hash)]) == 0;
  }

  lemma {:induction false} ScanProjections(chain: Chain, low: int, high: int, address: string, decode: Decoder)
    requires NeverSkips(decode) && forall x :: x in ScanSteps(chain, low, high, address, decode) ==> !x.Halt?
    ensures Projections(ScanSteps(chain, low, high, address, decode)) == Observed(chain, low, high)
    decreases high - low
  {
    if low <= high {
      ScanStepsAt(chain, low, high, address, decode);
      BlockInScan(chain, low, low, high, address, decode);
      forall i | 0 <= i < |chain(low).logs|
        ensures decode(ParseLog(chain(low).logs[i], low, chain(low).hash, address)).Event?
      {
        StepOfReply(chain, low, high, address, decode, low, i);
      }
      BlockProjections(chain(low).hash, chain(low).logs, low, address, decode);
      ProjectionsOfTwo(BlockSteps(chain(low), low, address, decode), ScanSteps(chain, low + 1, high, address, decode));
      ScanProjections(chain, low + 1, high, address, decode);
    }
  }

  /** The result of a successful durable scan: the same fields, with every log of the range counted as projected. */
  lemma StoredScanReports(t: Tables, chainId: int, address: string, confirmations: int, provider: Provider, start: int)
    requires StoredScan(t, chainId, address, confirmations, provider, start).1.Returned?
    ensures provider.head.Some?
    ensures var r := StoredScan(t, chainId, address, confirmations, provider, start).1;
            Reports(provider, start, confirmations, r.value) && r.value.projectedEvents == r.value.observedLogs
  {
    var head, through, decode := StoredScanIsStore(t, chainId, address, confirmations, provider, start);
    ObservedExactly(provider.chain, start, through);
    if start <= through {
      CountedAsObserved(t, Scope(chainId, Lower(address), confirmations), head, provider.chain, start, through, address,
                        decode);
    } else {
      NoPlaces(provider.chain, start, through);
    }
  }

  lemma CountedAsObserved(t: Tables, scope: Scope, head: int, chain: Chain, low: int, high: int, address: string,
                          decode: Decoder)
    requires NeverSkips(decode) && Store(t, scope, head, ScanSteps(chain, low, high, address, decode)).1.Returned?
    ensures Store(t, scope, head, ScanSteps(chain, low, high, address, decode)).1.value == Observed(chain, low, high)
  {
    StoreCounts(t, scope, head, ScanSteps(chain, low, high, address, decode));
    ScanProjections(chain, low, high, address, decode);
  }
}
