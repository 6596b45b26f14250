/** What scanning keeps: compositionality, resumption, conservation, anchoring, contiguity. */
module ScanLaws {
  import opened Wrappers
  import opened Projector
  import opened Consumer

  // ---------- steps already done ----------

  predicate WellFormed(e: CanonicalEvent) {
    e.blockNumber >= 0 && e.key.logIndex >= 0 && e.blockHash != ""
  }

  /** The state already holds what the step would record. */
  predicate Done(s: State, x: Step) {
    match x
    case Mark(number, hash) => number >= 0 && hash != "" && number in s.blocks && s.blocks[number] == hash
    case Project(e, _) => WellFormed(e) && e.key in s.events && s.events[e.key] == e
    case Halt(_) => false
  }

  lemma PerformMakesDone(s: State, x: Step)
    requires Perform(s, x).1.Returned?
    ensures Done(Perform(s, x).0, x)
  {
  }

  lemma PerformKeepsDone(s: State, x: Step, y: Step)
    requires Done(s, y)
    ensures Done(Perform(s, x).0, y)
  {
  }

  lemma DoneChangesNothing(s: State, x: Step)
    requires Done(s, x)
    ensures Perform(s, x) == (s, Returned(0))
  {
  }

  lemma {:induction false} RunKeepsDone(s: State, xs: seq<Step>, y: Step)
    requires Done(s, y)
    ensures Done(Run(s, xs).0, y)
    decreases |xs|
  {
    if xs != [] {
      PerformKeepsDone(s, xs[0], y);
      RunKeepsDone(Perform(s, xs[0]).0, xs[1..], y);
    }
  }

  lemma {:induction false} RunMakesDone(s: State, xs: seq<Step>)
    requires Run(s, xs).1.Returned?
    ensures forall x :: x in xs ==> Done(Run(s, xs).0, x)
    decreases |xs|
  {
    if xs != [] {
      var s1 := Perform(s, xs[0]).0;
      PerformMakesDone(s, xs[0]);
      RunKeepsDone(s1, xs[1..], xs[0]);
      RunMakesDone(s1, xs[1..]);
    }
  }

  lemma {:induction false} DoneRunChangesNothing(s: State, xs: seq<Step>)
    requires forall x :: x in xs ==> Done(s, x)
    ensures Run(s, xs) == (s, Returned(0))
    decreases |xs|
  {
    if xs != [] {
      DoneChangesNothing(s, xs[0]);
      DoneRunChangesNothing(s, xs[1..]);
    }
  }

  lemma {:induction false} RunAppend(s: State, xs: seq<Step>, ys: seq<Step>)
    ensures Run(s, xs + ys) ==
            if Run(s, xs).1.Raised? then Run(s, xs)
            else Plus(Run(s, xs).1.value, Run(Run(s, xs).0, ys))
    decreases |xs|
  {
    if xs == [] {
      assert xs + ys == ys;
    } else {
      var (s1, r) := Perform(s, xs[0]);
      assert xs + ys == [xs[0]] + (xs[1..] + ys);
      RunCons(s, xs[0], xs[1..] + ys);
      if r.Returned? {
        RunAppend(s1, xs[1..], ys);
        if Run(s1, xs[1..]).1.Returned? {
          PlusPlus(r.value, Run(s1, xs[1..]).1.value, Run(Run(s1, xs[1..]).0, ys));
        }
      }
    }
  }

  // ---------- scans compose and resume ----------

  /** A run cut off anywhere and started again ends as one uninterrupted run, raising or not. */
  lemma CutAndRerun(s: State, xs: seq<Step>, i: nat)
    requires i <= |xs| && Run(s, xs[..i]).1.Returned?
    ensures Run(s, xs) == Plus(Run(s, xs[..i]).1.value, Run(Run(s, xs[..i]).0, xs))
  {
    var (s1, r) := Run(s, xs[..i]);
    assert xs == xs[..i] + xs[i..];
    RunAppend(s, xs[..i], xs[i..]);
    RunMakesDone(s, xs[..i]);
    DoneRunChangesNothing(s1, xs[..i]);
    RunAppend(s1, xs[..i], xs[i..]);
  }

  lemma {:induction false} ScanStepsSplit(chain: Chain, low: int, mid: int, high: int, address: string, decode: Decoder)
    requires low <= mid <= high + 1
    ensures ScanSteps(chain, low, high, address, decode) ==
            ScanSteps(chain, low, mid - 1, address, decode) + ScanSteps(chain, mid, high, address, decode)
    decreases mid - low
  {
    if low < mid {
      ScanStepsAt(chain, low, high, address, decode);
      ScanStepsAt(chain, low, mid - 1, address, decode);
      ScanStepsSplit(chain, low + 1, mid, high, address, decode);
    }
  }

  /** Adjacent and overlapping scans of one chain equal the scan of their union; `again == low, high == through`
      is the second identical scan. */
  lemma ScansCompose(s: State, chain: Chain, low: int, again: int, through: int, high: int,
                     address: string, decode: Decoder)
    requires low <= again <= through + 1 && through <= high
    requires Run(s, ScanSteps(chain, low, through, address, decode)).1.Returned?
    ensures var (s1, r) := Run(s, ScanSteps(chain, low, through, address, decode));
            Run(s, ScanSteps(chain, low, high, address, decode)) ==
            Plus(r.value, Run(s1, ScanSteps(chain, again, high, address, decode)))
  {
    var first := ScanSteps(chain, low, through, address, decode);
    var (s1, r) := Run(s, first);
    var shared, later := ScanSteps(chain, again, through, address, decode),
        ScanSteps(chain, through + 1, high, address, decode);
    ScanStepsSplit(chain, low, through + 1, high, address, decode);
    ScanStepsSplit(chain, low, again, through, address, decode);
    ScanStepsSplit(chain, again, through + 1, high, address, decode);
    RunMakesDone(s, first);
    DoneRunChangesNothing(s1, shared);
    RunAppend(s1, shared, later);
    RunAppend(s, first, later);
  }

  /** Scanning the same range a second time returns at once: nothing changes and nothing is counted as projected. */
  lemma SecondScanProjectsNothing(s: State, provider: Provider, start: int, confirmations: int,
                                  address: string, decode: Decoder)
    requires Scanned(s, provider, start, confirmations, address, decode).1.Returned?
    ensures var (s1, r) := Scanned(s, provider, start, confirmations, address, decode);
            Scanned(s1, provider, start, confirmations, address, decode) ==
            (s1, Returned(r.value.(projectedEvents := 0)))
  {
    if provider.head.value - confirmations >= start {
      var xs := ScanSteps(provider.chain, start, provider.head.value - confirmations, address, decode);
      RunMakesDone(s, xs);
      DoneRunChangesNothing(Run(s, xs).0, xs);
    }
  }

  /** A provider that fails for some blocks and otherwise answers as `chain` does. */
  ghost predicate Flaky(flaky: Chain, chain: Chain) {
    forall n :: flaky(n) == Unavailable || flaky(n) == chain(n)
  }

  /** Scanning through a flaky provider performs a prefix of the steps of the sound chain. */
  lemma {:induction false} FlakyRunsAPrefix(s: State, flaky: Chain, chain: Chain, low: int, high: int,
                                            address: string, decode: Decoder) returns (i: nat)
    requires Flaky(flaky, chain)
    requires Run(s, ScanSteps(chain, low, high, address, decode)).1.Returned?
    ensures i <= |ScanSteps(chain, low, high, address, decode)|
    ensures Run(s, ScanSteps(chain, low, high, address, decode)[..i]).1.Returned?
    ensures Run(s, ScanSteps(flaky, low, high, address, decode)).0 ==
            Run(s, ScanSteps(chain, low, high, address, decode)[..i]).0
    decreases high - low
  {
    i := 0;
    if low <= high {
      var block := BlockSteps(chain(low), low, address, decode);
      var rest := ScanSteps(chain, low + 1, high, address, decode);
      ScanStepsAt(chain, low, high, address, decode);
      ScanStepsAt(flaky, low, high, address, decode);
      RunAppend(s, block, rest);
      if flaky(low) == Unavailable {
        RunCons(s, Halt(RpcError), ScanSteps(flaky, low + 1, high, address, decode));
      } else {
        var s1 := Run(s, block).0;
        var j := FlakyRunsAPrefix(s1, flaky, chain, low + 1, high, address, decode);
        i := |block| + j;
        assert (block + rest)[..i] == block + rest[..j];
        RunAppend(s, block, rest[..j]);
        RunAppend(s, block, ScanSteps(flaky, low + 1, high, address, decode));
      }
    }
  }

  /** An outage during one scan costs nothing: the next scan ends as if there had been no outage. */
  lemma InterruptedScanResumes(s: State, flaky: Chain, chain: Chain, low: int, high: int,
                               address: string, decode: Decoder)
    requires Flaky(flaky, chain)
    requires Run(s, ScanSteps(chain, low, high, address, decode)).1.Returned?
    ensures var s1 := Run(s, ScanSteps(flaky, low, high, address, decode)).0;
            var again := Run(s1, ScanSteps(chain, low, high, address, decode));
            again.0 == Run(s, ScanSteps(chain, low, high, address, decode)).0 && again.1.Returned?
  {
    var i := FlakyRunsAPrefix(s, flaky, chain, low, high, address, decode);
    CutAndRerun(s, ScanSteps(chain, low, high, address, decode), i);
  }

  // ---------- soundness of states ----------

  ghost predicate Sound(s: State) {
    && s.events.Keys !! s.uncertain.Keys
    && (forall k :: k in s.events ==> s.events[k].key == k && WellFormed(s.events[k]))
    && (forall k :: k in s.uncertain ==> s.uncertain[k].key == k && WellFormed(s.uncertain[k]))
    && (forall n :: n in s.blocks ==> n >= 0 && s.blocks[n] != "")
    && s.last == Highest(s.blocks.Keys)
  }

  /** Every canonical event sits on a checkpoint of its block that carries the same hash. */
  ghost predicate Anchored(s: State) {
    forall k :: k in s.events ==>
                  s.events[k].blockNumber in s.blocks && s.blocks[s.events[k].blockNumber] == s.events[k].blockHash
  }

  ghost predicate Within<K, V>(a: map<K, V>, b: map<K, V>) {
    forall k :: k in a ==> k in b && b[k] == a[k]
  }

  /** Every event known in `s` is known in `s1` with the same content. */
  ghost predicate Keeps(s: State, s1: State) {
    forall k :: s.Find(k).Some? ==> s1.Find(k) == s.Find(k)
  }

  lemma CheckpointSound(s: State, number: int, hash: string, allowGap: bool)
    requires Sound(s)
    ensures Sound(Checkpointed(s, number, hash, allowGap).0)
    ensures Within(s.blocks, Checkpointed(s, number, hash, allowGap).0.blocks)
    ensures Anchored(s) ==> Anchored(Checkpointed(s, number, hash, allowGap).0)
  {
    var (s1, r) := Checkpointed(s, number, hash, allowGap);
    if s1 != s {
      HighestUnique(s1.blocks.Keys, s1.last.value);
    }
  }

  /** How a checkpoint is answered: true for a new block that follows or may skip, false for a block known with this
      hash. */
  lemma CheckpointAnswers(s: State, number: int, hash: string, allowGap: bool)
    requires Sound(s)
    ensures var (s1, r) := Checkpointed(s, number, hash, allowGap);
            var follows := allowGap || s.blocks == map[] || exists m :: m in s.blocks && number <= m + 1;
            && (r == Returned(true) <==> number >= 0 && hash != "" && number !in s.blocks && follows)
            && (r == Returned(false) <==> number in s.blocks && s.blocks[number] == hash)
            && (r == Raised(ValueError) <==> number < 0 || hash == "")
            && (r == Raised(BlockGap) <==> number >= 0 && hash != "" && number !in s.blocks && !follows)
            && (r == Raised(ProjectionConflict) <==> hash != "" && number in s.blocks && s.blocks[number] != hash)
            && s1.blocks == (if r == Returned(true) then s.blocks[number := hash] else s.blocks)
            && s1.events == s.events && s1.uncertain == s.uncertain
  {
    if s.blocks != map[] {
      var some := PickOne(s.blocks.Keys);
      assert some in s.blocks.Keys;
      assert s.last.value in s.blocks.Keys;
      assert forall m :: m in s.blocks ==> m in s.blocks.Keys;
    } else {
      assert s.blocks.Keys == {};
    }
  }

  /** How an event is answered: true when it is new or withheld with this content, false when it is canonical. */
  lemma IngestAnswers(s: State, e: CanonicalEvent)
    requires Sound(s)
    ensures var r := Ingested(s, e).1;
            var clash := e.blockNumber in s.blocks && s.blocks[e.blockNumber] != e.blockHash;
            && (r == Raised(ValueError) <==> e.blockNumber < 0 || e.key.logIndex < 0 || e.blockHash == "")
            && (r == Returned(false) <==> s.Find(e.key) == Some(e) && e.key in s.events)
            && (r == Returned(true) <==>
                WellFormed(e) && e.key !in s.events && (e.key in s.uncertain ==> s.uncertain[e.key] == e) && !clash)
            && (r.Raised? && WellFormed(e) ==> r == Raised(ProjectionConflict))
  {
  }

  lemma IngestSound(s: State, e: CanonicalEvent)
    requires Sound(s)
    ensures Sound(Ingested(s, e).0)
  {
  }

  /** A rollback forgets no event and invents none. */
  lemma RollbackKeepsEvents(s: State, number: int)
    requires s.events.Keys !! s.uncertain.Keys
    ensures forall k :: RolledBack(s, number).0.Find(k) == s.Find(k)
    ensures RolledBack(s, number).0.events.Keys !! RolledBack(s, number).0.uncertain.Keys
  {
  }

  lemma RollbackSound(s: State, number: int)
    requires Sound(s)
    ensures Sound(RolledBack(s, number).0)
  {
    RollbackKeepsEvents(s, number);
    var s1 := RolledBack(s, number).0;
    forall k | k in s1.uncertain ensures s1.uncertain[k].key == k && WellFormed(s1.uncertain[k]) {
      assert k in s.uncertain || k in s.events;
    }
  }

  lemma RollbackAnchored(s: State, number: int)
    requires Anchored(s)
    ensures Anchored(RolledBack(s, number).0)
  {
  }

  /** When ingesting forgets an event: exactly when a matching withheld event meets a checkpoint with another hash. */
  lemma IngestLosesExactlyWhen(s: State, e: CanonicalEvent)
    requires Sound(s)
    ensures !Keeps(s, Ingested(s, e).0) <==>
            && WellFormed(e) && e.key in s.uncertain && s.uncertain[e.key] == e
            && e.blockNumber in s.blocks && s.blocks[e.blockNumber] != e.blockHash
  {
    var s1 := Ingested(s, e).0;
    if WellFormed(e) && e.key in s.uncertain && s.uncertain[e.key] == e
       && e.blockNumber in s.blocks && s.blocks[e.blockNumber] != e.blockHash {
      assert s.Find(e.key).Some? && s1.Find(e.key).None?;
    }
  }

  /** The loss does happen when the projection is driven without the scanner. */
  lemma DirectIngestCanLoseAnEvent(e: CanonicalEvent)
    requires WellFormed(e)
    ensures var s0 := Ingested(EMPTY, e).0;
            var s1 := RolledBack(s0, 0).0;
            var s2 := Checkpointed(s1, e.blockNumber, e.blockHash + "'", false).0;
            var (s3, r) := Ingested(s2, e);
            s2.Find(e.key) == Some(e) && r == Raised(ProjectionConflict) && s3.Find(e.key) == None
  {
    var s1 := RolledBack(Ingested(EMPTY, e).0, 0).0;
    assert s1.uncertain[e.key] == e && s1.blocks == map[];
    assert |e.blockHash + "'"| != |e.blockHash|;
  }

  // ---------- what the scanner's order of steps guarantees ----------

  /** Each event comes after the checkpoint of its own block, with the same hash. */
  ghost predicate Guarded(known: map<int, string>, xs: seq<Step>)
    decreases |xs|
  {
    xs == [] ||
    match xs[0]
    case Mark(number, hash) => Guarded(known[number := hash], xs[1..])
    case Project(e, _) => e.blockNumber in known && known[e.blockNumber] == e.blockHash && Guarded(known, xs[1..])
    case Halt(_) => true
  }

  lemma {:induction false} LogStepsGuarded(known: map<int, string>, logs: seq<RawChainLog>, decode: Decoder,
                                           later: seq<Step>)
    requires CopiesBlock(decode) && Guarded(known, later)
    requires forall i :: 0 <= i < |logs| ==>
             logs[i].blockNumber in known && known[logs[i].blockNumber] == logs[i].blockHash
    ensures Guarded(known, LogSteps(logs, decode) + later)
  {
    if logs == [] {
      assert [] + later == later;
    } else {
      var head, rest := DecodeStep(logs[0], decode), LogSteps(logs[1..], decode);
      LogStepsGuarded(known, logs[1..], decode, later);
      assert head + rest + later == head + (rest + later);
      if head != [] {
        assert ([head[0]] + (rest + later))[1..] == rest + later;
      } else {
        assert [] + (rest + later) == rest + later;
      }
    }
  }

  lemma BlockStepsGuarded(known: map<int, string>, reply: BlockReply, number: int,
                          address: string, decode: Decoder, later: seq<Step>)
    requires CopiesBlock(decode)
    requires reply.Block? ==> Guarded(known[number := reply.hash], later)
    ensures Guarded(known, BlockSteps(reply, number, address, decode) + later)
  {
    if reply.Block? {
      var mark, logs := Mark(number, reply.hash), ParseLogs(reply.logs, number, reply.hash, address);
      var rest := LogSteps(logs, decode) + later;
      LogStepsGuarded(known[number := reply.hash], logs, decode, later);
      assert BlockSteps(reply, number, address, decode) + later == [mark] + rest;
      assert ([mark] + rest)[1..] == rest;
    }
  }

  lemma {:induction false} ScanStepsGuarded(known: map<int, string>, chain: Chain, low: int, high: int,
                                            address: string, decode: Decoder)
    requires CopiesBlock(decode)
    ensures Guarded(known, ScanSteps(chain, low, high, address, decode))
    decreases high - low
  {
    if low <= high {
      if chain(low).Block? {
        ScanStepsGuarded(known[low := chain(low).hash], chain, low + 1, high, address, decode);
      }
      BlockStepsGuarded(known, chain(low), low, address, decode, ScanSteps(chain, low + 1, high, address, decode));
      ScanStepsAt(chain, low, high, address, decode);
    }
  }

  lemma {:induction false} GuardedPrefix(known: map<int, string>, xs: seq<Step>, i: nat)
    requires Guarded(known, xs) && i <= |xs|
    ensures Guarded(known, xs[..i])
    decreases |xs|
  {
    if i > 0 {
      assert xs[..i][1..] == xs[1..][..i - 1];
      match xs[0] {
        case Mark(number, hash) => GuardedPrefix(known[number := hash], xs[1..], i - 1);
        case Project(_, _) => GuardedPrefix(known, xs[1..], i - 1);
        case Halt(_) =>
      }
    }
  }

  lemma PerformGuarded(s: State, xs: seq<Step>)
    requires Sound(s) && Anchored(s) && xs != [] && Guarded(s.blocks, xs)
    ensures var (s1, r) := Perform(s, xs[0]);
            && Sound(s1) && Anchored(s1) && Keeps(s, s1)
            && Within(s.events, s1.events) && Within(s.blocks, s1.blocks)
            && (r.Raised? ==> s1 == s)
            && (r.Returned? ==> Guarded(s1.blocks, xs[1..]))
  {
    match xs[0] {
      case Mark(number, hash) =>
        CheckpointSound(s, number, hash, false);
        if Perform(s, xs[0]).1.Returned? {
          assert Perform(s, xs[0]).0.blocks == s.blocks[number := hash];
        }
      case Project(e, _) =>
        IngestSound(s, e);
        IngestLosesExactlyWhen(s, e);
      case Halt(_) =>
    }
  }

  /** The events that the run newly accepts. */
  ghost function Accepted(s: State, xs: seq<Step>): set<CanonicalEvent>
    decreases |xs|
  {
    if xs == [] then {}
    else
      var (s1, r) := Perform(s, xs[0]);
      if r.Raised? then {}
      else (if r.value == 1 then {xs[0].event} else {}) + Accepted(s1, xs[1..])
  }

  /** A guarded run, raising or not, keeps every known event and every checkpoint. */
  lemma {:induction false} RunKeeps(s: State, xs: seq<Step>)
    requires Sound(s) && Anchored(s) && Guarded(s.blocks, xs)
    ensures var s1 := Run(s, xs).0;
            && Sound(s1) && Anchored(s1) && Keeps(s, s1)
            && Within(s.events, s1.events) && Within(s.blocks, s1.blocks)
    decreases |xs|
  {
    if xs != [] {
      PerformGuarded(s, xs);
      if Perform(s, xs[0]).1.Returned? {
        RunKeeps(Perform(s, xs[0]).0, xs[1..]);
      }
    }
  }

  /** A guarded run adds what it accepts. */
  lemma {:induction false} RunAccepts(s: State, xs: seq<Step>, e: CanonicalEvent)
    requires Sound(s) && Anchored(s) && Guarded(s.blocks, xs)
    requires e in Accepted(s, xs)
    ensures e.key in Run(s, xs).0.events && Run(s, xs).0.events[e.key] == e
    decreases |xs|
  {
    PerformGuarded(s, xs);
    var s1 := Perform(s, xs[0]).0;
    RunKeeps(s1, xs[1..]);
    if e in Accepted(s1, xs[1..]) {
      RunAccepts(s1, xs[1..], e);
    } else {
      assert e == xs[0].event;
    }
  }

  /** A guarded run adds nothing but what it accepts. */
  lemma {:induction false} RunInventsNothing(s: State, xs: seq<Step>, k: EventKey)
    requires Sound(s) && Anchored(s) && Guarded(s.blocks, xs)
    requires Run(s, xs).0.Find(k).Some?
    ensures s.Find(k) == Run(s, xs).0.Find(k) || Run(s, xs).0.Find(k).value in Accepted(s, xs)
    decreases |xs|
  {
    if xs != [] {
      PerformGuarded(s, xs);
      var (s1, r) := Perform(s, xs[0]);
      if r.Returned? {
        RunInventsNothing(s1, xs[1..], k);
        if s1.Find(k) != s.Find(k) {
          assert r.value == 1 && xs[0].event.key == k && s1.Find(k) == Some(xs[0].event);
          RunKeeps(s1, xs[1..]);
        }
      }
    }
  }

  /** A log that returns with other content after a reorg (as when its transaction is mined in another block)
      stops every scan that reaches it. */
  lemma ReminedLogStopsEveryScan(s: State, xs: seq<Step>, e: CanonicalEvent, raw: RawChainLog)
    requires Sound(s) && Anchored(s) && Guarded(s.blocks, xs)
    requires Project(e, raw) in xs && s.Find(e.key).Some? && s.Find(e.key).value != e
    ensures Run(s, xs).1.Raised?
  {
    if Run(s, xs).1.Returned? {
      RunMakesDone(s, xs);
      RunKeeps(s, xs);
    }
  }
}
