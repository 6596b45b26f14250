/** Laws over whole histories of scans, cut-off scans and rollbacks. */
module ScanRuns {
  import opened Wrappers
  import opened Projector
  import opened Consumer
  import opened ScanLaws

  // ---------- when a scan succeeds, and with what result ----------

  /** What one step asks of the state before the whole run. */
  predicate Fits(s: State, x: Step) {
    match x
    case Mark(number, hash) => number >= 0 && hash != "" && (number in s.blocks ==> s.blocks[number] == hash)
    case Project(e, _) => WellFormed(e) && (s.Find(e.key).Some? ==> s.Find(e.key).value == e)
    case Halt(_) => false
  }

  /** Two steps do not give one block two hashes, or one event identity two contents. */
  predicate Agree(x: Step, y: Step) {
    && (x.Mark? && y.Mark? && x.number == y.number ==> x.hash == y.hash)
    && (x.Project? && y.Project? && x.event.key == y.event.key ==> x.event == y.event)
  }

  ghost predicate AllAgree(xs: seq<Step>) {
    xs == [] || ((forall y :: y in xs[1..] ==> Agree(xs[0], y)) && AllAgree(xs[1..]))
  }

  /** No checkpoint skips a block above the running maximum `top`. */
  ghost predicate Linked(top: Option<int>, xs: seq<Step>)
    decreases |xs|
  {
    xs == [] ||
    if xs[0].Mark? then
      && (top.None? || xs[0].number <= top.value + 1)
      && Linked(Raise(top, xs[0].number), xs[1..])
    else Linked(top, xs[1..])
  }

  lemma FitsAfter(s: State, x: Step, y: Step)
    requires Sound(s) && Perform(s, x).1.Returned?
    ensures Fits(Perform(s, x).0, y) <==> Fits(s, y) && Agree(x, y)
  {
  }

  lemma PerformSucceedsExactlyWhen(s: State, xs: seq<Step>)
    requires Sound(s) && Anchored(s) && xs != [] && Guarded(s.blocks, xs)
    ensures Perform(s, xs[0]).1.Returned? <==>
            Fits(s, xs[0]) && (xs[0].Mark? && s.last.Some? ==> xs[0].number <= s.last.value + 1)
  {
  }

  /** A scan succeeds exactly when its blocks link up and every reply agrees with what is already known
      and with the other replies. */
  lemma {:induction false} RunSucceedsExactlyWhen(s: State, xs: seq<Step>)
    requires Sound(s) && Anchored(s) && Guarded(s.blocks, xs)
    ensures Run(s, xs).1.Returned? <==> Linked(s.last, xs) && AllAgree(xs) && forall x :: x in xs ==> Fits(s, x)
    decreases |xs|
  {
    if xs != [] {
      PerformSucceedsExactlyWhen(s, xs);
      var (s1, r) := Perform(s, xs[0]);
      if r.Returned? {
        PerformGuarded(s, xs);
        RunSucceedsExactlyWhen(s1, xs[1..]);
        forall y | y in xs[1..] ensures Fits(s1, y) <==> Fits(s, y) && Agree(xs[0], y) {
          FitsAfter(s, xs[0], y);
        }
        assert forall x :: x in xs <==> x == xs[0] || x in xs[1..];
      }
    }
  }

  lemma {:induction false} LogStepsLinked(top: Option<int>, logs: seq<RawChainLog>, decode: Decoder, later: seq<Step>)
    ensures Linked(top, LogSteps(logs, decode) + later) <==> Linked(top, later)
    decreases |logs|
  {
    if logs == [] {
      assert [] + later == later;
    } else {
      var head, rest := DecodeStep(logs[0], decode), LogSteps(logs[1..], decode) + later;
      LogStepsLinked(top, logs[1..], decode, later);
      assert LogSteps(logs, decode) + later == head + rest;
      if head == [] {
        assert [] + rest == rest;
      } else {
        assert (head + rest)[1..] == rest;
      }
    }
  }

  function Raise(top: Option<int>, number: int): Option<int> {
    if top.None? || number > top.value then Some(number) else top
  }

  lemma BlockLinked(top: Option<int>, reply: BlockReply, number: int, address: string, decode: Decoder,
                    later: seq<Step>)
    requires reply.Block?
    ensures Linked(top, BlockSteps(reply, number, address, decode) + later) <==>
            (top.None? || number <= top.value + 1) && Linked(Raise(top, number), later)
  {
    var mark, logs := Mark(number, reply.hash), ParseLogs(reply.logs, number, reply.hash, address);
    var rest := LogSteps(logs, decode) + later;
    LogStepsLinked(Raise(top, number), logs, decode, later);
    assert BlockSteps(reply, number, address, decode) + later == [mark] + rest;
    assert ([mark] + rest)[1..] == rest;
  }

  /** Within one scan of available blocks only the first block can skip ahead. */
  lemma {:induction false} ScanLinkedExactlyWhen(top: Option<int>, chain: Chain, low: int, high: int,
                                                 address: string, decode: Decoder)
    requires low <= high && forall n :: low <= n <= high ==> chain(n).Block?
    ensures Linked(top, ScanSteps(chain, low, high, address, decode)) <==> top.None? || low <= top.value + 1
    decreases high - low
  {
    ScanStepsAt(chain, low, high, address, decode);
    BlockLinked(top, chain(low), low, address, decode, ScanSteps(chain, low + 1, high, address, decode));
    if low < high {
      ScanLinkedExactlyWhen(Raise(top, low), chain, low + 1, high, address, decode);
    }
  }

  ghost predicate Projects(xs: seq<Step>, k: EventKey) {
    exists x :: x in xs && x.Project? && x.event.key == k
  }

  lemma ProjectsCons(xs: seq<Step>, k: EventKey)
    requires xs != []
    ensures Projects(xs, k) <==> (xs[0].Project? && xs[0].event.key == k) || Projects(xs[1..], k)
  {
    assert forall x :: x in xs <==> x == xs[0] || x in xs[1..];
  }

  /** A successful scan projects exactly the decoded events and releases exactly those from the withheld ones. */
  lemma {:induction false} RunResult(s: State, xs: seq<Step>, k: EventKey)
    requires Sound(s) && Run(s, xs).1.Returned?
    ensures k in Run(s, xs).0.events <==> k in s.events || Projects(xs, k)
    ensures k in Run(s, xs).0.uncertain <==> k in s.uncertain && !Projects(xs, k)
    decreases |xs|
  {
    if xs != [] {
      var s1 := Perform(s, xs[0]).0;
      match xs[0] {
        case Mark(number, hash) => CheckpointSound(s, number, hash, false);
        case Project(e, _) => IngestSound(s, e);
      }
      RunResult(s1, xs[1..], k);
      ProjectsCons(xs, k);
    }
  }

  /** The reported number of projected events is the growth of the canonical log. */
  lemma {:induction false} RunCounts(s: State, xs: seq<Step>)
    requires Run(s, xs).1.Returned?
    ensures |Run(s, xs).0.events| == |s.events| + Run(s, xs).1.value
    decreases |xs|
  {
    if xs != [] {
      RunCounts(Perform(s, xs[0]).0, xs[1..]);
    }
  }

  // ---------- rollback and replay ----------

  lemma {:induction false} LogStepsKeepBlocks(s: State, logs: seq<RawChainLog>, decode: Decoder)
    ensures Run(s, LogSteps(logs, decode)).0.blocks == s.blocks
    decreases |logs|
  {
    if logs != [] {
      var head := DecodeStep(logs[0], decode);
      RunAppend(s, head, LogSteps(logs[1..], decode));
      LogStepsKeepBlocks(Run(s, head).0, logs[1..], decode);
      if head != [] {
        assert head == [head[0]] + [];
        RunCons(s, head[0], []);
      }
    }
  }

  /** A successful scan adds exactly the checkpoints of its range. */
  lemma {:induction false} ScanBlocks(s: State, chain: Chain, low: int, high: int, address: string, decode: Decoder)
    requires Run(s, ScanSteps(chain, low, high, address, decode)).1.Returned?
    ensures forall n :: n in Run(s, ScanSteps(chain, low, high, address, decode)).0.blocks <==>
                        n in s.blocks || low <= n <= high
    ensures forall n :: n in s.blocks && !(low <= n <= high) ==>
                        Run(s, ScanSteps(chain, low, high, address, decode)).0.blocks[n] == s.blocks[n]
    decreases high - low
  {
    if low <= high {
      var block, later := BlockSteps(chain(low), low, address, decode),
          ScanSteps(chain, low + 1, high, address, decode);
      ScanStepsAt(chain, low, high, address, decode);
      RunAppend(s, block, later);
      if chain(low).Unavailable? {
        RunCons(s, Halt(RpcError), later);
      } else {
        var mark := Mark(low, chain(low).hash);
        var logs := LogSteps(ParseLogs(chain(low).logs, low, chain(low).hash, address), decode);
        RunAppend(s, [mark], logs);
        RunCons(s, mark, []);
        LogStepsKeepBlocks(Run(s, [mark]).0, ParseLogs(chain(low).logs, low, chain(low).hash, address), decode);
        ScanBlocks(Run(s, block).0, chain, low + 1, high, address, decode);
      }
    }
  }

  lemma {:induction false} LogStepsFromBlock(logs: seq<RawChainLog>, number: int, decode: Decoder, x: Step)
    requires CopiesBlock(decode) && forall i :: 0 <= i < |logs| ==> logs[i].blockNumber == number
    requires x in LogSteps(logs, decode) && x.Project?
    ensures x.event.blockNumber == number
    decreases |logs|
  {
    if x !in DecodeStep(logs[0], decode) {
      LogStepsFromBlock(logs[1..], number, decode, x);
    }
  }

  lemma {:induction false} ScanStepsInRange(chain: Chain, low: int, high: int, address: string, decode: Decoder,
                                            x: Step)
    requires CopiesBlock(decode)
    requires x in ScanSteps(chain, low, high, address, decode) && x.Project?
    ensures low <= x.event.blockNumber <= high
    decreases high - low
  {
    if x in BlockSteps(chain(low), low, address, decode) {
      LogStepsFromBlock(ParseLogs(chain(low).logs, low, chain(low).hash, address), low, decode, x);
    } else {
      ScanStepsInRange(chain, low + 1, high, address, decode, x);
    }
  }

  lemma RollbackCount(s: State, number: int)
    requires number >= 0
    ensures |s.events| == |RolledBack(s, number).0.events| + RolledBack(s, number).1.value
  {
    var moved := From(s.events, number).Keys;
    assert (s.events - moved).Keys == s.events.Keys - moved;
    assert moved <= s.events.Keys;
  }

  lemma {:induction false} DoneStepsAgree(p: State, xs: seq<Step>)
    requires forall x :: x in xs ==> Done(p, x)
    ensures AllAgree(xs)
  {
    if xs != [] {
      DoneStepsAgree(p, xs[1..]);
      forall y | y in xs[1..] ensures Agree(xs[0], y) {
        assert Done(p, xs[0]) && Done(p, y);
      }
    }
  }

  /** What stays below `number`, if anything, reaches up to it. */
  ghost predicate Joined(p: State, number: int) {
    (forall n :: n in p.blocks ==> n >= number) || number - 1 in p.blocks
  }

  lemma JoinedExactlyWhen(p: State, number: int)
    requires Sound(p) && number >= 0
    ensures var top := RolledBack(p, number).0.last; Joined(p, number) <==> top.None? || number <= top.value + 1
  {
    BlocksJoinedExactlyWhen(p.blocks, number);
  }

  lemma BlocksJoinedExactlyWhen(blocks: map<int, string>, number: int)
    ensures var top := Highest(Below(blocks, number).Keys);
            (forall n :: n in blocks ==> n >= number) || number - 1 in blocks <==> top.None? || number <= top.value + 1
  {
    var below := Below(blocks, number).Keys;
    if Highest(below).None? {
      assert forall n :: n in blocks && n < number ==> n in below;
    } else {
      assert Highest(below).value in below;
      assert number - 1 in blocks ==> number - 1 in below;
    }
  }

  /** A replay whose steps all lie in `p` goes through from the state after the rollback. */
  lemma ReplaySucceeds(p: State, chain: Chain, number: int, high: int, address: string, decode: Decoder)
    requires Sound(p) && Anchored(p) && CopiesBlock(decode) && number >= 0
    requires forall x :: x in ScanSteps(chain, number, high, address, decode) ==> Done(p, x)
    requires number <= high ==> Joined(p, number)
    ensures Run(RolledBack(p, number).0, ScanSteps(chain, number, high, address, decode)).1.Returned?
  {
    var q, xs := RolledBack(p, number).0, ScanSteps(chain, number, high, address, decode);
    RollbackSound(p, number);
    RollbackAnchored(p, number);
    RollbackKeepsEvents(p, number);
    ScanStepsGuarded(q.blocks, chain, number, high, address, decode);
    DoneStepsAgree(p, xs);
    if number <= high {
      forall n | number <= n <= high ensures chain(n).Block? {
        BlockInScan(chain, number, n, high, address, decode);
      }
      JoinedExactlyWhen(p, number);
      ScanLinkedExactlyWhen(q.last, chain, number, high, address, decode);
    }
    RunSucceedsExactlyWhen(q, xs);
  }

  /** Every block of the range gives the scan its checkpoint, or halts it. */
  lemma {:induction false} BlockInScan(chain: Chain, low: int, n: int, high: int, address: string, decode: Decoder)
    requires low <= n <= high
    ensures (if chain(n).Block? then Mark(n, chain(n).hash) else Halt(RpcError)) in
            ScanSteps(chain, low, high, address, decode)
    decreases n - low
  {
    ScanStepsAt(chain, low, high, address, decode);
    if low < n {
      BlockInScan(chain, low + 1, n, high, address, decode);
    }
  }

  /** Nothing at or above `number` but what the replay brings. */
  ghost predicate NothingElse(p: State, xs: seq<Step>, number: int, high: int) {
    && (forall k :: k in p.events && p.events[k].blockNumber >= number ==> Projects(xs, k))
    && (forall n :: n in p.blocks && n >= number ==> n <= high)
  }

  lemma ReplayedEvents(p: State, q: State, r: State, xs: seq<Step>)
    requires Sound(p) && Sound(q) && Sound(r) && Keeps(q, r) && forall k :: q.Find(k) == p.Find(k)
    requires forall x :: x in xs ==> Done(p, x) && Done(r, x)
    requires forall k :: k in r.events <==> k in q.events || Projects(xs, k)
    requires forall k :: k in q.events ==> k in p.events
    requires forall k :: k in p.events ==> k in q.events || Projects(xs, k)
    ensures r.events == p.events
  {
    forall k | Projects(xs, k) ensures k in p.events && k in r.events && p.events[k] == r.events[k] {
      var x :| x in xs && x.Project? && x.event.key == k;
      assert Done(p, x) && Done(r, x);
    }
    forall k | k in q.events ensures k in r.events && r.events[k] == p.events[k] {
      assert q.Find(k) == p.Find(k) && r.Find(k) == q.Find(k);
    }
  }

  lemma ReplayedUncertain(p: State, q: State, r: State, xs: seq<Step>)
    requires Sound(p) && Sound(q) && Sound(r) && Keeps(q, r) && forall k :: q.Find(k) == p.Find(k)
    requires r.events == p.events
    requires forall k :: k in r.uncertain <==> k in q.uncertain && !Projects(xs, k)
    requires forall k :: k in q.events || Projects(xs, k) ==> k in p.events
    ensures r.uncertain == p.uncertain
  {
    forall k ensures k in r.uncertain <==> k in p.uncertain {
      assert q.Find(k) == p.Find(k);
      assert q.Find(k).Some? ==> r.Find(k) == q.Find(k);
    }
    forall k | k in p.uncertain ensures r.uncertain[k] == p.uncertain[k] {
      assert r.Find(k) == q.Find(k) == p.Find(k);
    }
  }

  lemma ReplayedBlocks(p: State, q: State, r: State, chain: Chain, number: int, high: int, address: string,
                       decode: Decoder)
    requires Sound(p) && Sound(r) && q.blocks == Below(p.blocks, number)
    requires forall x :: x in ScanSteps(chain, number, high, address, decode) ==> Done(p, x) && Done(r, x)
    requires Within(q.blocks, r.blocks) && forall n :: n in r.blocks <==> n in q.blocks || number <= n <= high
    requires forall n :: n in p.blocks && n >= number ==> n <= high
    ensures r.blocks == p.blocks && r.last == p.last
  {
    forall n | number <= n <= high ensures n in p.blocks && n in r.blocks && p.blocks[n] == r.blocks[n] {
      BlockInScan(chain, number, n, high, address, decode);
      assert Done(p, Mark(n, chain(n).hash)) && Done(r, Mark(n, chain(n).hash));
    }
    assert r.blocks == p.blocks;
  }

  lemma ProjectedAreDone(p: State, xs: seq<Step>, k: EventKey)
    requires (forall x :: x in xs ==> Done(p, x)) && Projects(xs, k)
    ensures k in p.events
  {
    var x :| x in xs && x.Project? && x.event.key == k;
    assert Done(p, x);
  }

  /** What a successful scan leaves, in terms of the state before it. */
  lemma ScanLeaves(q: State, chain: Chain, low: int, high: int, address: string, decode: Decoder)
    requires Sound(q) && Anchored(q) && CopiesBlock(decode)
    requires Run(q, ScanSteps(chain, low, high, address, decode)).1.Returned?
    ensures var xs := ScanSteps(chain, low, high, address, decode);
            var r := Run(q, xs).0;
            && Sound(r) && Keeps(q, r) && Within(q.events, r.events) && Within(q.blocks, r.blocks)
            && (forall x :: x in xs ==> Done(r, x))
            && (forall k :: k in r.events <==> k in q.events || Projects(xs, k))
            && (forall k :: k in r.uncertain <==> k in q.uncertain && !Projects(xs, k))
  {
    var xs := ScanSteps(chain, low, high, address, decode);
    ScanStepsGuarded(q.blocks, chain, low, high, address, decode);
    RunKeeps(q, xs);
    RunMakesDone(q, xs);
    forall k
      ensures k in Run(q, xs).0.events <==> k in q.events || Projects(xs, k)
      ensures k in Run(q, xs).0.uncertain <==> k in q.uncertain && !Projects(xs, k)
    {
      RunResult(q, xs, k);
    }
  }

  lemma ReplayedAll(p: State, q: State, r: State, xs: seq<Step>)
    requires Sound(p) && Sound(q) && Sound(r) && Keeps(q, r) && forall k :: q.Find(k) == p.Find(k)
    requires forall x :: x in xs ==> Done(p, x) && Done(r, x)
    requires forall k :: k in r.events <==> k in q.events || Projects(xs, k)
    requires forall k :: k in r.uncertain <==> k in q.uncertain && !Projects(xs, k)
    requires forall k :: k in q.events ==> k in p.events
    requires forall k :: k in p.events ==> k in q.events || Projects(xs, k)
    ensures r.events == p.events && r.uncertain == p.uncertain
  {
    forall k | Projects(xs, k) ensures k in p.events {
      ProjectedAreDone(p, xs, k);
    }
    ReplayedEvents(p, q, r, xs);
    ReplayedUncertain(p, q, r, xs);
  }

  lemma ReplayRestoresFrom(p: State, q: State, chain: Chain, number: int, high: int, address: string, decode: Decoder)
    requires Sound(p) && Sound(q) && Anchored(q) && CopiesBlock(decode) && forall k :: q.Find(k) == p.Find(k)
    requires q.blocks == Below(p.blocks, number)
    requires forall k :: k in q.events <==> k in p.events && p.events[k].blockNumber < number
    requires forall x :: x in ScanSteps(chain, number, high, address, decode) ==> Done(p, x)
    requires NothingElse(p, ScanSteps(chain, number, high, address, decode), number, high)
    requires Run(q, ScanSteps(chain, number, high, address, decode)).1.Returned?
    ensures Run(q, ScanSteps(chain, number, high, address, decode)).0 == p
  {
    var xs := ScanSteps(chain, number, high, address, decode);
    ScanLeaves(q, chain, number, high, address, decode);
    ReplayedAll(p, q, Run(q, xs).0, xs);
    ScanBlocks(q, chain, number, high, address, decode);
    ReplayedBlocks(p, q, Run(q, xs).0, chain, number, high, address, decode);
  }

  lemma ReplayRestores(p: State, chain: Chain, number: int, high: int, address: string, decode: Decoder)
    requires Sound(p) && Anchored(p) && CopiesBlock(decode) && number >= 0
    requires forall x :: x in ScanSteps(chain, number, high, address, decode) ==> Done(p, x)
    requires NothingElse(p, ScanSteps(chain, number, high, address, decode), number, high)
    requires Run(RolledBack(p, number).0, ScanSteps(chain, number, high, address, decode)).1.Returned?
    ensures Run(RolledBack(p, number).0, ScanSteps(chain, number, high, address, decode)) ==
            (p, RolledBack(p, number).1)
  {
    var q := RolledBack(p, number).0;
    RollbackSound(p, number);
    RollbackAnchored(p, number);
    RollbackKeepsEvents(p, number);
    RollbackKeepsBelow(p, number);
    ReplayRestoresFrom(p, q, chain, number, high, address, decode);
    ReplayCounts(p, q, number, ScanSteps(chain, number, high, address, decode));
  }

  lemma RollbackKeepsBelow(p: State, number: int)
    requires number >= 0
    ensures forall k :: k in RolledBack(p, number).0.events <==> k in p.events && p.events[k].blockNumber < number
  {
  }

  lemma ReplayCounts(p: State, q: State, number: int, xs: seq<Step>)
    requires number >= 0 && q == RolledBack(p, number).0 && Run(q, xs).1.Returned? && Run(q, xs).0 == p
    ensures Run(q, xs).1 == RolledBack(p, number).1
  {
    RunCounts(q, xs);
    RollbackCount(p, number);
  }

  lemma RestoredWasThere(p: State, chain: Chain, number: int, high: int, address: string, decode: Decoder)
    requires Sound(p) && Anchored(p) && CopiesBlock(decode) && number >= 0
    requires Run(RolledBack(p, number).0, ScanSteps(chain, number, high, address, decode)) ==
             (p, RolledBack(p, number).1)
    ensures forall x :: x in ScanSteps(chain, number, high, address, decode) ==> Done(p, x)
    ensures NothingElse(p, ScanSteps(chain, number, high, address, decode), number, high)
    ensures number <= high ==> Joined(p, number)
  {
    var q, xs := RolledBack(p, number).0, ScanSteps(chain, number, high, address, decode);
    RollbackSound(p, number);
    RunMakesDone(q, xs);
    ScanBlocks(q, chain, number, high, address, decode);
    forall k | k in p.events && p.events[k].blockNumber >= number ensures Projects(xs, k) {
      RunResult(q, xs, k);
    }
    if number <= high {
      ReplayedJoined(p, chain, number, high, address, decode);
    }
  }

  lemma ReplayedJoined(p: State, chain: Chain, number: int, high: int, address: string, decode: Decoder)
    requires Sound(p) && 0 <= number <= high
    requires Run(RolledBack(p, number).0, ScanSteps(chain, number, high, address, decode)).1.Returned?
    ensures Joined(p, number)
  {
    RollbackSound(p, number);
    ScanStartFollows(RolledBack(p, number).0, chain, number, high, address, decode);
    JoinedExactlyWhen(p, number);
  }

  /** When rolling back and replaying is the identity, for any state p: exactly when p already holds every step of the
      replay and nothing else at or above the block, and what it holds below reaches up to the block. The replay then
      projects exactly as many events as the rollback withheld. */
  lemma ReplayIsIdentityExactlyWhen(p: State, chain: Chain, number: int, high: int, address: string, decode: Decoder)
    requires Sound(p) && Anchored(p) && CopiesBlock(decode) && number >= 0
    ensures var xs := ScanSteps(chain, number, high, address, decode);
            var (q, count) := RolledBack(p, number);
            Run(q, xs) == (p, count) <==>
            && (forall x :: x in xs ==> Done(p, x))
            && NothingElse(p, xs, number, high)
            && (number <= high ==> Joined(p, number))
  {
    var xs := ScanSteps(chain, number, high, address, decode);
    if (forall x :: x in xs ==> Done(p, x)) && NothingElse(p, xs, number, high)
        && (number <= high ==> Joined(p, number)) {
      ReplaySucceeds(p, chain, number, high, address, decode);
      ReplayRestores(p, chain, number, high, address, decode);
    }
    if Run(RolledBack(p, number).0, xs) == (p, RolledBack(p, number).1) {
      RestoredWasThere(p, chain, number, high, address, decode);
    }
  }

  /** An event at or above `number` comes from the later steps when the state before and the earlier steps lie below. */
  lemma FromLaterSteps(s: State, xs: seq<Step>, before: seq<Step>, after: seq<Step>, number: int, k: EventKey)
    requires Sound(s) && Anchored(s) && forall n :: n in s.blocks ==> n < number
    requires xs == before + after && forall x :: x in before && x.Project? ==> x.event.blockNumber < number
    requires Run(s, xs).1.Returned? && Within(s.events, Run(s, xs).0.events)
    requires k in Run(s, xs).0.events && Run(s, xs).0.events[k].blockNumber >= number
    ensures Projects(after, k)
  {
    RunResult(s, xs, k);
    RunMakesDone(s, xs);
    assert k !in s.events;
    var x :| x in xs && x.Project? && x.event.key == k;
    assert Done(Run(s, xs).0, x);
    assert x in before || x in after;
  }

  lemma EarlierStepsBelow(chain: Chain, low: int, number: int, address: string, decode: Decoder)
    requires CopiesBlock(decode)
    ensures forall x :: x in ScanSteps(chain, low, number - 1, address, decode) && x.Project? ==>
            x.event.blockNumber < number
  {
    forall x | x in ScanSteps(chain, low, number - 1, address, decode) && x.Project?
        ensures x.event.blockNumber < number {
      ScanStepsInRange(chain, low, number - 1, address, decode, x);
    }
  }

  lemma NothingElseThan(s: State, p: State, xs: seq<Step>, before: seq<Step>, after: seq<Step>, number: int, high: int)
    requires Sound(s) && Anchored(s) && forall n :: n in s.blocks ==> n < number
    requires xs == before + after && forall x :: x in before && x.Project? ==> x.event.blockNumber < number
    requires Run(s, xs).1.Returned? && p == Run(s, xs).0 && Within(s.events, p.events)
    requires forall n :: n in p.blocks && n >= number ==> n <= high
    ensures NothingElse(p, after, number, high)
  {
    forall k | k in p.events && p.events[k].blockNumber >= number ensures Projects(after, k) {
      FromLaterSteps(s, xs, before, after, number, k);
    }
  }

  lemma ScannedBlocksEnd(s: State, chain: Chain, low: int, number: int, high: int, address: string, decode: Decoder)
    requires forall n :: n in s.blocks ==> n < number
    requires Run(s, ScanSteps(chain, low, high, address, decode)).1.Returned?
    ensures forall n :: n in Run(s, ScanSteps(chain, low, high, address, decode)).0.blocks && n >= number ==> n <= high
    ensures low <= number <= high ==> forall n :: n < number ==>
              (n in Run(s, ScanSteps(chain, low, high, address, decode)).0.blocks <==> n in s.blocks || low <= n)
  {
    ScanBlocks(s, chain, low, high, address, decode);
  }

  lemma ScannedNothingElse(s: State, chain: Chain, low: int, number: int, high: int, address: string, decode: Decoder)
    requires Sound(s) && Anchored(s) && CopiesBlock(decode)
    requires low <= number <= high && forall n :: n in s.blocks ==> n < number
    requires Run(s, ScanSteps(chain, low, high, address, decode)).1.Returned?
    ensures NothingElse(Run(s, ScanSteps(chain, low, high, address, decode)).0,
                        ScanSteps(chain, number, high, address, decode), number, high)
  {
    var xs := ScanSteps(chain, low, high, address, decode);
    ScanStepsSplit(chain, low, number, high, address, decode);
    ScanStepsGuarded(s.blocks, chain, low, high, address, decode);
    RunKeeps(s, xs);
    ScannedBlocksEnd(s, chain, low, number, high, address, decode);
    EarlierStepsBelow(chain, low, number, address, decode);
    NothingElseThan(s, Run(s, xs).0, xs, ScanSteps(chain, low, number - 1, address, decode),
                    ScanSteps(chain, number, high, address, decode), number, high);
  }

  /** A run can only begin with a checkpoint that follows the mark. */
  lemma FirstMarkFollows(s: State, xs: seq<Step>)
    requires Sound(s) && xs != [] && xs[0].Mark? && Run(s, xs).1.Returned?
    ensures s.blocks == map[] || xs[0].number <= Top(s) + 1
  {
    assert Perform(s, xs[0]).1.Returned?;
  }

  /** The highest stored block. */
  ghost function Top(s: State): (n: int)
    requires Sound(s) && s.blocks != map[]
    ensures n in s.blocks && s.last == Some(n) && forall m :: m in s.blocks ==> m <= n
  {
    var some := PickOne(s.blocks.Keys);
    assert some in s.blocks.Keys;
    s.last.value
  }

  lemma ScanStartFollows(s: State, chain: Chain, low: int, high: int, address: string, decode: Decoder)
    requires Sound(s) && low <= high
    requires Run(s, ScanSteps(chain, low, high, address, decode)).1.Returned?
    ensures s.blocks == map[] || low <= Top(s) + 1
  {
    var xs := ScanSteps(chain, low, high, address, decode);
    ScanStepsAt(chain, low, high, address, decode);
    if chain(low).Block? {
      assert xs[0] == Mark(low, chain(low).hash);
      FirstMarkFollows(s, xs);
    }
  }

  lemma JoinedFrom(s: State, p: State, low: int, number: int)
    requires Sound(s) && low <= number && forall n :: n in s.blocks ==> n < number
    requires forall n :: n < number ==> (n in p.blocks <==> n in s.blocks || low <= n)
    requires s.blocks == map[] || low <= Top(s) + 1
    ensures Joined(p, number)
  {
    if low == number && s.blocks != map[] {
      assert Top(s) in p.blocks;
    } else if low < number {
      assert number - 1 in p.blocks;
    }
  }

  lemma ScannedJoined(s: State, chain: Chain, low: int, number: int, high: int, address: string, decode: Decoder)
    requires Sound(s) && low <= number <= high && forall n :: n in s.blocks ==> n < number
    requires Run(s, ScanSteps(chain, low, high, address, decode)).1.Returned?
    ensures Joined(Run(s, ScanSteps(chain, low, high, address, decode)).0, number)
  {
    ScannedBlocksEnd(s, chain, low, number, high, address, decode);
    ScanStartFollows(s, chain, low, high, address, decode);
    JoinedFrom(s, Run(s, ScanSteps(chain, low, high, address, decode)).0, low, number);
  }

  /** A range that was scanned over nothing can be rolled back and replayed from any of its blocks. */
  lemma RollbackThenReplay(s: State, chain: Chain, low: int, number: int, high: int, address: string, decode: Decoder)
    requires Sound(s) && Anchored(s) && CopiesBlock(decode)
    requires 0 <= low <= number <= high && forall n :: n in s.blocks ==> n < number
    requires Run(s, ScanSteps(chain, low, high, address, decode)).1.Returned?
    ensures var p := Run(s, ScanSteps(chain, low, high, address, decode)).0;
            var (q, count) := RolledBack(p, number);
            Run(q, ScanSteps(chain, number, high, address, decode)) == (p, count)
  {
    var p := Run(s, ScanSteps(chain, low, high, address, decode)).0;
    ScannedNothingElse(s, chain, low, number, high, address, decode);
    ScannedJoined(s, chain, low, number, high, address, decode);
    ScannedIsAnchored(s, chain, low, high, address, decode);
    ScanStepsSplit(chain, low, number, high, address, decode);
    RunMakesDone(s, ScanSteps(chain, low, high, address, decode));
    ReplayIsIdentityExactlyWhen(p, chain, number, high, address, decode);
  }

  lemma ScannedIsAnchored(s: State, chain: Chain, low: int, high: int, address: string, decode: Decoder)
    requires Sound(s) && Anchored(s) && CopiesBlock(decode)
    ensures Sound(Run(s, ScanSteps(chain, low, high, address, decode)).0)
    ensures Anchored(Run(s, ScanSteps(chain, low, high, address, decode)).0)
  {
    ScanStepsGuarded(s.blocks, chain, low, high, address, decode);
    RunKeeps(s, ScanSteps(chain, low, high, address, decode));
  }

  /** The same for a projection built by one scan from the beginning. */
  lemma ScanRollbackReplay(chain: Chain, low: int, number: int, high: int, address: string, decode: Decoder)
    requires CopiesBlock(decode) && 0 <= low <= number <= high
    requires Run(EMPTY, ScanSteps(chain, low, high, address, decode)).1.Returned?
    ensures var p := Run(EMPTY, ScanSteps(chain, low, high, address, decode)).0;
            var (q, count) := RolledBack(p, number);
            Run(q, ScanSteps(chain, number, high, address, decode)) == (p, count)
  {
    assert Highest({}) == None;
    RollbackThenReplay(EMPTY, chain, low, number, high, address, decode);
  }

  // ---------- contiguity ----------

  /** The smallest stored block is at most one above `number`. */
  ghost predicate Near(s: State, number: int) {
    s.blocks == map[] || exists m :: m in s.blocks && m <= number + 1
  }

  /** The block is not above a gap. */
  predicate Follows(s: State, number: int) {
    s.last.None? || number <= s.last.value + 1
  }

  /** An accepted checkpoint, with or without leave to skip, keeps the blocks contiguous exactly when the block is
      neither above a gap nor too low; without leave to skip only the second can happen, since that guard only looks
      upwards. */
  lemma CheckpointContiguousExactlyWhen(s: State, number: int, hash: string, allowGap: bool)
    requires Sound(s) && Contiguous(s.blocks.Keys)
    requires Checkpointed(s, number, hash, allowGap).1.Returned?
    ensures Contiguous(Checkpointed(s, number, hash, allowGap).0.blocks.Keys) <==> Near(s, number) && Follows(s, number)
    ensures !allowGap ==> Follows(s, number)
  {
    var s1 := Checkpointed(s, number, hash, allowGap).0;
    if number in s.blocks {
      assert number in s.blocks.Keys;
    } else if s.blocks == map[] {
      assert s.blocks.Keys == {};
      assert s1.blocks.Keys == {number};
    } else {
      ghost var some := PickOne(s.blocks.Keys);
      assert some in s.blocks.Keys;
      var top := s.last.value;
      assert s1.blocks.Keys == s.blocks.Keys + {number};
      if Contiguous(s1.blocks.Keys) && top > number + 1 {
        assert number in s1.blocks.Keys && top in s1.blocks.Keys;
        assert number + 1 in s1.blocks.Keys;
      }
      if number > top + 1 {
        assert number in s1.blocks.Keys && top in s1.blocks.Keys;
        assert top + 1 !in s1.blocks.Keys;
      }
    }
  }

  lemma RollbackContiguous(s: State, number: int)
    requires Contiguous(s.blocks.Keys)
    ensures Contiguous(RolledBack(s, number).0.blocks.Keys)
  {
    var s1 := RolledBack(s, number).0;
    forall a, b | a in s1.blocks.Keys && b in s1.blocks.Keys ensures forall c :: a <= c <= b ==> c in s1.blocks.Keys {
      assert a in s.blocks.Keys && b in s.blocks.Keys;
    }
  }

  /** A scan from a low start keeps the blocks contiguous exactly when it reaches the stored range. */
  lemma ScanContiguousExactlyWhen(s: State, chain: Chain, low: int, high: int, address: string, decode: Decoder)
    requires Sound(s) && Contiguous(s.blocks.Keys) && low <= high
    requires Run(s, ScanSteps(chain, low, high, address, decode)).1.Returned?
    ensures Contiguous(Run(s, ScanSteps(chain, low, high, address, decode)).0.blocks.Keys) <==> Near(s, high)
  {
    var xs := ScanSteps(chain, low, high, address, decode);
    var s1 := Run(s, xs).0;
    ScanStepsAt(chain, low, high, address, decode);
    ScanBlocks(s, chain, low, high, address, decode);
    if s.blocks != map[] {
      var top := s.last.value;
      assert xs[0] == if chain(low).Block? then Mark(low, chain(low).hash) else Halt(RpcError);
      assert low <= top + 1;
      if Contiguous(s1.blocks.Keys) && top > high + 1 {
        assert high in s1.blocks.Keys && top in s1.blocks.Keys;
        assert high + 1 in s1.blocks.Keys;
      }
    }
  }

  // ---------- histories ----------

  /** A scan (cut off after `cut` steps when `cut` is given) or a rollback. */
  datatype Action =
    | ScanAction(provider: Provider, start: int, confirmations: int, cut: Option<nat>)
    | RollbackAction(number: int)

  function ActionSteps(a: Action, address: string, decode: Decoder): seq<Step>
    requires a.ScanAction?
  {
    if a.start < 0 || a.confirmations < 0 || a.provider.head.None? then []
    else
      var xs := ScanSteps(a.provider.chain, a.start, a.provider.head.value - a.confirmations, address, decode);
      if a.cut.Some? && a.cut.value < |xs| then xs[..a.cut.value] else xs
  }

  ghost function After(s: State, a: Action, address: string, decode: Decoder): State {
    if a.ScanAction? then Run(s, ActionSteps(a, address, decode)).0 else RolledBack(s, a.number).0
  }

  /** A scan that is not cut off is a call of `scan`. */
  lemma UncutScanIsScan(s: State, provider: Provider, start: int, confirmations: int, address: string, decode: Decoder)
    ensures After(s, ScanAction(provider, start, confirmations, None), address, decode) ==
            Scanned(s, provider, start, confirmations, address, decode).0
  {
    if provider.head.Some? && provider.head.value - confirmations < start {
      assert ScanSteps(provider.chain, start, provider.head.value - confirmations, address, decode) == [];
    }
  }

  ghost function Play(s: State, acts: seq<Action>, address: string, decode: Decoder): State
    decreases |acts|
  {
    if acts == [] then s else Play(After(s, acts[0], address, decode), acts[1..], address, decode)
  }

  /** The events that some scan of the history newly accepted. */
  ghost function EverAccepted(s: State, acts: seq<Action>, address: string, decode: Decoder): set<CanonicalEvent>
    decreases |acts|
  {
    if acts == [] then {}
    else
      (if acts[0].ScanAction? then Accepted(s, ActionSteps(acts[0], address, decode)) else {}) +
      EverAccepted(After(s, acts[0], address, decode), acts[1..], address, decode)
  }

  lemma ActionGuarded(s: State, a: Action, address: string, decode: Decoder)
    requires CopiesBlock(decode) && a.ScanAction?
    ensures Guarded(s.blocks, ActionSteps(a, address, decode))
  {
    if a.provider.head.Some? {
      var through := a.provider.head.value - a.confirmations;
      ScanStepsGuarded(s.blocks, a.provider.chain, a.start, through, address, decode);
      var xs := ScanSteps(a.provider.chain, a.start, through, address, decode);
      if a.cut.Some? && a.cut.value < |xs| {
        GuardedPrefix(s.blocks, xs, a.cut.value);
      }
    }
  }

  lemma AfterKeeps(s: State, a: Action, address: string, decode: Decoder)
    requires Sound(s) && Anchored(s) && CopiesBlock(decode)
    ensures var s1 := After(s, a, address, decode); Sound(s1) && Anchored(s1) && Keeps(s, s1)
  {
    if a.ScanAction? {
      ActionGuarded(s, a, address, decode);
      RunKeeps(s, ActionSteps(a, address, decode));
    } else {
      RollbackSound(s, a.number);
      RollbackAnchored(s, a.number);
      RollbackKeepsEvents(s, a.number);
    }
  }

  /** Invariants of every history: the mark is the highest checkpoint, no event is both canonical and withheld,
      every canonical event is anchored, and nothing known is ever lost or altered. */
  lemma {:induction false} HistoryKeeps(s: State, acts: seq<Action>, address: string, decode: Decoder)
    requires Sound(s) && Anchored(s) && CopiesBlock(decode)
    ensures var s1 := Play(s, acts, address, decode); Sound(s1) && Anchored(s1) && Keeps(s, s1)
    decreases |acts|
  {
    if acts != [] {
      AfterKeeps(s, acts[0], address, decode);
      HistoryKeeps(After(s, acts[0], address, decode), acts[1..], address, decode);
    }
  }

  lemma {:induction false} AcceptedStays(s: State, acts: seq<Action>, address: string, decode: Decoder,
                                         e: CanonicalEvent)
    requires Sound(s) && Anchored(s) && CopiesBlock(decode)
    requires e in EverAccepted(s, acts, address, decode)
    ensures Play(s, acts, address, decode).Find(e.key) == Some(e)
    decreases |acts|
  {
    var s1 := After(s, acts[0], address, decode);
    AfterKeeps(s, acts[0], address, decode);
    if e in EverAccepted(s1, acts[1..], address, decode) {
      AcceptedStays(s1, acts[1..], address, decode, e);
    } else {
      ActionGuarded(s, acts[0], address, decode);
      RunAccepts(s, ActionSteps(acts[0], address, decode), e);
      assert s1.Find(e.key) == Some(e);
      HistoryKeeps(s1, acts[1..], address, decode);
    }
  }

  lemma {:induction false} KnownWasAccepted(s: State, acts: seq<Action>, address: string, decode: Decoder, k: EventKey)
    requires Sound(s) && Anchored(s) && CopiesBlock(decode)
    requires Play(s, acts, address, decode).Find(k).Some?
    ensures var found := Play(s, acts, address, decode).Find(k);
            s.Find(k) == found || found.value in EverAccepted(s, acts, address, decode)
    decreases |acts|
  {
    if acts != [] {
      var s1 := After(s, acts[0], address, decode);
      AfterKeeps(s, acts[0], address, decode);
      KnownWasAccepted(s1, acts[1..], address, decode, k);
      HistoryKeeps(s1, acts[1..], address, decode);
      if s1.Find(k).Some? {
        if acts[0].ScanAction? {
          ActionGuarded(s, acts[0], address, decode);
          RunInventsNothing(s, ActionSteps(acts[0], address, decode), k);
        } else {
          RollbackKeepsEvents(s, acts[0].number);
        }
      }
    }
  }

  /** Conservation across reorgs: after any history, the canonical and the withheld events together are exactly
      the events ever accepted, each in exactly one of the two with its original content. */
  lemma Conservation(acts: seq<Action>, address: string, decode: Decoder, e: CanonicalEvent)
    requires CopiesBlock(decode)
    ensures var s := Play(EMPTY, acts, address, decode);
            && (e in EverAccepted(EMPTY, acts, address, decode) <==> s.Find(e.key) == Some(e))
            && !(e.key in s.events && e.key in s.uncertain)
  {
    assert Highest({}) == None;
    HistoryKeeps(EMPTY, acts, address, decode);
    if e in EverAccepted(EMPTY, acts, address, decode) {
      AcceptedStays(EMPTY, acts, address, decode, e);
    }
    if Play(EMPTY, acts, address, decode).Find(e.key) == Some(e) {
      KnownWasAccepted(EMPTY, acts, address, decode, e.key);
    }
  }

  /** Every canonical event is anchored and the mark is the maximum, in every state a history reaches. */
  lemma EveryCanonicalEventIsAnchored(acts: seq<Action>, address: string, decode: Decoder)
    requires CopiesBlock(decode)
    ensures var s := Play(EMPTY, acts, address, decode);
            && s.last == Highest(s.blocks.Keys)
            && forall k :: k in s.events ==>
                 s.events[k].blockNumber in s.blocks && s.blocks[s.events[k].blockNumber] == s.events[k].blockHash
  {
    assert Highest({}) == None;
    HistoryKeeps(EMPTY, acts, address, decode);
  }

  // ---------- runs of single calls ----------

  datatype Call =
    | CheckpointCall(number: int, hash: string, allowGap: bool)
    | IngestCall(event: CanonicalEvent)
    | RollbackCall(number: int)

  ghost function AfterCall(s: State, c: Call): State {
    match c
    case CheckpointCall(number, hash, allowGap) => Checkpointed(s, number, hash, allowGap).0
    case IngestCall(event) => Ingested(s, event).0
    case RollbackCall(number) => RolledBack(s, number).0
  }

  ghost function PlayCalls(s: State, calls: seq<Call>): State
    decreases |calls|
  {
    if calls == [] then s else PlayCalls(AfterCall(s, calls[0]), calls[1..])
  }

  /** No checkpoint of the run lies more than one below the stored range it meets, or above a gap. */
  ghost predicate NeverFarOff(s: State, calls: seq<Call>)
    decreases |calls|
  {
    calls != [] ==>
      && (calls[0].CheckpointCall? ==> Near(s, calls[0].number) && (calls[0].allowGap ==> Follows(s, calls[0].number)))
      && NeverFarOff(AfterCall(s, calls[0]), calls[1..])
  }

  /** For any calls, accepted or raising, allowed to skip or not: the mark is the highest checkpoint, and the contiguity
      check never raises when no checkpoint was far off. */
  lemma {:induction false} CallsKeepMarkAndContiguity(s: State, calls: seq<Call>)
    requires Sound(s)
    ensures PlayCalls(s, calls).last == Highest(PlayCalls(s, calls).blocks.Keys)
    ensures Contiguous(s.blocks.Keys) && NeverFarOff(s, calls) ==> Contiguous(PlayCalls(s, calls).blocks.Keys)
    decreases |calls|
  {
    if calls != [] {
      match calls[0] {
        case CheckpointCall(number, hash, allowGap) =>
          CheckpointSound(s, number, hash, allowGap);
          if Contiguous(s.blocks.Keys) && Checkpointed(s, number, hash, allowGap).1.Returned? {
            CheckpointContiguousExactlyWhen(s, number, hash, allowGap);
          }
        case IngestCall(event) =>
          IngestSound(s, event);
        case RollbackCall(number) =>
          RollbackSound(s, number);
          if Contiguous(s.blocks.Keys) {
            RollbackContiguous(s, number);
          }
      }
      CallsKeepMarkAndContiguity(AfterCall(s, calls[0]), calls[1..]);
    }
  }
}
