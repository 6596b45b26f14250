/** The durable projection simulates the in-memory one, for one chain and one contract. */
module Simulation {
  import opened Wrappers
  import opened Text
  import opened Projector
  import opened Consumer
  import opened ScanLaws
  import opened ScanRuns
  import opened EventIds
  import opened Repository
  import opened DurableSteps

  /** The stored topics and data of an event: the provider repeats a log with the same text. */
  type RawText = CanonicalEvent -> (seq<string>, string)

  /** A scope that the repository's validation accepts. */
  predicate Usable(scope: Scope) {
    Configured(scope) && IsText(scope.contract, 42)
  }

  predicate KeyFits(k: EventKey, scope: Scope) {
    DecoderShaped(k) && ValidKey(k) && k.chainId == scope.chainId && k.contractAddress == scope.contract
  }

  /** The rows of one event. */
  predicate Mirrored(t: Tables, e: CanonicalEvent, withheld: bool, text: RawText) {
    var id := EventId(e.key);
    && id in t.events && t.events[id] == EventRowOf(e, t.events[id].status)
    && ((t.events[id].status == Uncertain) == withheld)
    && id in t.rawLogs && t.rawLogs[id] == RawRowOf(e, text(e).0, text(e).1)
  }

  /** All events that the in-memory projection knows, canonical or withheld. */
  function Known(s: State): map<EventKey, CanonicalEvent> {
    s.uncertain + s.events
  }

  ghost predicate Fitted(known: map<EventKey, CanonicalEvent>, scope: Scope) {
    forall k :: k in known ==> KeyFits(k, scope) && known[k].key == k
  }

  /** Every known event has its rows, uncertain for the keys in `off` and for no others. */
  ghost predicate Shown(known: map<EventKey, CanonicalEvent>, off: set<EventKey>, t: Tables, text: RawText) {
    forall k :: k in known ==> Mirrored(t, known[k], k in off, text)
  }

  /** There are no other rows. */
  ghost predicate NoOthers(known: map<EventKey, CanonicalEvent>, t: Tables) {
    && (forall id :: id in t.events ==> t.events[id].key in known && EventId(t.events[id].key) == id)
    && (forall id :: id in t.rawLogs ==> id in t.events)
  }

  ghost predicate RowsMatch(known: map<EventKey, CanonicalEvent>, off: set<EventKey>, t: Tables, scope: Scope,
                            text: RawText) {
    Fitted(known, scope) && Shown(known, off, t, text) && NoOthers(known, t)
  }

  /** Checkpoint rows stand for the blocks. */
  ghost predicate BlocksMatch(s: State, t: Tables, chainId: int) {
    && (forall n :: n in s.blocks ==>
        (chainId, n) in t.checkpoints && t.checkpoints[(chainId, n)].blockHash == s.blocks[n])
    && (forall n :: (chainId, n) in t.checkpoints ==> n in s.blocks)
  }

  /** The tables hold what the in-memory projection knows. The rows of the keys in `off` are uncertain: those of every
      withheld event, and perhaps rows that are still uncertain although memory made their events canonical again. */
  ghost predicate Related(s: State, t: Tables, scope: Scope, text: RawText, off: set<EventKey>) {
    RowsMatch(Known(s), off, t, scope, text) && BlocksMatch(s, t, scope.chainId)
    && s.uncertain.Keys <= off <= Known(s).Keys
  }

  /** Full agreement: uncertain rows are exactly those of the withheld events. */
  ghost predicate Agrees(s: State, t: Tables, scope: Scope, text: RawText) {
    Related(s, t, scope, text, s.uncertain.Keys)
  }

  /** What the durable validation asks of a step beyond what the in-memory projection asks. */
  predicate StepFits(x: Step, scope: Scope, text: RawText) {
    match x
    case Mark(_, hash) => IsText(hash, 66)
    case Project(e, raw) =>
      KeyFits(e.key, scope) && Matches(raw, e) && raw.topics == text(e).0 && Lower(raw.data) == text(e).1
    case Halt(_) => true
  }

  lemma ShownDetermines(known: map<EventKey, CanonicalEvent>, off: set<EventKey>, off1: set<EventKey>, t: Tables,
                        text: RawText)
    requires Shown(known, off, t, text) && Shown(known, off1, t, text) && off <= known.Keys && off1 <= known.Keys
    ensures off == off1
  {
    forall k | k in known ensures k in off <==> k in off1 {
      assert Mirrored(t, known[k], k in off, text) && Mirrored(t, known[k], k in off1, text);
    }
  }

  /** The tables determine which rows are uncertain. */
  lemma OffIsVisible(s: State, t: Tables, scope: Scope, text: RawText, off: set<EventKey>, off1: set<EventKey>)
    requires Related(s, t, scope, text, off)
    ensures Related(s, t, scope, text, off1) <==> off1 == off
  {
    if Related(s, t, scope, text, off1) {
      ShownDetermines(Known(s), off, off1, t, text);
    }
  }

  lemma UnknownKeyHasNoRow(known: map<EventKey, CanonicalEvent>, t: Tables, scope: Scope, k: EventKey)
    requires Fitted(known, scope) && NoOthers(known, t) && KeyFits(k, scope) && k !in known
    ensures EventId(k) !in t.events && EventId(k) !in t.rawLogs
  {
    if EventId(k) in t.events {
      DecoderIdsInjective(k, t.events[EventId(k)].key);
    }
  }

  // ---------- checkpoints ----------

  lemma CheckpointFollows(s: State, t: Tables, chainId: int, number: int, hash: string, finalized: bool)
    requires chainId >= 1 && Sound(s) && BlocksMatch(s, t, chainId) && IsText(hash, 66)
    requires Checkpointed(s, number, hash, false).1.Returned?
    ensures var (t1, r) := RecordedCheckpoint(t, chainId, number, hash, finalized);
            r.Returned? && BlocksMatch(Checkpointed(s, number, hash, false).0, t1, chainId)
  {
    var s1 := Checkpointed(s, number, hash, false).0;
    var t1 := RecordedCheckpoint(t, chainId, number, hash, finalized).0;
    forall n ensures (chainId, n) in t1.checkpoints <==> (chainId, n) in t.checkpoints || n == number {
    }
  }

  lemma FinalizedRowShows(t: Tables, t1: Tables, e: CanonicalEvent, withheld: bool, text: RawText)
    requires Mirrored(t, e, withheld, text) && t1.rawLogs == t.rawLogs
    requires EventId(e.key) in t1.events && OnlyFinalized(t.events[EventId(e.key)], t1.events[EventId(e.key)])
    ensures Mirrored(t1, e, withheld, text)
  {
  }

  lemma FinalizedRowsShown(known: map<EventKey, CanonicalEvent>, off: set<EventKey>, t: Tables, t1: Tables,
                           text: RawText)
    requires Shown(known, off, t, text) && t1.rawLogs == t.rawLogs
    requires forall id :: id in t.events ==> id in t1.events && OnlyFinalized(t.events[id], t1.events[id])
    ensures Shown(known, off, t1, text)
  {
    forall k | k in known ensures Mirrored(t1, known[k], k in off, text) {
      FinalizedRowShows(t, t1, known[k], k in off, text);
    }
  }

  lemma SameKeysNoOthers(known: map<EventKey, CanonicalEvent>, t: Tables, t1: Tables)
    requires NoOthers(known, t) && t1.rawLogs == t.rawLogs
    requires forall id :: id in t1.events <==> id in t.events
    requires forall id :: id in t1.events ==> t1.events[id].key == t.events[id].key
    ensures NoOthers(known, t1)
  {
  }

  lemma MarkedRowsMatch(known: map<EventKey, CanonicalEvent>, off: set<EventKey>, t: Tables, scope: Scope,
                        text: RawText, number: int, hash: string, head: int)
    requires RowsMatch(known, off, t, scope, text)
    ensures RowsMatch(known, off, MarkBlock(t, scope, number, hash, head).0, scope, text)
  {
    var t1 := MarkBlock(t, scope, number, hash, head).0;
    MarkBlockRows(t, scope, number, hash, head);
    FinalizedRowsShown(known, off, t, t1, text);
    SameKeysNoOthers(known, t, t1);
  }

  lemma MarkedBlocksMatch(s: State, t: Tables, scope: Scope, number: int, hash: string, head: int)
    requires Usable(scope) && Sound(s) && BlocksMatch(s, t, scope.chainId) && head >= 0 && IsText(hash, 66)
    requires Checkpointed(s, number, hash, false).1.Returned?
    ensures var (t1, r) := MarkBlock(t, scope, number, hash, head);
            r.Returned? && BlocksMatch(Checkpointed(s, number, hash, false).0, t1, scope.chainId)
  {
    CheckpointFollows(s, t, scope.chainId, number, hash, number <= head - scope.confirmations);
  }

  lemma CheckpointIsKnown(s: State, number: int, hash: string)
    ensures var s1 := Checkpointed(s, number, hash, false).0; Known(s1) == Known(s) && s1.uncertain == s.uncertain
  {
  }

  lemma MarkFollows(s: State, t: Tables, scope: Scope, text: RawText, off: set<EventKey>, number: int, hash: string,
                    head: int)
    requires Usable(scope) && Sound(s) && Related(s, t, scope, text, off) && head >= 0 && IsText(hash, 66)
    requires Checkpointed(s, number, hash, false).1.Returned?
    ensures var (t1, r) := MarkBlock(t, scope, number, hash, head);
            r.Returned? && Related(Checkpointed(s, number, hash, false).0, t1, scope, text, off)
  {
    CheckpointIsKnown(s, number, hash);
    MarkedRowsMatch(Known(s), off, t, scope, text, number, hash, head);
    MarkedBlocksMatch(s, t, scope, number, hash, head);
  }

  // ---------- events ----------

  lemma ReleasedMap<K, V>(a: map<K, V>, b: map<K, V>, k: K, v: V)
    ensures (a - {k}) + b[k := v] == (a + b)[k := v]
    ensures k in a + b && (a + b)[k] == v ==> (a + b)[k := v] == a + b
    ensures (a - {k}).Keys == a.Keys - {k}
  {
  }

  /** What an accepted event changes in memory. */
  lemma AcceptedIsKnown(s: State, e: CanonicalEvent)
    requires Sound(s) && Ingested(s, e).1.Returned?
    ensures var s1 := Ingested(s, e).0;
            && s1.blocks == s.blocks && s1.uncertain.Keys == s.uncertain.Keys - {e.key}
            && Known(s1) == Known(s)[e.key := e]
            && (e.key in Known(s) ==> Known(s)[e.key] == e)
  {
    ReleasedMap(s.uncertain, s.events, e.key, e);
    if e.key in s.events {
      assert s.uncertain.Keys - {e.key} == s.uncertain.Keys;
    }
  }

  /** Writing the rows of one event leaves those of every other event alone. */
  lemma OtherRowKept(t: Tables, t1: Tables, key: EventKey, row: EventRow, other: CanonicalEvent, withheld: bool,
                     text: RawText)
    requires DecoderShaped(key) && DecoderShaped(other.key) && other.key != key
    requires t1.events == t.events[EventId(key) := row]
    requires forall id :: id in t.rawLogs ==>
             id in t1.rawLogs && (id == EventId(key) || t1.rawLogs[id] == t.rawLogs[id])
    requires Mirrored(t, other, withheld, text)
    ensures Mirrored(t1, other, withheld, text)
  {
    DecoderIdsInjective(other.key, key);
  }

  /** Writing the rows of one event as they should be. */
  lemma WrittenRowsShown(known: map<EventKey, CanonicalEvent>, off: set<EventKey>, t: Tables, t1: Tables, scope: Scope,
                         text: RawText, e: CanonicalEvent, status: Status)
    requires Fitted(known, scope) && Shown(known, off, t, text) && KeyFits(e.key, scope) && status != Uncertain
    requires t1.events == t.events[EventId(e.key) := EventRowOf(e, status)]
    requires t1.rawLogs == t.rawLogs[EventId(e.key) := RawRowOf(e, text(e).0, text(e).1)]
    ensures Shown(known[e.key := e], off - {e.key}, t1, text)
  {
    var known1 := known[e.key := e];
    forall k | k in known1 ensures Mirrored(t1, known1[k], k in off - {e.key}, text) {
      if k != e.key {
        OtherRowKept(t, t1, e.key, EventRowOf(e, status), known[k], k in off, text);
      }
    }
  }

  lemma WrittenRowsKnown(known: map<EventKey, CanonicalEvent>, t: Tables, t1: Tables, scope: Scope, e: CanonicalEvent,
                         status: Status, raw: RawRow)
    requires Fitted(known, scope) && NoOthers(known, t) && KeyFits(e.key, scope)
    requires t1.events == t.events[EventId(e.key) := EventRowOf(e, status)]
    requires t1.rawLogs == t.rawLogs[EventId(e.key) := raw]
    ensures Fitted(known[e.key := e], scope) && NoOthers(known[e.key := e], t1)
  {
  }

  lemma NewEventStored(t: Tables, scope: Scope, text: RawText, e: CanonicalEvent, raw: RawChainLog, head: int)
    requires Usable(scope) && head >= 0 && StepFits(Project(e, raw), scope, text)
    requires EventId(e.key) !in t.events && EventId(e.key) !in t.rawLogs
    ensures var (t1, r) := IngestRow(t, scope, e, raw, head);
            && r.Returned? && t1.checkpoints == t.checkpoints
            && t1.events == t.events[EventId(e.key) := EventRowOf(e, StatusAt(scope, e.blockNumber, head))]
            && t1.rawLogs == t.rawLogs[EventId(e.key) := RawRowOf(e, text(e).0, text(e).1)]
  {
    LowerIsLower(scope.contract);
  }

  lemma KnownEventStored(t: Tables, scope: Scope, text: RawText, e: CanonicalEvent, withheld: bool, raw: RawChainLog,
                         head: int)
    requires Usable(scope) && head >= 0 && StepFits(Project(e, raw), scope, text) && Mirrored(t, e, withheld, text)
    ensures IngestRow(t, scope, e, raw, head).0 == t && IngestRow(t, scope, e, raw, head).1.Returned?
  {
    LowerIsLower(scope.contract);
  }

  lemma RestoredRow(t: Tables, scope: Scope, text: RawText, e: CanonicalEvent)
    requires KeyFits(e.key, scope) && Mirrored(t, e, true, text)
    ensures var (t1, r) := RestoreRow(t, scope, e);
            && r.Returned? && t1.checkpoints == t.checkpoints
            && t1.events == t.events[EventId(e.key) := EventRowOf(e, Canonical)]
            && t1.rawLogs == t.rawLogs[EventId(e.key) := RawRowOf(e, text(e).0, text(e).1)]
  {
    LowerIsLower(e.key.contractAddress);
  }

  /** The rows after an accepted event: written when it is new, ... */
  lemma NewRowsFollow(known: map<EventKey, CanonicalEvent>, off: set<EventKey>, t: Tables, scope: Scope, text: RawText,
                      e: CanonicalEvent, raw: RawChainLog, head: int)
    requires Usable(scope) && RowsMatch(known, off, t, scope, text) && head >= 0
    requires StepFits(Project(e, raw), scope, text) && e.key !in known
    ensures EventId(e.key) !in t.events
    ensures var (t1, r) := IngestRow(t, scope, e, raw, head);
            r.Returned? && t1.checkpoints == t.checkpoints
                && RowsMatch(known[e.key := e], off - {e.key}, t1, scope, text)
  {
    var t1, status := IngestRow(t, scope, e, raw, head).0, StatusAt(scope, e.blockNumber, head);
    UnknownKeyHasNoRow(known, t, scope, e.key);
    NewEventStored(t, scope, text, e, raw, head);
    WrittenRowsShown(known, off, t, t1, scope, text, e, status);
    WrittenRowsKnown(known, t, t1, scope, e, status, RawRowOf(e, text(e).0, text(e).1));
  }

  /** ... or restored, ... */
  lemma RestoredRowsFollow(known: map<EventKey, CanonicalEvent>, off: set<EventKey>, t: Tables, scope: Scope,
                           text: RawText, e: CanonicalEvent)
    requires RowsMatch(known, off, t, scope, text) && KeyFits(e.key, scope)
    requires e.key in known && known[e.key] == e && e.key in off
    ensures var (t1, r) := RestoreRow(t, scope, e);
            r.Returned? && t1.checkpoints == t.checkpoints
                && RowsMatch(known[e.key := e], off - {e.key}, t1, scope, text)
  {
    var t1 := RestoreRow(t, scope, e).0;
    assert Mirrored(t, known[e.key], e.key in off, text);
    RestoredRow(t, scope, text, e);
    WrittenRowsShown(known, off, t, t1, scope, text, e, Canonical);
    WrittenRowsKnown(known, t, t1, scope, e, Canonical, RawRowOf(e, text(e).0, text(e).1));
  }

  /** ... and untouched when they were there. */
  lemma OldRowsFollow(known: map<EventKey, CanonicalEvent>, off: set<EventKey>, t: Tables, scope: Scope, text: RawText,
                      e: CanonicalEvent, raw: RawChainLog, head: int)
    requires Usable(scope) && RowsMatch(known, off, t, scope, text) && head >= 0
    requires StepFits(Project(e, raw), scope, text) && e.key in known && known[e.key] == e
    ensures EventId(e.key) in t.events && (t.events[EventId(e.key)].status == Uncertain <==> e.key in off)
    ensures IngestRow(t, scope, e, raw, head).0 == t && IngestRow(t, scope, e, raw, head).1.Returned?
    ensures known[e.key := e] == known
  {
    assert Mirrored(t, known[e.key], e.key in off, text);
    KnownEventStored(t, scope, text, e, e.key in off, raw, head);
  }

  lemma TakesRow(t: Tables, scope: Scope, e: CanonicalEvent, raw: RawChainLog, head: int, restoring: bool,
                 uncertain: bool)
    requires uncertain == (EventId(e.key) in t.events && t.events[EventId(e.key)].status == Uncertain)
    ensures var (t1, r) := TakeStep(t, scope, head, restoring, Project(e, raw));
            var (t2, r2) :=
              if restoring && uncertain then RestoreRow(t, scope, e) else IngestRow(t, scope, e, raw, head);
            t1 == t2 && r.Returned? == r2.Returned?
  {
  }

  function OffStep(off: set<EventKey>, k: EventKey, restoring: bool): set<EventKey> {
    if restoring then off - {k} else off
  }

  lemma KnownRowsFollow(known: map<EventKey, CanonicalEvent>, off: set<EventKey>, t: Tables, scope: Scope,
                        text: RawText, e: CanonicalEvent, raw: RawChainLog, head: int, restoring: bool)
    requires Usable(scope) && RowsMatch(known, off, t, scope, text) && head >= 0
    requires StepFits(Project(e, raw), scope, text) && e.key in known && known[e.key] == e
    ensures var (t1, r) := TakeStep(t, scope, head, restoring, Project(e, raw));
            && r.Returned? && t1.checkpoints == t.checkpoints
            && RowsMatch(known[e.key := e], OffStep(off, e.key, restoring), t1, scope, text)
  {
    OldRowsFollow(known, off, t, scope, text, e, raw, head);
    TakesRow(t, scope, e, raw, head, restoring, e.key in off);
    if restoring && e.key in off {
      RestoredRowsFollow(known, off, t, scope, text, e);
    } else {
      assert OffStep(off, e.key, restoring) == off;
    }
  }

  lemma UnknownRowsFollow(known: map<EventKey, CanonicalEvent>, off: set<EventKey>, t: Tables, scope: Scope,
                          text: RawText, e: CanonicalEvent, raw: RawChainLog, head: int, restoring: bool)
    requires Usable(scope) && RowsMatch(known, off, t, scope, text) && head >= 0
    requires StepFits(Project(e, raw), scope, text) && e.key !in known && e.key !in off
    ensures var (t1, r) := TakeStep(t, scope, head, restoring, Project(e, raw));
            && r.Returned? && t1.checkpoints == t.checkpoints
            && RowsMatch(known[e.key := e], OffStep(off, e.key, restoring), t1, scope, text)
  {
    NewRowsFollow(known, off, t, scope, text, e, raw, head);
    TakesRow(t, scope, e, raw, head, restoring, false);
    assert off - {e.key} == off;
  }

  lemma RowsFollow(known: map<EventKey, CanonicalEvent>, off: set<EventKey>, t: Tables, scope: Scope, text: RawText,
                   e: CanonicalEvent, raw: RawChainLog, head: int, restoring: bool)
    requires Usable(scope) && RowsMatch(known, off, t, scope, text) && off <= known.Keys && head >= 0
    requires StepFits(Project(e, raw), scope, text) && (e.key in known ==> known[e.key] == e)
    ensures var (t1, r) := TakeStep(t, scope, head, restoring, Project(e, raw));
            && r.Returned? && t1.checkpoints == t.checkpoints
            && RowsMatch(known[e.key := e], OffStep(off, e.key, restoring), t1, scope, text)
  {
    if e.key in known {
      KnownRowsFollow(known, off, t, scope, text, e, raw, head, restoring);
    } else {
      UnknownRowsFollow(known, off, t, scope, text, e, raw, head, restoring);
    }
  }

  // ---------- one step ----------

  function Touched(x: Step): set<EventKey> {
    if x.Project? then {x.event.key} else {}
  }

  /** The durable side follows every successful in-memory step; only a restoring caller takes rows out of `off`. */
  lemma StepFollows(s: State, t: Tables, scope: Scope, text: RawText, off: set<EventKey>, x: Step, head: int,
                    restoring: bool)
    requires Usable(scope) && Sound(s) && Related(s, t, scope, text, off) && head >= 0
    requires StepFits(x, scope, text) && Perform(s, x).1.Returned?
    ensures var (t1, r) := TakeStep(t, scope, head, restoring, x);
            r.Returned? && Related(Perform(s, x).0, t1, scope, text, if restoring then off - Touched(x) else off)
  {
    match x {
      case Mark(number, hash) =>
        MarkFollows(s, t, scope, text, off, number, hash, head);
        assert off - {} == off;
      case Project(e, raw) =>
        AcceptedIsKnown(s, e);
        RowsFollow(Known(s), off, t, scope, text, e, raw, head, restoring);
    }
  }

  lemma PerformSound(s: State, x: Step)
    requires Sound(s)
    ensures Sound(Perform(s, x).0)
  {
    match x
    case Mark(number, hash) => CheckpointSound(s, number, hash, false);
    case Project(e, _) => IngestSound(s, e);
    case Halt(_) =>
  }

  // ---------- whole scans ----------

  function Projected(xs: seq<Step>): set<EventKey> {
    if xs == [] then {} else Touched(xs[0]) + Projected(xs[1..])
  }

  lemma {:induction false} ProjectedExactly(xs: seq<Step>, k: EventKey)
    ensures k in Projected(xs) <==> Projects(xs, k)
  {
    if xs != [] {
      ProjectedExactly(xs[1..], k);
      ProjectsCons(xs, k);
    }
  }

  /** The rows that a scan leaves uncertain. */
  function OffAfter(off: set<EventKey>, xs: seq<Step>, restoring: bool): set<EventKey> {
    if restoring then off - Projected(xs) else off
  }

  lemma OffAfterNothing(off: set<EventKey>, restoring: bool)
    ensures OffAfter(off, [], restoring) == off
  {
  }

  lemma OffAfterCons(off: set<EventKey>, xs: seq<Step>, restoring: bool)
    requires xs != []
    ensures OffAfter(off, xs, restoring) ==
            OffAfter(if restoring then off - Touched(xs[0]) else off, xs[1..], restoring)
  {
    assert off - Touched(xs[0]) - Projected(xs[1..]) == off - (Touched(xs[0]) + Projected(xs[1..]));
  }

  /** Every successful in-memory scan is matched, step by step: the scanner as coded leaves all uncertain rows
      uncertain, the restoring caller takes out exactly those of the events that the scan projects. */
  lemma {:induction false} ScanFollows(s: State, t: Tables, scope: Scope, text: RawText, off: set<EventKey>,
                                       xs: seq<Step>, head: int, restoring: bool)
    requires Usable(scope) && Sound(s) && Related(s, t, scope, text, off) && head >= 0
    requires (forall x :: x in xs ==> StepFits(x, scope, text)) && Run(s, xs).1.Returned?
    ensures Take(t, scope, head, restoring, xs).1.Returned?
    ensures Related(Run(s, xs).0, Take(t, scope, head, restoring, xs).0, scope, text, OffAfter(off, xs, restoring))
    decreases |xs|
  {
    if xs == [] {
      OffAfterNothing(off, restoring);
    } else {
      StepFollows(s, t, scope, text, off, xs[0], head, restoring);
      PerformSound(s, xs[0]);
      var off1 := if restoring then off - Touched(xs[0]) else off;
      ScanFollows(Perform(s, xs[0]).0, TakeStep(t, scope, head, restoring, xs[0]).0, scope, text, off1, xs[1..], head,
                  restoring);
      OffAfterCons(off, xs, restoring);
    }
  }

  lemma WithheldAfterScan(s: State, xs: seq<Step>)
    requires Sound(s) && Run(s, xs).1.Returned?
    ensures Run(s, xs).0.uncertain.Keys == s.uncertain.Keys - Projected(xs)
  {
    forall k ensures k in Run(s, xs).0.uncertain <==> k in s.uncertain && k !in Projected(xs) {
      RunResult(s, xs, k);
      ProjectedExactly(xs, k);
    }
  }

  /** A restoring caller keeps full agreement. */
  lemma ReplaySimulatesScan(s: State, t: Tables, scope: Scope, text: RawText, xs: seq<Step>, head: int)
    requires Usable(scope) && Sound(s) && Agrees(s, t, scope, text) && head >= 0
    requires (forall x :: x in xs ==> StepFits(x, scope, text)) && Run(s, xs).1.Returned?
    ensures Take(t, scope, head, true, xs).1.Returned?
    ensures Agrees(Run(s, xs).0, Take(t, scope, head, true, xs).0, scope, text)
  {
    ScanFollows(s, t, scope, text, s.uncertain.Keys, xs, head, true);
    WithheldAfterScan(s, xs);
  }

  /** From any related state, whatever rows are still uncertain: after a scan as coded the two sides agree exactly when
      the uncertain rows were those of the withheld events and the scan projects none of them. */
  lemma StoreAgreesExactlyWhen(s: State, t: Tables, scope: Scope, text: RawText, off: set<EventKey>, xs: seq<Step>,
                               head: int)
    requires Usable(scope) && Sound(s) && Related(s, t, scope, text, off) && head >= 0
    requires (forall x :: x in xs ==> StepFits(x, scope, text)) && Run(s, xs).1.Returned?
    ensures Store(t, scope, head, xs).1.Returned?
    ensures Related(Run(s, xs).0, Store(t, scope, head, xs).0, scope, text, off)
    ensures Agrees(Run(s, xs).0, Store(t, scope, head, xs).0, scope, text) <==>
            off == s.uncertain.Keys && forall k :: k in s.uncertain ==> !Projects(xs, k)
  {
    var s1, t1 := Run(s, xs).0, Store(t, scope, head, xs).0;
    StoreIsTake(t, scope, head, xs);
    ScanFollows(s, t, scope, text, off, xs, head, false);
    OffIsVisible(s1, t1, scope, text, off, s1.uncertain.Keys);
    StillWithheldExactlyWhen(s, off, xs);
  }

  lemma StillWithheldExactlyWhen(s: State, off: set<EventKey>, xs: seq<Step>)
    requires Sound(s) && Run(s, xs).1.Returned? && s.uncertain.Keys <= off
    ensures Run(s, xs).0.uncertain.Keys == off <==>
            off == s.uncertain.Keys && forall k :: k in s.uncertain ==> !Projects(xs, k)
  {
    WithheldAfterScan(s, xs);
    forall k | k in s.uncertain ensures k in Projected(xs) <==> Projects(xs, k) {
      ProjectedExactly(xs, k);
    }
    NothingTaken(s.uncertain.Keys, off, Projected(xs));
  }

  lemma NothingTaken<T>(a: set<T>, b: set<T>, taken: set<T>)
    requires a <= b
    ensures a - taken == b <==> a == b && forall x :: x in a ==> x !in taken
  {
    if a - taken == b {
      assert a <= a - taken;
    }
  }

  // ---------- rollbacks ----------

  lemma WithheldRowShows(t: Tables, scope: Scope, number: int, e: CanonicalEvent, withheld: bool, text: RawText)
    requires Usable(scope) && KeyFits(e.key, scope) && Mirrored(t, e, withheld, text) && number >= 0
    ensures Mirrored(WithholdRows(t, scope, number).0, e, withheld || e.blockNumber >= number, text)
  {
    LowerIsLower(scope.contract);
  }

  lemma WithheldRowsShown(known: map<EventKey, CanonicalEvent>, off: set<EventKey>, t: Tables, scope: Scope,
                          text: RawText, number: int)
    requires Usable(scope) && Fitted(known, scope) && Shown(known, off, t, text) && number >= 0
    ensures Shown(known, off + From(known, number).Keys, WithholdRows(t, scope, number).0, text)
  {
    var off1, t1 := off + From(known, number).Keys, WithholdRows(t, scope, number).0;
    forall k | k in known ensures Mirrored(t1, known[k], k in off1, text) {
      WithheldRowShows(t, scope, number, known[k], k in off, text);
    }
  }

  lemma WithholdRowsShape(t: Tables, scope: Scope, number: int)
    requires Usable(scope) && number >= 0
    ensures var t1 := WithholdRows(t, scope, number).0;
            && t1.rawLogs == t.rawLogs
            && (forall id :: id in t1.events <==> id in t.events)
            && (forall id :: id in t1.events ==> t1.events[id].key == t.events[id].key)
            && (forall c, n :: (c, n) in t1.checkpoints <==>
                (c, n) in t.checkpoints && !(c == scope.chainId && n >= number))
            && (forall c :: c in t1.checkpoints ==> t1.checkpoints[c] == t.checkpoints[c])
  {
  }

  lemma MovedMap<K, V>(a: map<K, V>, b: map<K, V>, moved: map<K, V>)
    requires a.Keys !! b.Keys && forall k :: k in moved ==> k in b && b[k] == moved[k]
    ensures (a + moved) + (b - moved.Keys) == a + b
    ensures (a + moved).Keys == a.Keys + moved.Keys
  {
  }

  /** What a rollback changes in memory. */
  lemma RollbackIsKnown(s: State, number: int)
    requires Sound(s) && number >= 0
    ensures var s1 := RolledBack(s, number).0;
            && Known(s1) == Known(s) && s1.uncertain.Keys == s.uncertain.Keys + From(s.events, number).Keys
            && s1.blocks == Below(s.blocks, number)
  {
    MovedMap(s.uncertain, s.events, From(s.events, number));
  }

  /** The known events at or above the block are the canonical ones there, and withheld ones. */
  lemma KnownFrom(s: State, off: set<EventKey>, number: int)
    requires Sound(s) && s.uncertain.Keys <= off
    ensures off + From(Known(s), number).Keys == off + From(s.events, number).Keys
    ensures From(Known(s), number).Keys - off == From(s.events, number).Keys - off
  {
  }

  /** Two finite sets in one-to-one correspondence by event id are equally large. */
  lemma {:induction false} SameCount(keys: set<EventKey>, ids: set<string>)
    requires forall k :: k in keys ==> DecoderShaped(k) && EventId(k) in ids
    requires forall id :: id in ids ==> exists k :: k in keys && EventId(k) == id
    ensures |keys| == |ids|
  {
    if keys != {} {
      var k := PickOne(keys);
      forall j | j in keys - {k} ensures EventId(j) in ids - {EventId(k)} {
        DecoderIdsInjective(j, k);
      }
      SameCount(keys - {k}, ids - {EventId(k)});
    } else {
      assert forall id :: id !in ids;
    }
  }

  lemma WithheldRowIff(t: Tables, scope: Scope, text: RawText, number: int, e: CanonicalEvent, withheld: bool)
    requires Usable(scope) && KeyFits(e.key, scope) && Mirrored(t, e, withheld, text)
    ensures t.events[EventId(e.key)].key == e.key
    ensures ToWithhold(t.events[EventId(e.key)], scope.chainId, scope.contract, number) <==>
            !withheld && e.blockNumber >= number
  {
    LowerIsLower(scope.contract);
  }

  /** The durable count: the known events there whose rows were not uncertain. */
  lemma WithheldRowsCount(known: map<EventKey, CanonicalEvent>, off: set<EventKey>, t: Tables, scope: Scope,
                          text: RawText, number: int)
    requires Usable(scope) && RowsMatch(known, off, t, scope, text) && number >= 0
    ensures WithholdRows(t, scope, number).1 == Returned(|From(known, number).Keys - off|)
  {
    var keys := From(known, number).Keys - off;
    var ids := set id | id in t.events && ToWithhold(t.events[id], scope.chainId, scope.contract, number);
    forall k | k in keys ensures DecoderShaped(k) && EventId(k) in ids {
      WithheldRowIff(t, scope, text, number, known[k], k in off);
    }
    forall id | id in ids ensures exists k :: k in keys && EventId(k) == id {
      var k := t.events[id].key;
      WithheldRowIff(t, scope, text, number, known[k], k in off);
      assert k in keys;
    }
    SameCount(keys, ids);
  }

  lemma WithheldRowsMatch(known: map<EventKey, CanonicalEvent>, off: set<EventKey>, t: Tables, scope: Scope,
                          text: RawText, number: int)
    requires Usable(scope) && RowsMatch(known, off, t, scope, text) && number >= 0
    ensures RowsMatch(known, off + From(known, number).Keys, WithholdRows(t, scope, number).0, scope, text)
  {
    WithheldRowsShown(known, off, t, scope, text, number);
    WithholdRowsShape(t, scope, number);
    SameKeysNoOthers(known, t, WithholdRows(t, scope, number).0);
  }

  lemma RollbackBlocksMatch(s: State, t: Tables, scope: Scope, number: int)
    requires Usable(scope) && BlocksMatch(s, t, scope.chainId) && number >= 0
    ensures BlocksMatch(RolledBack(s, number).0, WithholdRows(t, scope, number).0, scope.chainId)
  {
    WithholdRowsShape(t, scope, number);
  }

  lemma SplitCount<T>(a: set<T>, b: set<T>)
    ensures |a| == |a - b| + |a * b|
  {
    assert a == (a - b) + (a * b);
  }

  /** Both rollbacks succeed, and the in-memory count is the durable count plus the number of `again`. */
  ghost predicate CountsDiffer(s: State, t: Tables, scope: Scope, number: int, again: set<EventKey>) {
    var m, d := RolledBack(s, number).1, WithholdRows(t, scope, number).1;
    m.Returned? && d.Returned? && m.value == d.value + |again|
  }

  /** A rollback is matched: the rows it makes uncertain are those of the events it withholds, and the in-memory count
      is the durable count plus the number of those whose rows were uncertain already. */
  lemma RollbackFollows(s: State, t: Tables, scope: Scope, text: RawText, off: set<EventKey>, number: int)
    requires Usable(scope) && Sound(s) && Related(s, t, scope, text, off) && number >= 0
    ensures CountsDiffer(s, t, scope, number, From(s.events, number).Keys * off)
    ensures Related(RolledBack(s, number).0, WithholdRows(t, scope, number).0, scope, text,
                off + From(s.events, number).Keys)
  {
    RollbackIsKnown(s, number);
    KnownFrom(s, off, number);
    WithheldRowsMatch(Known(s), off, t, scope, text, number);
    RollbackBlocksMatch(s, t, scope, number);
    WithheldRowsCount(Known(s), off, t, scope, text, number);
    SplitCount(From(s.events, number).Keys, off);
  }

  /** From agreement, with an equal count. */
  lemma RollbackSimulated(s: State, t: Tables, scope: Scope, text: RawText, number: int)
    requires Usable(scope) && Sound(s) && Agrees(s, t, scope, text) && number >= 0
    ensures WithholdRows(t, scope, number).1 == RolledBack(s, number).1
    ensures Agrees(RolledBack(s, number).0, WithholdRows(t, scope, number).0, scope, text)
  {
    RollbackFollows(s, t, scope, text, s.uncertain.Keys, number);
    RollbackIsKnown(s, number);
    assert From(s.events, number).Keys * s.uncertain.Keys == {};
  }

  // ---------- histories ----------

  datatype Move =
    | ScanMove(steps: seq<Step>, head: int, restoring: bool)
    | RollbackMove(number: int)

  /** A move whose in-memory scan succeeds and to which the durable validation has nothing to add. */
  ghost predicate SmoothMove(s: State, m: Move, scope: Scope, text: RawText) {
    match m
    case ScanMove(steps, head, _) =>
      head >= 0 && (forall x :: x in steps ==> StepFits(x, scope, text)) && Run(s, steps).1.Returned?
    case RollbackMove(number) => number >= 0
  }

  ghost predicate Smooth(s: State, moves: seq<Move>, scope: Scope, text: RawText)
    decreases |moves|
  {
    moves != [] ==> SmoothMove(s, moves[0], scope, text) && Smooth(MovedInMemory(s, moves[0]), moves[1..], scope, text)
  }

  ghost function MovedInMemory(s: State, m: Move): State {
    if m.ScanMove? then Run(s, m.steps).0 else RolledBack(s, m.number).0
  }

  function MovedDurably(t: Tables, scope: Scope, m: Move): Tables {
    if m.ScanMove? then Take(t, scope, m.head, m.restoring, m.steps).0 else WithholdRows(t, scope, m.number).0
  }

  ghost function InMemory(s: State, moves: seq<Move>): State
    decreases |moves|
  {
    if moves == [] then s else InMemory(MovedInMemory(s, moves[0]), moves[1..])
  }

  function Durable(t: Tables, scope: Scope, moves: seq<Move>): Tables
    decreases |moves|
  {
    if moves == [] then t else Durable(MovedDurably(t, scope, moves[0]), scope, moves[1..])
  }

  /** Which rows are uncertain after one move, and after a history: rollbacks add what they withhold, restoring scans
      take out what they project, scans as coded change nothing. */
  ghost function OffMoved(s: State, off: set<EventKey>, m: Move): set<EventKey> {
    if m.ScanMove? then OffAfter(off, m.steps, m.restoring) else off + From(s.events, m.number).Keys
  }

  ghost function Off(s: State, off: set<EventKey>, moves: seq<Move>): set<EventKey>
    decreases |moves|
  {
    if moves == [] then off else Off(MovedInMemory(s, moves[0]), OffMoved(s, off, moves[0]), moves[1..])
  }

  lemma {:induction false} RunSound(s: State, xs: seq<Step>)
    requires Sound(s)
    ensures Sound(Run(s, xs).0)
    decreases |xs|
  {
    if xs != [] {
      PerformSound(s, xs[0]);
      RunSound(Perform(s, xs[0]).0, xs[1..]);
    }
  }

  lemma MoveFollows(s: State, t: Tables, scope: Scope, text: RawText, off: set<EventKey>, m: Move)
    requires Usable(scope) && Sound(s) && Related(s, t, scope, text, off) && SmoothMove(s, m, scope, text)
    ensures Sound(MovedInMemory(s, m))
    ensures Related(MovedInMemory(s, m), MovedDurably(t, scope, m), scope, text, OffMoved(s, off, m))
  {
    match m {
      case ScanMove(steps, head, restoring) =>
        ScanFollows(s, t, scope, text, off, steps, head, restoring);
        RunSound(s, steps);
      case RollbackMove(number) =>
        RollbackFollows(s, t, scope, text, off, number);
        RollbackSound(s, number);
    }
  }

  lemma {:induction false} HistorySound(s: State, moves: seq<Move>)
    requires Sound(s)
    ensures Sound(InMemory(s, moves))
    decreases |moves|
  {
    if moves != [] {
      match moves[0] {
        case ScanMove(steps, _, _) => RunSound(s, steps);
        case RollbackMove(number) => RollbackSound(s, number);
      }
      HistorySound(MovedInMemory(s, moves[0]), moves[1..]);
    }
  }

  /** Over whole histories of scans, as coded or restoring, and rollbacks: the tables hold what memory knows, and the
      uncertain rows are those that `Off` tells. */
  lemma {:induction false} HistoryFollows(s: State, t: Tables, scope: Scope, text: RawText, off: set<EventKey>,
                                          moves: seq<Move>)
    requires Usable(scope) && Sound(s) && Related(s, t, scope, text, off) && Smooth(s, moves, scope, text)
    ensures Related(InMemory(s, moves), Durable(t, scope, moves), scope, text, Off(s, off, moves))
    decreases |moves|
  {
    if moves != [] {
      MoveFollows(s, t, scope, text, off, moves[0]);
      HistoryFollows(MovedInMemory(s, moves[0]), MovedDurably(t, scope, moves[0]), scope, text,
                     OffMoved(s, off, moves[0]), moves[1..]);
    }
  }

  /** Every history may start from nothing. */
  lemma EmptyAgrees(scope: Scope, text: RawText)
    ensures Sound(EMPTY) && Agrees(EMPTY, NO_ROWS, scope, text)
  {
    assert Highest({}) == None;
  }

  ghost predicate AllRestore(moves: seq<Move>, restoring: bool) {
    forall m :: m in moves && m.ScanMove? ==> m.restoring == restoring
  }

  // ---------- histories in which every scan restores ----------

  lemma RestoringMoveLeavesNothing(s: State, m: Move, scope: Scope, text: RawText)
    requires Sound(s) && SmoothMove(s, m, scope, text) && (m.ScanMove? ==> m.restoring)
    ensures Sound(MovedInMemory(s, m)) && OffMoved(s, s.uncertain.Keys, m) == MovedInMemory(s, m).uncertain.Keys
  {
    match m {
      case ScanMove(steps, _, _) =>
        WithheldAfterScan(s, steps);
        RunSound(s, steps);
      case RollbackMove(number) =>
        RollbackIsKnown(s, number);
        RollbackSound(s, number);
    }
  }

  /** With a restoring caller the two sides go on agreeing over every history. */
  lemma {:induction false} RestoringHistoriesAgree(s: State, t: Tables, scope: Scope, text: RawText, moves: seq<Move>)
    requires Usable(scope) && Sound(s) && Agrees(s, t, scope, text)
    requires Smooth(s, moves, scope, text) && AllRestore(moves, true)
    ensures Agrees(InMemory(s, moves), Durable(t, scope, moves), scope, text)
    decreases |moves|
  {
    if moves != [] {
      assert moves[0] in moves;
      MoveFollows(s, t, scope, text, s.uncertain.Keys, moves[0]);
      RestoringMoveLeavesNothing(s, moves[0], scope, text);
      RestoringHistoriesAgree(MovedInMemory(s, moves[0]), MovedDurably(t, scope, moves[0]), scope, text, moves[1..]);
    }
  }

  // ---------- histories of the scanner as coded ----------

  /** The keys of all events that were withheld at the start or that some rollback of the history withheld. */
  ghost function EverWithheld(s: State, moves: seq<Move>): set<EventKey>
    decreases |moves|
  {
    if moves == [] then s.uncertain.Keys
    else s.uncertain.Keys + EverWithheld(MovedInMemory(s, moves[0]), moves[1..])
  }

  lemma Regrouped<T>(off: set<T>, a: set<T>, b: set<T>, c: set<T>)
    requires a <= off && b <= c
    ensures off + b + c == off + (a + c) && a <= off + b && b <= off + b
  {
  }

  lemma Absorbed<T>(off: set<T>, a: set<T>, b: set<T>)
    requires a <= off
    ensures off + (a + b) == off + b && off + (a - b) == off
  {
  }

  lemma CodedScanOff(s: State, off: set<EventKey>, xs: seq<Step>)
    requires Sound(s) && Run(s, xs).1.Returned? && s.uncertain.Keys <= off
    ensures OffAfter(off, xs, false) == off + Run(s, xs).0.uncertain.Keys
  {
    WithheldAfterScan(s, xs);
    Absorbed(off, s.uncertain.Keys, Projected(xs));
  }

  lemma RollbackOff(s: State, off: set<EventKey>, number: int)
    requires number >= 0 && s.uncertain.Keys <= off
    ensures off + From(s.events, number).Keys == off + RolledBack(s, number).0.uncertain.Keys
  {
    assert RolledBack(s, number).0.uncertain == s.uncertain + From(s.events, number);
    Absorbed(off, s.uncertain.Keys, From(s.events, number).Keys);
  }

  lemma CodedMoveOff(s: State, off: set<EventKey>, m: Move, scope: Scope, text: RawText)
    requires Sound(s) && SmoothMove(s, m, scope, text) && (m.ScanMove? ==> !m.restoring) && s.uncertain.Keys <= off
    ensures Sound(MovedInMemory(s, m)) && OffMoved(s, off, m) == off + MovedInMemory(s, m).uncertain.Keys
  {
    match m {
      case ScanMove(steps, _, _) =>
        CodedScanOff(s, off, steps);
        RunSound(s, steps);
      case RollbackMove(number) =>
        RollbackOff(s, off, number);
        RollbackSound(s, number);
    }
  }

  lemma {:induction false} CodedOff(s: State, off: set<EventKey>, moves: seq<Move>, scope: Scope, text: RawText)
    requires Sound(s) && Smooth(s, moves, scope, text) && AllRestore(moves, false) && s.uncertain.Keys <= off
    ensures Off(s, off, moves) == off + EverWithheld(s, moves)
    decreases |moves|
  {
    if moves == [] {
      assert off + s.uncertain.Keys == off;
    } else {
      var s1, rest := MovedInMemory(s, moves[0]), moves[1..];
      assert moves[0] in moves;
      CodedMoveOff(s, off, moves[0], scope, text);
      WithheldIsEver(s1, rest);
      Regrouped(off, s.uncertain.Keys, s1.uncertain.Keys, EverWithheld(s1, rest));
      CodedOff(s1, off + s1.uncertain.Keys, rest, scope, text);
    }
  }

  lemma WithheldIsEver(s: State, moves: seq<Move>)
    ensures s.uncertain.Keys <= EverWithheld(s, moves)
  {
  }

  lemma {:induction false} StillWithheldIsEver(s: State, moves: seq<Move>)
    ensures InMemory(s, moves).uncertain.Keys <= EverWithheld(s, moves)
    decreases |moves|
  {
    if moves != [] {
      StillWithheldIsEver(MovedInMemory(s, moves[0]), moves[1..]);
    }
  }

  /** With the scanner as coded: over every history the tables hold what memory knows, the uncertain rows are those of
      all events ever withheld, and so the two sides agree exactly when every event ever withheld still is. */
  lemma CodedHistoriesAgreeExactlyWhen(s: State, t: Tables, scope: Scope, text: RawText, moves: seq<Move>)
    requires Usable(scope) && Sound(s) && Agrees(s, t, scope, text)
    requires Smooth(s, moves, scope, text) && AllRestore(moves, false)
    ensures Related(InMemory(s, moves), Durable(t, scope, moves), scope, text, EverWithheld(s, moves))
    ensures Agrees(InMemory(s, moves), Durable(t, scope, moves), scope, text) <==>
            forall k :: k in EverWithheld(s, moves) ==> k in InMemory(s, moves).uncertain
  {
    var s1, t1, ever := InMemory(s, moves), Durable(t, scope, moves), EverWithheld(s, moves);
    HistoryFollows(s, t, scope, text, s.uncertain.Keys, moves);
    CodedOff(s, s.uncertain.Keys, moves, scope, text);
    WithheldIsEver(s, moves);
    StillWithheldIsEver(s, moves);
    assert s.uncertain.Keys + ever == ever;
    OffIsVisible(s1, t1, scope, text, ever, s1.uncertain.Keys);
    SubsetIsEqual(s1.uncertain.Keys, ever);
  }

  lemma SubsetIsEqual<T>(a: set<T>, b: set<T>)
    requires a <= b
    ensures a == b <==> forall x :: x in b ==> x in a
  {
  }

  /** And then a further rollback reports fewer rows than the in-memory one reports events: by the number of events that
      it withholds again. */
  lemma CodedRollbackCount(s: State, t: Tables, scope: Scope, text: RawText, moves: seq<Move>, number: int)
    requires Usable(scope) && Sound(s) && Agrees(s, t, scope, text) && number >= 0
    requires Smooth(s, moves, scope, text) && AllRestore(moves, false)
    ensures CountsDiffer(InMemory(s, moves), Durable(t, scope, moves), scope, number,
                         From(InMemory(s, moves).events, number).Keys * EverWithheld(s, moves))
  {
    CodedHistoriesAgreeExactlyWhen(s, t, scope, text, moves);
    HistorySound(s, moves);
    RollbackFollows(InMemory(s, moves), Durable(t, scope, moves), scope, text, EverWithheld(s, moves), number);
  }
}
