/** When a durable scan succeeds: the counterpart of the in-memory law, without a guard against gaps. */
module DurableSuccess {
  import opened Wrappers
  import opened Text
  import opened Projector
  import opened Consumer
  import opened ScanLaws
  import opened EventIds
  import opened Repository
  import opened DurableSteps
  import opened Simulation

  /** What one step asks of the tables before the whole scan. */
  predicate FitsTables(t: Tables, scope: Scope, head: int, x: Step) {
    match x
    case Mark(number, hash) =>
      && head >= 0 && scope.chainId >= 1 && number >= 0 && IsText(hash, 66)
      && (head >= scope.confirmations ==> IsText(scope.contract, 42))
      && ((scope.chainId, number) in t.checkpoints ==> t.checkpoints[(scope.chainId, number)].blockHash == hash)
    case Project(e, raw) =>
      && head >= 0 && InScope(e.key, scope) && ValidKey(e.key) && Matches(raw, e)
      && (EventId(e.key) in t.rawLogs ==> t.rawLogs[EventId(e.key)] == RawRowOf(e, raw.topics, Lower(raw.data)))
      && (EventId(e.key) in t.events ==> SameContent(t.events[EventId(e.key)], e))
    case Halt(_) => false
  }

  /** Two steps do not give one block two hashes, or one event id two contents or two texts. */
  predicate Compatible(x: Step, y: Step) {
    && (x.Mark? && y.Mark? && x.number == y.number ==> x.hash == y.hash)
    && (x.Project? && y.Project? && EventId(x.event.key) == EventId(y.event.key) ==>
          && SameContent(EventRowOf(x.event, Canonical), y.event)
          && RawRowOf(x.event, x.raw.topics, Lower(x.raw.data)) == RawRowOf(y.event, y.raw.topics, Lower(y.raw.data)))
  }

  ghost predicate AllCompatible(xs: seq<Step>) {
    xs == [] || ((forall y :: y in xs[1..] ==> Compatible(xs[0], y)) && AllCompatible(xs[1..]))
  }

  lemma StepSucceedsExactlyWhen(t: Tables, scope: Scope, head: int, x: Step)
    ensures StoreStep(t, scope, head, x).1.Returned? <==> FitsTables(t, scope, head, x)
  {
  }

  /** What a stored event leaves under its id. */
  lemma IngestedRows(t: Tables, scope: Scope, e: CanonicalEvent, raw: RawChainLog, head: int)
    requires IngestRow(t, scope, e, raw, head).1.Returned?
    ensures var t1, id := IngestRow(t, scope, e, raw, head).0, EventId(e.key);
            && t1.checkpoints == t.checkpoints
            && id in t1.events && SameContent(t1.events[id], e)
            && id in t1.rawLogs && t1.rawLogs[id] == RawRowOf(e, raw.topics, Lower(raw.data))
            && (forall k :: k != id ==>
                (k in t1.events <==> k in t.events) && (k in t.events ==> t1.events[k] == t.events[k]))
            && (forall k :: k != id ==>
                (k in t1.rawLogs <==> k in t.rawLogs) && (k in t.rawLogs ==> t1.rawLogs[k] == t.rawLogs[k]))
            && (id in t.events ==> SameContent(t.events[id], e))
            && (id in t.rawLogs ==> t.rawLogs[id] == t1.rawLogs[id])
  {
  }

  lemma FitsAfterProject(t: Tables, scope: Scope, head: int, e: CanonicalEvent, raw: RawChainLog, y: Step)
    requires IngestRow(t, scope, e, raw, head).1.Returned?
    ensures FitsTables(IngestRow(t, scope, e, raw, head).0, scope, head, y) <==>
            FitsTables(t, scope, head, y) && Compatible(Project(e, raw), y)
  {
    IngestedRows(t, scope, e, raw, head);
  }

  lemma FitsAfterMark(t: Tables, scope: Scope, head: int, number: int, hash: string, y: Step)
    requires MarkBlock(t, scope, number, hash, head).1.Returned?
    ensures FitsTables(MarkBlock(t, scope, number, hash, head).0, scope, head, y) <==>
            FitsTables(t, scope, head, y) && Compatible(Mark(number, hash), y)
  {
    MarkBlockRows(t, scope, number, hash, head);
    MarkBlockCheckpoints(t, scope, number, hash, head);
  }

  lemma FitsAfter(t: Tables, scope: Scope, head: int, x: Step, y: Step)
    requires StoreStep(t, scope, head, x).1.Returned?
    ensures FitsTables(StoreStep(t, scope, head, x).0, scope, head, y) <==>
            FitsTables(t, scope, head, y) && Compatible(x, y)
  {
    match x
    case Mark(number, hash) => FitsAfterMark(t, scope, head, number, hash, y);
    case Project(e, raw) => FitsAfterProject(t, scope, head, e, raw, y);
  }

  /** A durable scan succeeds exactly when every reply fits the tables and agrees with the other replies, in content and
      in the text of its logs. Blocks need not link up. */
  lemma {:induction false} StoreSucceedsExactlyWhen(t: Tables, scope: Scope, head: int, xs: seq<Step>)
    ensures Store(t, scope, head, xs).1.Returned? <==>
            AllCompatible(xs) && forall x :: x in xs ==> FitsTables(t, scope, head, x)
    decreases |xs|
  {
    if xs != [] {
      StepSucceedsExactlyWhen(t, scope, head, xs[0]);
      var (t1, r) := StoreStep(t, scope, head, xs[0]);
      if r.Returned? {
        StoreSucceedsExactlyWhen(t1, scope, head, xs[1..]);
        forall y | y in xs[1..]
          ensures FitsTables(t1, scope, head, y) <==> FitsTables(t, scope, head, y) && Compatible(xs[0], y)
        {
          FitsAfter(t, scope, head, xs[0], y);
        }
        assert forall x :: x in xs <==> x == xs[0] || x in xs[1..];
      }
    }
  }

  /** From related states a durable checkpoint succeeds exactly when the in-memory one does, or would skip a gap. */
  lemma CheckpointStoredExactlyWhen(s: State, t: Tables, scope: Scope, number: int, hash: string, head: int)
    requires Usable(scope) && Sound(s) && BlocksMatch(s, t, scope.chainId) && head >= 0 && IsText(hash, 66)
    ensures var m := Checkpointed(s, number, hash, false).1;
            MarkBlock(t, scope, number, hash, head).1.Returned? <==> m.Returned? || m.error == BlockGap
  {
    StepSucceedsExactlyWhen(t, scope, head, Mark(number, hash));
  }

  /** A stored log is taken again exactly when it comes with the same text: the in-memory projection reads only the
      decoded event, the tables also compare topics, letter by letter, and data. */
  lemma TakenAgainExactlyWhen(t: Tables, scope: Scope, text: RawText, e: CanonicalEvent, withheld: bool,
                              raw: RawChainLog, head: int)
    requires Usable(scope) && head >= 0 && KeyFits(e.key, scope) && Matches(raw, e) && Mirrored(t, e, withheld, text)
    ensures IngestRow(t, scope, e, raw, head).1.Returned? <==> text(e) == (raw.topics, Lower(raw.data))
    ensures IngestRow(t, scope, e, raw, head).0 == t
  {
    LowerIsLower(scope.contract);
  }
}
