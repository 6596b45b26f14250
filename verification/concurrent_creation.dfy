/** Idempotent creation by concurrent callers: select, insert under the unique constraints, select again. */
module ConcurrentCreation {
  import opened Wrappers
  import opened Text
  import opened Transactions
  import opened Intents

  /** The digest of the id is injective, so the digested text stands for it. */
  function IntentId(subject: string, key: string): string {
    subject + ":" + key
  }

  datatype Phase =
    | Selecting
    | Inserting
    | Reselecting
    | Done(outcome: Outcome<Row>)

  datatype Caller = Caller(subject: string, key: string, fingerprint: string, phase: Phase)

  datatype System = System(rows: Rows, callers: seq<Caller>)

  /** A move of one caller, or a workflow transition of some row by somebody else. */
  datatype Move =
    | CallerMove(i: nat)
    | WorkflowMove(subject: string, key: string, next: Status, txHash: Option<string>)

  ghost function Answer(rows: Rows, c: Caller, missing: Phase): Phase {
    var found := Lookup(rows, c.subject, c.key);
    if found.None? then missing
    else Done(if found.value.fingerprint != c.fingerprint then Raised(TransactionConflict) else Returned(found.value))
  }

  function NewRow(c: Caller): Row {
    Row(IntentId(c.subject, c.key), c.subject, c.key, c.fingerprint, Requested, None)
  }

  ghost function CallerStep(rows: Rows, c: Caller): (Rows, Caller) {
    match c.phase
    case Selecting => (rows, c.(phase := Answer(rows, c, Inserting)))
    case Inserting =>
      if HasPair(rows, c.subject, c.key) || IntentId(c.subject, c.key) in rows then (rows, c.(phase := Reselecting))
      else (rows[IntentId(c.subject, c.key) := NewRow(c)], c.(phase := Done(Returned(NewRow(c)))))
    case Reselecting => (rows, c.(phase := Answer(rows, c, Done(Raised(IntegrityError)))))
    case Done(_) => (rows, c)
  }

  ghost function After(s: System, m: Move): System {
    match m
    case CallerMove(i) =>
      if i >= |s.callers| then s
      else var (rows, c) := CallerStep(s.rows, s.callers[i]); System(rows, s.callers[i := c])
    case WorkflowMove(subject, key, next, txHash) =>
      s.(rows := TransitionedIntent(s.rows, subject, key, next, txHash).0)
  }

  ghost function Play(s: System, moves: seq<Move>): System
    decreases |moves|
  {
    if moves == [] then s else Play(After(s, moves[0]), moves[1..])
  }

  // ---------- ids ----------

  /** `b` goes on from `a` with a colon, as `a:b` does from `a`. */
  predicate Extends(a: string, b: string) {
    a + ":" <= b
  }

  /** Of two different pairs with one id, one subject extends the other. */
  lemma EqualIdsExtend(subject: string, key: string, other: string, otherKey: string)
    requires IntentId(subject, key) == IntentId(other, otherKey) && |subject| <= |other|
    ensures (subject == other && key == otherKey) || Extends(subject, other)
  {
    var id := IntentId(subject, key);
    assert subject == id[..|subject|] && other == id[..|other|];
    assert id[|subject|] == ':';
    if |subject| < |other| {
      assert subject + ":" == id[..|subject| + 1] <= other;
    } else {
      assert key == id[|subject| + 1..] && otherKey == id[|other| + 1..];
    }
  }

  /** Every key of the longer subject then has a partner key of the shorter one. */
  lemma ExtendingSubjectsCollide(subject: string, other: string, key: string)
    requires Extends(subject, other)
    ensures IntentId(subject, other[|subject| + 1..] + ":" + key) == IntentId(other, key)
  {
    assert other == subject + ":" + other[|subject| + 1..];
  }

  /** Two subjects can share an id exactly when one extends the other by a colon. */
  lemma SubjectsShareAnIdExactlyWhen(subject: string, other: string)
    requires subject != other
    ensures (exists key, otherKey :: IntentId(subject, key) == IntentId(other, otherKey)) <==>
            Extends(subject, other) || Extends(other, subject)
  {
    if key, otherKey :| IntentId(subject, key) == IntentId(other, otherKey) {
      if |subject| <= |other| {
        EqualIdsExtend(subject, key, other, otherKey);
      } else {
        EqualIdsExtend(other, otherKey, subject, key);
      }
    }
    if Extends(subject, other) {
      ExtendingSubjectsCollide(subject, other, "");
    } else if Extends(other, subject) {
      ExtendingSubjectsCollide(other, subject, "");
    }
  }

  /** The keys that the writer lets through. */
  predicate KeyFits(key: string) {
    8 <= |key| && IsText(key, 128)
  }

  /** `b` extends `a`, by so little that a longest key can make up for it. */
  predicate Clashes(a: string, b: string) {
    Extends(a, b) && |b| <= |a| + 120
  }

  lemma EqualIdsClash(subject: string, key: string, other: string, otherKey: string)
    requires KeyFits(key) && KeyFits(otherKey) && |subject| <= |other|
    requires IntentId(subject, key) == IntentId(other, otherKey)
    ensures (subject == other && key == otherKey) || Clashes(subject, other)
  {
    EqualIdsExtend(subject, key, other, otherKey);
    assert |IntentId(subject, key)| == |IntentId(other, otherKey)|;
  }

  lemma ClashingKeyFits(subject: string, other: string, key: string)
    requires IsText(other, 128) && Clashes(subject, other) && |key| == 8 && IsText(key, 128)
    ensures KeyFits(other[|subject| + 1..] + ":" + key)
  {
  }

  /** With keys that the writer accepts, two subjects can share an id exactly when one clashes with the other. */
  lemma SubjectsClashExactlyWhen(subject: string, other: string)
    requires subject != other && IsText(subject, 128) && IsText(other, 128)
    ensures (exists key, otherKey :: KeyFits(key) && KeyFits(otherKey)
                && IntentId(subject, key) == IntentId(other, otherKey))
            <==> Clashes(subject, other) || Clashes(other, subject)
  {
    if key, otherKey :| KeyFits(key) && KeyFits(otherKey) && IntentId(subject, key) == IntentId(other, otherKey) {
      if |subject| <= |other| {
        EqualIdsClash(subject, key, other, otherKey);
      } else {
        EqualIdsClash(other, otherKey, subject, key);
      }
    }
    if Clashes(subject, other) {
      ClashingKeyFits(subject, other, "request1");
      ExtendingSubjectsCollide(subject, other, "request1");
    } else if Clashes(other, subject) {
      ClashingKeyFits(other, subject, "request1");
      ExtendingSubjectsCollide(other, subject, "request1");
    }
  }

  lemma IdsInjective(subject: string, key: string, other: string, otherKey: string)
    requires KeyFits(key) && KeyFits(otherKey) && !Clashes(subject, other) && !Clashes(other, subject)
    ensures IntentId(subject, key) == IntentId(other, otherKey) <==> subject == other && key == otherKey
  {
    if IntentId(subject, key) == IntentId(other, otherKey) {
      if |subject| <= |other| {
        EqualIdsClash(subject, key, other, otherKey);
      } else {
        EqualIdsClash(other, otherKey, subject, key);
      }
    }
  }

  /** No subject of the set clashes with another: the condition under which ids tell pairs apart. */
  ghost predicate Apart(subjects: set<string>) {
    forall a, b :: a in subjects && b in subjects ==> !Clashes(a, b)
  }

  /** The collision: the first caller inserts, the second selects, fails to insert, and finds nothing. */
  const COLLISION := [CallerMove(0), CallerMove(0), CallerMove(1), CallerMove(1), CallerMove(1)]

  /** When a subject extends another, the second caller can fail although its pair is free. */
  lemma ExtendingSubjectFails(subject: string, other: string, key: string, fingerprint: string)
    requires Extends(subject, other)
    ensures var first := Caller(subject, other[|subject| + 1..] + ":" + key, fingerprint, Selecting);
            var second := Caller(other, key, fingerprint, Selecting);
            var s := Play(System(map[], [first, second]), COLLISION);
            && s.callers == [first.(phase := Done(Returned(NewRow(first)))),
                             second.(phase := Done(Raised(IntegrityError)))]
            && !HasPair(s.rows, other, key)
  {
    var first := Caller(subject, other[|subject| + 1..] + ":" + key, fingerprint, Selecting);
    var second := Caller(other, key, fingerprint, Selecting);
    ExtendingSubjectsCollide(subject, other, key);
    var s0 := System(map[], [first, second]);
    var s1 := After(s0, CallerMove(0));
    var s2 := After(s1, CallerMove(0));
    var s3 := After(s2, CallerMove(1));
    var s4 := After(s3, CallerMove(1));
    assert s2.rows == map[IntentId(other, key) := NewRow(first)];
    assert !HasPair(s2.rows, other, key);
    PlayStep(s0, COLLISION);
    PlayStep(s1, COLLISION[1..]);
    PlayStep(s2, COLLISION[2..]);
    PlayStep(s3, COLLISION[3..]);
    PlayStep(s4, COLLISION[4..]);
  }

  lemma PlayStep(s: System, moves: seq<Move>)
    requires moves != []
    ensures Play(s, moves) == Play(After(s, moves[0]), moves[1..])
  {
  }

  // ---------- the invariant ----------

  /** Every row was stored under the id of its pair, for a subject in use. */
  ghost predicate RowsKeyed(rows: Rows, inUse: set<string>) {
    forall id :: id in rows ==>
                   && rows[id].id == id && id == IntentId(rows[id].subject, rows[id].key)
                   && rows[id].subject in inUse && KeyFits(rows[id].key)
  }

  /** What a caller knows: while it waits to select again its pair is taken, and when it is done the row of its pair
      explains its outcome. */
  ghost predicate CallerKnows(rows: Rows, c: Caller, inUse: set<string>) {
    var id := IntentId(c.subject, c.key);
    && c.subject in inUse && KeyFits(c.key)
    && (c.phase.Reselecting? || c.phase.Done? ==> id in rows)
    && (c.phase.Done? ==>
          match c.phase.outcome
          case Returned(row) =>
            row.id == id && row.subject == c.subject && row.key == c.key
            && row.fingerprint == c.fingerprint == rows[id].fingerprint
          case Raised(error) => error == TransactionConflict && rows[id].fingerprint != c.fingerprint)
  }

  ghost predicate Inv(s: System, inUse: set<string>) {
    RowsKeyed(s.rows, inUse) && forall i :: 0 <= i < |s.callers| ==> CallerKnows(s.rows, s.callers[i], inUse)
  }

  /** Rows are never removed, never change their pair, and never change their fingerprint. */
  ghost predicate RowsKept(rows: Rows, rows': Rows) {
    forall id :: id in rows ==>
                   id in rows' && rows'[id].fingerprint == rows[id].fingerprint
                   && rows'[id].subject == rows[id].subject && rows'[id].key == rows[id].key
  }

  lemma KeyedRowsAreUnique(rows: Rows, inUse: set<string>)
    requires RowsKeyed(rows, inUse)
    ensures PairsUnique(rows)
  {
  }

  lemma LookupKeyed(rows: Rows, subject: string, key: string, inUse: set<string>)
    requires RowsKeyed(rows, inUse) && Apart(inUse) && subject in inUse && KeyFits(key)
    ensures HasPair(rows, subject, key) <==> IntentId(subject, key) in rows
    ensures IntentId(subject, key) in rows ==> Lookup(rows, subject, key) == Some(rows[IntentId(subject, key)])
  {
    var id := IntentId(subject, key);
    if id in rows {
      IdsInjective(subject, key, rows[id].subject, rows[id].key);
      KeyedRowsAreUnique(rows, inUse);
      LookupUnique(rows, id);
    }
  }

  lemma KnowledgeKept(rows: Rows, rows': Rows, c: Caller, inUse: set<string>)
    requires CallerKnows(rows, c, inUse) && RowsKept(rows, rows')
    ensures CallerKnows(rows', c, inUse)
  {
  }

  lemma CallerStepKeeps(rows: Rows, c: Caller, inUse: set<string>)
    requires Apart(inUse) && RowsKeyed(rows, inUse) && CallerKnows(rows, c, inUse)
    ensures var (rows', c') := CallerStep(rows, c);
            RowsKeyed(rows', inUse) && CallerKnows(rows', c', inUse) && RowsKept(rows, rows') && SameRequest(c, c')
  {
    LookupKeyed(rows, c.subject, c.key, inUse);
  }

  lemma WorkflowKeeps(rows: Rows, subject: string, key: string, next: Status, txHash: Option<string>,
                      inUse: set<string>)
    requires RowsKeyed(rows, inUse)
    ensures var rows' := TransitionedIntent(rows, subject, key, next, txHash).0;
            RowsKeyed(rows', inUse) && RowsKept(rows, rows')
  {
    TransitionMovesRows(rows, subject, key, next, txHash);
  }

  predicate SameRequest(c: Caller, c': Caller) {
    c'.subject == c.subject && c'.key == c.key && c'.fingerprint == c.fingerprint
  }

  ghost predicate SameRequests(s: System, s': System) {
    |s'.callers| == |s.callers| && forall i :: 0 <= i < |s.callers| ==> SameRequest(s.callers[i], s'.callers[i])
  }

  lemma MoveKeeps(s: System, m: Move, inUse: set<string>)
    requires Apart(inUse) && Inv(s, inUse)
    ensures var s' := After(s, m); Inv(s', inUse) && RowsKept(s.rows, s'.rows) && SameRequests(s, s')
  {
    var s' := After(s, m);
    match m {
      case CallerMove(i) =>
        if i < |s.callers| {
          CallerStepKeeps(s.rows, s.callers[i], inUse);
          forall j | 0 <= j < |s'.callers| ensures CallerKnows(s'.rows, s'.callers[j], inUse) {
            if j != i { KnowledgeKept(s.rows, s'.rows, s.callers[j], inUse); }
          }
        }
      case WorkflowMove(subject, key, next, txHash) =>
        WorkflowKeeps(s.rows, subject, key, next, txHash, inUse);
        forall j | 0 <= j < |s'.callers| ensures CallerKnows(s'.rows, s'.callers[j], inUse) {
          KnowledgeKept(s.rows, s'.rows, s.callers[j], inUse);
        }
    }
  }

  lemma {:induction false} RunKeeps(s: System, moves: seq<Move>, inUse: set<string>)
    requires Apart(inUse) && Inv(s, inUse)
    ensures var s' := Play(s, moves); Inv(s', inUse) && RowsKept(s.rows, s'.rows) && SameRequests(s, s')
    decreases |moves|
  {
    if moves != [] {
      MoveKeeps(s, moves[0], inUse);
      RunKeeps(After(s, moves[0]), moves[1..], inUse);
    }
  }

  /** Callers that have not started, over a table whose rows were created this way, all for subjects in use. */
  ghost predicate Initial(s: System, inUse: set<string>) {
    && RowsKeyed(s.rows, inUse)
    && forall i :: 0 <= i < |s.callers| ==>
         s.callers[i].phase == Selecting && s.callers[i].subject in inUse && KeyFits(s.callers[i].key)
  }

  /** Idempotent creation, under every interleaving, when no subject in use clashes with another: at most one row per
      pair; rows keep their fingerprint; a finished caller succeeded exactly when its fingerprint is that of the row of
      its pair and otherwise met a conflict; and all successes for one pair name the same row. */
  lemma CreationIsIdempotent(s: System, moves: seq<Move>, inUse: set<string>, i: nat, j: nat)
    requires Apart(inUse) && Initial(s, inUse)
    requires i < |Play(s, moves).callers| && j < |Play(s, moves).callers|
    requires Play(s, moves).callers[i].phase.Done? && Play(s, moves).callers[j].phase.Done?
    ensures var s' := Play(s, moves);
            var c, d := s'.callers[i], s'.callers[j];
            && PairsUnique(s'.rows) && RowsKept(s.rows, s'.rows)
            && Lookup(s'.rows, c.subject, c.key).Some?
            && (c.phase.outcome.Returned? <==> c.fingerprint == Lookup(s'.rows, c.subject, c.key).value.fingerprint)
            && (c.phase.outcome.Raised? ==> c.phase.outcome.error == TransactionConflict)
            && (c.phase.outcome.Returned? && d.phase.outcome.Returned? && c.subject == d.subject && c.key == d.key ==>
                  c.phase.outcome.value.id == d.phase.outcome.value.id && c.fingerprint == d.fingerprint)
  {
    RunKeeps(s, moves, inUse);
    var s' := Play(s, moves);
    KeyedRowsAreUnique(s'.rows, inUse);
    assert CallerKnows(s'.rows, s'.callers[i], inUse) && CallerKnows(s'.rows, s'.callers[j], inUse);
    LookupKeyed(s'.rows, s'.callers[i].subject, s'.callers[i].key, inUse);
  }

  /** Some caller of the run met the bare integrity error. */
  ghost predicate Fails(s: System, moves: seq<Move>) {
    exists i :: 0 <= i < |Play(s, moves).callers| && Play(s, moves).callers[i].phase == Done(Raised(IntegrityError))
  }

  lemma ApartSubjectsNeverFail(s: System, moves: seq<Move>, inUse: set<string>)
    requires Apart(inUse) && Initial(s, inUse)
    ensures !Fails(s, moves)
  {
    RunKeeps(s, moves, inUse);
    var callers := Play(s, moves).callers;
    forall i | 0 <= i < |callers| ensures callers[i].phase != Done(Raised(IntegrityError)) {
      assert CallerKnows(Play(s, moves).rows, callers[i], inUse);
    }
  }

  /** The condition is exact: callers for the given subjects can be made to fail exactly when one of them clashes with
      another. */
  lemma CreationCanFailExactlyWhen(subjects: set<string>)
    requires forall a :: a in subjects ==> IsText(a, 128)
    ensures (exists s, moves :: Initial(s, subjects) && Fails(s, moves)) <==> !Apart(subjects)
  {
    forall s, moves | Initial(s, subjects) && Apart(subjects) ensures !Fails(s, moves) {
      ApartSubjectsNeverFail(s, moves, subjects);
    }
    if !Apart(subjects) {
      var a, b :| a in subjects && b in subjects && Clashes(a, b);
      var first := Caller(a, b[|a| + 1..] + ":" + "request1", "", Selecting);
      ClashingKeyFits(a, b, "request1");
      ExtendingSubjectFails(a, b, "request1", "");
      var s := System(map[], [first, Caller(b, "request1", "", Selecting)]);
      assert Play(s, COLLISION).callers[1].phase == Done(Raised(IntegrityError));
      assert Initial(s, subjects) && Fails(s, COLLISION);
    }
  }

  // ---------- progress ----------

  function Remaining(p: Phase): nat {
    match p
    case Selecting => 3
    case Inserting => 2
    case Reselecting => 1
    case Done(_) => 0
  }

  function OwnMoves(moves: seq<Move>, i: nat): nat {
    if moves == [] then 0 else (if moves[0] == CallerMove(i) then 1 else 0) + OwnMoves(moves[1..], i)
  }

  /** Every caller is done after three moves of its own, whatever the others do. */
  lemma {:induction false} ThreeMovesSuffice(s: System, moves: seq<Move>, i: nat)
    requires i < |s.callers| && OwnMoves(moves, i) >= Remaining(s.callers[i].phase)
    ensures i < |Play(s, moves).callers| && Play(s, moves).callers[i].phase.Done?
    decreases |moves|
  {
    if moves != [] {
      ThreeMovesSuffice(After(s, moves[0]), moves[1..], i);
    }
  }

  /** A caller that nobody interrupts does what the sequential operation does. */
  lemma LoneCallerCreates(rows: Rows, subject: string, key: string, fingerprint: string)
    ensures var s := Play(System(rows, [Caller(subject, key, fingerprint, Selecting)]),
                          [CallerMove(0), CallerMove(0), CallerMove(0)]);
            var (rows1, r) := PlacedIntent(rows, IntentId(subject, key), subject, key, fingerprint, Requested, None);
            s.rows == rows1 && |s.callers| == 1 && s.callers[0].phase == Done(r)
  {
    var s0 := System(rows, [Caller(subject, key, fingerprint, Selecting)]);
    var s1 := After(s0, CallerMove(0));
    var s2 := After(s1, CallerMove(0));
    PlayStep(s0, [CallerMove(0), CallerMove(0), CallerMove(0)]);
    PlayStep(s1, [CallerMove(0), CallerMove(0)]);
    PlayStep(s2, [CallerMove(0)]);
  }
}
