/** The finality invariant of the durable projection, over whole runs of its operations. */
module Finality {
  import opened Wrappers
  import opened Text
  import opened Projector
  import opened Consumer
  import opened EventIds
  import opened Repository
  import opened DurableSteps

  /** The rows that the finality query of this scope can see. */
  predicate Visible(row: EventRow, scope: Scope) {
    Selected(row, scope.chainId, scope.contract)
  }

  /** Right after a checkpoint at `head`: each visible row that is not withheld is canonical exactly at depth. */
  ghost predicate FinalityExact(t: Tables, scope: Scope, head: int) {
    forall id :: id in t.events && Visible(t.events[id], scope) && t.events[id].status != Uncertain ==>
                   (t.events[id].status == Canonical <==> t.events[id].blockNumber <= head - scope.confirmations)
  }

  /** Between checkpoints: no row is canonical too early for the highest head `top` seen so far. */
  ghost predicate NoEarlyFinality(t: Tables, scope: Scope, top: int) {
    forall id :: id in t.events && Visible(t.events[id], scope) ==>
                   && t.events[id].blockNumber >= 0
                   && (t.events[id].status == Canonical ==> t.events[id].blockNumber <= top - scope.confirmations)
  }

  datatype Operation =
    | CheckpointOp(number: int, hash: string, head: int)
    | IngestOp(event: CanonicalEvent, raw: RawChainLog, head: int)
    | RollbackOp(number: int)

  function Operated(t: Tables, scope: Scope, op: Operation): Tables {
    match op
    case CheckpointOp(number, hash, head) => MarkBlock(t, scope, number, hash, head).0
    case IngestOp(event, raw, head) => IngestRow(t, scope, event, raw, head).0
    case RollbackOp(number) => WithholdRows(t, scope, number).0
  }

  function OperatedAll(t: Tables, scope: Scope, ops: seq<Operation>): Tables
    decreases |ops|
  {
    if ops == [] then t else OperatedAll(Operated(t, scope, ops[0]), scope, ops[1..])
  }

  function HeadAfter(top: int, op: Operation): int {
    if op.RollbackOp? || op.head < top then top else op.head
  }

  /** Heads never decrease and ingested blocks are not negative. */
  predicate Orderly(top: int, ops: seq<Operation>)
    decreases |ops|
  {
    ops != [] ==>
      && (ops[0].RollbackOp? || ops[0].head >= top)
      && (ops[0].IngestOp? ==> ops[0].event.blockNumber >= 0)
      && Orderly(HeadAfter(top, ops[0]), ops[1..])
  }

  /** The highest head of a run. */
  function TopHead(top: int, ops: seq<Operation>): int
    decreases |ops|
  {
    if ops == [] then top else TopHead(HeadAfter(top, ops[0]), ops[1..])
  }

  lemma MarkKeepsFinality(t: Tables, scope: Scope, number: int, hash: string, head: int, top: int)
    requires Configured(scope) && NoEarlyFinality(t, scope, top) && top <= head
    ensures NoEarlyFinality(MarkBlock(t, scope, number, hash, head).0, scope, head)
    ensures MarkBlock(t, scope, number, hash, head).1.Returned? ==>
              FinalityExact(MarkBlock(t, scope, number, hash, head).0, scope, head)
  {
    MarkBlockRows(t, scope, number, hash, head);
  }

  lemma IngestKeepsFinality(t: Tables, scope: Scope, e: CanonicalEvent, raw: RawChainLog, head: int, top: int)
    requires Configured(scope) && NoEarlyFinality(t, scope, top) && top <= head && e.blockNumber >= 0
    ensures NoEarlyFinality(IngestRow(t, scope, e, raw, head).0, scope, head)
    ensures FinalityExact(t, scope, head) ==> FinalityExact(IngestRow(t, scope, e, raw, head).0, scope, head)
  {
    IngestRowRows(t, scope, e, raw, head);
  }

  lemma WithholdKeepsFinality(t: Tables, scope: Scope, number: int, head: int)
    ensures NoEarlyFinality(t, scope, head) ==> NoEarlyFinality(WithholdRows(t, scope, number).0, scope, head)
    ensures FinalityExact(t, scope, head) ==> FinalityExact(WithholdRows(t, scope, number).0, scope, head)
  {
  }

  lemma {:induction false} NeverFinalTooEarly(t: Tables, scope: Scope, top: int, ops: seq<Operation>)
    requires Configured(scope) && NoEarlyFinality(t, scope, top) && Orderly(top, ops)
    ensures NoEarlyFinality(OperatedAll(t, scope, ops), scope, TopHead(top, ops))
    decreases |ops|
  {
    if ops != [] {
      match ops[0] {
        case CheckpointOp(number, hash, head) => MarkKeepsFinality(t, scope, number, hash, head, top);
        case IngestOp(event, raw, head) => IngestKeepsFinality(t, scope, event, raw, head, top);
        case RollbackOp(number) => WithholdKeepsFinality(t, scope, number, top);
      }
      NeverFinalTooEarly(Operated(t, scope, ops[0]), scope, HeadAfter(top, ops[0]), ops[1..]);
    }
  }

  /** Finality is exact: after any run from empty tables that ends with a checkpoint at `head`, each visible row that
      is not withheld is canonical exactly when it is at least `confirmations` blocks below the head. */
  lemma FinalityIsExact(scope: Scope, ops: seq<Operation>, number: int, hash: string, head: int)
    requires Configured(scope) && Orderly(0, ops) && head >= TopHead(0, ops)
    requires MarkBlock(OperatedAll(NO_ROWS, scope, ops), scope, number, hash, head).1.Returned?
    ensures FinalityExact(MarkBlock(OperatedAll(NO_ROWS, scope, ops), scope, number, hash, head).0, scope, head)
  {
    NeverFinalTooEarly(NO_ROWS, scope, 0, ops);
    MarkKeepsFinality(OperatedAll(NO_ROWS, scope, ops), scope, number, hash, head, TopHead(0, ops));
  }

  /** Restoring a replayed event keeps finality exact exactly when it makes no row canonical above the boundary. */
  lemma RestoreKeepsFinalityExactlyWhen(t: Tables, scope: Scope, e: CanonicalEvent, head: int)
    requires Configured(scope) && FinalityExact(t, scope, head) && RestoreRow(t, scope, e).1.Returned?
    requires EventId(e.key) in t.events ==> t.events[EventId(e.key)].key == e.key
    requires IsLower(e.key.contractAddress)
    ensures FinalityExact(RestoreRow(t, scope, e).0, scope, head) <==>
            || (EventId(e.key) in t.events && t.events[EventId(e.key)].status != Uncertain)
            || e.blockNumber <= head - scope.confirmations
  {
    var id, t1 := EventId(e.key), RestoreRow(t, scope, e).0;
    LowerIsLower(scope.contract);
    LowerIsLower(e.key.contractAddress);
    assert Visible(t1.events[id], scope);
    if id !in t.events || t.events[id].status == Uncertain {
      assert t1.events[id].status == Canonical && t1.events[id].blockNumber == e.blockNumber;
    }
  }

  // ---------- whole scans ----------

  /** The events of a scan have block numbers that are not negative. */
  predicate NoNegatives(xs: seq<Step>) {
    forall x :: x in xs && x.Project? ==> x.event.blockNumber >= 0
  }

  /** A scan at one head, raising or not, makes no row final too early, and keeps exact finality once there. */
  lemma {:induction false} StoreKeepsFinality(t: Tables, scope: Scope, head: int, xs: seq<Step>)
    requires Configured(scope) && NoEarlyFinality(t, scope, head) && NoNegatives(xs)
    ensures NoEarlyFinality(Store(t, scope, head, xs).0, scope, head)
    ensures FinalityExact(t, scope, head) && Store(t, scope, head, xs).1.Returned? ==>
              FinalityExact(Store(t, scope, head, xs).0, scope, head)
    decreases |xs|
  {
    if xs != [] {
      var (t1, r) := StoreStep(t, scope, head, xs[0]);
      match xs[0] {
        case Mark(number, hash) => MarkKeepsFinality(t, scope, number, hash, head, head);
        case Project(e, raw) => IngestKeepsFinality(t, scope, e, raw, head, head);
        case Halt(_) =>
      }
      if r.Returned? {
        StoreKeepsFinality(t1, scope, head, xs[1..]);
      }
    }
  }

  /** A scan that begins with a checkpoint makes finality exact. */
  lemma StoreIsFinal(t: Tables, scope: Scope, head: int, xs: seq<Step>)
    requires Configured(scope) && NoEarlyFinality(t, scope, head) && NoNegatives(xs)
    requires xs != [] && xs[0].Mark? && Store(t, scope, head, xs).1.Returned?
    ensures FinalityExact(Store(t, scope, head, xs).0, scope, head)
  {
    MarkKeepsFinality(t, scope, xs[0].number, xs[0].hash, head, head);
    StoreKeepsFinality(StoreStep(t, scope, head, xs[0]).0, scope, head, xs[1..]);
  }

  // ---------- other scopes ----------

  /** No operation of one scope touches a row of another chain or another contract. */
  lemma OtherScopesUntouched(t: Tables, scope: Scope, ops: seq<Operation>, id: string)
    requires Configured(scope) && id in t.events
    requires t.events[id].key.chainId != scope.chainId || t.events[id].key.contractAddress != scope.contract
    ensures id in OperatedAll(t, scope, ops).events && OperatedAll(t, scope, ops).events[id] == t.events[id]
  {
    LowerIsLower(scope.contract);
    RunOnRow(t, scope, ops, id);
  }

  // ---------- rows that the operations cannot see ----------

  lemma OperationOnRow(t: Tables, scope: Scope, op: Operation, id: string)
    requires id in t.events
    ensures var t1 := Operated(t, scope, op);
            && id in t1.events && t1.events[id] == t.events[id].(status := t1.events[id].status)
            && (!Visible(t.events[id], scope) ==> t1.events[id] == t.events[id])
            && (t.events[id].status == Uncertain ==> t1.events[id].status == Uncertain)
  {
    match op {
      case CheckpointOp(number, hash, head) => MarkBlockRows(t, scope, number, hash, head);
      case IngestOp(event, raw, head) => IngestRowRows(t, scope, event, raw, head);
      case RollbackOp(_) =>
    }
  }

  /** Over every run of checkpoints, ingests and rollbacks, accepted or raising: a row stays with its content, a row
      that is out of sight is never finalized and never withheld, and a row that is uncertain stays uncertain. */
  lemma {:induction false} RunOnRow(t: Tables, scope: Scope, ops: seq<Operation>, id: string)
    requires id in t.events
    ensures var t1 := OperatedAll(t, scope, ops);
            && id in t1.events && t1.events[id] == t.events[id].(status := t1.events[id].status)
            && (!Visible(t.events[id], scope) ==> t1.events[id] == t.events[id])
            && (t.events[id].status == Uncertain ==> t1.events[id].status == Uncertain)
    decreases |ops|
  {
    if ops != [] {
      OperationOnRow(t, scope, ops[0], id);
      RunOnRow(Operated(t, scope, ops[0]), scope, ops[1..], id);
    }
  }

  /** Rows of this scope are in sight exactly when their stored address is in lower case. */
  lemma InSightExactlyWhen(row: EventRow, scope: Scope)
    requires Configured(scope) && InScope(row.key, scope)
    ensures Visible(row, scope) <==> IsLower(row.key.contractAddress)
  {
    LowerIsLower(scope.contract);
    LowerIsLower(row.key.contractAddress);
  }

  /** A row that ingest accepts with upper-case letters in its address is out of reach of every later operation: no
      checkpoint finalizes it, and no rollback withholds it. */
  lemma MixedCaseRowNeverChanges(t: Tables, scope: Scope, e: CanonicalEvent, raw: RawChainLog, low: int,
                                 ops: seq<Operation>)
    requires Configured(scope) && !IsLower(e.key.contractAddress) && EventId(e.key) !in t.events
    requires IngestRow(t, scope, e, raw, low).1.Returned?
    ensures var t1 := OperatedAll(IngestRow(t, scope, e, raw, low).0, scope, ops);
            EventId(e.key) in t1.events
                && t1.events[EventId(e.key)] == EventRowOf(e, StatusAt(scope, e.blockNumber, low))
  {
    IngestRowRows(t, scope, e, raw, low);
    InSightExactlyWhen(EventRowOf(e, StatusAt(scope, e.blockNumber, low)), scope);
    RunOnRow(IngestRow(t, scope, e, raw, low).0, scope, ops, EventId(e.key));
  }

  /** A row ingested above the boundary is still unfinalized after any orderly run and a checkpoint that has it deep
      enough exactly when its stored address is not in lower case. */
  lemma LeftUnfinalizedExactlyWhen(t: Tables, scope: Scope, top: int, e: CanonicalEvent, raw: RawChainLog, low: int,
                                   ops: seq<Operation>, number: int, hash: string, head: int)
    requires Configured(scope) && NoEarlyFinality(t, scope, top) && EventId(e.key) !in t.events && e.blockNumber >= 0
    requires top <= low && IngestRow(t, scope, e, raw, low).1.Returned? && e.blockNumber > low - scope.confirmations
    requires Orderly(low, ops) && TopHead(low, ops) <= head && e.blockNumber <= head - scope.confirmations
    requires var t1 := OperatedAll(IngestRow(t, scope, e, raw, low).0, scope, ops);
             MarkBlock(t1, scope, number, hash, head).1.Returned?
    ensures var t1 := OperatedAll(IngestRow(t, scope, e, raw, low).0, scope, ops);
            var t2 := MarkBlock(t1, scope, number, hash, head).0;
            && EventId(e.key) in t2.events
            && (t2.events[EventId(e.key)].status == Unfinalized <==> !IsLower(e.key.contractAddress))
  {
    var id, t0 := EventId(e.key), IngestRow(t, scope, e, raw, low).0;
    var t1, mark := OperatedAll(t0, scope, ops), CheckpointOp(number, hash, head);
    IngestRowRows(t, scope, e, raw, low);
    assert t0.events[id] == EventRowOf(e, Unfinalized);
    IngestKeepsFinality(t, scope, e, raw, low, top);
    NeverFinalTooEarly(t0, scope, low, ops);
    MarkKeepsFinality(t1, scope, number, hash, head, TopHead(low, ops));
    InSightExactlyWhen(t0.events[id], scope);
    RunOnRow(t0, scope, ops, id);
    OperationOnRow(t1, scope, mark, id);
  }
}
