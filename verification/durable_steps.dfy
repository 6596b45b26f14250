/** The durable projection on values: its operations, and the durable scanner as a list of steps. */
module DurableSteps {
  import opened Wrappers
  import opened Text
  import opened Projector
  import opened Consumer
  import opened EventIds
  import opened Repository

  /** The configuration of a projection; its contract address is stored in lower case. */
  datatype Scope = Scope(chainId: int, contract: string, confirmations: int)

  predicate Configured(scope: Scope) {
    scope.chainId >= 1 && scope.confirmations >= 0 && IsLower(scope.contract)
  }

  predicate InScope(k: EventKey, scope: Scope) {
    k.chainId == scope.chainId && Lower(k.contractAddress) == scope.contract
  }

  function MarkBlock(t: Tables, scope: Scope, number: int, hash: string, head: int): (Tables, Outcome<()>) {
    if head < 0 then (t, Raised(ValueError))
    else
      var through := head - scope.confirmations;
      var (t1, r) := RecordedCheckpoint(t, scope.chainId, number, hash, number <= through);
      if r.Raised? || through < 0 then (t1, r)
      else FinalizedThrough(t1, scope.chainId, scope.contract, through)
  }

  function StatusAt(scope: Scope, number: int, head: int): Status {
    if head - number >= scope.confirmations then Canonical else Unfinalized
  }

  function IngestRow(t: Tables, scope: Scope, e: CanonicalEvent, raw: RawChainLog, head: int)
    : (Tables, Outcome<EventRow>)
  {
    if head < 0 then (t, Raised(ValueError))
    else if !InScope(e.key, scope) then (t, Raised(PersistenceConflict))
    else
      var (t1, r) := InsertedRawLog(t, e, raw);
      if r.Raised? then (t1, Raised(r.error))
      else InsertedEvent(t1, e, StatusAt(scope, e.blockNumber, head))
  }

  function WithholdRows(t: Tables, scope: Scope, number: int): (Tables, Outcome<nat>) {
    var (t1, r) := MarkedUncertain(t, scope.chainId, scope.contract, number);
    if r.Raised? then (t1, r)
    else (RemovedCheckpoints(t1, scope.chainId, number).0, r)
  }

  function RestoreRow(t: Tables, scope: Scope, e: CanonicalEvent): (Tables, Outcome<EventRow>) {
    if !InScope(e.key, scope) then (t, Raised(PersistenceConflict)) else Restored(t, e)
  }

  /** One step of the durable scanner as coded: every decoded log is ingested and counted. */
  function StoreStep(t: Tables, scope: Scope, head: int, x: Step): (Tables, Outcome<nat>) {
    match x
    case Mark(number, hash) =>
      var (t1, r) := MarkBlock(t, scope, number, hash, head);
      (t1, if r.Raised? then Raised(r.error) else Returned(0))
    case Project(e, raw) =>
      var (t1, r) := IngestRow(t, scope, e, raw, head);
      (t1, if r.Raised? then Raised(r.error) else Returned(1))
    case Halt(error) => (t, Raised(error))
  }

  predicate OnlyFinalized(row: EventRow, row1: EventRow) {
    row1 == row || (row.status == Unfinalized && row1 == row.(status := Canonical))
  }

  /** What a checkpoint does to the event rows. */
  lemma MarkBlockRows(t: Tables, scope: Scope, number: int, hash: string, head: int)
    ensures var (t1, r) := MarkBlock(t, scope, number, hash, head);
            && t1.rawLogs == t.rawLogs
            && (forall id :: id in t1.events <==> id in t.events)
            && (forall id :: id in t.events ==>
                  t1.events[id] ==
                  if r.Returned? && ToFinalize(t.events[id], scope.chainId, scope.contract, head - scope.confirmations)
                     && head >= scope.confirmations
                  then t.events[id].(status := Canonical) else t.events[id])
  {
  }

  /** What a checkpoint does to the checkpoint rows: it adds or finalizes one, and never changes a hash. */
  lemma MarkBlockCheckpoints(t: Tables, scope: Scope, number: int, hash: string, head: int)
    ensures var (t1, r) := MarkBlock(t, scope, number, hash, head);
            && (forall c :: c in t.checkpoints ==>
                  && c in t1.checkpoints && t1.checkpoints[c].blockHash == t.checkpoints[c].blockHash
                  && (t.checkpoints[c].finalized ==> t1.checkpoints[c].finalized)
                  && (c != (scope.chainId, number) ==> t1.checkpoints[c] == t.checkpoints[c]))
            && (r.Returned? ==>
                  && (forall c :: c in t1.checkpoints <==> c in t.checkpoints || c == (scope.chainId, number))
                  && t1.checkpoints[(scope.chainId, number)].blockHash == hash
                  && (number <= head - scope.confirmations ==> t1.checkpoints[(scope.chainId, number)].finalized))
  {
    var t1 := RecordedCheckpoint(t, scope.chainId, number, hash, number <= head - scope.confirmations).0;
    assert head >= 0 ==> MarkBlock(t, scope, number, hash, head).0.checkpoints == t1.checkpoints;
  }

  /** What restoring does to the event rows. */
  lemma RestoreRowRows(t: Tables, scope: Scope, e: CanonicalEvent)
    ensures var (t1, r) := RestoreRow(t, scope, e);
            && t1.checkpoints == t.checkpoints && t1.rawLogs == t.rawLogs
            && (t1.events == t.events ||
                (t1.events == t.events[EventId(e.key) := EventRowOf(e, Canonical)] && EventId(e.key) !in t.events) ||
                (EventId(e.key) in t.events && SameContent(t.events[EventId(e.key)], e)
                 && t1.events == t.events[EventId(e.key) := t.events[EventId(e.key)].(status := Canonical)]))
  {
  }

  /** What ingesting does to the event rows. */
  lemma IngestRowRows(t: Tables, scope: Scope, e: CanonicalEvent, raw: RawChainLog, head: int)
    ensures var t1 := IngestRow(t, scope, e, raw, head).0;
            || t1.events == t.events
            || (EventId(e.key) !in t.events && InScope(e.key, scope)
                && t1.events == t.events[EventId(e.key) := EventRowOf(e, StatusAt(scope, e.blockNumber, head))])
  {
  }

  /** Every row of `t` is still there with the same content; only its status may differ. */
  ghost predicate KeepsRows(t: Tables, t1: Tables) {
    forall id :: id in t.events ==> id in t1.events && t1.events[id] == t.events[id].(status := t1.events[id].status)
  }

  function Add(n: nat, end: (Tables, Outcome<nat>)): (Tables, Outcome<nat>) {
    (end.0, if end.1.Raised? then end.1 else Returned(n + end.1.value))
  }

  /** Moves the count of one turn from what is still to come to what has been counted. */
  lemma CountedRows(whole: (Tables, Outcome<nat>), m: nat, before: (Tables, Outcome<nat>), n: nat,
                    after: (Tables, Outcome<nat>))
    requires whole == Add(m, before) && before == Add(n, after)
    ensures whole == Add(m + n, after)
  {
  }

  function Store(t: Tables, scope: Scope, head: int, xs: seq<Step>): (Tables, Outcome<nat>)
    decreases |xs|
  {
    if xs == [] then (t, Returned(0))
    else
      var (t1, r) := StoreStep(t, scope, head, xs[0]);
      if r.Raised? then (t1, r) else Add(r.value, Store(t1, scope, head, xs[1..]))
  }

  lemma StoreCons(t: Tables, scope: Scope, head: int, x: Step, xs: seq<Step>)
    ensures Store(t, scope, head, [x] + xs) ==
            var (t1, r) := StoreStep(t, scope, head, x);
            if r.Raised? then (t1, r) else Add(r.value, Store(t1, scope, head, xs))
  {
    assert ([x] + xs)[1..] == xs;
  }

  lemma StoreNothing(t: Tables, scope: Scope, head: int)
    ensures Store(t, scope, head, []) == (t, Returned(0))
  {
  }

  // ---------- a caller that also restores ----------

  /** A replaying caller restores a row that is uncertain; everything else goes the way of the durable scanner. */
  function TakeStep(t: Tables, scope: Scope, head: int, restoring: bool, x: Step): (Tables, Outcome<nat>) {
    if restoring && x.Project? && EventId(x.event.key) in t.events
        && t.events[EventId(x.event.key)].status == Uncertain then
      var (t1, r) := RestoreRow(t, scope, x.event);
      (t1, if r.Raised? then Raised(r.error) else Returned(1))
    else StoreStep(t, scope, head, x)
  }

  /** The steps of one scan: as the durable scanner takes them, or as the restoring caller does. */
  function Take(t: Tables, scope: Scope, head: int, restoring: bool, xs: seq<Step>): (Tables, Outcome<nat>)
    decreases |xs|
  {
    if xs == [] then (t, Returned(0))
    else
      var (t1, r) := TakeStep(t, scope, head, restoring, xs[0]);
      if r.Raised? then (t1, r) else Add(r.value, Take(t1, scope, head, restoring, xs[1..]))
  }

  lemma {:induction false} StoreIsTake(t: Tables, scope: Scope, head: int, xs: seq<Step>)
    ensures Store(t, scope, head, xs) == Take(t, scope, head, false, xs)
    decreases |xs|
  {
    if xs != [] {
      StoreIsTake(StoreStep(t, scope, head, xs[0]).0, scope, head, xs[1..]);
    }
  }
}
