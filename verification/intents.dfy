/** Durable transaction intents: sequential creation and transition, and concurrent idempotent creation. */
module Intents {
  import opened Wrappers
  import opened Text
  import opened Transactions

  datatype Row = Row(
    id: string, subject: string, key: string, fingerprint: string, status: Status, txHash: Option<string>)

  /** The table by primary key. */
  type Rows = map<string, Row>

  /** The unique constraint on subject and idempotency key. */
  ghost predicate PairsUnique(rows: Rows) {
    && (forall id :: id in rows ==> rows[id].id == id)
    && (forall i, j :: i in rows && j in rows && rows[i].subject == rows[j].subject && rows[i].key == rows[j].key ==>
        i == j)
  }

  ghost predicate HasPair(rows: Rows, subject: string, key: string) {
    exists id :: id in rows && rows[id].subject == subject && rows[id].key == key
  }

  ghost function Lookup(rows: Rows, subject: string, key: string): (r: Option<Row>)
    ensures r.Some? <==> HasPair(rows, subject, key)
    ensures r.Some? ==>
              r.value.subject == subject && r.value.key == key && exists id :: id in rows && rows[id] == r.value
  {
    if HasPair(rows, subject, key) then
      var id :| id in rows && rows[id].subject == subject && rows[id].key == key;
      Some(rows[id])
    else None
  }

  lemma LookupUnique(rows: Rows, id: string)
    requires PairsUnique(rows) && id in rows
    ensures Lookup(rows, rows[id].subject, rows[id].key) == Some(rows[id])
  {
  }

  // ---------- sequential use ----------

  /** The creation itself, once the arguments have been checked and when nobody interferes. A pair that is free but
      whose id is taken makes the insert fail, and the second lookup finds nothing. */
  ghost function PlacedIntent(rows: Rows, id: string, subject: string, key: string, fingerprint: string,
                              status: Status, txHash: Option<string>): (Rows, Outcome<Row>)
  {
    if Lookup(rows, subject, key).Some? then
      var row := Lookup(rows, subject, key).value;
      (rows, if row.fingerprint != fingerprint then Raised(TransactionConflict) else Returned(row))
    else if status in NEEDS_HASH && !IsSet(txHash) then (rows, Raised(ValueError))
    else if id in rows then (rows, Raised(IntegrityError))
    else
      var row := Row(id, subject, key, fingerprint, status, txHash);
      (rows[id := row], Returned(row))
  }

  predicate Fitting(id: string, subject: string, key: string, fingerprint: string, txHash: Option<string>) {
    && IsText(id, 64) && IsText(subject, 128) && IsText(key, 128) && IsText(fingerprint, 64)
    && (txHash.Some? ==> IsText(txHash.value, 66))
  }

  /** `create_or_get_transaction_intent` when nobody interferes. */
  ghost function CreatedIntent(rows: Rows, id: string, subject: string, key: string, fingerprint: string,
                               status: Status, txHash: Option<string>): (Rows, Outcome<Row>)
  {
    if !Fitting(id, subject, key, fingerprint, txHash) then (rows, Raised(ValueError))
    else PlacedIntent(rows, id, subject, key, fingerprint, status, txHash)
  }

  ghost predicate TakenBy(rows: Rows, id: string, subject: string, key: string) {
    id in rows && rows[id].subject == subject && rows[id].key == key
  }

  /** What creation promises. Unfit arguments are refused. For a pair that a row has, nothing changes, and the row is
      returned when it has the given fingerprint; any other fingerprint is a conflict. For a free pair, one row with
      exactly the given fields is added under the given id, unless the status wants a hash and there is none, or the id
      is taken. */
  ghost predicate CreationExact(rows: Rows, rows1: Rows, r: Outcome<Row>, id: string, subject: string, key: string,
                                fingerprint: string, status: Status, txHash: Option<string>) {
    && (!Fitting(id, subject, key, fingerprint, txHash) ==> rows1 == rows && r == Raised(ValueError))
    && (Fitting(id, subject, key, fingerprint, txHash) ==>
          forall k :: TakenBy(rows, k, subject, key) ==>
            && rows1 == rows
            && (fingerprint == rows[k].fingerprint ==> r == Returned(rows[k]))
            && (fingerprint != rows[k].fingerprint ==> r == Raised(TransactionConflict)))
    && (Fitting(id, subject, key, fingerprint, txHash) && (forall k :: !TakenBy(rows, k, subject, key)) ==>
          if status in {Submitted, Pending, Confirmed} && (txHash == None || txHash == Some("")) then
            rows1 == rows && r == Raised(ValueError)
          else if id in rows then rows1 == rows && r == Raised(IntegrityError)
          else
            && rows1.Keys == rows.Keys + {id} && (forall k :: k in rows ==> rows1[k] == rows[k])
            && r == Returned(rows1[id]) && rows1[id].id == id && rows1[id].subject == subject && rows1[id].key == key
            && rows1[id].fingerprint == fingerprint && rows1[id].status == status && rows1[id].txHash == txHash)
  }

  lemma CreatedIntentIsExact(rows: Rows, id: string, subject: string, key: string, fingerprint: string,
                             status: Status, txHash: Option<string>)
    requires PairsUnique(rows)
    ensures var (rows1, r) := CreatedIntent(rows, id, subject, key, fingerprint, status, txHash);
            CreationExact(rows, rows1, r, id, subject, key, fingerprint, status, txHash)
  {
    if k :| TakenBy(rows, k, subject, key) {
      LookupUnique(rows, k);
      OnlyTakenBy(rows, k, subject, key);
    } else {
      NotTaken(rows, subject, key);
    }
  }

  lemma OnlyTakenBy(rows: Rows, id: string, subject: string, key: string)
    requires PairsUnique(rows) && TakenBy(rows, id, subject, key)
    ensures forall k :: TakenBy(rows, k, subject, key) <==> k == id
  {
  }

  lemma NotTaken(rows: Rows, subject: string, key: string)
    requires forall k :: !TakenBy(rows, k, subject, key)
    ensures Lookup(rows, subject, key).None?
  {
    if HasPair(rows, subject, key) {
      var id :| id in rows && rows[id].subject == subject && rows[id].key == key;
      assert TakenBy(rows, id, subject, key);
    }
  }

  predicate IsTransactionHash(s: string) {
    |s| == 66 && HasPrefix0x(s) && IsHex(s[2..])
  }

  /** `transition_transaction_intent`. */
  ghost function TransitionedIntent(rows: Rows, subject: string, key: string, next: Status, txHash: Option<string>)
    : (Rows, Outcome<Row>)
  {
    if !IsText(subject, 128) || !IsText(key, 128) then (rows, Raised(ValueError))
    else if Lookup(rows, subject, key).None? then (rows, Raised(KeyError))
    else
      var row := Lookup(rows, subject, key).value;
      if next !in NextOf(row.status) then (rows, Raised(InvalidTransition))
      else if txHash.Some? && !IsTransactionHash(txHash.value) then (rows, Raised(ValueError))
      else if next in NEEDS_HASH && !IsSet(Or(txHash, row.txHash)) then (rows, Raised(ValueError))
      else
        var updated := row.(status := next, txHash := Or(txHash, row.txHash));
        (rows[row.id := updated], Returned(updated))
  }

  class IntentSession {
    var rows: Rows

    ghost predicate Valid()
      reads this
    {
      PairsUnique(rows)
    }

    constructor ()
      ensures Valid() && rows == map[]
    {
      rows := map[];
    }

    method Select(subject: string, key: string) returns (r: Option<Row>)
      requires Valid()
      ensures r == Lookup(rows, subject, key)
    {
      var todo := rows.Keys;
      while todo != {}
        invariant todo <= rows.Keys
        invariant forall id :: id in rows && id !in todo ==> !(rows[id].subject == subject && rows[id].key == key)
      {
        var id :| id in todo;
        if rows[id].subject == subject && rows[id].key == key {
          LookupUnique(rows, id);
          return Some(rows[id]);
        }
        todo := todo - {id};
      }
      return None;
    }

    method CreateOrGet(id: string, subject: string, key: string, fingerprint: string,
                       status: Status, txHash: Option<string>) returns (r: Outcome<Row>)
      requires Valid()
      modifies this
      ensures Valid()
      ensures (rows, r) == CreatedIntent(old(rows), id, subject, key, fingerprint, status, txHash)
      ensures CreationExact(old(rows), rows, r, id, subject, key, fingerprint, status, txHash)
    {
      CreatedIntentIsExact(rows, id, subject, key, fingerprint, status, txHash);
      if !IsText(id, 64) || !IsText(subject, 128) || !IsText(key, 128) || !IsText(fingerprint, 64) {
        return Raised(ValueError);
      }
      if txHash.Some? && !IsText(txHash.value, 66) {
        return Raised(ValueError);
      }
      var existing := Select(subject, key);
      if existing.Some? {
        if existing.value.fingerprint != fingerprint {
          return Raised(TransactionConflict);
        }
        return Returned(existing.value);
      }
      if status in NEEDS_HASH && !IsSet(txHash) {
        return Raised(ValueError);
      }
      if id in rows {
        return Raised(IntegrityError);
      }
      var row := Row(id, subject, key, fingerprint, status, txHash);
      rows := rows[id := row];
      return Returned(row);
    }

    method Transition(subject: string, key: string, next: Status, txHash: Option<string>) returns (r: Outcome<Row>)
      requires Valid()
      modifies this
      ensures Valid()
      ensures (rows, r) == TransitionedIntent(old(rows), subject, key, next, txHash)
    {
      if !IsText(subject, 128) || !IsText(key, 128) {
        return Raised(ValueError);
      }
      var existing := Select(subject, key);
      if existing.None? {
        return Raised(KeyError);
      }
      var row := existing.value;
      if next !in NextOf(row.status) {
        return Raised(InvalidTransition);
      }
      if txHash.Some? && !IsTransactionHash(txHash.value) {
        return Raised(ValueError);
      }
      if next in NEEDS_HASH && !(IsSet(txHash) || IsSet(row.txHash)) {
        return Raised(ValueError);
      }
      row := row.(status := next, txHash := Or(txHash, row.txHash));
      rows := rows[row.id := row];
      return Returned(row);
    }
  }

  // ---------- agreement of the two lifecycles ----------

  /** A record and a row in the same state. */
  predicate SameStanding(record: Record, row: Row) {
    record.status == row.status && record.txHash == row.txHash
  }

  /** The durable transition accepts and rejects as the in-memory one does, with the same outcome, exactly unless a
      legal move is offered a malformed hash: that raises in the tables and not in memory. */
  lemma TransitionsAgreeExactlyWhen(records: Records, rows: Rows, subject: string, key: string,
                                    next: Status, txHash: Option<string>)
    requires PairsUnique(rows) && IsText(subject, 128) && IsText(key, 128)
    requires key in records && Lookup(rows, subject, key).Some?
    requires SameStanding(records[key], Lookup(rows, subject, key).value)
    ensures var m := Transitioned(records, key, next, txHash).1;
            var d := TransitionedIntent(rows, subject, key, next, txHash).1;
            (if m.Raised? then d.Raised? && d.error == m.error else d.Returned? && SameStanding(m.value, d.value)) <==>
            !(m.Returned? && txHash.Some? && !IsTransactionHash(txHash.value))
  {
  }

  predicate OnlyMoved(row: Row, row1: Row) {
    row1 == row.(status := row1.status, txHash := row1.txHash)
  }

  /** A durable transition, legal or not, leaves every row in place and changes at most status and hash. */
  lemma TransitionMovesRows(rows: Rows, subject: string, key: string, next: Status, txHash: Option<string>)
    requires forall id :: id in rows ==> rows[id].id == id
    ensures var rows1 := TransitionedIntent(rows, subject, key, next, txHash).0;
            rows1.Keys == rows.Keys && forall id :: id in rows ==> OnlyMoved(rows[id], rows1[id])
  {
    var (rows1, r) := TransitionedIntent(rows, subject, key, next, txHash);
    if r.Returned? {
      var row := Lookup(rows, subject, key).value;
      assert rows[row.id] == row && rows1 == rows[row.id := r.value];
    }
  }

  /** A legal durable transition rewrites the row of the pair and nothing else. */
  lemma TransitionWrites(rows: Rows, subject: string, key: string, next: Status, txHash: Option<string>)
    requires PairsUnique(rows) && Lookup(rows, subject, key).Some?
    ensures var (rows1, r) := TransitionedIntent(rows, subject, key, next, txHash);
            && PairsUnique(rows1)
            && Lookup(rows1, subject, key) == if r.Returned? then Some(r.value) else Lookup(rows, subject, key)
  {
    var (rows1, r) := TransitionedIntent(rows, subject, key, next, txHash);
    var row := Lookup(rows, subject, key).value;
    if r.Returned? {
      assert rows1 == rows[row.id := r.value] && rows[row.id] == row;
      assert PairsUnique(rows1);
      LookupUnique(rows1, row.id);
    }
  }

  /** A requested transition: the next status and the hash that comes with it. */
  datatype Wish = Wish(next: Status, txHash: Option<string>)

  function PlayedInMemory(records: Records, key: string, wishes: seq<Wish>): Records
    decreases |wishes|
  {
    if wishes == [] then records
    else PlayedInMemory(Transitioned(records, key, wishes[0].next, wishes[0].txHash).0, key, wishes[1..])
  }

  ghost function PlayedDurably(rows: Rows, subject: string, key: string, wishes: seq<Wish>): Rows
    decreases |wishes|
  {
    if wishes == [] then rows
    else PlayedDurably(TransitionedIntent(rows, subject, key, wishes[0].next, wishes[0].txHash).0, subject, key,
                       wishes[1..])
  }

  /** Over whole runs, legal or not, with well-formed hashes: the record and the row stay in the same state. */
  lemma {:induction false} LifecyclesAgree(records: Records, rows: Rows, subject: string, key: string,
                                           wishes: seq<Wish>)
    requires PairsUnique(rows) && IsText(subject, 128) && IsText(key, 128)
    requires key in records && Lookup(rows, subject, key).Some?
    requires SameStanding(records[key], Lookup(rows, subject, key).value)
    requires forall w :: w in wishes && w.txHash.Some? ==> IsTransactionHash(w.txHash.value)
    ensures var records1, rows1 := PlayedInMemory(records, key, wishes), PlayedDurably(rows, subject, key, wishes);
            && key in records1 && Lookup(rows1, subject, key).Some?
            && SameStanding(records1[key], Lookup(rows1, subject, key).value)
    decreases |wishes|
  {
    if wishes != [] {
      var w := wishes[0];
      assert w in wishes;
      TransitionsAgreeExactlyWhen(records, rows, subject, key, w.next, w.txHash);
      TransitionWrites(rows, subject, key, w.next, w.txHash);
      LifecyclesAgree(Transitioned(records, key, w.next, w.txHash).0,
                      TransitionedIntent(rows, subject, key, w.next, w.txHash).0, subject, key, wishes[1..]);
    }
  }

  /** Durable rows that were created as requested keep the hash promise of the lifecycle. */
  predicate RowHashed(row: Row) {
    && (row.txHash.Some? ==> row.txHash.value != "")
    && (row.status in {Submitted, Pending, Confirmed, Reverted} ==> IsSet(row.txHash))
  }

  lemma TransitionKeepsRowHashed(rows: Rows, subject: string, key: string, next: Status, txHash: Option<string>)
    requires PairsUnique(rows) && forall id :: id in rows ==> RowHashed(rows[id])
    ensures forall id :: id in TransitionedIntent(rows, subject, key, next, txHash).0 ==>
                           RowHashed(TransitionedIntent(rows, subject, key, next, txHash).0[id])
  {
  }

  /** Creation gives a row without its hash exactly when it is asked for a reverted row and given none. */
  lemma CreationLacksHashExactlyWhen(rows: Rows, id: string, subject: string, key: string, fingerprint: string,
                                     status: Status, txHash: Option<string>)
    requires Lookup(rows, subject, key).None?
    requires CreatedIntent(rows, id, subject, key, fingerprint, status, txHash).1.Returned?
    ensures !RowHashed(CreatedIntent(rows, id, subject, key, fingerprint, status, txHash).1.value) <==>
            status == Reverted && txHash.None?
  {
  }
}
