/** The transaction-intent lifecycle: the transition table, the in-memory store, and its laws over runs. */
module Transactions {
  import opened Wrappers

  datatype Status = Requested | Signed | Submitted | Pending | Confirmed | Failed | Reverted | Replaced | Unknown

  const TERMINAL: set<Status> := {Confirmed, Failed, Reverted, Replaced}

  const NEEDS_HASH: set<Status> := {Submitted, Pending, Confirmed}

  /** `ALLOWED_TRANSITIONS`. */
  function NextOf(s: Status): set<Status> {
    match s
    case Requested => {Signed, Failed, Unknown}
    case Signed => {Submitted, Failed, Unknown}
    case Submitted => {Pending, Failed, Replaced, Unknown}
    case Pending => {Confirmed, Failed, Reverted, Replaced, Unknown}
    case Unknown => {Pending, Confirmed, Failed, Replaced}
    case _ => {}
  }

  datatype Record = Record(
    idempotencyKey: string, requestHash: string, chainId: int, contractAddress: string,
    status: Status, txHash: Option<string>)

  type Records = map<string, Record>

  /** Python's `or` on optional text. */
  function Or(first: Option<string>, second: Option<string>): Option<string> {
    if first.Some? && first.value != "" then first else second
  }

  predicate IsSet(hash: Option<string>) {
    hash.Some? && hash.value != ""
  }

  // ---------- the operations on values ----------

  function Created(records: Records, key: string, requestHash: string, chainId: int, contract: string)
    : (Records, Outcome<Record>)
  {
    if !(8 <= |key| <= 128) || requestHash == "" || contract == "" then (records, Raised(ValueError))
    else if key in records then
      (records, if records[key].requestHash != requestHash then Raised(TransactionConflict) else Returned(records[key]))
    else
      var record := Record(key, requestHash, chainId, contract, Requested, None);
      (records[key := record], Returned(record))
  }

  function Transitioned(records: Records, key: string, next: Status, txHash: Option<string>)
    : (Records, Outcome<Record>)
  {
    if key !in records then (records, Raised(KeyError))
    else
      var current := records[key];
      if next !in NextOf(current.status) then (records, Raised(InvalidTransition))
      else if next in NEEDS_HASH && !IsSet(Or(txHash, current.txHash)) then (records, Raised(ValueError))
      else
        var updated := current.(status := next, txHash := Or(txHash, current.txHash));
        (records[key := updated], Returned(updated))
  }

  class InMemoryTransactionStore {
    var records: Records

    constructor ()
      ensures records == map[]
    {
      records := map[];
    }

    method Create(key: string, requestHash: string, chainId: int, contract: string) returns (r: Outcome<Record>)
      modifies this
      ensures (records, r) == Created(old(records), key, requestHash, chainId, contract)
    {
      if !(8 <= |key| <= 128) {
        return Raised(ValueError);
      }
      if requestHash == "" || contract == "" {
        return Raised(ValueError);
      }
      if key in records {
        if records[key].requestHash != requestHash {
          return Raised(TransactionConflict);
        }
        return Returned(records[key]);
      }
      var record := Record(key, requestHash, chainId, contract, Requested, None);
      records := records[key := record];
      return Returned(record);
    }

    method Transition(key: string, next: Status, txHash: Option<string>) returns (r: Outcome<Record>)
      modifies this
      ensures (records, r) == Transitioned(old(records), key, next, txHash)
    {
      if key !in records {
        return Raised(KeyError);
      }
      var current := records[key];
      if next !in NextOf(current.status) {
        return Raised(InvalidTransition);
      }
      if next in NEEDS_HASH && !(IsSet(txHash) || IsSet(current.txHash)) {
        return Raised(ValueError);
      }
      var updated := current.(status := next, txHash := Or(txHash, current.txHash));
      records := records[key := updated];
      return Returned(updated);
    }

    method IsTerminal(key: string) returns (r: bool)
      ensures r <==> key in records && NextOf(records[key].status) == {}
    {
      r := key in records && records[key].status in TERMINAL;
      if key in records {
        TerminalExactly(records[key].status);
      }
    }
  }

  /** A status is terminal exactly when nothing may follow it. */
  lemma TerminalExactly(s: Status)
    ensures s in TERMINAL <==> NextOf(s) == {}
  {
    match s
    case Requested => assert Signed in NextOf(s);
    case Signed => assert Submitted in NextOf(s);
    case Submitted => assert Pending in NextOf(s);
    case Pending => assert Confirmed in NextOf(s);
    case Unknown => assert Pending in NextOf(s);
    case _ =>
  }

  // ---------- what the operations promise ----------

  /** Which moves are legal, by where they lead. */
  predicate Legal(a: Status, b: Status) {
    match b
    case Requested => false
    case Signed => a == Requested
    case Submitted => a == Signed
    case Pending => a == Submitted || a == Unknown
    case Confirmed => a == Pending || a == Unknown
    case Reverted => a == Pending
    case Replaced => a == Submitted || a == Pending || a == Unknown
    case Failed => a == Requested || a == Signed || a == Submitted || a == Pending || a == Unknown
    case Unknown => a == Requested || a == Signed || a == Submitted || a == Pending
  }

  /** A transition is accepted exactly when the move is legal and there is a hash from submission on; it then changes
      the status, and the hash to a given one that is not empty, and nothing else. */
  lemma TransitionedExactly(records: Records, key: string, next: Status, txHash: Option<string>)
    ensures var (records1, r) := Transitioned(records, key, next, txHash);
            && (key !in records ==> records1 == records && r == Raised(KeyError))
            && (key in records ==>
                  var a := records[key];
                  var given := txHash.Some? && |txHash.value| > 0;
                  var known := a.txHash.Some? && |a.txHash.value| > 0;
                  && (r.Returned? <==>
                      Legal(a.status, next)
                          && (next == Submitted || next == Pending || next == Confirmed ==> given || known))
                  && (r.Raised? ==> records1 == records)
                  && (r == Raised(InvalidTransition) <==> !Legal(a.status, next))
                  && (r.Raised? && Legal(a.status, next) ==> r == Raised(ValueError))
                  && (r.Returned? ==>
                        && records1.Keys == records.Keys
                             && (forall k :: k in records && k != key ==> records1[k] == records[k])
                        && r.value == records1[key]
                        && records1[key] == a.(status := next, txHash := if given then txHash else a.txHash)))
  {
    if key in records {
      LegalExactly(records[key].status, next);
    }
  }

  lemma LegalExactly(a: Status, b: Status)
    ensures Legal(a, b) <==> b in NextOf(a)
  {
    match a
    case Requested =>
    case Signed =>
    case Submitted =>
    case Pending =>
    case Unknown =>
    case _ =>
  }

  /** Creation refuses short, long and empty arguments; a known key keeps its record, which is returned for the same
      request and is a conflict for another; a new key gets one record, as requested and without a hash. */
  lemma CreatedExactly(records: Records, key: string, requestHash: string, chainId: int, contract: string)
    ensures var (records1, r) := Created(records, key, requestHash, chainId, contract);
            var fit := 8 <= |key| <= 128 && |requestHash| > 0 && |contract| > 0;
            && (!fit ==> records1 == records && r == Raised(ValueError))
            && (fit && key in records ==>
                  && records1 == records
                  && (requestHash == records[key].requestHash ==> r == Returned(records[key]))
                  && (requestHash != records[key].requestHash ==> r == Raised(TransactionConflict)))
            && (fit && key !in records ==>
                  && records1.Keys == records.Keys + {key} && (forall k :: k in records ==> records1[k] == records[k])
                  && r == Returned(records1[key])
                  && records1[key] == Record(key, requestHash, chainId, contract, Requested, None))
  {
  }

  // ---------- the shape of a lifecycle ----------

  function Stage(s: Status): nat {
    match s
    case Requested => 0
    case Signed => 1
    case Submitted => 2
    case Pending => 3
    case Unknown => 3
    case _ => 4
  }

  predicate IsSwap(a: Status, b: Status) {
    (a == Pending && b == Unknown) || (a == Unknown && b == Pending)
  }

  /** Each transition raises the stage or swaps pending and unknown. */
  lemma TransitionRaisesStage(a: Status, b: Status)
    requires b in NextOf(a)
    ensures Stage(b) > Stage(a) || IsSwap(a, b)
  {
  }

  datatype Call =
    | CreateCall(key: string, requestHash: string, chainId: int, contract: string)
    | TransitionCall(key: string, next: Status, txHash: Option<string>)

  function Perform(records: Records, c: Call): Records {
    match c
    case CreateCall(key, requestHash, chainId, contract) => Created(records, key, requestHash, chainId, contract).0
    case TransitionCall(key, next, txHash) => Transitioned(records, key, next, txHash).0
  }

  function Play(records: Records, calls: seq<Call>): Records
    decreases |calls|
  {
    if calls == [] then records else Play(Perform(records, calls[0]), calls[1..])
  }

  /** How many calls of the run move the record of `key` other than by a swap. */
  function Moves(records: Records, calls: seq<Call>, key: string): nat
    decreases |calls|
  {
    if calls == [] then 0
    else
      var after := Perform(records, calls[0]);
      (if key in records && key in after && after[key].status != records[key].status
          && !IsSwap(records[key].status, after[key].status) then 1 else 0)
      + Moves(after, calls[1..], key)
  }

  ghost predicate Hashed(records: Records) {
    forall k :: k in records ==>
                  && (records[k].txHash.Some? ==> records[k].txHash.value != "")
                  && (records[k].status in {Submitted, Pending, Confirmed, Reverted} ==> IsSet(records[k].txHash))
  }

  lemma CallKeepsRecord(records: Records, c: Call, key: string)
    requires key in records
    ensures var after := Perform(records, c);
            && key in after
            && (after[key] == records[key] || after[key].status in NextOf(records[key].status))
            && after[key].requestHash == records[key].requestHash
            && after[key].idempotencyKey == records[key].idempotencyKey
            && (IsSet(records[key].txHash) ==> IsSet(after[key].txHash))
  {
  }

  /** Over any run, accepted calls or not: a record stays, its request never changes, a hash once set is never lost, a
      terminal record never changes at all, and the moves of a record are bounded by the stages it climbs, so there are
      at most four. */
  lemma {:induction false} LifecycleShape(records: Records, calls: seq<Call>, key: string)
    requires key in records
    ensures var last := Play(records, calls);
            && key in last && last[key].requestHash == records[key].requestHash
            && (IsSet(records[key].txHash) ==> IsSet(last[key].txHash))
            && (records[key].status in TERMINAL ==> last[key] == records[key])
            && Stage(records[key].status) + Moves(records, calls, key) <= Stage(last[key].status) <= 4
    decreases |calls|
  {
    if calls != [] {
      var after := Perform(records, calls[0]);
      CallKeepsRecord(records, calls[0], key);
      if after[key] != records[key] {
        TransitionRaisesStage(records[key].status, after[key].status);
      }
      LifecycleShape(after, calls[1..], key);
    }
  }

  /** Submitted, pending, confirmed and reverted records always carry a hash. */
  lemma {:induction false} HashesStay(records: Records, calls: seq<Call>)
    requires Hashed(records)
    ensures Hashed(Play(records, calls))
    decreases |calls|
  {
    if calls != [] {
      HashesStay(Perform(records, calls[0]), calls[1..]);
    }
  }
}
