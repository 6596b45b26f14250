/** What a successful durable scan leaves in the tables, row by row and field by field. */
module StoredRows {
  import opened Wrappers
  import opened Text
  import opened Projector
  import opened Consumer
  import opened EventIds
  import opened Repository
  import opened DurableSteps

  /** The value that a dictionary made of the pairs has under a name: that of the last pair with the name. */
  lemma {:induction false} DictionaryExactly(pairs: seq<(string, string)>, i: nat)
    requires i < |pairs| && forall j :: i < j < |pairs| ==> pairs[j].0 != pairs[i].0
    ensures pairs[i].0 in Dictionary(pairs) && Dictionary(pairs)[pairs[i].0] == pairs[i].1
    ensures forall name :: name in Dictionary(pairs) ==> exists j :: 0 <= j < |pairs| && pairs[j].0 == name
  {
    DictionaryNames(pairs);
    var front := pairs[..|pairs| - 1];
    if i < |front| {
      DictionaryExactly(front, i);
    }
  }

  lemma {:induction false} DictionaryNames(pairs: seq<(string, string)>)
    ensures forall name :: name in Dictionary(pairs) ==> exists j :: 0 <= j < |pairs| && pairs[j].0 == name
  {
    if pairs != [] {
      var front := pairs[..|pairs| - 1];
      DictionaryNames(front);
      forall name | name in Dictionary(pairs) ensures exists j :: 0 <= j < |pairs| && pairs[j].0 == name {
        if name in Dictionary(front) {
          var j :| 0 <= j < |front| && front[j].0 == name;
          assert pairs[j].0 == name;
        } else {
          assert pairs[|pairs| - 1].0 == name;
        }
      }
    }
  }

  /** The id under which an event is stored, as text. */
  predicate IsIdOf(id: string, chainId: int, contract: string, hash: string, logIndex: int, version: int) {
    id == Str(chainId) + ":" + Lower(contract) + ":" + Lower(hash) + ":" + Str(logIndex) + ":" + Str(version)
  }

  lemma EventIdIs(k: EventKey)
    ensures IsIdOf(EventId(k), k.chainId, k.contractAddress, k.transactionHash, k.logIndex, k.eventVersion)
  {
    var a, b, c, d := Lower(k.contractAddress), Lower(k.transactionHash), Str(k.logIndex), Str(k.eventVersion);
    assert a + ":" + b + ":" + (c + ":" + d) == a + ":" + b + ":" + c + ":" + d;
  }

  /** What an accepted event must have been like, and what it leaves: the raw log as received, with lower-case address,
      hash and data, and a row with the event's content. */
  lemma IngestRowExactly(t: Tables, scope: Scope, e: CanonicalEvent, raw: RawChainLog, head: int)
    requires IngestRow(t, scope, e, raw, head).1.Returned?
    ensures head >= 0 && e.key.chainId == scope.chainId >= 1 && Lower(e.key.contractAddress) == scope.contract
    ensures e.key.logIndex >= 0 && e.key.eventVersion >= 1
    ensures 1 <= |e.key.contractAddress| <= 42 && 1 <= |e.key.transactionHash| <= 66
    ensures raw.blockNumber == e.blockNumber && raw.blockHash == e.blockHash && raw.logIndex == e.key.logIndex
    ensures Lower(raw.transactionHash) == Lower(e.key.transactionHash)
            && Lower(raw.address) == Lower(e.key.contractAddress)
    ensures var t1, id := IngestRow(t, scope, e, raw, head).0, EventId(e.key);
            && id in t1.rawLogs
            && t1.rawLogs[id] == RawRow(e.key.chainId, Lower(e.key.contractAddress), Lower(e.key.transactionHash),
                                        e.key.logIndex, e.blockNumber, e.blockHash, raw.topics, Lower(raw.data))
            && id in t1.events && t1.events[id].blockNumber == e.blockNumber && t1.events[id].blockHash == e.blockHash
            && t1.events[id].name == e.name && t1.events[id].payload == Dictionary(e.payload)
            && (id !in t.events ==>
                  && t1.events[id].key == e.key
                  && t1.events[id].status == if e.blockNumber <= head - scope.confirmations then Canonical
                       else Unfinalized)
            && (id in t.events ==> t1.events[id] == t.events[id])
            && (forall k :: k != id ==> (k in t1.events <==> k in t.events) && (k in t1.rawLogs <==> k in t.rawLogs))
            && (forall k :: k != id && k in t.events ==> t1.events[k] == t.events[k])
            && (forall k :: k != id && k in t.rawLogs ==> t1.rawLogs[k] == t.rawLogs[k])
  {
  }

  /** What a step has left in the tables, for good. */
  predicate Left(t: Tables, scope: Scope, head: int, x: Step) {
    match x
    case Mark(number, hash) =>
      && (scope.chainId, number) in t.checkpoints && t.checkpoints[(scope.chainId, number)].blockHash == hash
      && (number <= head - scope.confirmations ==> t.checkpoints[(scope.chainId, number)].finalized)
    case Project(e, raw) =>
      var id := EventId(e.key);
      && id in t.events && t.events[id].blockNumber == e.blockNumber && t.events[id].blockHash == e.blockHash
      && t.events[id].name == e.name && t.events[id].payload == Dictionary(e.payload)
      && id in t.rawLogs
      && t.rawLogs[id] == RawRow(e.key.chainId, Lower(e.key.contractAddress), Lower(e.key.transactionHash),
                                 e.key.logIndex, e.blockNumber, e.blockHash, raw.topics, Lower(raw.data))
    case Halt(_) => false
  }

  /** No row or checkpoint is lost or altered, but for statuses and for checkpoints that become finalized. */
  ghost predicate Grows(t: Tables, t1: Tables) {
    && KeepsRows(t, t1)
    && (forall id :: id in t.rawLogs ==> id in t1.rawLogs && t1.rawLogs[id] == t.rawLogs[id])
    && (forall c :: c in t.checkpoints ==>
        c in t1.checkpoints && t1.checkpoints[c].blockHash == t.checkpoints[c].blockHash
                                           && (t.checkpoints[c].finalized ==> t1.checkpoints[c].finalized))
  }

  lemma MarkGrows(t: Tables, scope: Scope, number: int, hash: string, head: int)
    ensures Grows(t, MarkBlock(t, scope, number, hash, head).0)
  {
    MarkBlockRows(t, scope, number, hash, head);
    MarkBlockCheckpoints(t, scope, number, hash, head);
  }

  lemma MarkLeaves(t: Tables, scope: Scope, number: int, hash: string, head: int)
    requires MarkBlock(t, scope, number, hash, head).1.Returned?
    ensures Left(MarkBlock(t, scope, number, hash, head).0, scope, head, Mark(number, hash))
  {
    MarkBlockCheckpoints(t, scope, number, hash, head);
  }

  lemma IngestGrows(t: Tables, scope: Scope, e: CanonicalEvent, raw: RawChainLog, head: int)
    ensures Grows(t, IngestRow(t, scope, e, raw, head).0)
  {
    IngestRowRows(t, scope, e, raw, head);
    IngestRowLogs(t, scope, e, raw, head);
  }

  lemma IngestRowLogs(t: Tables, scope: Scope, e: CanonicalEvent, raw: RawChainLog, head: int)
    ensures var t1 := IngestRow(t, scope, e, raw, head).0;
            && t1.checkpoints == t.checkpoints
            && forall id :: id in t.rawLogs ==> id in t1.rawLogs && t1.rawLogs[id] == t.rawLogs[id]
  {
  }

  lemma StepGrows(t: Tables, scope: Scope, head: int, x: Step)
    ensures Grows(t, StoreStep(t, scope, head, x).0)
    ensures StoreStep(t, scope, head, x).1.Returned? ==> Left(StoreStep(t, scope, head, x).0, scope, head, x)
  {
    match x {
      case Mark(number, hash) =>
        MarkGrows(t, scope, number, hash, head);
        if MarkBlock(t, scope, number, hash, head).1.Returned? {
          MarkLeaves(t, scope, number, hash, head);
        }
      case Project(e, raw) =>
        IngestGrows(t, scope, e, raw, head);
        if IngestRow(t, scope, e, raw, head).1.Returned? {
          IngestRowExactly(t, scope, e, raw, head);
        }
      case Halt(_) =>
    }
  }

  lemma LeftStays(t: Tables, t1: Tables, scope: Scope, head: int, x: Step)
    requires Left(t, scope, head, x) && Grows(t, t1)
    ensures Left(t1, scope, head, x)
  {
  }

  lemma GrowsTwice(t: Tables, t1: Tables, t2: Tables)
    requires Grows(t, t1) && Grows(t1, t2)
    ensures Grows(t, t2)
  {
  }

  /** After a durable scan the tables have grown; after a successful one every step has left its rows. */
  lemma {:induction false} StoreLeaves(t: Tables, scope: Scope, head: int, xs: seq<Step>)
    ensures Grows(t, Store(t, scope, head, xs).0)
    ensures Store(t, scope, head, xs).1.Returned? ==>
              forall x :: x in xs ==> Left(Store(t, scope, head, xs).0, scope, head, x)
    decreases |xs|
  {
    if xs != [] {
      var (t1, r) := StoreStep(t, scope, head, xs[0]);
      StepGrows(t, scope, head, xs[0]);
      if r.Returned? {
        StoreLeaves(t1, scope, head, xs[1..]);
        GrowsTwice(t, t1, Store(t1, scope, head, xs[1..]).0);
        LeftStays(t1, Store(t1, scope, head, xs[1..]).0, scope, head, xs[0]);
      }
    }
  }

  /** Rows come from nowhere else: a new row has the id of an event that the scan stored. */
  lemma {:induction false} StoreInventsNothing(t: Tables, scope: Scope, head: int, xs: seq<Step>, id: string)
    requires id in Store(t, scope, head, xs).0.events && id !in t.events
    ensures exists x :: x in xs && x.Project? && EventId(x.event.key) == id
    decreases |xs|
  {
    if xs != [] {
      var (t1, r) := StoreStep(t, scope, head, xs[0]);
      match xs[0] {
        case Mark(number, hash) => MarkBlockRows(t, scope, number, hash, head);
        case Project(e, raw) => IngestRowRows(t, scope, e, raw, head);
        case Halt(_) =>
      }
      if id in t1.events {
        assert xs[0].Project? && EventId(xs[0].event.key) == id;
      } else {
        StoreInventsNothing(t1, scope, head, xs[1..], id);
        var x :| x in xs[1..] && x.Project? && EventId(x.event.key) == id;
        assert x in xs;
      }
    }
  }

  function Projections(xs: seq<Step>): nat {
    if xs == [] then 0 else (if xs[0].Project? then 1 else 0) + Projections(xs[1..])
  }

  lemma {:induction false} ProjectionsOfTwo(xs: seq<Step>, ys: seq<Step>)
    ensures Projections(xs + ys) == Projections(xs) + Projections(ys)
  {
    if xs == [] {
      assert xs + ys == ys;
    } else {
      ProjectionsOfTwo(xs[1..], ys);
      assert (xs + ys)[1..] == xs[1..] + ys;
    }
  }

  /** The durable scanner counts every event it stores, new or not. */
  lemma {:induction false} StoreCounts(t: Tables, scope: Scope, head: int, xs: seq<Step>)
    requires Store(t, scope, head, xs).1.Returned?
    ensures Store(t, scope, head, xs).1.value == Projections(xs) && forall x :: x in xs ==> !x.Halt?
    decreases |xs|
  {
    if xs != [] {
      StoreCounts(StoreStep(t, scope, head, xs[0]).0, scope, head, xs[1..]);
    }
  }
}
