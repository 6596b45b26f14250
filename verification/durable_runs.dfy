/** What the durable side keeps over whole histories, raising or not. */
module DurableRuns {
  import opened Wrappers
  import opened Text
  import opened Projector
  import opened Consumer
  import opened ScanLaws
  import opened EventIds
  import opened Repository
  import opened DurableSteps
  import opened Abi
  import Finality

  predicate AnchoredRow(t: Tables, chainId: int, row: EventRow) {
    (chainId, row.blockNumber) in t.checkpoints && t.checkpoints[(chainId, row.blockNumber)].blockHash == row.blockHash
  }

  /** Every visible row that is not withheld sits on the checkpoint of its block, with the same hash. */
  ghost predicate RowsAnchored(t: Tables, scope: Scope) {
    forall id :: id in t.events && Finality.Visible(t.events[id], scope) && t.events[id].status != Uncertain ==>
                   AnchoredRow(t, scope.chainId, t.events[id])
  }

  /** The checkpoints known to the steps so far are recorded. */
  ghost predicate Recorded(t: Tables, chainId: int, known: map<int, string>) {
    forall n :: n in known ==> (chainId, n) in t.checkpoints && t.checkpoints[(chainId, n)].blockHash == known[n]
  }

  /** Checkpoints are added and finalized, never changed. */
  ghost predicate KeepsCheckpoints(t: Tables, t1: Tables) {
    forall c :: c in t.checkpoints ==> c in t1.checkpoints && t1.checkpoints[c].blockHash == t.checkpoints[c].blockHash
  }

  /** Finalizing rows beside more checkpoints keeps them anchored. */
  lemma FinalizedRowsAnchored(t: Tables, t1: Tables, scope: Scope)
    requires RowsAnchored(t, scope) && KeepsCheckpoints(t, t1)
    requires forall id :: id in t1.events <==> id in t.events
    requires forall id :: id in t.events ==> OnlyFinalized(t.events[id], t1.events[id])
    ensures KeepsRows(t, t1) && RowsAnchored(t1, scope)
  {
  }

  lemma MarkKeeps(t: Tables, scope: Scope, number: int, hash: string, head: int, known: map<int, string>)
    requires RowsAnchored(t, scope) && Recorded(t, scope.chainId, known)
    ensures var (t1, r) := MarkBlock(t, scope, number, hash, head);
            && KeepsRows(t, t1) && RowsAnchored(t1, scope)
            && (r.Returned? ==> Recorded(t1, scope.chainId, known[number := hash]))
  {
    var t1 := MarkBlock(t, scope, number, hash, head).0;
    MarkBlockCheckpoints(t, scope, number, hash, head);
    MarkBlockRows(t, scope, number, hash, head);
    FinalizedRowsAnchored(t, t1, scope);
  }

  lemma IngestKeeps(t: Tables, scope: Scope, e: CanonicalEvent, raw: RawChainLog, head: int, known: map<int, string>)
    requires RowsAnchored(t, scope) && Recorded(t, scope.chainId, known)
    requires e.blockNumber in known && known[e.blockNumber] == e.blockHash
    ensures var t1 := IngestRow(t, scope, e, raw, head).0;
            KeepsRows(t, t1) && t1.checkpoints == t.checkpoints && RowsAnchored(t1, scope)
  {
    IngestRowRows(t, scope, e, raw, head);
  }

  lemma RestoreKeeps(t: Tables, scope: Scope, e: CanonicalEvent, known: map<int, string>)
    requires RowsAnchored(t, scope) && Recorded(t, scope.chainId, known)
    requires e.blockNumber in known && known[e.blockNumber] == e.blockHash
    ensures var t1 := RestoreRow(t, scope, e).0;
            KeepsRows(t, t1) && t1.checkpoints == t.checkpoints && RowsAnchored(t1, scope)
  {
    RestoreRowRows(t, scope, e);
  }

  lemma WithholdKeeps(t: Tables, scope: Scope, number: int)
    requires RowsAnchored(t, scope)
    ensures KeepsRows(t, WithholdRows(t, scope, number).0) && RowsAnchored(WithholdRows(t, scope, number).0, scope)
  {
  }

  function KnownAfter(known: map<int, string>, x: Step): map<int, string> {
    if x.Mark? then known[x.number := x.hash] else known
  }

  lemma StepKeeps(t: Tables, scope: Scope, head: int, restoring: bool, known: map<int, string>, xs: seq<Step>)
    requires xs != [] && Guarded(known, xs) && RowsAnchored(t, scope) && Recorded(t, scope.chainId, known)
    ensures var (t1, r) := TakeStep(t, scope, head, restoring, xs[0]);
            && KeepsRows(t, t1) && RowsAnchored(t1, scope)
            && (r.Returned? ==>
                  && Recorded(t1, scope.chainId, KnownAfter(known, xs[0]))
                  && Guarded(KnownAfter(known, xs[0]), xs[1..]))
  {
    match xs[0] {
      case Mark(number, hash) => MarkKeeps(t, scope, number, hash, head, known);
      case Project(e, raw) =>
        IngestKeeps(t, scope, e, raw, head, known);
        RestoreKeeps(t, scope, e, known);
      case Halt(_) =>
    }
  }

  /** A guarded run of steps, raising or not, keeps every row and keeps rows anchored. */
  lemma {:induction false} StepsKeep(t: Tables, scope: Scope, head: int, restoring: bool, known: map<int, string>,
                                     xs: seq<Step>)
    requires Guarded(known, xs) && RowsAnchored(t, scope) && Recorded(t, scope.chainId, known)
    ensures var t1 := Take(t, scope, head, restoring, xs).0; KeepsRows(t, t1) && RowsAnchored(t1, scope)
    decreases |xs|
  {
    if xs != [] {
      StepKeeps(t, scope, head, restoring, known, xs);
      var (t1, r) := TakeStep(t, scope, head, restoring, xs[0]);
      if r.Returned? {
        StepsKeep(t1, scope, head, restoring, KnownAfter(known, xs[0]), xs[1..]);
      }
    }
  }

  // ---------- histories ----------

  /** A scan of a chain up to `high`, as coded or restoring replayed rows, cut off after `cut` steps; or a rollback. */
  datatype Action =
    | Scan(chain: Chain, low: int, high: int, head: int, restoring: bool, cut: nat)
    | Rollback(number: int)

  function Cut(xs: seq<Step>, cut: nat): seq<Step> {
    if cut < |xs| then xs[..cut] else xs
  }

  function After(t: Tables, scope: Scope, address: string, a: Action): Tables {
    match a
    case Scan(chain, low, high, head, restoring, cut) =>
      Take(t, scope, head, restoring,
           Cut(ScanSteps(chain, low, high, address, DecoderFor(scope.chainId, address)), cut)).0
    case Rollback(number) => WithholdRows(t, scope, number).0
  }

  function Play(t: Tables, scope: Scope, address: string, acts: seq<Action>): Tables
    decreases |acts|
  {
    if acts == [] then t else Play(After(t, scope, address, acts[0]), scope, address, acts[1..])
  }

  lemma ActionKeeps(t: Tables, scope: Scope, address: string, a: Action)
    requires RowsAnchored(t, scope)
    ensures var t1 := After(t, scope, address, a); KeepsRows(t, t1) && RowsAnchored(t1, scope)
  {
    match a {
      case Scan(chain, low, high, head, restoring, cut) =>
        var decode := DecoderFor(scope.chainId, address);
        var xs := ScanSteps(chain, low, high, address, decode);
        DecoderFaithful(scope.chainId, address);
        ScanStepsGuarded(map[], chain, low, high, address, decode);
        if cut < |xs| {
          GuardedPrefix(map[], xs, cut);
        }
        StepsKeep(t, scope, head, restoring, map[], Cut(xs, cut));
      case Rollback(number) => WithholdKeeps(t, scope, number);
    }
  }

  lemma KeepsRowsTwice(t: Tables, t1: Tables, t2: Tables)
    requires KeepsRows(t, t1) && KeepsRows(t1, t2)
    ensures KeepsRows(t, t2)
  {
  }

  /** Over every history of durable scans (complete, cut off or raising; restoring or not) and rollbacks, with the
      approved decoder: no stored row is ever lost or altered but for its status, and every row in sight that is not
      withheld stays anchored to the checkpoint of its block. */
  lemma {:induction false} HistoryKeepsRows(t: Tables, scope: Scope, address: string, acts: seq<Action>)
    requires RowsAnchored(t, scope)
    ensures var t1 := Play(t, scope, address, acts); KeepsRows(t, t1) && RowsAnchored(t1, scope)
    decreases |acts|
  {
    if acts != [] {
      var t1 := After(t, scope, address, acts[0]);
      ActionKeeps(t, scope, address, acts[0]);
      HistoryKeepsRows(t1, scope, address, acts[1..]);
      KeepsRowsTwice(t, t1, Play(t1, scope, address, acts[1..]));
    }
  }
}
