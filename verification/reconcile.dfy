/** The reconciliation diff between canonical reads and projected values, and its recording. */
module Reconcile {
  import opened Wrappers
  import opened Text

  datatype Kind = MissingProjection | UnexpectedProjection | ValueMismatch

  datatype Drift = Drift(key: string, kind: Kind, canonicalValue: Option<string>, projectedValue: Option<string>)

  // ---------- the order of Python strings ----------

  predicate Before(a: string, b: string) {
    b != "" && (a == "" || a[0] < b[0] || (a[0] == b[0] && Before(a[1..], b[1..])))
  }

  lemma {:induction false} BeforeIsTotal(a: string, b: string)
    ensures a == b || Before(a, b) || Before(b, a)
  {
    if a != "" && b != "" && a[0] == b[0] {
      BeforeIsTotal(a[1..], b[1..]);
      assert a == [a[0]] + a[1..] && b == [b[0]] + b[1..];
    }
  }

  lemma {:induction false} BeforeIsTransitive(a: string, b: string, c: string)
    requires Before(a, b) && Before(b, c)
    ensures Before(a, c)
  {
    if a != "" && a[0] == b[0] && b[0] == c[0] {
      BeforeIsTransitive(a[1..], b[1..], c[1..]);
    }
  }

  lemma {:induction false} BeforeIsStrict(a: string)
    ensures !Before(a, a)
  {
    if a != "" { BeforeIsStrict(a[1..]); }
  }

  ghost predicate Increasing(keys: seq<string>) {
    forall i, j :: 0 <= i < j < |keys| ==> Before(keys[i], keys[j])
  }

  method LeastOf(keys: set<string>) returns (least: string)
    requires keys != {}
    ensures least in keys
    ensures forall k :: k in keys && k != least ==> Before(least, k)
  {
    least :| least in keys;
    var todo := keys - {least};
    while todo != {}
      invariant least in keys && todo <= keys && least !in todo
      invariant forall k :: k in keys && k !in todo && k != least ==> Before(least, k)
    {
      var k :| k in todo;
      BeforeIsTotal(k, least);
      if Before(k, least) {
        forall m | m in keys && m !in todo && m != least ensures Before(k, m) {
          BeforeIsTransitive(k, least, m);
        }
        least := k;
      }
      todo := todo - {k};
    }
  }

  method SortKeys(keys: set<string>) returns (sorted: seq<string>)
    ensures Increasing(sorted)
    ensures forall k :: k in sorted <==> k in keys
  {
    sorted := [];
    var todo := keys;
    while todo != {}
      invariant todo <= keys
      invariant Increasing(sorted)
      invariant forall k :: k in sorted <==> k in keys && k !in todo
      invariant forall i, k :: 0 <= i < |sorted| && k in todo ==> Before(sorted[i], k)
    {
      var least := LeastOf(todo);
      sorted := sorted + [least];
      todo := todo - {least};
    }
  }

  // ---------- the report ----------

  predicate Differs(canonical: map<string, string>, projected: map<string, string>, k: string) {
    (k in canonical) != (k in projected) || (k in canonical && k in projected && canonical[k] != projected[k])
  }

  function ValueAt(values: map<string, string>, k: string): Option<string> {
    if k in values then Some(values[k]) else None
  }

  function KindOf(canonicalValue: Option<string>, projectedValue: Option<string>): Kind {
    if projectedValue.None? then MissingProjection
    else if canonicalValue.None? then UnexpectedProjection
    else ValueMismatch
  }

  /** A record of one differing key, with both values and the right kind. */
  predicate IsEntry(d: Drift, canonical: map<string, string>, projected: map<string, string>) {
    && Differs(canonical, projected, d.key)
    && d.canonicalValue == ValueAt(canonical, d.key)
    && d.projectedValue == ValueAt(projected, d.key)
    && d.kind == KindOf(d.canonicalValue, d.projectedValue)
  }

  /** The report lists each differing key once, in strictly increasing order. */
  ghost predicate IsReport(drifts: seq<Drift>, canonical: map<string, string>, projected: map<string, string>) {
    && (forall i, j :: 0 <= i < j < |drifts| ==> Before(drifts[i].key, drifts[j].key))
    && (forall i :: 0 <= i < |drifts| ==> IsEntry(drifts[i], canonical, projected))
    && (forall k :: Differs(canonical, projected, k) ==> exists i :: 0 <= i < |drifts| && drifts[i].key == k)
  }

  /** A key is reported missing when only the canonical values have it, unexpected when only the projected ones do, and
      otherwise with the two values that differ. */
  predicate Classified(d: Drift, canonical: map<string, string>, projected: map<string, string>) {
    match d.kind
    case MissingProjection =>
      d.key in canonical && d.key !in projected && d.canonicalValue == Some(canonical[d.key])
          && d.projectedValue == None
    case UnexpectedProjection =>
      d.key !in canonical && d.key in projected && d.canonicalValue == None
          && d.projectedValue == Some(projected[d.key])
    case ValueMismatch =>
      && d.key in canonical && d.key in projected && canonical[d.key] != projected[d.key]
      && d.canonicalValue == Some(canonical[d.key]) && d.projectedValue == Some(projected[d.key])
  }

  /** What the loop has appended after the given keys. */
  function DriftsOf(canonical: map<string, string>, projected: map<string, string>, keys: seq<string>): seq<Drift> {
    if keys == [] then []
    else
      var k := keys[|keys| - 1];
      var c, p := ValueAt(canonical, k), ValueAt(projected, k);
      DriftsOf(canonical, projected, keys[..|keys| - 1]) +
      (if Differs(canonical, projected, k) then [Drift(k, KindOf(c, p), c, p)] else [])
  }

  lemma {:induction false} DriftsOfIsPartOfReport(canonical: map<string, string>, projected: map<string, string>,
                                                  keys: seq<string>)
    requires Increasing(keys)
    ensures forall d :: d in DriftsOf(canonical, projected, keys) ==> d.key in keys && IsEntry(d, canonical, projected)
    ensures forall i, j :: 0 <= i < j < |DriftsOf(canonical, projected, keys)| ==>
              Before(DriftsOf(canonical, projected, keys)[i].key, DriftsOf(canonical, projected, keys)[j].key)
  {
    if keys != [] {
      var part := keys[..|keys| - 1];
      var front := DriftsOf(canonical, projected, part);
      DriftsOfIsPartOfReport(canonical, projected, part);
      forall i | 0 <= i < |front| ensures Before(front[i].key, keys[|keys| - 1]) {
        assert front[i] in front;
        var m :| 0 <= m < |part| && part[m] == front[i].key;
        assert keys[m] == front[i].key;
      }
    }
  }

  lemma {:induction false} DriftsOfLists(canonical: map<string, string>, projected: map<string, string>,
                                         keys: seq<string>, k: string)
    requires k in keys && Differs(canonical, projected, k)
    ensures exists i ::
              0 <= i < |DriftsOf(canonical, projected, keys)| && DriftsOf(canonical, projected, keys)[i].key == k
  {
    var ds := DriftsOf(canonical, projected, keys);
    if k == keys[|keys| - 1] {
      assert ds[|ds| - 1].key == k;
    } else {
      DriftsOfLists(canonical, projected, keys[..|keys| - 1], k);
      var i :| 0 <= i < |DriftsOf(canonical, projected, keys[..|keys| - 1])|
               && DriftsOf(canonical, projected, keys[..|keys| - 1])[i].key == k;
      assert ds[i].key == k;
    }
  }

  method FindDrift(canonical: map<string, string>, projected: map<string, string>) returns (r: Outcome<seq<Drift>>)
    ensures "" in canonical || "" in projected ==> r == Raised(ValueError)
    ensures "" !in canonical && "" !in projected ==> r.Returned? && IsReport(r.value, canonical, projected)
    ensures r.Returned? ==> forall d :: d in r.value ==> Classified(d, canonical, projected)
  {
    if "" in canonical || "" in projected {
      return Raised(ValueError);
    }
    var keys := SortKeys(canonical.Keys + projected.Keys);
    forall i | 0 <= i < |keys| ensures keys[i] in canonical || keys[i] in projected {
      assert keys[i] in keys;
    }
    var drifts := Collect(canonical, projected, keys);
    DriftsOfIsPartOfReport(canonical, projected, keys);
    assert forall i :: 0 <= i < |drifts| ==> drifts[i] in drifts;
    forall k | Differs(canonical, projected, k) ensures exists i :: 0 <= i < |drifts| && drifts[i].key == k {
      DriftsOfLists(canonical, projected, keys, k);
    }
    forall d | d in drifts ensures Classified(d, canonical, projected) {
      assert IsEntry(d, canonical, projected);
    }
    return Returned(drifts);
  }

  /** The loop over the sorted keys. */
  method Collect(canonical: map<string, string>, projected: map<string, string>, keys: seq<string>)
    returns (drifts: seq<Drift>)
    requires forall i :: 0 <= i < |keys| ==> keys[i] in canonical || keys[i] in projected
    ensures drifts == DriftsOf(canonical, projected, keys)
  {
    drifts := [];
    for n := 0 to |keys|
      invariant drifts == DriftsOf(canonical, projected, keys[..n])
    {
      var key := keys[n];
      assert keys[..n + 1][..n] == keys[..n];
      if key !in projected {
        drifts := drifts + [Drift(key, MissingProjection, Some(canonical[key]), None)];
      } else if key !in canonical {
        drifts := drifts + [Drift(key, UnexpectedProjection, None, Some(projected[key]))];
      } else if canonical[key] != projected[key] {
        drifts := drifts + [Drift(key, ValueMismatch, Some(canonical[key]), Some(projected[key]))];
      }
    }
    assert keys[..|keys|] == keys;
  }

  /** Repairs one key as its drift record says. */
  function Repair(values: map<string, string>, d: Drift): map<string, string> {
    if d.canonicalValue.Some? then values[d.key := d.canonicalValue.value] else values - {d.key}
  }

  function RepairAll(values: map<string, string>, drifts: seq<Drift>): map<string, string>
    decreases |drifts|
  {
    if drifts == [] then values else RepairAll(Repair(values, drifts[0]), drifts[1..])
  }

  lemma {:induction false} RepairAllAt(values: map<string, string>, drifts: seq<Drift>, k: string, i: nat)
    requires forall i, j :: 0 <= i < j < |drifts| ==> drifts[i].key != drifts[j].key
    requires i < |drifts| ==> drifts[i].key == k
    requires i >= |drifts| ==> forall j :: 0 <= j < |drifts| ==> drifts[j].key != k
    ensures ValueAt(RepairAll(values, drifts), k) ==
            if i < |drifts| then drifts[i].canonicalValue else ValueAt(values, k)
    decreases |drifts|
  {
    if drifts != [] {
      var rest := drifts[1..];
      if i == 0 {
        assert forall j :: 0 <= j < |rest| ==> rest[j] == drifts[j + 1];
        RepairAllAt(Repair(values, drifts[0]), rest, k, |rest|);
      } else {
        RepairAllAt(Repair(values, drifts[0]), rest, k, i - 1);
      }
    }
  }

  lemma IncreasingIsDistinct(drifts: seq<Drift>)
    requires forall i, j :: 0 <= i < j < |drifts| ==> Before(drifts[i].key, drifts[j].key)
    ensures forall i, j :: 0 <= i < j < |drifts| ==> drifts[i].key != drifts[j].key
  {
    forall i, j | 0 <= i < j < |drifts| ensures drifts[i].key != drifts[j].key {
      BeforeIsStrict(drifts[i].key);
    }
  }

  /** The report is a complete patch: repairing what it lists, and nothing else, turns the projection into
      the canonical values; and it is empty exactly when nothing differs. */
  lemma ReportIsCompletePatch(drifts: seq<Drift>, canonical: map<string, string>, projected: map<string, string>)
    requires IsReport(drifts, canonical, projected)
    ensures RepairAll(projected, drifts) == canonical
    ensures drifts == [] <==> canonical == projected
  {
    IncreasingIsDistinct(drifts);
    forall k ensures ValueAt(RepairAll(projected, drifts), k) == ValueAt(canonical, k) {
      if Differs(canonical, projected, k) {
        var i :| 0 <= i < |drifts| && drifts[i].key == k;
        RepairAllAt(projected, drifts, k, i);
      } else {
        RepairAllAt(projected, drifts, k, |drifts|);
      }
    }
    SameValues(RepairAll(projected, drifts), canonical);
    if drifts != [] {
      assert Differs(canonical, projected, drifts[0].key);
    }
  }

  lemma SameValues(a: map<string, string>, b: map<string, string>)
    requires forall k :: ValueAt(a, k) == ValueAt(b, k)
    ensures a == b
  {
    assert forall k :: k in a <==> ValueAt(a, k).Some?;
    assert forall k :: k in b <==> ValueAt(b, k).Some?;
    forall k | k in a ensures k in b && a[k] == b[k] {
      assert ValueAt(a, k) == ValueAt(b, k);
    }
    forall k | k in b ensures k in a {
      assert ValueAt(a, k) == ValueAt(b, k);
    }
  }

  // ---------- recording ----------

  /** A stored finding; its id is an injective digest of the drift, so the drift itself stands for it. */
  datatype Finding = Finding(content: Drift, open: bool)

  type Findings = map<Drift, Finding>

  predicate Storable(d: Drift) {
    && IsText(d.key, 256)
    && (d.canonicalValue.Some? ==> IsText(d.canonicalValue.value, 65535))
    && (d.projectedValue.Some? ==> IsText(d.projectedValue.value, 65535))
  }

  /** `insert_reconciliation_finding`. */
  function InsertedFinding(findings: Findings, d: Drift): (Findings, Outcome<()>) {
    if !Storable(d) then (findings, Raised(ValueError))
    else if d in findings then
      (findings, if findings[d].content != d then Raised(PersistenceConflict) else Returned(()))
    else (findings[d := Finding(d, true)], Returned(()))
  }

  function InsertedAll(findings: Findings, drifts: seq<Drift>): (Findings, Outcome<()>)
    decreases |drifts|
  {
    if drifts == [] then (findings, Returned(()))
    else
      var (f1, r) := InsertedFinding(findings, drifts[0]);
      if r.Raised? then (f1, r) else InsertedAll(f1, drifts[1..])
  }

  lemma {:induction false} InsertedAllKeeps(findings: Findings, drifts: seq<Drift>)
    ensures forall d :: d in findings ==>
            d in InsertedAll(findings, drifts).0 && InsertedAll(findings, drifts).0[d] == findings[d]
    ensures forall d :: d in InsertedAll(findings, drifts).0 ==> d in findings || d in drifts
    ensures InsertedAll(findings, drifts).1.Returned? ==>
              forall d :: d in drifts ==>
                Storable(d) && d in InsertedAll(findings, drifts).0 && InsertedAll(findings, drifts).0[d].content == d
    decreases |drifts|
  {
    if drifts != [] {
      InsertedAllKeeps(InsertedFinding(findings, drifts[0]).0, drifts[1..]);
    }
  }

  lemma {:induction false} KnownFindingsChangeNothing(findings: Findings, drifts: seq<Drift>)
    requires forall d :: d in drifts ==> Storable(d) && d in findings && findings[d].content == d
    ensures InsertedAll(findings, drifts) == (findings, Returned(()))
    decreases |drifts|
  {
    if drifts != [] {
      KnownFindingsChangeNothing(findings, drifts[1..]);
    }
  }

  /** Recording a report twice leaves the table as recording it once, whatever was recorded in between by others. */
  lemma RecordingTwiceAddsNothing(findings: Findings, drifts: seq<Drift>, others: seq<Drift>)
    requires InsertedAll(findings, drifts).1.Returned?
    ensures var f1 := InsertedAll(findings, drifts).0;
            var f2 := InsertedAll(f1, others).0;
            InsertedAll(f1, drifts) == (f1, Returned(())) && InsertedAll(f2, drifts) == (f2, Returned(()))
  {
    var f1 := InsertedAll(findings, drifts).0;
    InsertedAllKeeps(findings, drifts);
    InsertedAllKeeps(f1, others);
    KnownFindingsChangeNothing(f1, drifts);
    KnownFindingsChangeNothing(InsertedAll(f1, others).0, drifts);
  }

  /** Recording succeeds exactly when every drift fits its columns and no stored finding was tampered with. */
  lemma {:induction false} RecordingSucceedsExactlyWhen(findings: Findings, drifts: seq<Drift>)
    ensures InsertedAll(findings, drifts).1.Returned? <==>
            forall d :: d in drifts ==> Storable(d) && (d in findings ==> findings[d].content == d)
    decreases |drifts|
  {
    if drifts != [] {
      RecordingSucceedsExactlyWhen(InsertedFinding(findings, drifts[0]).0, drifts[1..]);
      assert forall d :: d in drifts <==> d == drifts[0] || d in drifts[1..];
    }
  }

  /** A finding that was not there before is recorded as open, with the drift as its content. */
  lemma {:induction false} NewFindingsAreOpen(findings: Findings, drifts: seq<Drift>, d: Drift)
    requires d in InsertedAll(findings, drifts).0 && d !in findings
    ensures d in drifts && InsertedAll(findings, drifts).0[d].open && InsertedAll(findings, drifts).0[d].content == d
    decreases |drifts|
  {
    if drifts != [] {
      var f1 := InsertedFinding(findings, drifts[0]).0;
      if d in f1 {
        InsertedAllKeeps(f1, drifts[1..]);
      } else {
        NewFindingsAreOpen(f1, drifts[1..], d);
      }
    }
  }
}
