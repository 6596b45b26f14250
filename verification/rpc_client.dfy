/** The JSON-RPC client's failover loop: order of attempts, acceptance of replies, and backoff. */
module RpcClient {
  import opened Wrappers

  /** What the transport gives for one request: a caught failure, or a reply object. */
  datatype Reply<T> =
    | Failure
    | Payload(jsonrpc: Option<string>, id: Option<int>, hasError: bool, result: Option<T>)

  /** The transport by endpoint number and request id; ids are fresh, so it may behave differently every time. */
  type Transport<!T> = (nat, int) -> Reply<T>

  /** A success reply to the request with this id, after sections 4 and 5 of the JSON-RPC 2.0 specification. */
  predicate Acceptable<T>(reply: Reply<T>, id: int) {
    reply.Payload? && reply.jsonrpc == Some("2.0") && reply.id == Some(id) && !reply.hasError && reply.result.Some?
  }

  datatype Attempt = Attempt(endpoint: nat, number: nat)

  /** The attempts at one endpoint. */
  function Row(endpoint: nat, m: nat): (r: seq<Attempt>)
    ensures |r| == m
    ensures forall i :: 0 <= i < m ==> r[i] == Attempt(endpoint, i)
  {
    seq(m, i requires 0 <= i => Attempt(endpoint, i))
  }

  /** All attempts, endpoint by endpoint. */
  function Plan(endpoints: nat, m: nat): seq<Attempt> {
    if endpoints == 0 then [] else Plan(endpoints - 1, m) + Row(endpoints - 1, m)
  }

  function Pow2(n: nat): nat {
    if n == 0 then 1 else 2 * Pow2(n - 1)
  }

  /** The pause after a failed attempt; none after the last one at an endpoint. */
  function Pause(a: Attempt, m: nat): seq<real> {
    if a.number + 1 < m then [0.25 * Pow2(a.number) as real] else []
  }

  function Pauses(failed: seq<Attempt>, m: nat): seq<real> {
    if failed == [] then [] else Pauses(failed[..|failed| - 1], m) + Pause(failed[|failed| - 1], m)
  }

  function Total(pauses: seq<real>): real {
    if pauses == [] then 0.0 else Total(pauses[..|pauses| - 1]) + pauses[|pauses| - 1]
  }

  lemma {:induction false} PlanLength(endpoints: nat, m: nat)
    ensures |Plan(endpoints, m)| == endpoints * m
  {
    if endpoints > 0 {
      PlanLength(endpoints - 1, m);
      assert (endpoints - 1) * m + m == endpoints * m;
    }
  }

  lemma {:induction false} TotalOfTwo(a: seq<real>, b: seq<real>)
    ensures Total(a + b) == Total(a) + Total(b)
  {
    if b == [] {
      assert a + b == a;
    } else {
      TotalOfTwo(a, b[..|b| - 1]);
      assert (a + b)[..|a + b| - 1] == a + b[..|b| - 1];
    }
  }

  function Flat<T>(parts: seq<seq<T>>): seq<T> {
    if parts == [] then [] else Flat(parts[..|parts| - 1]) + parts[|parts| - 1]
  }

  lemma {:induction false} FlatOfTwo<T>(a: seq<seq<T>>, b: seq<seq<T>>)
    ensures Flat(a + b) == Flat(a) + Flat(b)
  {
    if b == [] {
      assert a + b == a;
    } else {
      FlatOfTwo(a, b[..|b| - 1]);
      assert (a + b)[..|a + b| - 1] == a + b[..|b| - 1];
    }
  }

  function PauseList(failed: seq<Attempt>, m: nat): (r: seq<seq<real>>)
    ensures |r| == |failed| && forall i :: 0 <= i < |r| ==> r[i] == Pause(failed[i], m)
  {
    seq(|failed|, i requires 0 <= i < |failed| => Pause(failed[i], m))
  }

  lemma {:induction false} PausesAreFlat(failed: seq<Attempt>, m: nat)
    ensures Pauses(failed, m) == Flat(PauseList(failed, m))
  {
    if failed != [] {
      PausesAreFlat(failed[..|failed| - 1], m);
      assert PauseList(failed, m)[..|failed| - 1] == PauseList(failed[..|failed| - 1], m);
    }
  }

  lemma PausesOfTwo(a: seq<Attempt>, b: seq<Attempt>, m: nat)
    ensures Pauses(a + b, m) == Pauses(a, m) + Pauses(b, m)
  {
    assert PauseList(a + b, m) == PauseList(a, m) + PauseList(b, m);
    FlatOfTwo(PauseList(a, m), PauseList(b, m));
    PausesAreFlat(a, m);
    PausesAreFlat(b, m);
    PausesAreFlat(a + b, m);
  }

  lemma PausesAppend(a: seq<Attempt>, x: Attempt, m: nat)
    ensures Pauses(a + [x], m) == Pauses(a, m) + Pause(x, m)
  {
    assert (a + [x])[..|a|] == a;
  }

  /** The pauses at one endpoint double from a quarter of a second. */
  lemma {:induction false} RowPauses(endpoint: nat, n: nat, m: nat)
    requires n < m
    ensures Total(Pauses(Row(endpoint, m)[..n], m)) == 0.25 * (Pow2(n) - 1) as real
  {
    if n > 0 {
      RowPauses(endpoint, n - 1, m);
      var row := Row(endpoint, m);
      assert row[..n][..n - 1] == row[..n - 1];
      TotalOfTwo(Pauses(row[..n - 1], m), Pause(row[n - 1], m));
      assert [0.25 * Pow2(n - 1) as real][..0] == [];
    }
  }

  lemma WholeRowPauses(endpoint: nat, m: nat)
    requires m >= 1
    ensures Total(Pauses(Row(endpoint, m), m)) == 0.25 * (Pow2(m - 1) - 1) as real
  {
    var row := Row(endpoint, m);
    RowPauses(endpoint, m - 1, m);
    assert Pause(row[m - 1], m) == [];
    assert Pauses(row[..m - 1], m) + [] == Pauses(row[..m - 1], m);
  }

  function Times(n: nat, x: real): real {
    if n == 0 then 0.0 else Times(n - 1, x) + x
  }

  lemma {:induction false} TimesIsProduct(n: nat, x: real)
    ensures Times(n, x) == n as real * x
  {
    if n > 0 {
      TimesIsProduct(n - 1, x);
      assert (n - 1) as real * x + x == n as real * x;
    }
  }

  lemma {:induction false} PlanPauses(endpoints: nat, m: nat, each: real)
    requires forall e: nat :: Total(Pauses(Row(e, m), m)) == each
    ensures Total(Pauses(Plan(endpoints, m), m)) == Times(endpoints, each)
  {
    if endpoints > 0 {
      PlanPauses(endpoints - 1, m, each);
      PausesOfTwo(Plan(endpoints - 1, m), Row(endpoints - 1, m), m);
      TotalOfTwo(Pauses(Plan(endpoints - 1, m), m), Pauses(Row(endpoints - 1, m), m));
    }
  }

  /** When every attempt fails there are |endpoints| * m of them, with |endpoints| * 0.25 * (2^(m-1) - 1) seconds of
      pauses. */
  lemma AllFailedPauses(endpoints: nat, m: nat, each: real)
    requires m >= 1 && each == 0.25 * (Pow2(m - 1) - 1) as real
    ensures Total(Pauses(Plan(endpoints, m), m)) == endpoints as real * each
    ensures |Plan(endpoints, m)| == endpoints * m
  {
    PlanLength(endpoints, m);
    forall e: nat ensures Total(Pauses(Row(e, m), m)) == each {
      WholeRowPauses(e, m);
    }
    PlanPauses(endpoints, m, each);
    TimesIsProduct(endpoints, each);
  }

  class JsonRpcClient<T> {
    const endpoints: seq<string>
    const maxAttempts: nat
    var requestId: int

    constructor (endpoints: seq<string>, maxAttempts: nat)
      requires endpoints != [] && maxAttempts >= 1
      ensures this.endpoints == endpoints && this.maxAttempts == maxAttempts && requestId == 0
    {
      this.endpoints, this.maxAttempts, requestId := endpoints, maxAttempts, 0;
    }

    /** Endpoint by endpoint; the i-th attempt of a call uses the i-th id after those used before the call. */
    method Call(name: string, transport: Transport<T>)
      returns (r: Outcome<T>, made: seq<Attempt>, slept: seq<real>)
      requires maxAttempts >= 1
      modifies this
      ensures requestId == old(requestId) + |made|
      ensures name == "" ==> r == Raised(ValueError) && made == [] && slept == []
      ensures name != "" ==>
                && r == (if r.Returned? then Returned(r.value) else Raised(RpcError))
                && Tried(transport, Plan(|endpoints|, maxAttempts), maxAttempts, old(requestId),
                         if r.Returned? then Some(r.value) else None, made, slept)
      ensures name != "" ==>
                FirstSuccess(transport, old(requestId), if r.Returned? then Some(r.value) else None, made)
    {
      made, slept := [], [];
      if name == "" {
        return Raised(ValueError), made, slept;
      }
      for e := 0 to |endpoints|
        invariant requestId == old(requestId) + |made|
        invariant Tried(transport, Plan(e, maxAttempts), maxAttempts, old(requestId), None, made, slept)
      {
        var answer, more, pauses := TryEndpoint(e, transport);
        TriedInTurn(transport, Plan(e, maxAttempts), Row(e, maxAttempts), maxAttempts, old(requestId),
                    answer, made, slept, more, pauses);
        made, slept := made + more, slept + pauses;
        if answer.Some? {
          PlanPrefix(e + 1, |endpoints|, maxAttempts);
          TriedEnough(transport, Plan(e + 1, maxAttempts), Plan(|endpoints|, maxAttempts), maxAttempts, old(requestId),
                      answer, made, slept);
          TriedIsFirstSuccess(transport, Plan(|endpoints|, maxAttempts), maxAttempts, old(requestId), answer, made,
                              slept);
          return Returned(answer.value), made, slept;
        }
      }
      TriedIsFirstSuccess(transport, Plan(|endpoints|, maxAttempts), maxAttempts, old(requestId), None, made, slept);
      return Raised(RpcError), made, slept;
    }

    /** The loop over the attempts at one endpoint. */
    method TryEndpoint(e: nat, transport: Transport<T>)
        returns (answer: Option<T>, made: seq<Attempt>, slept: seq<real>)
      modifies this
      ensures requestId == old(requestId) + |made|
      ensures Tried(transport, Row(e, maxAttempts), maxAttempts, old(requestId), answer, made, slept)
    {
      made, slept := [], [];
      for a := 0 to maxAttempts
        invariant made == Row(e, maxAttempts)[..a] && slept == Pauses(made, maxAttempts)
        invariant requestId == old(requestId) + |made|
        invariant AllRefused(transport, made, |made|, old(requestId))
      {
        ghost var before := made;
        requestId := requestId + 1;
        var reply := transport(e, requestId);
        made := made + [Attempt(e, a)];
        assert Row(e, maxAttempts)[..a + 1] == before + [Attempt(e, a)];
        Extended(transport, before, Attempt(e, a), old(requestId), maxAttempts);
        assert made[..|made| - 1] == before;
        if Acceptable(reply, requestId) {
          return Some(reply.result.value), made, slept;
        }
        if a + 1 < maxAttempts {
          slept := slept + [0.25 * Pow2(a) as real];
        }
      }
      return None, made, slept;
    }
  }

  /** The reply to the i-th attempt of a call that began after request id `base`. */
  function Answer<T>(transport: Transport<T>, made: seq<Attempt>, i: int, base: int): Reply<T>
    requires 0 <= i < |made|
  {
    transport(made[i].endpoint, base + 1 + i)
  }

  /** The first `n` attempts of a call that began after request id `base` got no acceptable reply. */
  ghost predicate AllRefused<T>(transport: Transport<T>, made: seq<Attempt>, n: int, base: int)
    requires n <= |made|
  {
    forall i :: 0 <= i < n ==> !Acceptable(Answer(transport, made, i, base), base + 1 + i)
  }

  /** The attempts of `plan` were made in order up to the first acceptable reply, which is the answer, with the
      pauses of the attempts that failed; without an answer the whole plan was tried. */
  ghost predicate Tried<T>(transport: Transport<T>, plan: seq<Attempt>, m: nat, base: int,
                           answer: Option<T>, made: seq<Attempt>, slept: seq<real>) {
    match answer
    case Some(value) =>
      && made != [] && made <= plan && AllRefused(transport, made, |made| - 1, base)
      && Acceptable(Answer(transport, made, |made| - 1, base), base + |made|)
      && value == Answer(transport, made, |made| - 1, base).result.value
      && slept == Pauses(made[..|made| - 1], m)
    case None =>
      made == plan && AllRefused(transport, made, |made|, base) && slept == Pauses(made, m)
  }

  lemma Extended<T>(transport: Transport<T>, made: seq<Attempt>, x: Attempt, base: int, m: nat)
    requires AllRefused(transport, made, |made|, base)
    ensures AllRefused(transport, made + [x], |made|, base)
    ensures Pauses(made + [x], m) == Pauses(made, m) + Pause(x, m)
    ensures Pause(x, m) == [] ==> Pauses(made + [x], m) == Pauses(made, m)
  {
    PausesAppend(made, x, m);
    forall i | 0 <= i < |made| ensures !Acceptable(Answer(transport, made + [x], i, base), base + 1 + i) {
      assert !Acceptable(Answer(transport, made, i, base), base + 1 + i);
    }
  }

  /** Attempts at the next endpoint go on counting where the previous ones stopped. */
  lemma Joined<T>(transport: Transport<T>, made: seq<Attempt>, more: seq<Attempt>, base: int, n: nat)
    requires n <= |more| && AllRefused(transport, made, |made|, base) && AllRefused(transport, more, n, base + |made|)
    ensures AllRefused(transport, made + more, |made| + n, base)
  {
    forall i | 0 <= i < |made| + n ensures !Acceptable(Answer(transport, made + more, i, base), base + 1 + i) {
      if i < |made| {
        assert !Acceptable(Answer(transport, made, i, base), base + 1 + i);
      } else {
        assert !Acceptable(Answer(transport, more, i - |made|, base + |made|), base + |made| + 1 + (i - |made|));
      }
    }
  }

  /** A plan that failed, then another plan, is the two plans in a row. */
  lemma TriedInTurn<T>(transport: Transport<T>, plan: seq<Attempt>, next: seq<Attempt>, m: nat, base: int,
                       answer: Option<T>, made: seq<Attempt>, slept: seq<real>, more: seq<Attempt>, pauses: seq<real>)
    requires Tried(transport, plan, m, base, None, made, slept)
    requires Tried(transport, next, m, base + |made|, answer, more, pauses)
    ensures Tried(transport, plan + next, m, base, answer, made + more, slept + pauses)
  {
    var refused := if answer.Some? then |more| - 1 else |more|;
    Joined(transport, made, more, base, refused);
    PausesOfTwo(made, more[..refused], m);
    assert more[..|more|] == more;
    if answer.Some? {
      assert (made + more)[..|made + more| - 1] == made + more[..refused];
    }
  }

  /** Once there is an answer, the rest of the plan does not matter. */
  lemma TriedEnough<T>(transport: Transport<T>, plan: seq<Attempt>, longer: seq<Attempt>, m: nat, base: int,
                       answer: Option<T>, made: seq<Attempt>, slept: seq<real>)
    requires answer.Some? && plan <= longer && Tried(transport, plan, m, base, answer, made, slept)
    ensures Tried(transport, longer, m, base, answer, made, slept)
  {
  }

  lemma {:induction false} PlanPrefix(few: nat, many: nat, m: nat)
    requires few <= many
    ensures Plan(few, m) <= Plan(many, m)
  {
    if few < many { PlanPrefix(few, many - 1, m); }
  }

  /** A call that fails has tried every endpoint `m` times and paused |endpoints| * 0.25 * (2^(m-1) - 1) seconds. */
  lemma FailedCallCosts<T>(transport: Transport<T>, endpoints: nat, m: nat, base: int,
                           made: seq<Attempt>, slept: seq<real>, each: real)
    requires m >= 1 && each == 0.25 * (Pow2(m - 1) - 1) as real
    requires Tried(transport, Plan(endpoints, m), m, base, None, made, slept)
    ensures |made| == endpoints * m && Total(slept) == endpoints as real * each
  {
    AllFailedPauses(endpoints, m, each);
  }

  /** The answer came in a reply with version 2.0, that attempt's own id, no error and the answer as its result; no
      attempt before got such a reply. */
  ghost predicate FirstSuccess<T>(transport: Transport<T>, base: int, answer: Option<T>, made: seq<Attempt>) {
    && (answer.Some? ==>
          && made != []
          && transport(made[|made| - 1].endpoint, base + |made|) ==
             Payload(Some("2.0"), Some(base + |made|), false, Some(answer.value)))
    && (forall i :: 0 <= i < |made| - (if answer.Some? then 1 else 0) ==>
          var reply := transport(made[i].endpoint, base + 1 + i);
          || reply.Failure? || reply.jsonrpc != Some("2.0") || reply.id != Some(base + 1 + i)
          || reply.hasError || reply.result == None)
  }

  lemma TriedIsFirstSuccess<T>(transport: Transport<T>, plan: seq<Attempt>, m: nat, base: int,
                               answer: Option<T>, made: seq<Attempt>, slept: seq<real>)
    requires Tried(transport, plan, m, base, answer, made, slept)
    ensures FirstSuccess(transport, base, answer, made)
  {
    forall i | 0 <= i < |made| - (if answer.Some? then 1 else 0)
      ensures var reply := transport(made[i].endpoint, base + 1 + i);
              || reply.Failure? || reply.jsonrpc != Some("2.0") || reply.id != Some(base + 1 + i)
              || reply.hasError || reply.result == None
    {
      assert !Acceptable(Answer(transport, made, i, base), base + 1 + i);
    }
  }

  /** The plan goes through the endpoints in their order, and through the attempts at each. */
  lemma {:induction false} PlanInOrder(endpoints: nat, m: nat, e: nat, a: nat)
    requires e < endpoints && a < m
    ensures 0 <= e * m + a < |Plan(endpoints, m)| && Plan(endpoints, m)[e * m + a] == Attempt(e, a)
  {
    PlanLength(endpoints - 1, m);
    if e < endpoints - 1 {
      PlanInOrder(endpoints - 1, m, e, a);
    }
  }
}
