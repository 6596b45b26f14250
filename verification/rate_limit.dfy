/** The sliding-window rate limiter: its class, and its refinement of a sliding log that forgets nothing. */
module RateLimit {
  import opened Wrappers
  import opened Text

  datatype Decision = Decision(allowed: bool, remaining: int, retryAfter: int)

  /** Durations and clock readings are exact numbers of seconds. */
  datatype Limits = Limits(maxRequests: int, window: real, maxKeys: int)

  predicate Positive(lim: Limits) {
    lim.maxRequests >= 1 && lim.window > 0.0 && lim.maxKeys >= 1
  }

  type Table = map<string, seq<real>>

  // ---------- one request on values ----------

  function Pruned(times: seq<real>, cutoff: real): (r: seq<real>)
    ensures r != [] ==> r[0] > cutoff
  {
    if times != [] && times[0] <= cutoff then Pruned(times[1..], cutoff) else times
  }

  /** The whole seconds to wait before a retry. */
  function RetryAfter(wait: real): int {
    if (wait + 0.999).Floor > 1 then (wait + 0.999).Floor else 1
  }

  function Kept(lim: Limits, table: Table, key: string, now: real): seq<real> {
    Pruned(DequeOf(table, key), now - lim.window)
  }

  function Allowed(lim: Limits, table: Table, key: string, now: real): (Table, Outcome<Decision>)
    requires Positive(lim)
  {
    if !IsText(key, 128) then (table, Raised(ValueError))
    else if key !in table && |table| >= lim.maxKeys then (table, Returned(Decision(false, 0, lim.window.Floor)))
    else
      var kept := Kept(lim, table, key, now);
      if |kept| >= lim.maxRequests then
        (table[key := kept], Returned(Decision(false, 0, RetryAfter(kept[0] + lim.window - now))))
      else
        (table[key := kept + [now]], Returned(Decision(true, lim.maxRequests - |kept| - 1, 0)))
  }

  /** A valid key that is tracked, or for which the table has room. */
  predicate Admitted(lim: Limits, table: Table, key: string) {
    IsText(key, 128) && (key in table || |table| < lim.maxKeys)
  }

  class BoundedWindowLimiter {
    const limits: Limits
    var events: Table

    constructor (maxRequests: int, window: real, maxKeys: int)
      requires maxRequests >= 1 && window > 0.0 && maxKeys >= 1
      ensures limits == Limits(maxRequests, window, maxKeys) && events == map[]
    {
      limits, events := Limits(maxRequests, window, maxKeys), map[];
    }

    /** `now` is the reading of the clock. */
    method Allow(key: string, now: real) returns (r: Outcome<Decision>)
      requires Positive(limits)
      modifies this
      ensures (events, r) == Allowed(limits, old(events), key, now)
    {
      if !IsText(key, 128) {
        return Raised(ValueError);
      }
      var times: seq<real> := [];
      if key !in events {
        if |events| >= limits.maxKeys {
          return Returned(Decision(false, 0, limits.window.Floor));
        }
      } else {
        times := events[key];
      }
      times := Prune(times, now);
      if |times| >= limits.maxRequests {
        events := events[key := times];
        var retry := (times[0] + limits.window - now + 0.999).Floor;
        return Returned(Decision(false, 0, if retry > 1 then retry else 1));
      }
      times := times + [now];
      events := events[key := times];
      return Returned(Decision(true, limits.maxRequests - |times|, 0));
    }

    method Clear()
      modifies this
      ensures events == map[]
    {
      events := map[];
    }

    method Prune(times: seq<real>, now: real) returns (r: seq<real>)
      ensures r == Pruned(times, now - limits.window)
    {
      var cutoff := now - limits.window;
      r := times;
      while r != [] && r[0] <= cutoff
        invariant Pruned(r, cutoff) == Pruned(times, cutoff)
      {
        r := r[1..];
      }
    }
  }

  // ---------- runs ----------

  datatype Request = Request(key: string, now: real)

  /** The clock never goes back. */
  ghost predicate Ordered(reqs: seq<Request>) {
    forall i, j :: 0 <= i <= j < |reqs| ==> reqs[i].now <= reqs[j].now
  }

  function TableAfter(lim: Limits, reqs: seq<Request>): Table
    requires Positive(lim)
  {
    if reqs == [] then map[]
    else Allowed(lim, TableAfter(lim, reqs[..|reqs| - 1]), reqs[|reqs| - 1].key, reqs[|reqs| - 1].now).0
  }

  predicate Accepts(lim: Limits, reqs: seq<Request>, key: string, now: real)
    requires Positive(lim)
  {
    var r := Allowed(lim, TableAfter(lim, reqs), key, now).1;
    r.Returned? && r.value.allowed
  }

  /** The reference: the times of all requests ever allowed for a key; nothing is pruned. */
  function Log(lim: Limits, reqs: seq<Request>, key: string): seq<real>
    requires Positive(lim)
  {
    if reqs == [] then []
    else
      var front, last := reqs[..|reqs| - 1], reqs[|reqs| - 1];
      Log(lim, front, key) + if last.key == key && Accepts(lim, front, key, last.now) then [last.now] else []
  }

  /** How many times of the log lie after the cutoff. */
  function Recent(log: seq<real>, cutoff: real): nat {
    if log == [] then 0
    else Recent(log[..|log| - 1], cutoff) + if log[|log| - 1] > cutoff then 1 else 0
  }

  ghost predicate Sorted(times: seq<real>) {
    forall i, j :: 0 <= i <= j < |times| ==> times[i] <= times[j]
  }

  /** Pruning drops a prefix of times at or before the cutoff. */
  lemma {:induction false} PrunedIsSuffix(times: seq<real>, cutoff: real) returns (d: nat)
    ensures d <= |times| && Pruned(times, cutoff) == times[d..]
    ensures forall i :: 0 <= i < d ==> times[i] <= cutoff
  {
    d := 0;
    if times != [] && times[0] <= cutoff {
      var e := PrunedIsSuffix(times[1..], cutoff);
      d := 1 + e;
      assert times[1..][d - 1..] == times[d..];
      forall i | 0 <= i < d ensures times[i] <= cutoff {
        if i > 0 { assert times[i] == times[1..][i - 1]; }
      }
    }
  }

  lemma {:induction false} RecentCountsSuffix(log: seq<real>, cutoff: real, d: nat)
    requires d <= |log|
    requires forall i :: 0 <= i < d ==> log[i] <= cutoff
    requires forall i :: d <= i < |log| ==> log[i] > cutoff
    ensures Recent(log, cutoff) == |log| - d
  {
    if log != [] {
      RecentCountsSuffix(log[..|log| - 1], cutoff, if d < |log| then d else d - 1);
    }
  }

  /** A deque is the end of a log; what was dropped had left the window before `now`. */
  ghost predicate IsTail(lim: Limits, deque: seq<real>, log: seq<real>, now: real, d: nat) {
    && d <= |log| && deque == log[d..] && |deque| <= lim.maxRequests
    && (forall i :: 0 <= i < d ==> log[i] <= now - lim.window)
    && Sorted(log) && (forall i :: 0 <= i < |log| ==> log[i] <= now)
  }

  lemma PrunedTail(lim: Limits, deque: seq<real>, log: seq<real>, now: real, d: nat) returns (e: nat)
    requires IsTail(lim, deque, log, now, d)
    ensures IsTail(lim, Pruned(deque, now - lim.window), log, now, e)
    ensures forall i :: e <= i < |log| ==> log[i] > now - lim.window
  {
    var f := PrunedIsSuffix(deque, now - lim.window);
    e := d + f;
    assert deque[f..] == log[e..];
    forall i | d <= i < e ensures log[i] <= now - lim.window {
      assert log[i] == deque[i - d];
    }
    if e < |log| {
      assert deque[f..][0] == log[e];
    }
  }

  lemma ExtendedTail(lim: Limits, deque: seq<real>, log: seq<real>, now: real, d: nat)
    requires IsTail(lim, deque, log, now, d) && |deque| < lim.maxRequests
    ensures IsTail(lim, deque + [now], log + [now], now, d)
  {
    assert (log + [now])[d..] == log[d..] + [now];
  }

  function DequeOf(table: Table, key: string): seq<real> {
    if key in table then table[key] else []
  }

  /** What one request does to the deque of a key, in terms of that deque alone. */
  lemma DequeAfter(lim: Limits, table: Table, key: string, other: string, now: real)
    requires Positive(lim)
    ensures var (table1, r) := Allowed(lim, table, other, now);
            var kept := Pruned(DequeOf(table, key), now - lim.window);
            && (key != other || !Admitted(lim, table, key) ==>
                  DequeOf(table1, key) == DequeOf(table, key) && (key == other ==> !(r.Returned? && r.value.allowed)))
            && (key == other && Admitted(lim, table, key) ==>
                  && (r.Returned? && r.value.allowed <==> |kept| < lim.maxRequests)
                  && DequeOf(table1, key) == if |kept| < lim.maxRequests then kept + [now] else kept)
  {
  }

  lemma TailAfter(lim: Limits, table: Table, log: seq<real>, key: string, other: string, now: real, d: nat)
      returns (e: nat)
    requires Positive(lim) && IsTail(lim, DequeOf(table, key), log, now, d)
    ensures var (table1, r) := Allowed(lim, table, other, now);
            IsTail(lim, DequeOf(table1, key),
                   log + (if other == key && r.Returned? && r.value.allowed then [now] else []), now, e)
  {
    e := d;
    DequeAfter(lim, table, key, other, now);
    assert log + [] == log;
    if other == key && Admitted(lim, table, key) {
      e := PrunedTail(lim, DequeOf(table, key), log, now, d);
      var kept := Pruned(DequeOf(table, key), now - lim.window);
      if |kept| < lim.maxRequests {
        ExtendedTail(lim, kept, log, now, e);
      }
    }
  }

  /** In every run the deque of a key is the unpruned end of its log. */
  lemma {:induction false} DequeIsTailOfLog(lim: Limits, reqs: seq<Request>, key: string, now: real) returns (d: nat)
    requires Positive(lim) && Ordered(reqs) && forall i :: 0 <= i < |reqs| ==> reqs[i].now <= now
    ensures IsTail(lim, DequeOf(TableAfter(lim, reqs), key), Log(lim, reqs, key), now, d)
  {
    d := 0;
    if reqs != [] {
      var front, last := reqs[..|reqs| - 1], reqs[|reqs| - 1];
      d := DequeIsTailOfLog(lim, front, key, last.now);
      d := TailAfter(lim, TableAfter(lim, front), Log(lim, front, key), key, last.key, last.now, d);
    }
  }

  lemma WindowOfTail(lim: Limits, kept: seq<real>, log: seq<real>, now: real, e: nat)
    requires IsTail(lim, kept, log, now, e) && forall i :: e <= i < |log| ==> log[i] > now - lim.window
    ensures |kept| == Recent(log, now - lim.window)
  {
    RecentCountsSuffix(log, now - lim.window, e);
  }

  /** The pruned deque is the part of the log that lies in the window. */
  lemma KeptIsWindow(lim: Limits, reqs: seq<Request>, key: string, now: real) returns (e: nat)
    requires Positive(lim) && Ordered(reqs) && forall i :: 0 <= i < |reqs| ==> reqs[i].now <= now
    ensures var log, kept := Log(lim, reqs, key), Kept(lim, TableAfter(lim, reqs), key, now);
            && e <= |log| && kept == log[e..] && |kept| <= lim.maxRequests
            && |kept| == Recent(log, now - lim.window)
            && (forall i :: 0 <= i < e ==> log[i] <= now - lim.window)
  {
    var d := DequeIsTailOfLog(lim, reqs, key, now);
    e := PrunedTail(lim, DequeOf(TableAfter(lim, reqs), key), Log(lim, reqs, key), now, d);
    WindowOfTail(lim, Kept(lim, TableAfter(lim, reqs), key, now), Log(lim, reqs, key), now, e);
  }

  /** The decision is that of the full log: a request on a tracked key, or on a new key while there is room, is allowed
      exactly when fewer than `maxRequests` were allowed within the last window. */
  lemma AllowedExactlyWhenWindowHasRoom(lim: Limits, reqs: seq<Request>, key: string, now: real)
    requires Positive(lim) && Ordered(reqs) && forall i :: 0 <= i < |reqs| ==> reqs[i].now <= now
    requires Admitted(lim, TableAfter(lim, reqs), key)
    ensures Accepts(lim, reqs, key, now) <==> Recent(Log(lim, reqs, key), now - lim.window) < lim.maxRequests
  {
    var e := KeptIsWindow(lim, reqs, key, now);
  }

  /** Never more than `maxRequests` in a window: the (k + maxRequests)-th allowed request comes at least one window
      after the k-th. */
  lemma {:induction false} AllowedRequestsAreSpaced(lim: Limits, reqs: seq<Request>, key: string, k: nat)
    requires Positive(lim) && Ordered(reqs) && k + lim.maxRequests < |Log(lim, reqs, key)|
    ensures Log(lim, reqs, key)[k + lim.maxRequests] - Log(lim, reqs, key)[k] >= lim.window
  {
    var front, last := reqs[..|reqs| - 1], reqs[|reqs| - 1];
    var log := Log(lim, front, key);
    if k + lim.maxRequests < |log| {
      AllowedRequestsAreSpaced(lim, front, key, k);
    } else {
      var e := KeptIsWindow(lim, front, key, last.now);
      assert k < e;
    }
  }

  /** An allowed request is told how many more fit: the maximum less the requests allowed in the window, this one
      included. */
  lemma RemainingExactly(lim: Limits, reqs: seq<Request>, key: string, now: real)
    requires Positive(lim) && Ordered(reqs) && forall i :: 0 <= i < |reqs| ==> reqs[i].now <= now
    requires Accepts(lim, reqs, key, now)
    ensures Allowed(lim, TableAfter(lim, reqs), key, now).1 ==
            Returned(Decision(true, lim.maxRequests - (Recent(Log(lim, reqs, key), now - lim.window) + 1), 0))
    ensures Recent(Log(lim, reqs, key), now - lim.window) + 1 <= lim.maxRequests
  {
    var e := KeptIsWindow(lim, reqs, key, now);
  }

  /** The first refusals: an unfit key raises; a new key at a full table is denied, with the whole seconds of the
      window. */
  lemma RefusedExactly(lim: Limits, table: Table, key: string, now: real)
    requires Positive(lim) && !Admitted(lim, table, key)
    ensures var (table1, r) := Allowed(lim, table, key, now);
            && table1 == table
            && (r == Raised(ValueError) <==>
                |key| == 0 || |key| > 128 || exists i :: 0 <= i < |key| && key[i] as int < 32)
            && (r.Returned? ==>
                  && !r.value.allowed && r.value.remaining == 0
                  && r.value.retryAfter as real <= lim.window < r.value.retryAfter as real + 1.0
                  && key !in table && |table| >= lim.maxKeys)
  {
  }

  // ---------- the retry hint ----------

  /** For any wait the hint falls short by less than a millisecond. */
  lemma HintIsAlmostEnough(wait: real)
    ensures RetryAfter(wait) >= 1 && RetryAfter(wait) as real > wait - 0.001
    ensures wait > 1.0 ==> RetryAfter(wait) as real <= wait + 0.999
  {
  }

  /** The hint covers the wait exactly when the wait is at most a second, or whole, or a millisecond or more above a
      whole second. */
  lemma HintIsEnoughExactlyWhen(wait: real)
    requires wait > 0.0
    ensures RetryAfter(wait) as real >= wait <==>
            wait <= 1.0 || wait == wait.Floor as real || wait - wait.Floor as real >= 0.001
  {
    if wait - wait.Floor as real >= 0.001 {
      assert (wait + 0.999).Floor >= wait.Floor + 1;
    } else {
      assert (wait + 0.999).Floor == wait.Floor;
    }
  }

  /** A time in whole milliseconds. */
  predicate Whole(time: real) {
    (time * 1000.0).Floor as real == time * 1000.0
  }

  function Ceiling(x: real): int {
    if x == x.Floor as real then x.Floor else x.Floor + 1
  }

  lemma WholeWait(oldest: real, window: real, now: real)
    requires Whole(oldest) && Whole(window) && Whole(now)
    ensures Whole(oldest + window - now)
  {
    var a, b, c := (oldest * 1000.0).Floor, (window * 1000.0).Floor, (now * 1000.0).Floor;
    assert (oldest + window - now) * 1000.0 == (a + b - c) as real;
  }

  /** In whole milliseconds the hint is the ceiling of the wait, and at least one second. */
  lemma WholeHintIsCeiling(wait: real)
    requires Whole(wait) && wait > 0.0
    ensures RetryAfter(wait) == if Ceiling(wait) > 1 then Ceiling(wait) else 1
    ensures RetryAfter(wait) as real >= wait
  {
    var n := (wait * 1000.0).Floor;
    assert wait == n as real / 1000.0;
    assert wait.Floor == n / 1000 by {
      assert (n / 1000) as real <= wait < (n / 1000) as real + 1.0;
    }
    HintIsEnoughExactlyWhen(wait);
    if n % 1000 != 0 {
      assert wait - wait.Floor as real >= 0.001;
    }
  }

  lemma {:induction false} RecentShrinks(log: seq<real>, early: real, late: real)
    requires early <= late
    ensures Recent(log, late) <= Recent(log, early)
  {
    if log != [] { RecentShrinks(log[..|log| - 1], early, late); }
  }

  lemma {:induction false} RecentWithoutOldest(log: seq<real>, early: real, late: real, i: nat)
    requires early <= late && i < |log| && early < log[i] <= late
    ensures Recent(log, late) < Recent(log, early)
  {
    var front := log[..|log| - 1];
    if i < |front| {
      RecentWithoutOldest(front, early, late, i);
    } else {
      RecentShrinks(front, early, late);
    }
  }

  /** Keys never leave the table, so a full table turns away every new key for good. */
  lemma {:induction false} KeysStay(lim: Limits, early: seq<Request>, reqs: seq<Request>)
    requires Positive(lim) && early <= reqs
    ensures TableAfter(lim, early).Keys <= TableAfter(lim, reqs).Keys
    ensures |TableAfter(lim, early)| >= lim.maxKeys ==> TableAfter(lim, reqs).Keys == TableAfter(lim, early).Keys
    decreases |reqs|
  {
    if early != reqs {
      KeysStay(lim, early, reqs[..|reqs| - 1]);
    }
  }

  /** The oldest time that counts against a denied key. */
  function Oldest(lim: Limits, reqs: seq<Request>, key: string, now: real): real
    requires Positive(lim) && Kept(lim, TableAfter(lim, reqs), key, now) != []
  {
    Kept(lim, TableAfter(lim, reqs), key, now)[0]
  }

  ghost predicate Denied(lim: Limits, reqs: seq<Request>, key: string, now: real)
    requires Positive(lim)
  {
    key in TableAfter(lim, reqs) && IsText(key, 128) && |Kept(lim, TableAfter(lim, reqs), key, now)| >= lim.maxRequests
  }

  lemma DeniedHint(lim: Limits, reqs: seq<Request>, key: string, now: real)
    requires Positive(lim)
    ensures Denied(lim, reqs, key, now) <==>
            key in TableAfter(lim, reqs) && IsText(key, 128) && !Accepts(lim, reqs, key, now)
    ensures Denied(lim, reqs, key, now) ==>
              Allowed(lim, TableAfter(lim, reqs), key, now).1 ==
              Returned(Decision(false, 0, RetryAfter(Oldest(lim, reqs, key, now) + lim.window - now)))
  {
  }

  lemma WindowEmptiesByOne(lim: Limits, early: seq<Request>, key: string, now: real, later: real)
    requires Positive(lim) && Ordered(early) && forall i :: 0 <= i < |early| ==> early[i].now <= now
    requires Denied(lim, early, key, now) && now <= later && later >= Oldest(lim, early, key, now) + lim.window
    ensures Recent(Log(lim, early, key), later - lim.window) < lim.maxRequests
  {
    var log := Log(lim, early, key);
    var e := KeptIsWindow(lim, early, key, now);
    RecentWithoutOldest(log, now - lim.window, later - lim.window, e);
  }

  /** Once the oldest counted request has left the window, a denied key is allowed again, provided no other request on
      it was allowed since (the run may have gone on, from `early` to `reqs`). */
  lemma RetryIsAllowed(lim: Limits, early: seq<Request>, reqs: seq<Request>, key: string, now: real, later: real)
    requires Positive(lim) && early <= reqs && Ordered(reqs) && now <= later
    requires forall i :: 0 <= i < |early| ==> early[i].now <= now
    requires forall i :: 0 <= i < |reqs| ==> reqs[i].now <= later
    requires Denied(lim, early, key, now) && Log(lim, reqs, key) == Log(lim, early, key)
    requires later >= Oldest(lim, early, key, now) + lim.window
    ensures Accepts(lim, reqs, key, later)
  {
    assert Ordered(early);
    WindowEmptiesByOne(lim, early, key, now, later);
    KeysStay(lim, early, reqs);
    AllowedExactlyWhenWindowHasRoom(lim, reqs, key, later);
  }

  lemma {:induction false} LogIsWhole(lim: Limits, reqs: seq<Request>, key: string)
    requires Positive(lim) && forall i :: 0 <= i < |reqs| ==> Whole(reqs[i].now)
    ensures forall i :: 0 <= i < |Log(lim, reqs, key)| ==> Whole(Log(lim, reqs, key)[i])
  {
    if reqs != [] { LogIsWhole(lim, reqs[..|reqs| - 1], key); }
  }

  lemma WaitIsWhole(lim: Limits, reqs: seq<Request>, key: string, now: real)
    requires Positive(lim) && Ordered(reqs) && forall i :: 0 <= i < |reqs| ==> reqs[i].now <= now && Whole(reqs[i].now)
    requires Whole(lim.window) && Whole(now) && Denied(lim, reqs, key, now)
    ensures var wait := Oldest(lim, reqs, key, now) + lim.window - now; Whole(wait) && wait > 0.0
  {
    var e := KeptIsWindow(lim, reqs, key, now);
    LogIsWhole(lim, reqs, key);
    assert Oldest(lim, reqs, key, now) == Log(lim, reqs, key)[e];
    WholeWait(Oldest(lim, reqs, key, now), lim.window, now);
  }

  lemma HintIsOfOldest(lim: Limits, reqs: seq<Request>, key: string, now: real, hint: int)
    requires Positive(lim) && key in TableAfter(lim, reqs)
    requires Allowed(lim, TableAfter(lim, reqs), key, now).1 == Returned(Decision(false, 0, hint))
    ensures Denied(lim, reqs, key, now) && hint == RetryAfter(Oldest(lim, reqs, key, now) + lim.window - now)
  {
    DeniedHint(lim, reqs, key, now);
  }

  lemma HintCoversWait(lim: Limits, reqs: seq<Request>, key: string, now: real, hint: int)
    requires Positive(lim) && Ordered(reqs) && forall i :: 0 <= i < |reqs| ==> reqs[i].now <= now && Whole(reqs[i].now)
    requires Whole(lim.window) && Whole(now) && Denied(lim, reqs, key, now)
    requires hint == RetryAfter(Oldest(lim, reqs, key, now) + lim.window - now)
    ensures hint >= 1 && hint as real >= Oldest(lim, reqs, key, now) + lim.window - now
  {
    WaitIsWhole(lim, reqs, key, now);
    WholeHintIsCeiling(Oldest(lim, reqs, key, now) + lim.window - now);
  }

  /** The promise of the hint, in whole milliseconds: a retry after the hinted seconds is allowed if no other request on
      that key was allowed in between. */
  lemma HintedRetryIsAllowed(lim: Limits, early: seq<Request>, reqs: seq<Request>, key: string, now: real, hint: int,
                             later: real)
    requires Positive(lim) && early <= reqs && Ordered(reqs) && later == now + hint as real
    requires forall i :: 0 <= i < |early| ==> early[i].now <= now && Whole(early[i].now)
    requires Whole(lim.window) && Whole(now)
    requires key in TableAfter(lim, early)
    requires Allowed(lim, TableAfter(lim, early), key, now).1 == Returned(Decision(false, 0, hint))
    requires forall i :: 0 <= i < |reqs| ==> reqs[i].now <= later
    requires Log(lim, reqs, key) == Log(lim, early, key)
    ensures Accepts(lim, reqs, key, later)
  {
    assert Ordered(early);
    HintIsOfOldest(lim, early, key, now, hint);
    HintCoversWait(lim, early, key, now, hint);
    RetryIsAllowed(lim, early, reqs, key, now, later);
  }
}
