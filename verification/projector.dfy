/** The reorg-aware in-memory projection: its values, its state function, and its class. */
module Projector {
  import opened Wrappers

  datatype EventKey = EventKey(
    chainId: int, contractAddress: string, transactionHash: string, logIndex: int, eventVersion: int)

  datatype CanonicalEvent = CanonicalEvent(
    key: EventKey, blockNumber: int, blockHash: string, name: string, payload: seq<(string, string)>)

  /** What the four private fields of a projection hold. */
  datatype State = State(
    events: map<EventKey, CanonicalEvent>,
    uncertain: map<EventKey, CanonicalEvent>,
    blocks: map<int, string>,
    last: Option<int>)
  {
    /** The event known under a key, canonical or withheld. */
    function Find(k: EventKey): Option<CanonicalEvent> {
      if k in events then Some(events[k]) else if k in uncertain then Some(uncertain[k]) else None
    }
  }

  const EMPTY := State(map[], map[], map[], None)

  /** The maximum of a set of block numbers, None when it is empty. */
  ghost function Highest(numbers: set<int>): (r: Option<int>)
    ensures r.None? <==> numbers == {}
    ensures r.Some? ==> r.value in numbers && forall n :: n in numbers ==> n <= r.value
  {
    if numbers == {} then None
    else
      var n := PickOne(numbers);
      var rest := Highest(numbers - {n});
      assert numbers == numbers - {n} + {n};
      if rest.None? || rest.value < n then Some(n) else rest
  }

  lemma HighestUnique(numbers: set<int>, n: int)
    requires n in numbers && forall m :: m in numbers ==> m <= n
    ensures Highest(numbers) == Some(n)
  {
  }

  // ---------- the operations on values ----------

  function Checkpointed(s: State, number: int, hash: string, allowGap: bool): (State, Outcome<bool>) {
    if number < 0 || hash == "" then (s, Raised(ValueError))
    else if number in s.blocks && s.blocks[number] != "" then
      (s, if s.blocks[number] != hash then Raised(ProjectionConflict) else Returned(false))
    else if s.last.Some? && number > s.last.value + 1 && !allowGap then (s, Raised(BlockGap))
    else
      (s.(blocks := s.blocks[number := hash],
          last := if s.last.None? || number > s.last.value then Some(number) else s.last),
       Returned(true))
  }

  /** Note the order: a matching withheld event is removed before the block hash is compared. */
  function Ingested(s: State, event: CanonicalEvent): (State, Outcome<bool>) {
    if event.blockNumber < 0 || event.key.logIndex < 0 || event.blockHash == "" then (s, Raised(ValueError))
    else if event.key in s.events then
      (s, if s.events[event.key] != event then Raised(ProjectionConflict) else Returned(false))
    else if event.key in s.uncertain && s.uncertain[event.key] != event then (s, Raised(ProjectionConflict))
    else
      var s1 := s.(uncertain := s.uncertain - {event.key});
      if event.blockNumber in s.blocks && s.blocks[event.blockNumber] != ""
         && s.blocks[event.blockNumber] != event.blockHash then
        (s1, Raised(ProjectionConflict))
      else
        (s1.(events := s.events[event.key := event]), Returned(true))
  }

  function From(events: map<EventKey, CanonicalEvent>, number: int): map<EventKey, CanonicalEvent> {
    map k | k in events && events[k].blockNumber >= number :: events[k]
  }

  function Below(blocks: map<int, string>, number: int): map<int, string> {
    map n | n in blocks && n < number :: blocks[n]
  }

  ghost function Withheld(s: State, number: int): State {
    var moved := From(s.events, number);
    var blocks := Below(s.blocks, number);
    State(s.events - moved.Keys, s.uncertain + moved, blocks, Highest(blocks.Keys))
  }

  ghost function RolledBack(s: State, number: int): (State, Outcome<nat>) {
    if number < 0 then (s, Raised(ValueError))
    else
      (Withheld(s, number), Returned(|From(s.events, number)|))
  }

  ghost predicate Contiguous(numbers: set<int>) {
    forall a, b :: a in numbers && b in numbers ==> forall c :: a <= c <= b ==> c in numbers
  }

  // ---------- the sorted event log ----------

  predicate RankLe(a: CanonicalEvent, b: CanonicalEvent) {
    a.blockNumber < b.blockNumber || (a.blockNumber == b.blockNumber && a.key.logIndex <= b.key.logIndex)
  }

  predicate SortedByRank(s: seq<CanonicalEvent>) {
    forall i, j :: 0 <= i < j < |s| ==> RankLe(s[i], s[j])
  }

  /** Puts `e` behind every event that does not come after it. */
  function Insert(s: seq<CanonicalEvent>, e: CanonicalEvent): (r: seq<CanonicalEvent>)
    ensures |r| == |s| + 1
  {
    if s == [] then [e]
    else if RankLe(s[|s| - 1], e) then s + [e]
    else Insert(s[..|s| - 1], e) + [s[|s| - 1]]
  }

  lemma {:induction false} InsertAdds(s: seq<CanonicalEvent>, e: CanonicalEvent)
    ensures multiset(Insert(s, e)) == multiset(s) + multiset{e}
  {
    if s != [] && !RankLe(s[|s| - 1], e) {
      InsertAdds(s[..|s| - 1], e);
      assert s == s[..|s| - 1] + [s[|s| - 1]];
    }
  }

  lemma {:induction false} InsertSorted(s: seq<CanonicalEvent>, e: CanonicalEvent)
    requires SortedByRank(s)
    ensures SortedByRank(Insert(s, e))
    ensures forall i :: 0 <= i < |Insert(s, e)| ==> Insert(s, e)[i] == e || Insert(s, e)[i] in s
  {
    if s != [] && !RankLe(s[|s| - 1], e) {
      var front := s[..|s| - 1];
      InsertSorted(front, e);
      forall i | 0 <= i < |front| + 1 ensures RankLe(Insert(front, e)[i], s[|s| - 1]) {
      }
    }
  }

  /** Python's stable sort by (block number, log index). */
  function SortEvents(s: seq<CanonicalEvent>): (r: seq<CanonicalEvent>)
    ensures SortedByRank(r)
    ensures multiset(r) == multiset(s)
  {
    if s == [] then []
    else
      assert s == s[..|s| - 1] + [s[|s| - 1]];
      InsertSorted(SortEvents(s[..|s| - 1]), s[|s| - 1]);
      InsertAdds(SortEvents(s[..|s| - 1]), s[|s| - 1]);
      Insert(SortEvents(s[..|s| - 1]), s[|s| - 1])
  }

  function OfRank(s: seq<CanonicalEvent>, number: int, logIndex: int): seq<CanonicalEvent> {
    if s == [] then []
    else
      OfRank(s[..|s| - 1], number, logIndex) +
      (if s[|s| - 1].blockNumber == number && s[|s| - 1].key.logIndex == logIndex then [s[|s| - 1]] else [])
  }

  lemma OfRankAppend(s: seq<CanonicalEvent>, e: CanonicalEvent, number: int, logIndex: int)
    ensures OfRank(s + [e], number, logIndex) ==
            OfRank(s, number, logIndex) + if e.blockNumber == number && e.key.logIndex == logIndex then [e] else []
  {
    assert (s + [e])[..|s|] == s;
  }

  lemma {:induction false} InsertKeepsRankOrder(s: seq<CanonicalEvent>, e: CanonicalEvent, number: int, logIndex: int)
    ensures OfRank(Insert(s, e), number, logIndex) == OfRank(s + [e], number, logIndex)
  {
    if s == [] {
      assert s + [e] == [e];
    } else if !RankLe(s[|s| - 1], e) {
      var front, top := s[..|s| - 1], s[|s| - 1];
      InsertKeepsRankOrder(front, e, number, logIndex);
      OfRankAppend(Insert(front, e), top, number, logIndex);
      OfRankAppend(front, e, number, logIndex);
      OfRankAppend(s, e, number, logIndex);
      assert !(top.blockNumber == e.blockNumber && top.key.logIndex == e.key.logIndex);
    }
  }

  /** The sort is stable: events of equal rank keep their dictionary order. */
  lemma {:induction false} SortIsStable(s: seq<CanonicalEvent>, number: int, logIndex: int)
    ensures OfRank(SortEvents(s), number, logIndex) == OfRank(s, number, logIndex)
  {
    if s != [] {
      var front, e := s[..|s| - 1], s[|s| - 1];
      SortIsStable(front, number, logIndex);
      InsertKeepsRankOrder(SortEvents(front), e, number, logIndex);
      OfRankAppend(SortEvents(front), e, number, logIndex);
    }
  }

  function Select(s: seq<CanonicalEvent>, head: int, confirmations: int, deep: bool): (r: seq<CanonicalEvent>) {
    if s == [] then []
    else
      Select(s[..|s| - 1], head, confirmations, deep) +
      (if (head - s[|s| - 1].blockNumber >= confirmations) == deep then [s[|s| - 1]] else [])
  }

  /** The finalized part, then the unfinalized part, is the whole log in its order. */
  lemma {:induction false} SplitIsWholeLog(s: seq<CanonicalEvent>, head: int, confirmations: int)
    requires SortedByRank(s)
    ensures Select(s, head, confirmations, true) + Select(s, head, confirmations, false) == s
  {
    if s != [] {
      var front := s[..|s| - 1];
      SplitIsWholeLog(front, head, confirmations);
      if head - s[|s| - 1].blockNumber >= confirmations {
        AllDeep(front, head, confirmations, s[|s| - 1]);
      }
    }
  }

  lemma {:induction false} AllDeep(s: seq<CanonicalEvent>, head: int, confirmations: int, top: CanonicalEvent)
    requires forall i :: 0 <= i < |s| ==> RankLe(s[i], top)
    requires head - top.blockNumber >= confirmations
    ensures Select(s, head, confirmations, true) == s
    ensures Select(s, head, confirmations, false) == []
  {
    if s != [] {
      AllDeep(s[..|s| - 1], head, confirmations, top);
    }
  }

  /** Each part holds exactly the events on its side of the boundary. */
  lemma {:induction false} SelectExact(s: seq<CanonicalEvent>, head: int, confirmations: int, deep: bool)
    ensures forall e :: e in Select(s, head, confirmations, deep)
                   <==> e in s && ((head - e.blockNumber >= confirmations) == deep)
  {
    if s != [] {
      SelectExact(s[..|s| - 1], head, confirmations, deep);
      assert s == s[..|s| - 1] + [s[|s| - 1]];
    }
  }

  /** Finality only grows: the finalized log of a lower head is a prefix of that of a higher head. */
  lemma {:induction false} FinalizedGrowsByPrefix(s: seq<CanonicalEvent>, low: int, high: int, confirmations: int)
    requires SortedByRank(s) && low <= high
    ensures Select(s, low, confirmations, true) <= Select(s, high, confirmations, true)
  {
    if s != [] {
      var front, top := s[..|s| - 1], s[|s| - 1];
      FinalizedGrowsByPrefix(front, low, high, confirmations);
      if low - top.blockNumber >= confirmations {
        AllDeep(front, low, confirmations, top);
        AllDeep(front, high, confirmations, top);
      }
    }
  }

  // ---------- the class ----------

  predicate NoDuplicates<T(==)>(s: seq<T>) {
    forall i, j :: 0 <= i < j < |s| ==> s[i] != s[j]
  }

  method MaximumOf(numbers: set<int>) returns (r: Option<int>)
    ensures r == Highest(numbers)
  {
    r := None;
    var todo := numbers;
    while todo != {}
      invariant todo <= numbers
      invariant r.None? <==> todo == numbers
      invariant r.Some? ==> r.value in numbers && forall n :: n in numbers && n !in todo ==> n <= r.value
    {
      ghost var some := PickOne(todo);
      assert some in todo;
      var n :| n in todo;
      if r.None? || r.value < n {
        r := Some(n);
      }
      todo := todo - {n};
    }
  }

  ghost predicate Lists(r: seq<int>, numbers: set<int>) {
    && (forall i, j :: 0 <= i < j < |r| ==> r[i] < r[j])
    && (forall i :: 0 <= i < |r| ==> r[i] in numbers)
    && (forall n :: n in numbers ==> exists i :: 0 <= i < |r| && r[i] == n)
  }

  /** Sorts a set of block numbers. */
  method SortNumbers(numbers: set<int>) returns (r: seq<int>)
    ensures Lists(r, numbers)
  {
    r := [];
    var todo := numbers;
    while todo != {}
      invariant todo <= numbers
      invariant forall i, n :: 0 <= i < |r| && n in todo ==> n < r[i]
      invariant Lists(r, numbers - todo)
    {
      var top := MaximumOf(todo);
      ghost var before, left := r, todo;
      r := [top.value] + r;
      todo := todo - {top.value};
      forall n | n in numbers - todo ensures exists i :: 0 <= i < |r| && r[i] == n {
        if n == top.value {
          assert r[0] == n;
        } else {
          assert n in numbers - left;
          var i :| 0 <= i < |before| && before[i] == n;
          assert r[i + 1] == n;
        }
      }
    }
    assert numbers - todo == numbers;
  }

  lemma {:induction false} ContiguousIsRange(r: seq<int>, numbers: set<int>, i: nat)
    requires Lists(r, numbers) && Contiguous(numbers) && i < |r|
    ensures r[i] == r[0] + i
  {
    if i > 0 {
      ContiguousIsRange(r, numbers, i - 1);
      assert r[i - 1] in numbers && r[i] in numbers;
      assert r[i - 1] + 1 in numbers;
      var j :| 0 <= j < |r| && r[j] == r[i - 1] + 1;
      assert j >= i;
    }
  }

  function Range(low: int, high: int): (r: seq<int>)
    ensures |r| == if high < low then 0 else high + 1 - low
    ensures forall i :: 0 <= i < |r| ==> r[i] == low + i
  {
    seq(if high < low then 0 else high + 1 - low, i => low + i)
  }

  /** Comparing the sorted numbers with a range decides contiguity. */
  lemma RangeIffContiguous(r: seq<int>, numbers: set<int>)
    requires Lists(r, numbers) && r != []
    ensures Contiguous(numbers) <==> r == Range(r[0], r[|r| - 1])
  {
    if Contiguous(numbers) {
      forall i | 0 <= i < |r| ensures r[i] == r[0] + i {
        ContiguousIsRange(r, numbers, i);
      }
    }
    if r == Range(r[0], r[|r| - 1]) {
      RangeIsContiguous(r, numbers);
    }
  }

  lemma RangeIsContiguous(r: seq<int>, numbers: set<int>)
    requires Lists(r, numbers) && r != []
    requires forall i :: 0 <= i < |r| ==> r[i] == r[0] + i
    ensures Contiguous(numbers)
  {
    forall a, b | a in numbers && b in numbers ensures forall c :: a <= c <= b ==> c in numbers {
      var i :| 0 <= i < |r| && r[i] == a;
      var j :| 0 <= j < |r| && r[j] == b;
      forall c | a <= c <= b ensures c in numbers {
        assert r[c - r[0]] == c;
      }
    }
  }

  /** Each event is stored under its own key. */
  ghost predicate KeyedByKey(events: map<EventKey, CanonicalEvent>) {
    forall k :: k in events ==> events[k].key == k
  }

  /** The values of a dictionary in the given order of its keys. */
  function ValuesOf(events: map<EventKey, CanonicalEvent>, order: seq<EventKey>): (r: seq<CanonicalEvent>)
    requires forall i :: 0 <= i < |order| ==> order[i] in events
    ensures |r| == |order| && forall i :: 0 <= i < |r| ==> r[i] == events[order[i]]
  {
    seq(|order|, i requires 0 <= i < |order| => events[order[i]])
  }

  /** Listed by distinct keys that are all its keys, a dictionary gives each of its events once and nothing else. */
  lemma ValuesAreTheEvents(events: map<EventKey, CanonicalEvent>, order: seq<EventKey>)
    requires NoDuplicates(order) && (forall k :: k in order <==> k in events) && KeyedByKey(events)
    requires forall i :: 0 <= i < |order| ==> order[i] in events
    ensures NoDuplicates(ValuesOf(events, order)) && |ValuesOf(events, order)| == |events|
    ensures forall e :: e in ValuesOf(events, order) <==> e.key in events && events[e.key] == e
  {
    var values := ValuesOf(events, order);
    DistinctCount(order, events.Keys);
    forall i, j | 0 <= i < j < |values| ensures values[i] != values[j] {
      assert values[i].key == order[i] && values[j].key == order[j];
    }
    forall e ensures e in values <==> e.key in events && events[e.key] == e {
      if e in values {
        var i :| 0 <= i < |values| && values[i] == e;
        assert order[i] in order;
      }
      if e.key in events && events[e.key] == e {
        var i :| 0 <= i < |order| && order[i] == e.key;
        assert values[i] == e;
      }
    }
  }

  /** The part of a list of events that a rollback leaves. */
  function StillBelow(s: seq<CanonicalEvent>, number: int): seq<CanonicalEvent> {
    if s == [] then []
    else StillBelow(s[..|s| - 1], number) + if s[|s| - 1].blockNumber < number then [s[|s| - 1]] else []
  }

  /** The keys of the events on one side of a block, in the given order. */
  function KeysOnSide(events: map<EventKey, CanonicalEvent>, order: seq<EventKey>, number: int,
                      below: bool): seq<EventKey>
    requires forall i :: 0 <= i < |order| ==> order[i] in events
  {
    if order == [] then []
    else
      KeysOnSide(events, order[..|order| - 1], number, below) +
      if (events[order[|order| - 1]].blockNumber < number) == below then [order[|order| - 1]] else []
  }

  lemma {:induction false} KeysOnSideExact(events: map<EventKey, CanonicalEvent>, order: seq<EventKey>, number: int,
                                           below: bool)
    requires NoDuplicates(order) && forall i :: 0 <= i < |order| ==> order[i] in events
    ensures NoDuplicates(KeysOnSide(events, order, number, below))
    ensures forall k :: k in KeysOnSide(events, order, number, below) <==>
                        k in order && k in events && ((events[k].blockNumber < number) == below)
  {
    if order != [] {
      var front, last := order[..|order| - 1], order[|order| - 1];
      KeysOnSideExact(events, front, number, below);
      assert order == front + [last];
      assert last !in front;
    }
  }

  lemma {:induction false} ValuesBelow(events: map<EventKey, CanonicalEvent>, order: seq<EventKey>, number: int)
    requires forall i :: 0 <= i < |order| ==> order[i] in events
    ensures forall i :: 0 <= i < |KeysOnSide(events, order, number, true)| ==>
            KeysOnSide(events, order, number, true)[i] in events
    ensures ValuesOf(events, KeysOnSide(events, order, number, true)) == StillBelow(ValuesOf(events, order), number)
  {
    if order != [] {
      var front := order[..|order| - 1];
      ValuesBelow(events, front, number);
      assert ValuesOf(events, order)[..|order| - 1] == ValuesOf(events, front);
    }
  }

  lemma MultisetTellsDuplicates<T>(s: seq<T>)
    ensures NoDuplicates(s) <==> forall x :: multiset(s)[x] <= 1
  {
    if NoDuplicates(s) {
      forall x ensures multiset(s)[x] <= 1 {
        OccursOnce(s, x);
      }
    } else {
      var i, j :| 0 <= i < j < |s| && s[i] == s[j];
      assert s == s[..j] + s[j..];
      assert s[i] in s[..j] && s[j] in s[j..];
      assert multiset(s)[s[i]] == multiset(s[..j])[s[i]] + multiset(s[j..])[s[i]] >= 2;
    }
  }

  lemma {:induction false} OccursOnce<T>(s: seq<T>, x: T)
    requires NoDuplicates(s)
    ensures multiset(s)[x] <= 1
  {
    if s != [] {
      OccursOnce(s[..|s| - 1], x);
      assert s == s[..|s| - 1] + [s[|s| - 1]];
      if x == s[|s| - 1] {
        assert x !in s[..|s| - 1];
      }
    }
  }

  lemma SortKeepsMembers(values: seq<CanonicalEvent>)
    requires NoDuplicates(values)
    ensures var r := SortEvents(values);
            NoDuplicates(r) && |r| == |values| && forall e :: e in r <==> e in values
  {
    var r := SortEvents(values);
    MultisetTellsDuplicates(values);
    MultisetTellsDuplicates(r);
    assert forall e :: e in r <==> e in multiset(r);
    assert forall e :: e in values <==> e in multiset(values);
    assert |r| == |multiset(r)| == |multiset(values)| == |values|;
  }

  lemma {:induction false} SelectKeepsOrder(s: seq<CanonicalEvent>, head: int, confirmations: int, deep: bool)
    requires SortedByRank(s) && NoDuplicates(s)
    ensures SortedByRank(Select(s, head, confirmations, deep)) && NoDuplicates(Select(s, head, confirmations, deep))
  {
    if s != [] {
      var front := s[..|s| - 1];
      var r := Select(front, head, confirmations, deep);
      SelectKeepsOrder(front, head, confirmations, deep);
      SelectExact(front, head, confirmations, deep);
      forall i | 0 <= i < |r| ensures RankLe(r[i], s[|s| - 1]) && r[i] != s[|s| - 1] {
        assert r[i] in r && r[i] in front;
      }
    }
  }

  /** One side of the sorted log of distinct events: sorted, without repetition, and exactly the events of that side. */
  lemma SideOfLog(values: seq<CanonicalEvent>, head: int, confirmations: int, deep: bool)
    requires NoDuplicates(values)
    ensures var r := Select(SortEvents(values), head, confirmations, deep);
            && NoDuplicates(r) && SortedByRank(r)
            && forall e :: e in r <==> e in values && ((head - e.blockNumber >= confirmations) == deep)
  {
    SortKeepsMembers(values);
    SelectKeepsOrder(SortEvents(values), head, confirmations, deep);
    SelectExact(SortEvents(values), head, confirmations, deep);
  }

  lemma StillKeyed(events: map<EventKey, CanonicalEvent>, uncertain: map<EventKey, CanonicalEvent>, number: int)
    requires KeyedByKey(events) && KeyedByKey(uncertain)
    ensures KeyedByKey(events - From(events, number).Keys) && KeyedByKey(uncertain + From(events, number))
  {
  }

  lemma AppendedValues(events: map<EventKey, CanonicalEvent>, order: seq<EventKey>, event: CanonicalEvent)
    requires NoDuplicates(order) && (forall k :: k in order <==> k in events) && KeyedByKey(events)
    requires event.key !in events
    ensures var events1, order1 := events[event.key := event], order + [event.key];
            && NoDuplicates(order1) && (forall k :: k in order1 <==> k in events1) && KeyedByKey(events1)
            && (forall i :: 0 <= i < |order| ==> order[i] in events)
            && (forall i :: 0 <= i < |order1| ==> order1[i] in events1)
            && ValuesOf(events1, order1) == ValuesOf(events, order) + [event]
  {
    forall i | 0 <= i < |order| ensures order[i] in events && order[i] != event.key {
      assert order[i] in order;
    }
  }

  lemma KeptValues(before: map<EventKey, CanonicalEvent>, after: map<EventKey, CanonicalEvent>, kept: seq<EventKey>,
                   number: int)
    requires after == before - From(before, number).Keys
    requires forall k :: k in kept <==> k in before && before[k].blockNumber < number
    ensures forall i :: 0 <= i < |kept| ==> kept[i] in before && kept[i] in after
    ensures ValuesOf(after, kept) == ValuesOf(before, kept)
  {
    forall i | 0 <= i < |kept| ensures kept[i] in before && kept[i] in after && after[kept[i]] == before[kept[i]] {
      assert kept[i] in kept;
    }
  }

  class InMemoryProjection {
    var events: map<EventKey, CanonicalEvent>
    var order: seq<EventKey>  // the insertion order of the events dictionary
    var uncertain: map<EventKey, CanonicalEvent>
    var blocks: map<int, string>
    var last: Option<int>

    ghost predicate Valid()
      reads this
    {
      && NoDuplicates(order) && (forall k :: k in order <==> k in events)
      && KeyedByKey(events) && KeyedByKey(uncertain)
    }

    ghost function View(): State
      reads this
    {
      State(events, uncertain, blocks, last)
    }

    constructor ()
      ensures Valid() && View() == EMPTY
    {
      events, order, uncertain, blocks, last := map[], [], map[], map[], None;
    }

    method Checkpoint(number: int, hash: string, allowGap: bool) returns (r: Outcome<bool>)
      requires Valid()
      modifies this
      ensures Valid()
      ensures (View(), r) == Checkpointed(old(View()), number, hash, allowGap)
    {
      if number < 0 || hash == "" {
        return Raised(ValueError);
      }
      if number in blocks && blocks[number] != "" {
        if blocks[number] != hash {
          return Raised(ProjectionConflict);
        }
        return Returned(false);
      }
      if last.Some? && number > last.value + 1 && !allowGap {
        return Raised(BlockGap);
      }
      blocks := blocks[number := hash];
      if last.None? || number > last.value {
        last := Some(number);
      }
      return Returned(true);
    }

    method Ingest(event: CanonicalEvent) returns (r: Outcome<bool>)
      requires Valid()
      modifies this
      ensures Valid()
      ensures (View(), r) == Ingested(old(View()), event)
      ensures Values() == if r == Returned(true) then old(Values()) + [event] else old(Values())
    {
      if event.blockNumber < 0 || event.key.logIndex < 0 || event.blockHash == "" {
        return Raised(ValueError);
      }
      if event.key in events {
        if events[event.key] != event {
          return Raised(ProjectionConflict);
        }
        return Returned(false);
      }
      if event.key in uncertain {
        if uncertain[event.key] != event {
          return Raised(ProjectionConflict);
        }
        uncertain := uncertain - {event.key};
      }
      assert uncertain == old(uncertain) - {event.key};
      if event.blockNumber in blocks && blocks[event.blockNumber] != ""
          && blocks[event.blockNumber] != event.blockHash {
        return Raised(ProjectionConflict);
      }
      AppendedValues(events, order, event);
      events := events[event.key := event];
      order := order + [event.key];
      return Returned(true);
    }

    method RollbackFrom(number: int) returns (r: Outcome<nat>)
      requires Valid()
      modifies this
      ensures Valid()
      ensures (View(), r) == RolledBack(old(View()), number)
      ensures Values() == if r.Returned? then StillBelow(old(Values()), number) else old(Values())
    {
      if number < 0 {
        return Raised(ValueError);
      }
      var count := WithholdFrom(number);
      DropBlocks(number);
      last := MaximumOf(blocks.Keys);
      return Returned(count);
    }

    /** The first half of a rollback: every event at or above `number` is withheld. */
    method WithholdFrom(number: int) returns (count: nat)
      requires Valid()
      modifies this`events, this`uncertain, this`order
      ensures Valid()
      ensures events == old(events) - From(old(events), number).Keys
      ensures uncertain == old(uncertain) + From(old(events), number)
      ensures count == |From(old(events), number)|
      ensures Values() == StillBelow(old(Values()), number)
    {
      var removed, kept := SplitOrder(number);
      KeysOnSideExact(events, order, number, false);
      KeysOnSideExact(events, order, number, true);
      DistinctCount(removed, From(events, number).Keys);
      ghost var before := events;
      ValuesBelow(events, order, number);
      Withhold(removed, kept, number);
      StillKeyed(before, old(uncertain), number);
      KeptValues(before, events, kept, number);
      return |removed|;
    }

    /** The keys of the events to remove, and of those that stay, in dictionary order. */
    method SplitOrder(number: int) returns (removed: seq<EventKey>, kept: seq<EventKey>)
      requires Valid()
      ensures forall i :: 0 <= i < |order| ==> order[i] in events
      ensures removed == KeysOnSide(events, order, number, false) && kept == KeysOnSide(events, order, number, true)
    {
      assert forall i :: 0 <= i < |order| ==> order[i] in order;
      removed, kept := [], [];
      for i := 0 to |order|
        invariant removed == KeysOnSide(events, order[..i], number, false)
        invariant kept == KeysOnSide(events, order[..i], number, true)
      {
        var key := order[i];
        assert order[..i + 1][..i] == order[..i];
        if events[key].blockNumber >= number {
          removed := removed + [key];
        } else {
          kept := kept + [key];
        }
      }
      assert order[..|order|] == order;
    }

    /** Moves the listed events, one after the other, to the withheld dictionary. */
    method Withhold(removed: seq<EventKey>, kept: seq<EventKey>, ghost number: int)
      requires Valid()
      requires NoDuplicates(removed) && NoDuplicates(kept)
      requires forall k :: k in removed <==> k in From(events, number)
      requires forall k :: k in kept <==> k in events && events[k].blockNumber < number
      modifies this`events, this`uncertain, this`order
      ensures order == kept
      ensures events == old(events) - From(old(events), number).Keys
      ensures uncertain == old(uncertain) + From(old(events), number)
    {
      ghost var moved := From(events, number);
      for i := 0 to |removed|
        invariant forall k :: k in events <==> k in old(events) && k !in removed[..i]
        invariant forall k :: k in events ==> events[k] == old(events)[k]
        invariant forall k :: k in uncertain <==> k in old(uncertain) || k in removed[..i]
        invariant forall k :: k in uncertain ==>
                    uncertain[k] == if k in removed[..i] then moved[k] else old(uncertain)[k]
      {
        var key := removed[i];
        assert removed[..i + 1] == removed[..i] + [key];
        assert key !in removed[..i] && key in removed;
        uncertain := uncertain[key := events[key]];
        events := events - {key};
      }
      assert removed[..|removed|] == removed;
      order := kept;
    }

    method DropBlocks(number: int)
      modifies this`blocks
      ensures blocks == Below(old(blocks), number)
    {
      var stale := set n | n in blocks && n >= number;
      ghost var all := stale;
      while stale != {}
        invariant stale <= all
        invariant blocks == old(blocks) - (all - stale)
      {
        ghost var some := PickOne(stale);
        assert some in stale;
        var n :| n in stale;
        blocks := blocks - {n};
        stale := stale - {n};
      }
    }

    method VerifyContiguousBlocks() returns (r: Outcome<()>)
      ensures r == if Contiguous(blocks.Keys) then Returned(()) else Raised(BlockGap)
    {
      if blocks == map[] {
        return Returned(());
      }
      var numbers := SortNumbers(blocks.Keys);
      ghost var some := PickOne(blocks.Keys);
      assert some in blocks.Keys;
      RangeIffContiguous(numbers, blocks.Keys);
      if numbers != Range(numbers[0], numbers[|numbers| - 1]) {
        return Raised(BlockGap);
      }
      return Returned(());
    }

    /** The values of the events dictionary in its insertion order. */
    function Values(): (r: seq<CanonicalEvent>)
      requires Valid()
      reads this
    {
      assert forall i :: 0 <= i < |order| ==> order[i] in order;
      ValuesOf(events, order)
    }

    /** Every stored event once, by block and log index, events of equal rank as they were inserted. */
    method Events() returns (r: seq<CanonicalEvent>)
      requires Valid()
      ensures r == SortEvents(Values())
      ensures NoDuplicates(r) && SortedByRank(r) && |r| == |events|
      ensures forall e :: e in r <==> e.key in events && events[e.key] == e
      ensures forall n, i :: OfRank(r, n, i) == OfRank(Values(), n, i)
    {
      r := SortEvents(Values());
      LogOfValues();
    }

    lemma LogOfValues()
      requires Valid()
      ensures var r := SortEvents(Values());
              && NoDuplicates(r) && SortedByRank(r) && |r| == |events|
              && (forall e :: e in r <==> e.key in events && events[e.key] == e)
              && (forall n, i :: OfRank(r, n, i) == OfRank(Values(), n, i))
    {
      var r := SortEvents(Values());
      assert forall i :: 0 <= i < |order| ==> order[i] in order;
      ValuesAreTheEvents(events, order);
      SortKeepsMembers(Values());
      forall n, i ensures OfRank(r, n, i) == OfRank(Values(), n, i) {
        SortIsStable(Values(), n, i);
      }
    }

    /** `finalized_events` when `deep`, `unfinalized_events` otherwise: each stored event of that side once, in log
        order. */
    method EventsByDepth(head: int, confirmations: int, deep: bool) returns (r: Outcome<seq<CanonicalEvent>>)
      requires Valid()
      ensures r.Raised? <==> head < 0 || confirmations < 0
      ensures r.Raised? ==> r.error == ValueError
      ensures r.Returned? ==>
                && r.value == Select(SortEvents(Values()), head, confirmations, deep)
                && NoDuplicates(r.value) && SortedByRank(r.value)
                && forall e :: e in r.value <==>
                     e.key in events && events[e.key] == e && ((head - e.blockNumber >= confirmations) == deep)
    {
      if head < 0 || confirmations < 0 {
        return Raised(ValueError);
      }
      var all := Events();
      var chosen := SelectByDepth(all, head, confirmations, deep);
      assert forall i :: 0 <= i < |order| ==> order[i] in order;
      ValuesAreTheEvents(events, order);
      SideOfLog(Values(), head, confirmations, deep);
      return Returned(chosen);
    }

    /** Together the two queries return as many events as are stored. */
    lemma SidesCount(head: int, confirmations: int)
      requires Valid()
      ensures |Select(SortEvents(Values()), head, confirmations, true)| +
              |Select(SortEvents(Values()), head, confirmations, false)| == |events|
    {
      LogOfValues();
      SplitIsWholeLog(SortEvents(Values()), head, confirmations);
    }
  }

  /** The comprehension shared by the two depth queries. */
  method SelectByDepth(all: seq<CanonicalEvent>, head: int, confirmations: int, deep: bool)
    returns (chosen: seq<CanonicalEvent>)
    ensures chosen == Select(all, head, confirmations, deep)
  {
    chosen := [];
    for i := 0 to |all|
      invariant chosen == Select(all[..i], head, confirmations, deep)
    {
      assert all[..i + 1][..i] == all[..i];
      if (head - all[i].blockNumber >= confirmations) == deep {
        chosen := chosen + [all[i]];
      }
    }
    assert all[..|all|] == all;
  }

  lemma {:induction false} DistinctCount<T>(s: seq<T>, members: set<T>)
    requires NoDuplicates(s)
    requires forall x :: x in s <==> x in members
    ensures |s| == |members|
  {
    if s != [] {
      DistinctCount(s[1..], members - {s[0]});
    }
  }
}
