/**
 * The two read-only handlers of backend/routes/events.js: GET / (filter by
 * type, location and day, newest first) and GET /:id.
 */
module EventListing {
  import opened Wrappers
  import opened Text
  import opened EventSchema
  import opened Membership

  /** The length of the date window, one day in milliseconds. */
  const DayMs: int := 86_400_000

  /**
   * The query string of GET /. `date` is the start of the requested day
   * (`new Date(date)`); `None` stands for an absent or empty parameter.
   */
  datatype Query = Query(kind: Option<string>, location: Option<string>, date: Option<Timestamp>)

  /** `type && type !== 'all'`: an empty type and the word `all` both mean no type filter. */
  predicate TypeFilterActive(q: Query)
  {
    q.kind.Some? && q.kind.value != "" && q.kind.value != "all"
  }

  predicate LocationFilterActive(q: Query)
  {
    q.location.Some? && q.location.value != ""
  }

  /** The Mongo query built from the parameters, as a test on one event. */
  predicate Matches(q: Query, e: Event)
  {
    && (TypeFilterActive(q) ==> e.kind == q.kind.value)
    && (LocationFilterActive(q) ==> ContainsIgnoringCase(e.location, q.location.value))
    && (q.date.Some? ==> q.date.value <= e.date < q.date.value + DayMs)
  }

  /** The stored events with an id below `n`, by increasing id (the order of insertion). */
  function StoredBelow(events: map<EventId, Event>, n: nat): (r: seq<(EventId, Event)>)
    ensures forall k :: 0 <= k < |r| ==> r[k].0 < n && r[k].0 in events && events[r[k].0] == r[k].1
    ensures forall id :: id in events && id < n ==> (id, events[id]) in r
    ensures forall i, j :: 0 <= i < j < |r| ==> r[i].0 < r[j].0
  {
    if n == 0 then []
    else
      var prefix := StoredBelow(events, n - 1);
      if n - 1 in events then
        var r := prefix + [(n - 1, events[n - 1])];
        assert forall k :: 0 <= k < |prefix| ==> r[k] == prefix[k];
        r
      else prefix
  }

  /** The events that satisfy the query, keeping their order. */
  function Select(entries: seq<(EventId, Event)>, q: Query): (r: seq<(EventId, Event)>)
    ensures forall x :: x in r <==> x in entries && Matches(q, x.1)
    ensures multiset(r) <= multiset(entries)
  {
    if entries == [] then []
    else
      var rest := Select(entries[1..], q);
      assert entries == [entries[0]] + entries[1..];
      (if Matches(q, entries[0].1) then [entries[0]] else []) + rest
  }

  /** Newest first: keys never increase along the list. */
  predicate NewestFirst<T>(r: seq<T>, key: T -> int)
  {
    forall i, j :: 0 <= i < j < |r| ==> key(r[i]) >= key(r[j])
  }

  lemma ConsNewestFirst<T>(h: T, t: seq<T>, key: T -> int)
    requires NewestFirst(t, key)
    requires forall k :: 0 <= k < |t| ==> key(t[k]) <= key(h)
    ensures NewestFirst([h] + t, key)
  {
    var r := [h] + t;
    forall i, j | 0 <= i < j < |r|
      ensures key(r[i]) >= key(r[j])
    {
      assert r[j] == t[j - 1];
      if i > 0 {
        assert r[i] == t[i - 1];
      }
    }
  }

  /** Puts `x` in front of the first entry whose key is not larger than its own. */
  function Insert<T>(x: T, sorted: seq<T>, key: T -> int): (r: seq<T>)
    requires NewestFirst(sorted, key)
    ensures NewestFirst(r, key)
    ensures multiset(r) == multiset(sorted) + multiset{x}
    decreases |sorted|
  {
    if sorted == [] || key(sorted[0]) <= key(x) then
      ConsNewestFirst(x, sorted, key);
      [x] + sorted
    else
      var rest := Insert(x, sorted[1..], key);
      assert sorted == [sorted[0]] + sorted[1..];
      assert multiset(sorted) == multiset{sorted[0]} + multiset(sorted[1..]);
      forall k | 0 <= k < |rest|
        ensures key(rest[k]) <= key(sorted[0])
      {
        assert rest[k] in multiset(rest);
        if rest[k] != x {
          assert rest[k] in multiset(sorted[1..]);
          var m :| 0 <= m < |sorted[1..]| && sorted[1..][m] == rest[k];
          assert sorted[m + 1] == rest[k];
        }
      }
      ConsNewestFirst(sorted[0], rest, key);
      assert multiset([sorted[0]] + rest) == multiset{sorted[0]} + multiset(rest);
      [sorted[0]] + rest
  }

  /** A stable insertion sort, largest key first. */
  function SortDescending<T>(entries: seq<T>, key: T -> int): (r: seq<T>)
    ensures NewestFirst(r, key)
    ensures multiset(r) == multiset(entries)
  {
    if entries == [] then []
    else
      assert entries == [entries[0]] + entries[1..];
      Insert(entries[0], SortDescending(entries[1..], key), key)
  }

  function CreatedAt(x: (EventId, Event)): int
  {
    x.1.createdAt
  }

  /** GET /: the events matching the query, newest first. */
  function ListEvents(s: Store, q: Query): seq<(EventId, Event)>
  {
    SortDescending(Select(StoredBelow(s.events, s.nextId), q), CreatedAt)
  }

  lemma {:induction false} IncreasingIdsOccurOnce(r: seq<(EventId, Event)>, x: (EventId, Event))
    requires forall i, j :: 0 <= i < j < |r| ==> r[i].0 < r[j].0
    ensures multiset(r)[x] == if x in r then 1 else 0
    decreases |r|
  {
    if r != [] {
      assert r == [r[0]] + r[1..];
      IncreasingIdsOccurOnce(r[1..], x);
      if x == r[0] {
        assert x !in r[1..] by {
          forall k | 0 <= k < |r[1..]|
            ensures r[1..][k] != x
          {
            assert r[1..][k] == r[k + 1];
          }
        }
      }
    }
  }

  /**
   * GET / lists every stored event that matches the query exactly once, no
   * other event, and newest first.
   */
  lemma ListEventsCorrect(s: Store, q: Query)
    requires FreshIds(s)
    ensures NewestFirst(ListEvents(s, q), CreatedAt)
    ensures forall id, e :: multiset(ListEvents(s, q))[(id, e)]
                            == if id in s.events && s.events[id] == e && Matches(q, e) then 1 else 0
  {
    var stored := StoredBelow(s.events, s.nextId);
    var selected := Select(stored, q);
    forall id, e
      ensures multiset(ListEvents(s, q))[(id, e)]
              == if id in s.events && s.events[id] == e && Matches(q, e) then 1 else 0
    {
      IncreasingIdsOccurOnce(stored, (id, e));
      assert multiset(selected)[(id, e)] <= multiset(stored)[(id, e)];
      if (id, e) in stored && Matches(q, e) {
        assert (id, e) in selected;
      }
    }
  }

  /** With no parameters every stored event is listed. */
  lemma EmptyQueryMatchesAll(e: Event)
    ensures Matches(Query(None, None, None), e)
    ensures Matches(Query(Some("all"), Some(""), None), e)
  {
  }

  /** GET /:id: the stored event, or 404. */
  function GetEvent(s: Store, id: EventId): (r: Response)
    ensures r.NotFound? <==> id !in s.events
    ensures r.EventBody? ==> r.id == id && id in s.events && r.event == s.events[id]
    ensures r.NotFound? || r.EventBody?
  {
    if id in s.events then EventBody(id, s.events[id]) else NotFound
  }
}
