/**
 * The client-side events service of src/services/api.js: `getEvents`
 * filters the in-file mock list by type, location and date, `getEvent`
 * finds one mock event by id, and `joinEvent` / `leaveEvent` are stubs that
 * always succeed. The request delays (`setTimeout`) and the promises around
 * the results are not modelled.
 */
module ClientEvents {
  import opened Wrappers
  import opened Text

  /** One entry of the mock list; `kind` is its `type`. */
  datatype MockEvent = MockEvent(
    id: string,
    title: string,
    description: string,
    date: string,
    time: string,
    location: string,
    kind: string,
    maxAttendees: int,
    currentAttendees: int,
    attendees: seq<string>,
    image: string,
    createdBy: string,
    createdAt: string)

  const MockEvents: seq<MockEvent> := [
    MockEvent("1", "Birthday Bash Extravaganza",
      "Join us for an unforgettable birthday celebration with games, music, and delicious cake!",
      "2024-12-25", "18:00", "Central Park, New York", "birthday", 50, 23, ["user1", "user2"],
      "https://images.unsplash.com/photo-1464366400600-7168b8af9bc3?ixlib=rb-4.0.3&auto=format&fit=crop&w=800&q=80",
      "user1", "2024-12-01T10:00:00Z"),
    MockEvent("2", "Wedding Reception Gala",
      "Celebrate love and commitment at this elegant wedding reception. Dress code: formal.",
      "2024-12-30", "19:30", "Grand Ballroom, Manhattan", "wedding", 150, 87, ["user1", "user3"],
      "https://images.unsplash.com/photo-1519741497674-611481863552?ixlib=rb-4.0.3&auto=format&fit=crop&w=800&q=80",
      "user2", "2024-12-02T14:30:00Z"),
    MockEvent("3", "Graduation Celebration Party",
      "Congratulate our graduates on their amazing achievement! Food, drinks, and dancing included.",
      "2024-12-20", "16:00", "University Campus, Brooklyn", "graduation", 100, 45, ["user4", "user5"],
      "https://images.unsplash.com/photo-1523050854058-8df90110c9f1?ixlib=rb-4.0.3&auto=format&fit=crop&w=800&q=80",
      "user3", "2024-12-03T09:15:00Z"),
    MockEvent("4", "Baby Shower Delight",
      "Join us in celebrating the upcoming arrival of baby Emma! Games, gifts, and lots of love.",
      "2024-12-22", "14:00", "Community Center, Queens", "baby-shower", 30, 18, ["user6", "user7"],
      "https://images.unsplash.com/photo-1555252333-9f8e92e65df9?ixlib=rb-4.0.3&auto=format&fit=crop&w=800&q=80",
      "user4", "2024-12-04T11:45:00Z"),
    MockEvent("5", "Anniversary Dinner Party",
      "Celebrating 25 years of love and laughter. Join us for an intimate dinner celebration.",
      "2024-12-28", "20:00", "Riverside Restaurant, Manhattan", "anniversary", 40, 22, ["user8", "user9"],
      "https://images.unsplash.com/photo-1414235077428-338989a2e8c0?ixlib=rb-4.0.3&auto=format&fit=crop&w=800&q=80",
      "user5", "2024-12-05T16:20:00Z"),
    MockEvent("6", "Holiday Christmas Party",
      "Spread holiday cheer with friends and family! Santa visits, caroling, and festive treats.",
      "2024-12-24", "17:00", "Town Hall, Brooklyn", "holiday", 80, 52, ["user10", "user11"],
      "https://images.unsplash.com/photo-1512389142860-9c449e58a543?ixlib=rb-4.0.3&auto=format&fit=crop&w=800&q=80",
      "user6", "2024-12-06T13:10:00Z")
  ]

  /** The `params` object; `None` is a missing property. */
  datatype FilterParams = FilterParams(kind: Option<string>, location: Option<string>, date: Option<string>)

  /** `params?.x && params.x !== ''`: the property is present and not empty. */
  predicate Active(v: Option<string>)
  {
    v.Some? && v.value != ""
  }

  /** `array.filter(keep)`: every accepted entry, as often as it occurs. */
  function Filter(s: seq<MockEvent>, keep: MockEvent -> bool): (r: seq<MockEvent>)
    ensures |r| <= |s|
    ensures forall x :: x in r <==> x in s && keep(x)
    ensures forall x :: multiset(r)[x] == if keep(x) then multiset(s)[x] else 0
  {
    if s == [] then []
    else
      assert forall x :: x in s <==> x == s[0] || x in s[1..];
      assert s == [s[0]] + s[1..];
      (if keep(s[0]) then [s[0]] else []) + Filter(s[1..], keep)
  }

  /** A filter that rejects every entry returns nothing. */
  lemma {:induction false} FilterRejectingAll(s: seq<MockEvent>, keep: MockEvent -> bool)
    requires forall i :: 0 <= i < |s| ==> !keep(s[i])
    ensures Filter(s, keep) == []
    decreases |s|
  {
    if s != [] {
      FilterRejectingAll(s[1..], keep);
    }
  }

  /** `a` is `b` with some entries left out, the rest in their order. */
  predicate IsSubsequence(a: seq<MockEvent>, b: seq<MockEvent>)
    decreases |b|
  {
    if a == [] then true
    else if b == [] then false
    else if a[0] == b[0] then IsSubsequence(a[1..], b[1..])
    else IsSubsequence(a, b[1..])
  }

  lemma {:induction false} FilterIsSubsequence(s: seq<MockEvent>, keep: MockEvent -> bool)
    ensures IsSubsequence(Filter(s, keep), s)
    decreases |s|
  {
    if s != [] {
      FilterIsSubsequence(s[1..], keep);
      var r := Filter(s, keep);
      if keep(s[0]) {
        assert r[1..] == Filter(s[1..], keep);
      } else if r != [] {
        assert r == Filter(s[1..], keep);
        assert r[0] in r && r[0] != s[0];
      }
    }
  }

  lemma {:induction false} SubsequenceExtend(a: seq<MockEvent>, b: seq<MockEvent>)
    requires b != [] && IsSubsequence(a, b[1..])
    ensures IsSubsequence(a, b)
    decreases |b|, 0
  {
    if a != [] && a[0] == b[0] {
      SubsequenceDropHead(a, b[1..]);
    }
  }

  lemma {:induction false} SubsequenceDropHead(a: seq<MockEvent>, b: seq<MockEvent>)
    requires a != [] && IsSubsequence(a, b)
    ensures IsSubsequence(a[1..], b)
    decreases |b|, 1
  {
    if a[0] == b[0] {
      if a[1..] != [] {
        SubsequenceExtend(a[1..], b);
      }
    } else {
      SubsequenceDropHead(a, b[1..]);
      if a[1..] != [] {
        SubsequenceExtend(a[1..], b);
      }
    }
  }

  lemma {:induction false} SubsequenceTransitive(a: seq<MockEvent>, b: seq<MockEvent>, c: seq<MockEvent>)
    requires IsSubsequence(a, b) && IsSubsequence(b, c)
    ensures IsSubsequence(a, c)
    decreases |c|
  {
    if a != [] {
      if b[0] == c[0] {
        if a[0] == b[0] {
          SubsequenceTransitive(a[1..], b[1..], c[1..]);
        } else {
          SubsequenceTransitive(a, b[1..], c[1..]);
        }
      } else {
        SubsequenceTransitive(a, b, c[1..]);
        if a[0] == c[0] {
          SubsequenceDropHead(a, c[1..]);
        }
      }
    }
  }

  lemma {:induction false} SubsequenceReflexive(a: seq<MockEvent>)
    ensures IsSubsequence(a, a)
    decreases |a|
  {
    if a != [] {
      SubsequenceReflexive(a[1..]);
    }
  }

  function Params(params: Option<FilterParams>): FilterParams
  {
    if params.Some? then params.value else FilterParams(None, None, None)
  }

  function MatchesType(t: string): MockEvent -> bool
  {
    (e: MockEvent) => e.kind == t
  }

  function MatchesLocation(l: string): MockEvent -> bool
  {
    (e: MockEvent) => Contains(Lower(e.location), Lower(l))
  }

  function MatchesDate(d: string): MockEvent -> bool
  {
    (e: MockEvent) => e.date == d
  }

  /** The conjunction of the active filters, as a test on one event. */
  predicate Admits(params: Option<FilterParams>, e: MockEvent)
  {
    var p := Params(params);
    && (Active(p.kind) ==> e.kind == p.kind.value)
    && (Active(p.location) ==> Contains(Lower(e.location), Lower(p.location.value)))
    && (Active(p.date) ==> e.date == p.date.value)
  }

  /** The body of `getEvents` over any list: the type filter, then location, then date. */
  function GetEventsFrom(events: seq<MockEvent>, params: Option<FilterParams>): seq<MockEvent>
  {
    var p := Params(params);
    var byType := if Active(p.kind) then Filter(events, MatchesType(p.kind.value)) else events;
    var byLocation := if Active(p.location) then Filter(byType, MatchesLocation(p.location.value)) else byType;
    if Active(p.date) then Filter(byLocation, MatchesDate(p.date.value)) else byLocation
  }

  /** `eventsAPI.getEvents(params)`: the filter over the mock list, which itself stays as it is. */
  function GetEvents(params: Option<FilterParams>): seq<MockEvent>
  {
    GetEventsFrom(MockEvents, params)
  }

  /**
   * `getEvents` returns exactly the events that pass every active filter, as
   * an order-preserving subsequence of its input.
   */
  lemma GetEventsCorrect(events: seq<MockEvent>, params: Option<FilterParams>)
    ensures forall e :: e in GetEventsFrom(events, params) <==> e in events && Admits(params, e)
    ensures IsSubsequence(GetEventsFrom(events, params), events)
    ensures forall e :: multiset(GetEventsFrom(events, params))[e] == if Admits(params, e) then multiset(events)[e] else 0
  {
    GetEventsCounts(events, params);
    var p := Params(params);
    var byType := if Active(p.kind) then Filter(events, MatchesType(p.kind.value)) else events;
    var byLocation := if Active(p.location) then Filter(byType, MatchesLocation(p.location.value)) else byType;
    var r := GetEventsFrom(events, params);
    SubsequenceReflexive(events);
    if Active(p.kind) { FilterIsSubsequence(events, MatchesType(p.kind.value)); }
    if Active(p.location) {
      FilterIsSubsequence(byType, MatchesLocation(p.location.value));
      SubsequenceTransitive(byLocation, byType, events);
    }
    if Active(p.date) {
      FilterIsSubsequence(byLocation, MatchesDate(p.date.value));
      SubsequenceTransitive(r, byLocation, events);
    }
  }

  /** Each event that passes every active filter is kept as often as it occurs. */
  lemma GetEventsCounts(events: seq<MockEvent>, params: Option<FilterParams>)
    ensures forall e :: multiset(GetEventsFrom(events, params))[e] == if Admits(params, e) then multiset(events)[e] else 0
  {
    var p := Params(params);
    var byType := if Active(p.kind) then Filter(events, MatchesType(p.kind.value)) else events;
    var byLocation := if Active(p.location) then Filter(byType, MatchesLocation(p.location.value)) else byType;
    var r := GetEventsFrom(events, params);
    forall e
      ensures multiset(r)[e] == if Admits(params, e) then multiset(events)[e] else 0
    {
      assert multiset(byType)[e] == if Active(p.kind) && e.kind != p.kind.value then 0 else multiset(events)[e];
      assert multiset(byLocation)[e] == if Active(p.location) && !Contains(Lower(e.location), Lower(p.location.value)) then 0 else multiset(byType)[e];
    }
  }

  /** With no active filter `getEvents` returns every event in its original order. */
  lemma NoFilterReturnsAll(events: seq<MockEvent>, params: Option<FilterParams>)
    requires !Active(Params(params).kind) && !Active(Params(params).location) && !Active(Params(params).date)
    ensures GetEventsFrom(events, params) == events
  {
  }

  /** The mock list holds one event of each type but `other`, and none of type `all`. */
  lemma MockEventTypes()
    ensures |MockEvents| == 6
    ensures forall i :: 0 <= i < |MockEvents| ==> MockEvents[i].kind != "all"
  {
    assert MockEvents[0].kind == "birthday";
    assert MockEvents[1].kind == "wedding";
    assert MockEvents[2].kind == "graduation";
    assert MockEvents[3].kind == "baby-shower";
    assert MockEvents[4].kind == "anniversary";
    assert MockEvents[5].kind == "holiday";
  }

  /**
   * Unlike the server, the client has no special case for the type `all`: it
   * keeps only events whose type is literally `all`.
   */
  lemma TypeAllMatchesNothing(events: seq<MockEvent>, location: Option<string>, date: Option<string>)
    requires forall i :: 0 <= i < |events| ==> events[i].kind != "all"
    ensures GetEventsFrom(events, Some(FilterParams(Some("all"), location, date))) == []
  {
    FilterRejectingAll(events, MatchesType("all"));
  }

  /** Filtering the mock list by the type `all` therefore returns nothing. */
  lemma TypeAllMatchesNoMockEvent(location: Option<string>, date: Option<string>)
    ensures GetEvents(Some(FilterParams(Some("all"), location, date))) == []
  {
    MockEventTypes();
    TypeAllMatchesNothing(MockEvents, location, date);
  }

  /** `array.find(e => e._id === id)`: the first event with that id. */
  function FindById(events: seq<MockEvent>, id: string): (r: Option<MockEvent>)
    ensures r.None? <==> forall i :: 0 <= i < |events| ==> events[i].id != id
    ensures r.Some? ==> exists i :: 0 <= i < |events| && events[i] == r.value && r.value.id == id
                                    && forall j :: 0 <= j < i ==> events[j].id != id
    decreases |events|
  {
    if events == [] then None
    else if events[0].id == id then Some(events[0])
    else
      var r := FindById(events[1..], id);
      assert forall i :: 1 <= i < |events| ==> events[i] == events[1..][i - 1];
      if r.Some? then
        var i :| 0 <= i < |events[1..]| && events[1..][i] == r.value && r.value.id == id
                 && forall j :: 0 <= j < i ==> events[1..][j].id != id;
        assert events[i + 1] == r.value;
        r
      else
        r
  }

  /** `eventsAPI.getEvent(id)`: the mock event with that id, or undefined. */
  function GetEvent(id: string): Option<MockEvent>
  {
    FindById(MockEvents, id)
  }

  /** `eventsAPI.joinEvent(id)`: resolves with the same message whatever the id. */
  function JoinEvent(id: string): (message: string)
    ensures message == "Successfully joined the event!"
  {
    "Successfully joined the event!"
  }

  /** `eventsAPI.leaveEvent(id)`: resolves with the same message whatever the id. */
  function LeaveEvent(id: string): (message: string)
    ensures message == "Successfully left the event"
  {
    "Successfully left the event"
  }
}
