/**
 * The membership logic of backend/routes/events.js as pure functions over
 * the two stores: one step function per mutating route handler (create,
 * join, leave, update, delete), each returning the new store and the HTTP
 * response, and the invariants the handlers keep or break.
 *
 * Each handler is modelled as one atomic step; Mongoose `populate` is a
 * projection of the response and is left as the identity.
 */
module Membership {
  import opened Wrappers
  import opened Text
  import opened EventSchema

  type EventId = nat

  /**
   * The back-reference lists the routes `$push` to and `$pull` from. They are
   * commented out of the user schema in backend/models/User.js, but the route
   * code maintains them as if they were present, and so does this model.
   */
  datatype UserRefs = UserRefs(joinedEvents: seq<EventId>, createdEvents: seq<EventId>)

  /** The event collection, the user collection and the id the next created event receives. */
  datatype Store = Store(events: map<EventId, Event>, users: map<UserId, UserRefs>, nextId: nat)

  datatype Response =
    | EventBody(id: EventId, event: Event)  // 200 with the (populated) event
    | Deleted                               // 200 { message: 'Event deleted' }
    | NotFound                              // 404 'Event not found'
    | AlreadyJoined                         // 400 'Already joined this event'
    | AtCapacity                            // 400 'Event is at full capacity'
    | NotAuthorized                         // 403 'Not authorized'
    | ServerError                           // 500, e.g. a document the schema rejects

  function StatusCode(r: Response): int
  {
    match r
    case EventBody(_, _) => 200
    case Deleted => 200
    case NotFound => 404
    case AlreadyJoined => 400
    case AtCapacity => 400
    case NotAuthorized => 403
    case ServerError => 500
  }

  /** The store after a handler and the response it sent. */
  datatype Step = Step(store: Store, response: Response)

  // ---------------------------------------------------------------------
  // Attendee lists and id lists

  /** `attendees.some(a => a.user === u)`. */
  predicate IsMember(atts: seq<Attendee>, u: UserId)
  {
    exists i :: 0 <= i < |atts| && atts[i].user == u
  }

  /** No user appears twice in an attendee list. */
  predicate DistinctUsers(atts: seq<Attendee>)
  {
    forall i, j :: 0 <= i < j < |atts| ==> atts[i].user != atts[j].user
  }

  /** `attendees.filter(a => a.user !== u)`: the entries of every other user, in order. */
  function RemoveUser(atts: seq<Attendee>, u: UserId): (r: seq<Attendee>)
    ensures |r| <= |atts|
    ensures forall a :: a in r <==> a in atts && a.user != u
    decreases |atts|
  {
    if atts == [] then []
    else
      var rest := RemoveUser(atts[1..], u);
      assert forall a :: a in atts <==> a == atts[0] || a in atts[1..];
      (if atts[0].user != u then [atts[0]] else []) + rest
  }

  lemma RemovedUserIsGone(atts: seq<Attendee>, u: UserId)
    ensures !IsMember(RemoveUser(atts, u), u)
  {
    var r := RemoveUser(atts, u);
    forall i | 0 <= i < |r|
      ensures r[i].user != u
    {
      assert r[i] in r;
    }
  }

  /** Filtering out a user who is not an attendee leaves the list as it was. */
  lemma {:induction false} RemoveAbsentUser(atts: seq<Attendee>, u: UserId)
    requires !IsMember(atts, u)
    ensures RemoveUser(atts, u) == atts
    decreases |atts|
  {
    if atts != [] {
      var rest := atts[1..];
      assert atts[0].user != u;
      assert !IsMember(rest, u) by {
        forall i | 0 <= i < |rest|
          ensures rest[i].user != u
        {
          assert rest[i] == atts[i + 1];
        }
      }
      RemoveAbsentUser(rest, u);
      assert RemoveUser(atts, u) == [atts[0]] + rest;
      assert [atts[0]] + rest == atts;
    }
  }

  /** The filter works entry by entry, so it keeps the relative order of what it keeps. */
  lemma {:induction false} RemoveUserAppend(a: seq<Attendee>, b: seq<Attendee>, u: UserId)
    ensures RemoveUser(a + b, u) == RemoveUser(a, u) + RemoveUser(b, u)
    decreases |a|
  {
    if a == [] {
      assert a + b == b;
    } else {
      assert (a + b)[0] == a[0];
      assert (a + b)[1..] == a[1..] + b;
      RemoveUserAppend(a[1..], b, u);
    }
  }

  lemma {:induction false} RemoveUserKeepsDistinct(atts: seq<Attendee>, u: UserId)
    requires DistinctUsers(atts)
    ensures DistinctUsers(RemoveUser(atts, u))
    decreases |atts|
  {
    if atts != [] {
      var rest := RemoveUser(atts[1..], u);
      RemoveUserKeepsDistinct(atts[1..], u);
      forall j | 0 <= j < |rest|
        ensures rest[j].user != atts[0].user
      {
        assert rest[j] in rest;
        var k :| 0 <= k < |atts[1..]| && atts[1..][k] == rest[j];
        assert atts[k + 1] == rest[j];
      }
    }
  }

  /** `$pull`: every occurrence of `id` is removed, everything else is kept in order. */
  function Pull(ids: seq<EventId>, id: EventId): (r: seq<EventId>)
    ensures forall x :: x in r <==> x in ids && x != id
    decreases |ids|
  {
    if ids == [] then []
    else
      assert forall x :: x in ids <==> x == ids[0] || x in ids[1..];
      (if ids[0] != id then [ids[0]] else []) + Pull(ids[1..], id)
  }

  /** Pulling an id that is not there changes nothing. */
  lemma {:induction false} PullAbsent(ids: seq<EventId>, id: EventId)
    requires id !in ids
    ensures Pull(ids, id) == ids
    decreases |ids|
  {
    if ids != [] {
      PullAbsent(ids[1..], id);
      assert ids == [ids[0]] + ids[1..];
    }
  }

  /** Pulling an id just pushed onto a list without it restores the list. */
  lemma {:induction false} PullUndoesPush(ids: seq<EventId>, id: EventId)
    requires id !in ids
    ensures Pull(ids + [id], id) == ids
    decreases |ids|
  {
    if ids == [] {
      assert Pull([id][1..], id) == [];
    } else {
      assert (ids + [id])[1..] == ids[1..] + [id];
      PullUndoesPush(ids[1..], id);
      assert ids == [ids[0]] + ids[1..];
    }
  }

  // ---------------------------------------------------------------------
  // Store invariants

  /** Every stored event id is below the next id to be handed out. */
  predicate FreshIds(s: Store)
  {
    forall id :: id in s.events ==> id < s.nextId
  }

  predicate RefsIn(r: UserRefs, events: map<EventId, Event>)
  {
    && (forall id :: id in r.joinedEvents ==> id in events)
    && (forall id :: id in r.createdEvents ==> id in events)
  }

  /** No user's joined or created list names an event that does not exist. */
  predicate NoDanglingRefs(s: Store)
  {
    forall u :: u in s.users ==> RefsIn(s.users[u], s.events)
  }

  /** The invariant every handler keeps. */
  predicate StoreValid(s: Store)
  {
    FreshIds(s) && NoDanglingRefs(s)
  }

  /**
   * `n` attendees fit a capacity when the capacity, rounded up to a whole
   * number, is at least `n`: the join check `length >= capacity` lets the
   * list grow while it is shorter than the capacity.
   */
  predicate WithinCapacity(n: nat, capacity: real)
  {
    (n as real) < capacity + 1.0
  }

  /** For a whole-number capacity, fitting it is the plain bound `n <= capacity`. */
  lemma WithinWholeCapacity(n: nat, capacity: real)
    requires capacity == capacity.Floor as real
    ensures WithinCapacity(n, capacity) <==> (n as real) <= capacity
  {
    var k := capacity.Floor;
    assert WithinCapacity(n, capacity) <==> n < k + 1;
    assert (n as real) <= capacity <==> n <= k;
  }

  /** No event holds more attendees than its capacity rounded up. */
  predicate CapacityRespected(s: Store)
  {
    forall id :: id in s.events ==> WithinCapacity(|s.events[id].attendees|, s.events[id].capacity)
  }

  /** No event lists the same user twice. */
  predicate AttendeesDistinct(s: Store)
  {
    forall id :: id in s.events ==> DistinctUsers(s.events[id].attendees)
  }

  predicate MirroredAt(s: Store, u: UserId, id: EventId)
    requires u in s.users && id in s.events
  {
    id in s.users[u].joinedEvents <==> IsMember(s.events[id].attendees, u)
  }

  /** A stored user's joined list and the events' attendee lists say the same thing. */
  predicate Mirrored(s: Store)
  {
    forall u, id :: u in s.users && id in s.events ==> MirroredAt(s, u, id)
  }

  // ---------------------------------------------------------------------
  // The handlers

  /** `$push: { createdEvents: id }` on the caller, a no-op when no such user is stored. */
  function PushCreated(users: map<UserId, UserRefs>, u: UserId, id: EventId): (r: map<UserId, UserRefs>)
    ensures r.Keys == users.Keys
    ensures u in users ==> r[u] == users[u].(createdEvents := users[u].createdEvents + [id])
    ensures forall v :: v in users && v != u ==> r[v] == users[v]
  {
    if u in users then users[u := users[u].(createdEvents := users[u].createdEvents + [id])] else users
  }

  /** `$push: { joinedEvents: id }` on the caller, a no-op when no such user is stored. */
  function PushJoined(users: map<UserId, UserRefs>, u: UserId, id: EventId): (r: map<UserId, UserRefs>)
    ensures r.Keys == users.Keys
    ensures u in users ==> r[u] == users[u].(joinedEvents := users[u].joinedEvents + [id])
    ensures forall v :: v in users && v != u ==> r[v] == users[v]
  {
    if u in users then users[u := users[u].(joinedEvents := users[u].joinedEvents + [id])] else users
  }

  /** `$pull: { joinedEvents: id }` on the caller, a no-op when no such user is stored. */
  function PullJoined(users: map<UserId, UserRefs>, u: UserId, id: EventId): (r: map<UserId, UserRefs>)
    ensures r.Keys == users.Keys
    ensures u in users ==> r[u] == users[u].(joinedEvents := Pull(users[u].joinedEvents, id))
    ensures forall v :: v in users && v != u ==> r[v] == users[v]
  {
    if u in users then users[u := users[u].(joinedEvents := Pull(users[u].joinedEvents, id))] else users
  }

  /** POST /: validate and store a new event created by the caller. */
  function CreateStep(s: Store, caller: UserId, input: EventInput, now: Timestamp): (r: Step)
    ensures r.response.ServerError? <==> !Acceptable(input)
    ensures r.response.ServerError? ==> r.store == s
    ensures r.response.EventBody? ==>
      var id := s.nextId;
      && r.response.id == id
      && id in r.store.events && r.response.event == r.store.events[id]
      && ValidEvent(r.response.event)
      && r.response.event.creator == caller
      && r.response.event.attendees == []
      && r.store.events == s.events[id := r.response.event]
      && r.store.nextId == id + 1
      && r.store.users.Keys == s.users.Keys
      && (caller in s.users ==> r.store.users[caller].createdEvents == s.users[caller].createdEvents + [id]
                                && r.store.users[caller].joinedEvents == s.users[caller].joinedEvents)
      && (forall u :: u in s.users && u != caller ==> r.store.users[u] == s.users[u])
    ensures r.response.ServerError? || r.response.EventBody?
  {
    match Validate(input, caller, now)
    case Err(_) => Step(s, ServerError)
    case Ok(e) =>
      var id := s.nextId;
      Step(Store(s.events[id := e], PushCreated(s.users, caller, id), id + 1), EventBody(id, e))
  }

  /** Storing under a counter above every key adds exactly that key and keeps the keys below the next counter. */
  lemma StoreUnderCounter(events: map<EventId, Event>, next: EventId, e: Event, stored: map<EventId, Event>)
    requires forall id :: id in events ==> id < next
    requires stored == events[next := e]
    ensures next !in events
    ensures stored.Keys == events.Keys + {next}
    ensures forall id :: id in stored ==> id < next + 1
  {
  }

  /**
   * In a store whose ids are all below the counter, create takes a fresh id:
   * no stored event is overwritten, and the new id is the only one added.
   */
  lemma CreateUsesFreshId(s: Store, caller: UserId, input: EventInput, now: Timestamp)
    requires FreshIds(s)
    ensures var r := CreateStep(s, caller, input, now);
      r.response.EventBody? ==>
        && r.response.id !in s.events
        && r.store.events.Keys == s.events.Keys + {r.response.id}
        && FreshIds(r.store)
  {
    var r := CreateStep(s, caller, input, now);
    if r.response.EventBody? {
      StoreUnderCounter(s.events, s.nextId, r.response.event, r.store.events);
    }
  }

  /** A rejected request changes nothing and is answered with 500. */
  lemma CreateStepRejected(s: Store, caller: UserId, input: EventInput, now: Timestamp)
    requires Validate(input, caller, now).Err?
    ensures CreateStep(s, caller, input, now) == Step(s, ServerError)
  {
  }

  /** The store and response `CreateStep` produces for an accepted request. */
  lemma CreateStepAccepted(s: Store, caller: UserId, input: EventInput, now: Timestamp)
    requires Validate(input, caller, now).Ok?
    ensures var e := Validate(input, caller, now).value;
      CreateStep(s, caller, input, now)
        == Step(Store(s.events[s.nextId := e], PushCreated(s.users, caller, s.nextId), s.nextId + 1), EventBody(s.nextId, e))
  {
  }

  /**
   * POST /:id/join: the existence, duplicate and capacity checks, in that
   * order, then `save()`, which re-validates the whole document and answers
   * 500 when a field written by an earlier update fails, then the push onto
   * the caller's joined list.
   */
  function JoinStep(s: Store, eid: EventId, caller: UserId, now: Timestamp): (r: Step)
    ensures r.response.NotFound? <==> eid !in s.events
    ensures r.response.AlreadyJoined? <==> eid in s.events && IsMember(s.events[eid].attendees, caller)
    ensures r.response.AtCapacity? <==>
      eid in s.events && !IsMember(s.events[eid].attendees, caller)
      && |s.events[eid].attendees| as real >= s.events[eid].capacity
    ensures r.response.ServerError? <==>
      eid in s.events && !IsMember(s.events[eid].attendees, caller)
      && (|s.events[eid].attendees| as real) < s.events[eid].capacity
      && !Savable(s.events[eid])
    ensures !r.response.EventBody? ==> r.store == s
    ensures r.response.EventBody? ==>
      var old_ := s.events[eid];
      && (|old_.attendees| as real) < old_.capacity
      && Savable(old_)
      && r.response.id == eid && eid in r.store.events && r.response.event == r.store.events[eid]
      && r.response.event == old_.(attendees := old_.attendees + [Attendee(caller, now)])
      && WithinCapacity(|r.response.event.attendees|, r.response.event.capacity)
      && r.store.events == s.events[eid := r.response.event]
      && r.store.nextId == s.nextId
      && r.store.users.Keys == s.users.Keys
      && (caller in s.users ==> r.store.users[caller].joinedEvents == s.users[caller].joinedEvents + [eid]
                                && r.store.users[caller].createdEvents == s.users[caller].createdEvents)
      && (forall u :: u in s.users && u != caller ==> r.store.users[u] == s.users[u])
    ensures r.response.NotFound? || r.response.AlreadyJoined? || r.response.AtCapacity?
            || r.response.ServerError? || r.response.EventBody?
  {
    if eid !in s.events then Step(s, NotFound)
    else
      var e := s.events[eid];
      if IsMember(e.attendees, caller) then Step(s, AlreadyJoined)
      else if |e.attendees| as real >= e.capacity then Step(s, AtCapacity)
      else
        var e' := e.(attendees := e.attendees + [Attendee(caller, now)]);
        if !Savable(e') then Step(s, ServerError)
        else Step(Store(s.events[eid := e'], PushJoined(s.users, caller, eid), s.nextId), EventBody(eid, e'))
  }

  /**
   * POST /:id/leave: filter the caller out of the attendees, `save()` (500
   * when the re-validation fails), then pull the id from the caller's joined
   * list.
   */
  function LeaveStep(s: Store, eid: EventId, caller: UserId): (r: Step)
    ensures r.response.NotFound? <==> eid !in s.events
    ensures r.response.ServerError? <==> eid in s.events && !Savable(s.events[eid])
    ensures !r.response.EventBody? ==> r.store == s
    ensures r.response.EventBody? ==>
      && r.response.id == eid && eid in r.store.events && r.response.event == r.store.events[eid]
      && r.response.event == s.events[eid].(attendees := RemoveUser(s.events[eid].attendees, caller))
      && !IsMember(r.response.event.attendees, caller)
      && r.store.events.Keys == s.events.Keys
      && (forall id :: id in s.events && id != eid ==> r.store.events[id] == s.events[id])
      && r.store.nextId == s.nextId
      && r.store.users.Keys == s.users.Keys
      && (caller in s.users ==> r.store.users[caller].joinedEvents == Pull(s.users[caller].joinedEvents, eid)
                                && r.store.users[caller].createdEvents == s.users[caller].createdEvents)
      && (forall u :: u in s.users && u != caller ==> r.store.users[u] == s.users[u])
    ensures r.response.NotFound? || r.response.ServerError? || r.response.EventBody?
  {
    if eid !in s.events then Step(s, NotFound)
    else
      var e := s.events[eid];
      var e' := e.(attendees := RemoveUser(e.attendees, caller));
      RemovedUserIsGone(e.attendees, caller);
      if !Savable(e') then Step(s, ServerError)
      else Step(Store(s.events[eid := e'], PullJoined(s.users, caller, eid), s.nextId), EventBody(eid, e'))
  }

  /**
   * The body of a PUT request: any schema path may be given, including the
   * creator and the attendee list, since the route passes the body through.
   */
  datatype EventPatch = EventPatch(
    name: Option<string>,
    kind: Option<string>,
    date: Option<Timestamp>,
    location: Option<string>,
    dressCode: Option<string>,
    capacity: Option<real>,
    attendees: Option<seq<Attendee>>,
    description: Option<string>,
    image: Option<string>,
    coordinates: Option<Coordinates>,
    privacy: Option<string>,
    creator: Option<UserId>)

  function Patched<T>(v: Option<T>, current: T): T
  {
    if v.Some? then v.value else current
  }

  /**
   * `findByIdAndUpdate(id, body)`: the given fields replace the stored ones
   * (after the `trim` setters), the others are kept, and no validator runs.
   */
  function ApplyPatch(e: Event, p: EventPatch): Event
  {
    Event(
      name := if p.name.Some? then Trim(p.name.value) else e.name,
      kind := Patched(p.kind, e.kind),
      date := Patched(p.date, e.date),
      location := Patched(p.location, e.location),
      dressCode := Patched(p.dressCode, e.dressCode),
      capacity := Patched(p.capacity, e.capacity),
      attendees := Patched(p.attendees, e.attendees),
      description := if p.description.Some? then Some(Trim(p.description.value)) else e.description,
      image := Patched(p.image, e.image),
      coordinates := if p.coordinates.Some? then p.coordinates else e.coordinates,
      privacy := Patched(p.privacy, e.privacy),
      creator := Patched(p.creator, e.creator),
      createdAt := e.createdAt)
  }

  /** The patch that changes nothing. */
  const EmptyPatch := EventPatch(None, None, None, None, None, None, None, None, None, None, None, None)

  /** PUT /:id: only the creator may update; the patch is merged without any re-validation. */
  function UpdateStep(s: Store, eid: EventId, caller: UserId, patch: EventPatch): (r: Step)
    ensures r.response.NotFound? <==> eid !in s.events
    ensures r.response.NotAuthorized? <==> eid in s.events && s.events[eid].creator != caller
    ensures !r.response.EventBody? ==> r.store == s
    ensures r.response.EventBody? ==>
      && r.response.id == eid && eid in r.store.events && r.response.event == r.store.events[eid]
      && r.store == s.(events := s.events[eid := ApplyPatch(s.events[eid], patch)])
    ensures r.response.NotFound? || r.response.NotAuthorized? || r.response.EventBody?
  {
    if eid !in s.events then Step(s, NotFound)
    else if s.events[eid].creator != caller then Step(s, NotAuthorized)
    else
      var e' := ApplyPatch(s.events[eid], patch);
      Step(s.(events := s.events[eid := e']), EventBody(eid, e'))
  }

  /** Both `$pull`s of the delete cascade on one user. */
  function PullEverywhere(r: UserRefs, id: EventId): (r': UserRefs)
    ensures id !in r'.joinedEvents && id !in r'.createdEvents
    ensures forall x :: x != id ==> (x in r'.joinedEvents <==> x in r.joinedEvents)
    ensures forall x :: x != id ==> (x in r'.createdEvents <==> x in r.createdEvents)
  {
    r.(joinedEvents := Pull(r.joinedEvents, id), createdEvents := Pull(r.createdEvents, id))
  }

  /** DELETE /:id: only the creator may delete; the id is then pulled from every user's lists. */
  function DeleteStep(s: Store, eid: EventId, caller: UserId): (r: Step)
    ensures r.response.NotFound? <==> eid !in s.events
    ensures r.response.NotAuthorized? <==> eid in s.events && s.events[eid].creator != caller
    ensures !r.response.Deleted? ==> r.store == s
    ensures r.response.Deleted? ==>
      && r.store.events == s.events - {eid}
      && r.store.nextId == s.nextId
      && r.store.users.Keys == s.users.Keys
      && (forall u :: u in s.users ==> r.store.users[u] == PullEverywhere(s.users[u], eid))
      && (forall u :: u in r.store.users ==>
            eid !in r.store.users[u].joinedEvents && eid !in r.store.users[u].createdEvents)
    ensures r.response.NotFound? || r.response.NotAuthorized? || r.response.Deleted?
  {
    if eid !in s.events then Step(s, NotFound)
    else if s.events[eid].creator != caller then Step(s, NotAuthorized)
    else
      var users := map u | u in s.users :: PullEverywhere(s.users[u], eid);
      Step(Store(s.events - {eid}, users, s.nextId), Deleted)
  }
}
