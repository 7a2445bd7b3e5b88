/**
 * The route handlers of backend/routes/events.js as an object that owns the
 * event collection and the user collection and changes them in place. Each
 * method reads, checks and writes as its handler does, and its postcondition
 * ties the new collections and the response to the matching step function of
 * Membership, whose properties MembershipProperties proves.
 */
module EventRoutes {
  import opened Wrappers
  import opened EventSchema
  import opened Membership
  import opened MembershipProperties
  import opened EventListing

  class EventService {
    var events: map<EventId, Event>
    var users: map<UserId, UserRefs>
    var nextId: nat

    /** The two collections as a value. */
    function Snapshot(): Store
      reads this
    {
      Store(events, users, nextId)
    }

    ghost predicate Valid()
      reads this
    {
      StoreValid(Snapshot())
    }

    /** A service over the given registered users, none of whom has joined or created anything. */
    constructor (members: set<UserId>)
      ensures Valid() && Consistent(Snapshot())
      ensures events == map[] && nextId == 0
      ensures users == map u | u in members :: UserRefs([], [])
    {
      events := map[];
      users := map u | u in members :: UserRefs([], []);
      nextId := 0;
    }

    /** GET /. */
    function List(q: Query): seq<(EventId, Event)>
      reads this
    {
      ListEvents(Snapshot(), q)
    }

    /** GET /:id. */
    function Get(id: EventId): Response
      reads this
    {
      GetEvent(Snapshot(), id)
    }

    /** POST /: save the validated event, then push its id onto the caller's created list. */
    method Create(caller: UserId, input: EventInput, now: Timestamp) returns (r: Response)
      requires Valid()
      modifies this
      ensures Valid()
      ensures Consistent(old(Snapshot())) ==> Consistent(Snapshot())
      ensures Step(Snapshot(), r) == CreateStep(old(Snapshot()), caller, input, now)
    {
      ghost var expected := CreateStep(Snapshot(), caller, input, now);
      CreatePreserves(Snapshot(), caller, input, now);
      var validated := Validate(input, caller, now);
      if validated.Err? {
        CreateStepRejected(Snapshot(), caller, input, now);
        return ServerError;
      }
      CreateStepAccepted(Snapshot(), caller, input, now);
      var id := SaveCreated(validated.value, caller);
      r := EventBody(id, validated.value);
      assert Step(Snapshot(), r) == expected;
    }

    /** `event.save()` under the next id, then `$push` of that id onto the creator's created list. */
    method SaveCreated(event: Event, caller: UserId) returns (id: EventId)
      modifies this
      ensures id == old(nextId) && nextId == id + 1
      ensures events == old(events)[id := event]
      ensures users == PushCreated(old(users), caller, id)
    {
      id := nextId;
      var owners := users;
      if caller in owners {
        var refs := owners[caller];
        owners := owners[caller := refs.(createdEvents := refs.createdEvents + [id])];
      }
      events, users, nextId := events[id := event], owners, nextId + 1;
    }

    /** POST /:id/join. */
    method Join(eid: EventId, caller: UserId, now: Timestamp) returns (r: Response)
      requires Valid()
      modifies this
      ensures Valid()
      ensures Consistent(old(Snapshot())) ==> Consistent(Snapshot())
      ensures Step(Snapshot(), r) == JoinStep(old(Snapshot()), eid, caller, now)
    {
      JoinPreserves(Snapshot(), eid, caller, now);
      if eid !in events {
        return NotFound;
      }
      var event := events[eid];
      if IsMember(event.attendees, caller) {
        return AlreadyJoined;
      }
      if |event.attendees| as real >= event.capacity {
        return AtCapacity;
      }
      event := event.(attendees := event.attendees + [Attendee(caller, now)]);
      if !Savable(event) {
        return ServerError;
      }
      events := events[eid := event];
      if caller in users {
        var refs := users[caller];
        users := users[caller := refs.(joinedEvents := refs.joinedEvents + [eid])];
      }
      r := EventBody(eid, event);
    }

    /** POST /:id/leave. */
    method Leave(eid: EventId, caller: UserId) returns (r: Response)
      requires Valid()
      modifies this
      ensures Valid()
      ensures Consistent(old(Snapshot())) ==> Consistent(Snapshot())
      ensures Step(Snapshot(), r) == LeaveStep(old(Snapshot()), eid, caller)
    {
      LeavePreserves(Snapshot(), eid, caller);
      if eid !in events {
        return NotFound;
      }
      var event := events[eid];
      event := event.(attendees := RemoveUser(event.attendees, caller));
      if !Savable(event) {
        return ServerError;
      }
      events := events[eid := event];
      if caller in users {
        var refs := users[caller];
        users := users[caller := refs.(joinedEvents := Pull(refs.joinedEvents, eid))];
      }
      r := EventBody(eid, event);
    }

    /** PUT /:id. */
    method Update(eid: EventId, caller: UserId, patch: EventPatch) returns (r: Response)
      requires Valid()
      modifies this
      ensures Valid()
      ensures Step(Snapshot(), r) == UpdateStep(old(Snapshot()), eid, caller, patch)
    {
      UpdatePreservesStoreValid(Snapshot(), eid, caller, patch);
      if eid !in events {
        return NotFound;
      }
      if events[eid].creator != caller {
        return NotAuthorized;
      }
      var event := ApplyPatch(events[eid], patch);
      events := events[eid := event];
      r := EventBody(eid, event);
    }

    /** DELETE /:id: remove the event, then the two `updateMany` pulls. */
    method Delete(eid: EventId, caller: UserId) returns (r: Response)
      requires Valid()
      modifies this
      ensures Valid()
      ensures Consistent(old(Snapshot())) ==> Consistent(Snapshot())
      ensures Step(Snapshot(), r) == DeleteStep(old(Snapshot()), eid, caller)
    {
      DeletePreserves(Snapshot(), eid, caller);
      if eid !in events {
        return NotFound;
      }
      if events[eid].creator != caller {
        return NotAuthorized;
      }
      ghost var before := users;
      events := events - {eid};
      users := map u | u in users :: users[u].(joinedEvents := Pull(users[u].joinedEvents, eid));
      users := map u | u in users :: users[u].(createdEvents := Pull(users[u].createdEvents, eid));
      assert users == map u | u in before :: PullEverywhere(before[u], eid);
      r := Deleted;
    }
  }

  /**
   * The scenario of an event with capacity 2: two users join, a third is
   * turned away, the count stays at 2, and a second join is a duplicate.
   */
  method CapacityScenario(service: EventService, id: EventId, a: UserId, b: UserId, c: UserId, now: Timestamp)
    returns (third: Response, again: Response)
    requires service.Valid() && id in service.events
    requires Savable(service.events[id])
    requires service.events[id].capacity == 2.0 && service.events[id].attendees == []
    requires a != b && b != c && a != c
    modifies service
    ensures third == AtCapacity && again == AlreadyJoined
    ensures id in service.events && service.events[id].attendees == [Attendee(a, now), Attendee(b, now)]
  {
    var ra := service.Join(id, a, now);
    assert ra.EventBody? && AttendeeCount(ra.event) == 1;
    var rb := service.Join(id, b, now);
    IsMemberAppend([Attendee(a, now)], Attendee(b, now), c);
    assert rb.EventBody? && AttendeeCount(rb.event) == 2;
    third := service.Join(id, c, now);
    assert service.events[id].attendees[0].user == a;
    again := service.Join(id, a, now);
  }
}
