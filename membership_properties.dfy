/**
 * What the membership handlers keep and what they break: the store
 * invariant every handler preserves, the consistency that create, join,
 * leave and delete preserve and update does not, and the laws relating
 * join and leave.
 */
module MembershipProperties {
  import opened Wrappers
  import opened EventSchema
  import opened Membership

  /** Everything the membership handlers are meant to keep true together. */
  predicate Consistent(s: Store)
  {
    StoreValid(s) && CapacityRespected(s) && AttendeesDistinct(s) && Mirrored(s)
  }

  lemma IsMemberAppend(atts: seq<Attendee>, a: Attendee, u: UserId)
    ensures IsMember(atts + [a], u) <==> IsMember(atts, u) || a.user == u
  {
    var l := atts + [a];
    if IsMember(l, u) && a.user != u {
      var i :| 0 <= i < |l| && l[i].user == u;
      assert i < |atts| && atts[i].user == u;
    }
    if IsMember(atts, u) {
      var i :| 0 <= i < |atts| && atts[i].user == u;
      assert l[i].user == u;
    }
    if a.user == u {
      assert l[|atts|].user == u;
    }
  }

  /** Filtering out one user does not change whether anybody else is an attendee. */
  lemma IsMemberRemoveOther(atts: seq<Attendee>, caller: UserId, u: UserId)
    requires u != caller
    ensures IsMember(RemoveUser(atts, caller), u) <==> IsMember(atts, u)
  {
    var r := RemoveUser(atts, caller);
    if IsMember(r, u) {
      var i :| 0 <= i < |r| && r[i].user == u;
      assert r[i] in r;
      var k :| 0 <= k < |atts| && atts[k] == r[i];
    }
    if IsMember(atts, u) {
      var i :| 0 <= i < |atts| && atts[i].user == u;
      assert atts[i] in atts;
      var k :| 0 <= k < |r| && r[k] == atts[i];
    }
  }

  /** Every id a user list names is below `nextId`, so the next created id is in no list. */
  lemma NextIdUnreferenced(s: Store, u: UserId)
    requires StoreValid(s) && u in s.users
    ensures s.nextId !in s.users[u].joinedEvents && s.nextId !in s.users[u].createdEvents
  {
  }

  /** POST / keeps the store invariant and the consistency of the two stores. */
  lemma CreatePreserves(s: Store, caller: UserId, input: EventInput, now: Timestamp)
    requires StoreValid(s)
    ensures StoreValid(CreateStep(s, caller, input, now).store)
    ensures Consistent(s) ==> Consistent(CreateStep(s, caller, input, now).store)
  {
    var r := CreateStep(s, caller, input, now);
    if r.response.EventBody? {
      CreateKeepsRefs(s, r);
      if Consistent(s) {
        CreateKeepsMirror(s, r);
        CreateKeepsAttendees(s, r);
      }
    }
  }

  lemma CreateKeepsAttendees(s: Store, r: Step)
    requires CapacityRespected(s) && AttendeesDistinct(s)
    requires r.response.EventBody? && ValidEvent(r.response.event) && r.response.event.attendees == []
    requires r.store.events == s.events[s.nextId := r.response.event]
    ensures CapacityRespected(r.store) && AttendeesDistinct(r.store)
  {
  }

  lemma CreateKeepsRefs(s: Store, r: Step)
    requires StoreValid(s) && r.response.EventBody?
    requires r.store.events == s.events[s.nextId := r.response.event] && r.store.nextId == s.nextId + 1
    requires r.store.users.Keys == s.users.Keys
    requires forall u :: u in s.users ==> r.store.users[u].joinedEvents == s.users[u].joinedEvents
    requires forall u :: u in s.users ==> r.store.users[u].createdEvents <= s.users[u].createdEvents + [s.nextId]
    ensures StoreValid(r.store)
  {
    var t := r.store;
    forall u | u in t.users
      ensures RefsIn(t.users[u], t.events)
    {
      assert RefsIn(s.users[u], s.events);
    }
  }

  lemma CreateKeepsMirror(s: Store, r: Step)
    requires StoreValid(s) && Mirrored(s) && r.response.EventBody? && r.response.event.attendees == []
    requires r.store.events == s.events[s.nextId := r.response.event]
    requires r.store.users.Keys == s.users.Keys
    requires forall u :: u in s.users ==> r.store.users[u].joinedEvents == s.users[u].joinedEvents
    ensures Mirrored(r.store)
  {
    var t := r.store;
    forall u, x | u in t.users && x in t.events
      ensures MirroredAt(t, u, x)
    {
      if x == s.nextId {
        NextIdUnreferenced(s, u);
      } else {
        assert MirroredAt(s, u, x);
      }
    }
  }

  /** POST /:id/join keeps the store invariant and the consistency of the two stores. */
  lemma JoinPreserves(s: Store, eid: EventId, caller: UserId, now: Timestamp)
    requires StoreValid(s)
    ensures StoreValid(JoinStep(s, eid, caller, now).store)
    ensures Consistent(s) ==> Consistent(JoinStep(s, eid, caller, now).store)
  {
    var r := JoinStep(s, eid, caller, now);
    if r.response.EventBody? {
      var t := r.store;
      var a := Attendee(caller, now);
      forall u | u in t.users
        ensures RefsIn(t.users[u], t.events)
      {
        assert u in s.users && RefsIn(s.users[u], s.events);
      }
      if Consistent(s) {
        forall u, x | u in t.users && x in t.events
          ensures MirroredAt(t, u, x)
        {
          assert MirroredAt(s, u, x);
          if x == eid {
            IsMemberAppend(s.events[eid].attendees, a, u);
          }
        }
        assert DistinctUsers(t.events[eid].attendees) by {
          var atts := s.events[eid].attendees;
          assert DistinctUsers(atts);
          forall i | 0 <= i < |atts|
            ensures atts[i].user != caller
          {
          }
        }
      }
    }
  }

  /** POST /:id/leave keeps the store invariant and the consistency of the two stores. */
  lemma LeavePreserves(s: Store, eid: EventId, caller: UserId)
    requires StoreValid(s)
    ensures StoreValid(LeaveStep(s, eid, caller).store)
    ensures Consistent(s) ==> Consistent(LeaveStep(s, eid, caller).store)
  {
    var r := LeaveStep(s, eid, caller);
    if r.response.EventBody? {
      var t := r.store;
      forall u | u in t.users
        ensures RefsIn(t.users[u], t.events)
      {
        assert u in s.users && RefsIn(s.users[u], s.events);
      }
      if Consistent(s) {
        var atts := s.events[eid].attendees;
        forall u, x | u in t.users && x in t.events
          ensures MirroredAt(t, u, x)
        {
          assert MirroredAt(s, u, x);
          if x == eid && u != caller {
            IsMemberRemoveOther(atts, caller, u);
          }
        }
        RemoveUserKeepsDistinct(atts, caller);
        assert |t.events[eid].attendees| <= |atts|;
      }
    }
  }

  /** PUT /:id keeps the store invariant (the id sets and user lists are untouched). */
  lemma UpdatePreservesStoreValid(s: Store, eid: EventId, caller: UserId, patch: EventPatch)
    requires StoreValid(s)
    ensures StoreValid(UpdateStep(s, eid, caller, patch).store)
  {
    var r := UpdateStep(s, eid, caller, patch);
    if r.response.EventBody? {
      forall u | u in r.store.users
        ensures RefsIn(r.store.users[u], r.store.events)
      {
        assert RefsIn(s.users[u], s.events);
      }
    }
  }

  /** DELETE /:id keeps the store invariant: no user list names the deleted event. */
  lemma DeletePreserves(s: Store, eid: EventId, caller: UserId)
    requires StoreValid(s)
    ensures StoreValid(DeleteStep(s, eid, caller).store)
    ensures Consistent(s) ==> Consistent(DeleteStep(s, eid, caller).store)
  {
    var r := DeleteStep(s, eid, caller);
    if r.response.Deleted? {
      var t := r.store;
      forall u | u in t.users
        ensures RefsIn(t.users[u], t.events)
      {
        assert u in s.users && RefsIn(s.users[u], s.events);
        assert t.users[u] == PullEverywhere(s.users[u], eid);
      }
      if Consistent(s) {
        forall u, x | u in t.users && x in t.events
          ensures MirroredAt(t, u, x)
        {
          assert MirroredAt(s, u, x);
          assert t.users[u] == PullEverywhere(s.users[u], eid);
        }
      }
    }
  }

  /**
   * Update runs no validator: the creator can set the capacity below the
   * number of attendees, and the capacity bound no longer holds.
   */
  lemma UpdateCanExceedCapacity(s: Store, eid: EventId, caller: UserId, c: real)
    requires eid in s.events && s.events[eid].creator == caller
    requires c + 1.0 <= |s.events[eid].attendees| as real
    ensures UpdateStep(s, eid, caller, EmptyPatch.(capacity := Some(c))).response.EventBody?
    ensures !CapacityRespected(UpdateStep(s, eid, caller, EmptyPatch.(capacity := Some(c))).store)
  {
    var t := UpdateStep(s, eid, caller, EmptyPatch.(capacity := Some(c))).store;
    assert !WithinCapacity(|t.events[eid].attendees|, t.events[eid].capacity);
  }

  /**
   * The schema accepts a capacity that is not a whole number, and the join
   * check `length >= capacity` then admits one attendee more than the
   * capacity: two attendees of a capacity of 2.5 do not fill it, so a third
   * joins.
   */
  lemma JoinOvershootsFractionalCapacity(s: Store, eid: EventId, caller: UserId, now: Timestamp)
    requires eid in s.events && Savable(s.events[eid]) && s.events[eid].capacity == 2.5
    requires |s.events[eid].attendees| == 2 && !IsMember(s.events[eid].attendees, caller)
    ensures JoinStep(s, eid, caller, now).response.EventBody?
    ensures var e := JoinStep(s, eid, caller, now).response.event;
            AttendeeCount(e) == 3 && AttendeeCount(e) as real > e.capacity
  {
    assert Savable(s.events[eid].(attendees := s.events[eid].attendees + [Attendee(caller, now)]));
  }

  /** Update can write an attendee list that names a user twice. */
  lemma UpdateCanDuplicateAttendees(s: Store, eid: EventId, caller: UserId, a: Attendee)
    requires eid in s.events && s.events[eid].creator == caller
    ensures !AttendeesDistinct(UpdateStep(s, eid, caller, EmptyPatch.(attendees := Some([a, a]))).store)
  {
    var t := UpdateStep(s, eid, caller, EmptyPatch.(attendees := Some([a, a]))).store;
    assert t.events[eid].attendees[0].user == t.events[eid].attendees[1].user;
  }

  /**
   * Update can empty an attendee list without touching the users' joined
   * lists, so the two stores no longer agree.
   */
  lemma UpdateCanBreakMirror(s: Store, eid: EventId, caller: UserId, u: UserId)
    requires Mirrored(s) && eid in s.events && s.events[eid].creator == caller
    requires u in s.users && IsMember(s.events[eid].attendees, u)
    ensures !Mirrored(UpdateStep(s, eid, caller, EmptyPatch.(attendees := Some([]))).store)
  {
    var t := UpdateStep(s, eid, caller, EmptyPatch.(attendees := Some([]))).store;
    assert MirroredAt(s, u, eid);
    assert !MirroredAt(t, u, eid);
  }

  /** Update cannot be used by anyone but the creator, and a patch that gives nothing changes nothing. */
  lemma UpdateWithEmptyPatchChangesNothing(s: Store, eid: EventId, caller: UserId)
    ensures UpdateStep(s, eid, caller, EmptyPatch).store == s
  {
    if eid in s.events && s.events[eid].creator == caller {
      assert ApplyPatch(s.events[eid], EmptyPatch) == s.events[eid];
      assert s.events[eid := s.events[eid]] == s.events;
    }
  }

  /** Leaving twice is leaving once. */
  lemma LeaveIdempotent(s: Store, eid: EventId, caller: UserId)
    ensures LeaveStep(LeaveStep(s, eid, caller).store, eid, caller).store == LeaveStep(s, eid, caller).store
  {
    var t := LeaveStep(s, eid, caller).store;
    if eid in s.events && Savable(s.events[eid]) {
      var t2 := LeaveStep(t, eid, caller).store;
      RemoveAbsentUser(t.events[eid].attendees, caller);
      assert t2.events[eid] == t.events[eid];
      assert t2.events == t.events;
      if caller in t.users {
        PullAbsent(t.users[caller].joinedEvents, eid);
        assert t2.users[caller] == t.users[caller];
      }
      assert t2.users == t.users;
    }
  }

  /**
   * Leaving an event one has not joined changes nothing, when the two stores
   * agree beforehand.
   */
  lemma LeaveByNonMemberChangesNothing(s: Store, eid: EventId, caller: UserId)
    requires Mirrored(s) && eid in s.events && !IsMember(s.events[eid].attendees, caller)
    ensures LeaveStep(s, eid, caller).store == s
  {
    var t := LeaveStep(s, eid, caller).store;
    RemoveAbsentUser(s.events[eid].attendees, caller);
    assert t.events == s.events;
    if caller in s.users {
      assert MirroredAt(s, caller, eid);
      PullAbsent(s.users[caller].joinedEvents, eid);
    }
    assert t.users == s.users;
  }

  /** Filtering a user out of a list that gained that user's entry at the end gives back the list. */
  lemma RemoveUndoesAppend(atts: seq<Attendee>, a: Attendee)
    requires !IsMember(atts, a.user)
    ensures RemoveUser(atts + [a], a.user) == atts
  {
    RemoveUserAppend(atts, [a], a.user);
    RemoveAbsentUser(atts, a.user);
    assert RemoveUser([a], a.user) == [];
  }

  /** A successful join followed by a leave of the same user restores both stores exactly. */
  lemma JoinThenLeaveRestores(s: Store, eid: EventId, caller: UserId, now: Timestamp)
    requires Mirrored(s)
    requires JoinStep(s, eid, caller, now).response.EventBody?
    ensures LeaveStep(JoinStep(s, eid, caller, now).store, eid, caller).store == s
  {
    var j := JoinStep(s, eid, caller, now).store;
    var t := LeaveStep(j, eid, caller).store;
    RemoveUndoesAppend(s.events[eid].attendees, Attendee(caller, now));
    assert t.events[eid] == s.events[eid];
    assert t.events == s.events;
    if caller in s.users {
      assert MirroredAt(s, caller, eid);
      PullUndoesPush(s.users[caller].joinedEvents, eid);
      assert t.users[caller] == s.users[caller];
    }
    assert t.users == s.users;
  }

  /** Joining again after a successful join is refused as a duplicate and changes nothing. */
  lemma SecondJoinIsDuplicate(s: Store, eid: EventId, caller: UserId, now: Timestamp, later: Timestamp)
    requires JoinStep(s, eid, caller, now).response.EventBody?
    ensures var j := JoinStep(s, eid, caller, now).store;
            JoinStep(j, eid, caller, later) == Step(j, AlreadyJoined)
  {
    var j := JoinStep(s, eid, caller, now).store;
    IsMemberAppend(s.events[eid].attendees, Attendee(caller, now), caller);
  }

  /** A successful join raises `attendeeCount` by exactly one. */
  lemma JoinRaisesAttendeeCount(s: Store, eid: EventId, caller: UserId, now: Timestamp)
    requires JoinStep(s, eid, caller, now).response.EventBody?
    ensures AttendeeCount(JoinStep(s, eid, caller, now).response.event) == AttendeeCount(s.events[eid]) + 1
  {
  }

  lemma {:induction false} RemoveOnceLength(atts: seq<Attendee>, u: UserId)
    requires DistinctUsers(atts) && IsMember(atts, u)
    ensures |RemoveUser(atts, u)| == |atts| - 1
    decreases |atts|
  {
    var rest := atts[1..];
    if atts[0].user == u {
      forall i | 0 <= i < |rest|
        ensures rest[i].user != u
      {
        assert rest[i] == atts[i + 1];
      }
      RemoveAbsentUser(rest, u);
    } else {
      var i :| 0 <= i < |atts| && atts[i].user == u;
      assert rest[i - 1].user == u;
      RemoveOnceLength(rest, u);
    }
  }

  /**
   * Leaving an event one attends succeeds exactly when the event still
   * passes its validators, and then lowers `attendeeCount` by exactly one,
   * when no user is listed twice.
   */
  lemma LeaveLowersAttendeeCount(s: Store, eid: EventId, caller: UserId)
    requires AttendeesDistinct(s) && eid in s.events && IsMember(s.events[eid].attendees, caller)
    ensures LeaveStep(s, eid, caller).response.EventBody? <==> Savable(s.events[eid])
    ensures LeaveStep(s, eid, caller).response.EventBody? ==>
              AttendeeCount(LeaveStep(s, eid, caller).response.event) == AttendeeCount(s.events[eid]) - 1
  {
    RemoveOnceLength(s.events[eid].attendees, caller);
  }

  /** Every response other than a 200 leaves both collections as they were. */
  lemma ErrorResponsesChangeNothing(s: Store, eid: EventId, caller: UserId, input: EventInput,
                                    patch: EventPatch, now: Timestamp)
    ensures StatusCode(CreateStep(s, caller, input, now).response) != 200 ==> CreateStep(s, caller, input, now).store == s
    ensures StatusCode(JoinStep(s, eid, caller, now).response) != 200 ==> JoinStep(s, eid, caller, now).store == s
    ensures StatusCode(LeaveStep(s, eid, caller).response) != 200 ==> LeaveStep(s, eid, caller).store == s
    ensures StatusCode(UpdateStep(s, eid, caller, patch).response) != 200 ==> UpdateStep(s, eid, caller, patch).store == s
    ensures StatusCode(DeleteStep(s, eid, caller).response) != 200 ==> DeleteStep(s, eid, caller).store == s
  {
  }
}
