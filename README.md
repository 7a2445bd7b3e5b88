# Events and RSVP core, modelled in Dafny

This project models the core of an events application in Dafny. The backend keeps two MongoDB collections, events and users. Route handlers in `backend/routes/events.js` create, join, leave, update, delete, list and fetch events. Mongoose schemas (`Event.js`, `User.js`) validate the stored documents. The front end has a mock events service (`src/services/api.js`) with its own filter.

The model is split into these modules:

- **Text** (`text.dfy`): the string operations the code relies on:
  - JavaScript `trim`, with its full white-space set;
  - `toLowerCase`, on ASCII letters;
  - `includes`.

  It also holds the algebra that the e-mail setters need: idempotence, commuting, and dropping padding.
- **EventSchema** (`event_schema.dfy`): the event document, its enums and their names, and the validator run by `save()`. The validator applies setters and defaults, then reports the first failing validator of each path. Also here: the `attendeeCount` virtual and a round trip between valid documents and create requests.
- **UserSchema** (`user_schema.dfy`): the user document and its validator:
  - required fields;
  - `trim` and `lowercase` on the e-mail;
  - the password minimum of six UTF-16 code units;
  - the confirmation check.
- **Membership** (`membership.dfy`): the two collections as a value `Store`, with one step function per mutating handler. Each returns the new store and the response. The module also holds the attendee-list and id-list operations: the `filter` of leave and the `$push`/`$pull`.
- **MembershipProperties** (`membership_properties.dfy`): the invariants. Create, join, leave and delete keep them. Update can break three of them, and three lemmas exhibit inputs that do. The other lemmas relate several handlers: leave is idempotent, join then leave restores the store, and a second join is refused.
- **EventListing** (`event_listing.dfy`): GET `/` and GET `/:id`. The list step filters by type, location and day, then sorts newest first.
- **EventRoutes** (`event_service.dfy`): class `EventService` owns the two collections as mutable fields. Its methods read, check and write in the order the handlers do. Each method's postcondition ties the new fields and the response to the step function. The class invariant is that no user list names a missing event and that every id is below the next fresh id.
- **ClientEvents** (`client_events.dfy`): the client's mock list, verbatim, together with:
  - `getEvents`, a chain of filters proved to be an order-preserving subsequence;
  - `getEvent`, which returns the first match;
  - the two stubs that always succeed.

### Behaviour of the code worth knowing

- A rejected create is answered with 500: the handler has a single `catch` (`backend/routes/events.js:89-92`) and no 400 path.
- The capacity refusal tests `attendees.length >= capacity` (`backend/routes/events.js:114`). `capacity` is a Number with only `min: 1` (`backend/models/Event.js:27-31`), so it is modelled as a real. With a capacity that is not a whole number, the list grows to the capacity rounded up: two attendees of a capacity of 2.5 admit a third. The invariant the handlers keep is therefore "attendees ≤ capacity rounded up"; for whole-number capacities that is the plain bound.
- Join and leave call `save()` on the loaded document (`backend/routes/events.js:120, 151`), and `save()` runs the `required`, `enum` and `min` validators on every field. If an earlier update stored an invalid field, the save fails, the `catch` answers 500, and neither collection changes.
- Update passes the request body to `findByIdAndUpdate` unvalidated (`backend/routes/events.js:182-185`). A patch can therefore set any field, including `creator` and `attendees`, to any value of the field's type. The `trim` setters still run on update. So stored events keep `type`, `dressCode` and `privacy` as strings. `Savable` states what the validators demand of them, and `ValidEvent` adds what the `trim` setters guarantee of a created document.
- `joinedEvents` and `createdEvents` are commented out of the user schema (`backend/models/User.js:32-43`). The routes still `$push` to and `$pull` from them, and the model keeps these lists as the routes describe. A `$push`/`$pull` on a user that is not stored does nothing, like `findByIdAndUpdate` on a missing id.

## Model

| member | source | states |
|---|---|---|
| Text.Lower | src/services/api.js:148 | same length as the input, and every character is that input character lower-cased (ASCII letters only) |
| Text.LowerIdempotent | backend/models/User.js:9-15 | lower-casing an already lower-cased string changes nothing |
| Text.Trim | backend/models/Event.js:4-8 | the result is no longer than the input and starts and ends with a non-white-space character |
| Text.TrimIsSliceBetweenSpace | backend/models/Event.js:4-8 | the trimmed string is a contiguous slice of the input with only white space cut away on either side |
| Text.TrimIdempotent | backend/models/Event.js:42-45 | trimming a trimmed string changes nothing, so the stored name and description are fixed points of the setter |
| Text.LowerTrimCommute | backend/models/User.js:9-15 | trimming and lower-casing commute, so the order of the two e-mail setters does not matter |
| Text.TrimIgnoresPadding | backend/models/User.js:9-15 | white space added on both sides of a string does not survive `trim` |
| Text.Contains | src/services/api.js:146-150 | true exactly when some index of the string starts an occurrence of the needle |
| Text.JsLength | backend/models/User.js:16-21 | JavaScript's `length` counts UTF-16 code units: between the number of characters and twice that, and equal to it when no character lies outside the Basic Multilingual Plane |
| EventSchema.ParseEventType | backend/models/Event.js:9-13 | accepts exactly the seven type names and maps each back to its own name |
| EventSchema.ParseDressCode | backend/models/Event.js:22-26 | accepts exactly the five dress-code names |
| EventSchema.ParsePrivacy | backend/models/Event.js:54-58 | accepts exactly `public` and `private` |
| EventSchema.NoErrorsIffAcceptable | backend/models/Event.js:3-66 | no validator reports an error exactly when every `required`, `enum` and `min` constraint holds |
| EventSchema.Validate | backend/models/Event.js:3-66 | the document is accepted iff every required, enum and `min` constraint holds. An accepted document is valid, has the caller as creator, no attendees and `now` as creation time. A rejected one reports a non-empty list: the first failing validator of each path |
| EventSchema.ValidateKeepsFields | backend/models/Event.js:22-26 | an accepted document keeps the given fields after the `trim` setters. The defaults are `casual`, `public` and the empty image |
| EventSchema.ValidateRoundTrip | backend/models/Event.js:3-66 | every valid document without attendees is exactly what creating it from its own fields yields |
| UserSchema.NormalizeEmailIdempotent | backend/models/User.js:9-15 | storing an already stored e-mail address changes nothing |
| UserSchema.EmailsDifferingInCaseOrPaddingCollide | backend/models/User.js:9-15 | addresses differing only in case or surrounding white space are stored identically, so the unique index sees one address |
| UserSchema.Validate | backend/models/User.js:3-46 | accepted iff name and e-mail are non-empty after their setters, the password has at least 6 UTF-16 code units and the confirmation equals it. The stored fields are the normalised inputs. A rejection reports the errors in schema order |
| UserSchema.ShortPasswordRejected | backend/models/User.js:16-21 | a password of 1 to 5 UTF-16 code units is rejected with a too-short error |
| UserSchema.AstralPasswordLongEnough | backend/models/User.js:16-21 | three emoji count as six code units, so such a password with a matching confirmation is accepted |
| UserSchema.MismatchedConfirmationRejected | backend/models/User.js:22-31 | a confirmation that differs from the password is rejected with "Passwords do not match" |
| UserSchema.MissingFieldRejected | backend/models/User.js:4-31 | a registration missing any of the four fields is rejected |
| Membership.RemoveUser | backend/routes/events.js:147-150 | leave's filter keeps exactly the entries of the other users and never lengthens the list |
| Membership.RemovedUserIsGone | backend/routes/events.js:147-150 | after the filter the caller is no attendee |
| Membership.RemoveAbsentUser | backend/routes/events.js:147-150 | filtering out a non-member leaves the list unchanged |
| Membership.RemoveUserAppend | backend/routes/events.js:147-150 | the filter distributes over concatenation, so it keeps the order of the entries it keeps |
| Membership.RemoveUserKeepsDistinct | backend/routes/events.js:147-150 | filtering never introduces a duplicate user |
| Membership.Pull | backend/routes/events.js:153-156 | `$pull` removes every occurrence of the id and keeps all other ids |
| Membership.PullAbsent | backend/routes/events.js:153-156 | pulling an absent id changes nothing |
| Membership.PullUndoesPush | backend/routes/events.js:122-125 | pulling an id just pushed onto a list that lacked it restores the list |
| Membership.WithinWholeCapacity | backend/routes/events.js:113-116 | for a whole-number capacity, "fits the capacity rounded up" is exactly `attendees <= capacity` |
| Membership.CreateStep | backend/routes/events.js:60-93 | 500 with the store unchanged iff the schema rejects the input. Otherwise the new id is the counter's value, the counter advances, and the stored event is valid, created by the caller, with no attendees. Exactly the caller's created list gains the id, and nothing else changes |
| Membership.CreateUsesFreshId | backend/routes/events.js:64-78 | in a store whose ids are all below the counter, a created event takes a fresh id: no stored event is overwritten, the new id is the only one added, and all ids stay below the counter |
| Membership.JoinStep | backend/routes/events.js:96-136 | 404 iff the event is missing. "Already joined" iff the caller attends, checked before capacity. "Full" iff `length >= capacity`. 500 iff the check passes but the document fails re-validation on `save()`. Every refusal leaves the store unchanged. A success appends exactly the caller's entry, stays within the capacity rounded up, and appends the id to the caller's joined list only |
| Membership.LeaveStep | backend/routes/events.js:139-167 | 404 iff missing, and 500 iff the document fails re-validation on `save()`; both leave the store unchanged. Otherwise the event's attendees are the filter of the caller and the caller no longer attends. The caller's joined list is `$pull`ed of exactly that id. Other events and users are unchanged |
| Membership.UpdateStep | backend/routes/events.js:170-194 | 404 iff missing and 403 iff the caller is not the creator, both leaving the store unchanged. Otherwise the event becomes the patched event and nothing else changes |
| Membership.PullEverywhere | backend/routes/events.js:211-219 | after the two pulls, neither list of the user names the deleted id, and every other id is kept |
| Membership.DeleteStep | backend/routes/events.js:197-226 | 404 iff missing and 403 iff not the creator, both leaving the store unchanged. Otherwise the event is removed. Each user's two lists are `$pull`ed of exactly that id, so no list names it and every other id stays |
| MembershipProperties.CreatePreserves | backend/routes/events.js:64-83 | create keeps the store invariant (fresh ids, no dangling references) and keeps the two collections consistent |
| MembershipProperties.JoinPreserves | backend/routes/events.js:113-125 | join keeps the store invariant, the capacity bound (attendees at most the capacity rounded up), distinct attendees and the mirror between attendee lists and joined lists |
| MembershipProperties.JoinOvershootsFractionalCapacity | backend/routes/events.js:113-119 | with a capacity of 2.5 and two attendees, a third user's join succeeds, and the event ends with 3 attendees, more than its capacity |
| MembershipProperties.LeavePreserves | backend/routes/events.js:147-156 | leave keeps the store invariant and all three consistency properties |
| MembershipProperties.UpdatePreservesStoreValid | backend/routes/events.js:182-185 | update keeps the store invariant (it never touches ids or user lists) |
| MembershipProperties.DeletePreserves | backend/routes/events.js:209-219 | delete keeps the store invariant, so no dangling reference remains, and keeps consistency |
| MembershipProperties.UpdateCanExceedCapacity | backend/routes/events.js:182-185 | a creator's update can set the capacity at least one below the attendee count; the capacity bound then fails |
| MembershipProperties.UpdateCanDuplicateAttendees | backend/routes/events.js:182-185 | an update can store an attendee list naming one user twice |
| MembershipProperties.UpdateCanBreakMirror | backend/routes/events.js:182-185 | an update can empty the attendee list while users' joined lists still name the event |
| MembershipProperties.UpdateWithEmptyPatchChangesNothing | backend/routes/events.js:170-194 | an update whose body sets no field leaves the store unchanged, whoever asks |
| MembershipProperties.LeaveIdempotent | backend/routes/events.js:139-167 | leaving twice yields the same store as leaving once |
| MembershipProperties.LeaveByNonMemberChangesNothing | backend/routes/events.js:147-156 | in a consistent store, leaving an event one does not attend changes nothing |
| MembershipProperties.RemoveUndoesAppend | backend/routes/events.js:147-150 | filtering out a user whose entry was just appended to a list without them gives back the list |
| MembershipProperties.JoinThenLeaveRestores | backend/routes/events.js:96-167 | in a consistent store, a successful join followed by a leave by the same user restores both collections exactly |
| MembershipProperties.SecondJoinIsDuplicate | backend/routes/events.js:104-111 | joining again after a successful join is refused as a duplicate and changes nothing |
| MembershipProperties.JoinRaisesAttendeeCount | backend/models/Event.js:69-71 | a successful join raises `attendeeCount` by exactly one |
| MembershipProperties.RemoveOnceLength | backend/routes/events.js:147-150 | filtering a member out of a list without duplicates shortens it by exactly one |
| MembershipProperties.LeaveLowersAttendeeCount | backend/models/Event.js:69-71 | when no user is listed twice, an attendee's leave succeeds iff the document passes its validators, and then lowers `attendeeCount` by exactly one |
| MembershipProperties.ErrorResponsesChangeNothing | backend/routes/events.js:60-226 | for every handler, a response whose status is not 200 (404, 403, 400 or 500) leaves both collections unchanged |
| EventListing.StoredBelow | backend/routes/events.js:29 | lists exactly the stored events with an id below the bound, by increasing id |
| EventListing.Select | backend/routes/events.js:11-29 | keeps exactly the entries matching the type, location and day filters, and adds nothing |
| EventListing.Insert | backend/routes/events.js:32 | inserting into a newest-first list keeps it newest first and adds exactly the new entry |
| EventListing.SortDescending | backend/routes/events.js:32 | the result is newest first and a permutation of the input |
| EventListing.ListEventsCorrect | backend/routes/events.js:9-39 | GET `/` lists each matching stored event exactly once and nothing else, newest first. Type `all` or empty means no type filter, the location matches case-insensitively, and the day window is `[d, d + 1 day)` |
| EventListing.EmptyQueryMatchesAll | backend/routes/events.js:14-27 | with no parameters, or type `all` and an empty location, every event matches |
| EventListing.GetEvent | backend/routes/events.js:42-57 | the stored event under that id, or 404 exactly when there is none |
| EventRoutes.EventService.constructor | backend/routes/events.js:1-6 | a service over the registered users, with no events and empty reference lists, satisfies every invariant |
| EventRoutes.EventService.Create | backend/routes/events.js:60-93 | the new fields and the response are those of `CreateStep`; the class invariant and consistency are kept |
| EventRoutes.EventService.SaveCreated | backend/routes/events.js:78-83 | the event is stored under the counter's value, the counter advances, and only the caller's created list gains the new id |
| EventRoutes.EventService.Join | backend/routes/events.js:96-136 | the new fields and the response are those of `JoinStep`; the invariant and consistency are kept |
| EventRoutes.EventService.Leave | backend/routes/events.js:139-167 | the new fields and the response are those of `LeaveStep`; the invariant and consistency are kept |
| EventRoutes.EventService.Update | backend/routes/events.js:170-194 | the new fields and the response are those of `UpdateStep`; the class invariant is kept |
| EventRoutes.EventService.Delete | backend/routes/events.js:197-226 | the new fields and the response are those of `DeleteStep`; the invariant and consistency are kept |
| EventRoutes.CapacityScenario | backend/routes/events.js:104-119 | on an empty, valid event of capacity 2, two users join, the third is turned away as full, and a repeat join by the first is a duplicate. The attendee list ends as the first two entries |
| ClientEvents.Filter | src/services/api.js:144 | `Array.filter` keeps exactly the elements the test accepts, each as often as it occurs in the input |
| ClientEvents.FilterIsSubsequence | src/services/api.js:140-153 | a filter's result is an order-preserving subsequence of its input |
| ClientEvents.SubsequenceTransitive | src/services/api.js:140-153 | a subsequence of a subsequence is a subsequence, so the chained filters stay order-preserving |
| ClientEvents.GetEventsCorrect | src/services/api.js:136-158 | `getEvents` returns exactly the events passing every active filter (type equality, case-insensitive location substring, date-string equality), as an order-preserving subsequence of the list, with each such event kept as often as it occurs |
| ClientEvents.NoFilterReturnsAll | src/services/api.js:140-155 | with type, location and date all absent or empty, every event is returned in the original order |
| ClientEvents.MockEventTypes | src/services/api.js:36-127 | the mock list holds six events, none of type `all` |
| ClientEvents.TypeAllMatchesNothing | src/services/api.js:143-145 | the client has no special case for `all`: over events none of which has that type, the type `all` returns nothing |
| ClientEvents.TypeAllMatchesNoMockEvent | src/services/api.js:143-145 | filtering the mock list by type `all` returns nothing |
| ClientEvents.FindById | src/services/api.js:159-162 | `find` returns the first event with the id, or nothing exactly when no event has it |
| ClientEvents.JoinEvent | src/services/api.js:166-172 | resolves with "Successfully joined the event!" whatever the id |
| ClientEvents.LeaveEvent | src/services/api.js:173-179 | resolves with "Successfully left the event" whatever the id |

## Left out

- Persistence, promises and `async`: each handler runs as one atomic step. The race between two concurrent joins, each of which reads before saving, can exceed the capacity and is not modelled.
- The auth middleware (`backend/middleware/auth.js`) is not part of this model. The caller's id is a parameter, and the 401 path is not modelled.
- `populate` only projects the response onto names and e-mails, so it is the identity here. The response is the stored event.
- ObjectId generation and casting: ids are naturals drawn from a counter in the store, and `toString()` comparisons are id equality. A malformed id, which makes Mongoose throw a cast error and the handler answer 500, is not modelled.
- The `$regex` location query is modelled as a literal case-insensitive substring. Regex metacharacters in the query are not interpreted.
- Dates are millisecond timestamps. The day window is `[d, d + 86_400_000)`, so a daylight-saving day of 23 or 25 hours is not modelled. Parsing the `date` parameter is not modelled either.
- `toLowerCase` is modelled on ASCII letters only. Other Unicode case mappings are left out.
- `updatedAt` (the `timestamps` option) is not modelled, because nothing reads it. `createdAt` is kept as the sort key.
- EventListing.SortDescending: ties in `createdAt` keep insertion order. MongoDB leaves their order unspecified, so the model does not state an order among them.
- Mongoose strict mode would drop the `$push`/`$pull` on the commented-out `joinedEvents`/`createdEvents`. The model follows the route code instead, which treats them as stored.
- Persistence failures (the generic 500 from a failing database) are not modelled. Only the 500 from a rejected create and the 500 from a `save()` in join or leave that fails re-validation are modelled.
- Membership.UpdateStep: a patch holding `null` values, or attendee entries without a `user`, is not modelled; a patch sets each field to a value of its type. So two effects the code has are out of reach. After `creator` is set to `null`, every later update and delete of that event throws at `event.creator.toString()` (`backend/routes/events.js:178, 205`) and answers 500; the model can only hand the event to another creator. After an attendee entry without a `user` is stored, every later join and leave of that event throws at `attendee.user.toString()` (`backend/routes/events.js:106, 149`) and answers 500.
- `backend/server.js` (CORS, rate limiting, connection, listen) is not part of this model.
- The React pages and components are not part of this model, nor are the map and geocoding calls.
- In `src/services/api.js`, the axios instance, the interceptors, `localStorage` and the `setTimeout` delays are not modelled; each service function is the value it resolves with.
- User registration and login routes are not part of this model. Only the user schema's validation is.
- Floating-point coordinates are kept as optional reals and never inspected.
- Capacities are exact reals. Rounding in IEEE doubles, `NaN` and `Infinity` are not modelled, and neither is casting a string body field to a Number.
