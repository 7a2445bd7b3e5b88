/**
 * The event record of backend/models/Event.js: closed enumerations for
 * `type`, `dressCode` and `privacy`, the stored document, the creation-time
 * validator with its defaults, and the `attendeeCount` virtual.
 */
module EventSchema {
  import opened Wrappers
  import opened Text

  type UserId = nat
  /** A point in time in milliseconds since the epoch (a JavaScript `Date`). */
  type Timestamp = int

  datatype EventType = Birthday | Wedding | Anniversary | Graduation | BabyShower | Holiday | Other

  function EventTypeName(t: EventType): string
  {
    match t
    case Birthday => "birthday"
    case Wedding => "wedding"
    case Anniversary => "anniversary"
    case Graduation => "graduation"
    case BabyShower => "baby-shower"
    case Holiday => "holiday"
    case Other => "other"
  }

  /** The enum check on `type`: only the seven listed names are accepted. */
  function ParseEventType(s: string): (r: Option<EventType>)
    ensures r.Some? ==> EventTypeName(r.value) == s
    ensures r.None? ==> forall t :: EventTypeName(t) != s
  {
    if s == "birthday" then Some(Birthday)
    else if s == "wedding" then Some(Wedding)
    else if s == "anniversary" then Some(Anniversary)
    else if s == "graduation" then Some(Graduation)
    else if s == "baby-shower" then Some(BabyShower)
    else if s == "holiday" then Some(Holiday)
    else if s == "other" then Some(Other)
    else None
  }

  datatype DressCode = Casual | SmartCasual | SemiFormal | Formal | Costume

  function DressCodeName(d: DressCode): string
  {
    match d
    case Casual => "casual"
    case SmartCasual => "smart-casual"
    case SemiFormal => "semi-formal"
    case Formal => "formal"
    case Costume => "costume"
  }

  /** The enum check on `dressCode`. */
  function ParseDressCode(s: string): (r: Option<DressCode>)
    ensures r.Some? ==> DressCodeName(r.value) == s
    ensures r.None? ==> forall d :: DressCodeName(d) != s
  {
    if s == "casual" then Some(Casual)
    else if s == "smart-casual" then Some(SmartCasual)
    else if s == "semi-formal" then Some(SemiFormal)
    else if s == "formal" then Some(Formal)
    else if s == "costume" then Some(Costume)
    else None
  }

  datatype Privacy = Public | Private

  function PrivacyName(p: Privacy): string
  {
    match p
    case Public => "public"
    case Private => "private"
  }

  /** The enum check on `privacy`. */
  function ParsePrivacy(s: string): (r: Option<Privacy>)
    ensures r.Some? ==> PrivacyName(r.value) == s
    ensures r.None? ==> forall p :: PrivacyName(p) != s
  {
    if s == "public" then Some(Public)
    else if s == "private" then Some(Private)
    else None
  }

  datatype Coordinates = Coordinates(lat: Option<real>, lng: Option<real>)

  /** One attendee sub-document: a user reference and the time of joining. */
  datatype Attendee = Attendee(user: UserId, joinedAt: Timestamp)

  /**
   * A stored event document. The enumerated fields are kept as the strings
   * the store holds, because an update (see Membership.UpdateStep) writes
   * them without running the schema's validators.
   */
  datatype Event = Event(
    name: string,
    kind: string,
    date: Timestamp,
    location: string,
    dressCode: string,
    capacity: real,
    attendees: seq<Attendee>,
    description: Option<string>,
    image: string,
    coordinates: Option<Coordinates>,
    privacy: string,
    creator: UserId,
    createdAt: Timestamp)

  /** The `attendeeCount` virtual. */
  function AttendeeCount(e: Event): nat
  {
    |e.attendees|
  }

  /**
   * What `save()` checks of a document it writes, loaded fields included:
   * the `required`, `enum` and `min` validators. `capacity` is a Number, so
   * any real of at least 1 passes; nothing demands a whole number.
   */
  predicate Savable(e: Event)
  {
    && e.name != []
    && ParseEventType(e.kind).Some?
    && e.location != []
    && ParseDressCode(e.dressCode).Some?
    && e.capacity >= 1.0
    && ParsePrivacy(e.privacy).Some?
  }

  /** What a freshly created document satisfies: the validators, and the `trim` setters' results. */
  predicate ValidEvent(e: Event)
  {
    && Savable(e)
    && Trim(e.name) == e.name
    && (e.description.Some? ==> Trim(e.description.value) == e.description.value)
  }

  /** The fields of a create request body; `None` is a field left undefined. */
  datatype EventInput = EventInput(
    name: Option<string>,
    kind: Option<string>,
    date: Option<Timestamp>,
    location: Option<string>,
    dressCode: Option<string>,
    capacity: Option<real>,
    description: Option<string>,
    image: Option<string>,
    coordinates: Option<Coordinates>,
    privacy: Option<string>)

  datatype EventPath = NamePath | TypePath | DatePath | LocationPath | DressCodePath | CapacityPath | PrivacyPath

  datatype ValidationError = Required(path: EventPath) | NotInEnum(path: EventPath) | BelowMin(path: EventPath)

  /**
   * The validation errors of a create request, in schema order. Each path
   * reports at most its first failing validator: `required` before `enum`
   * and `min`; an absent optional field passes its `enum` check.
   */
  function MapTrim(v: Option<string>): Option<string>
  {
    if v.Some? then Some(Trim(v.value)) else None
  }

  function Errors(input: EventInput): seq<ValidationError>
  {
    (if !PresentString(MapTrim(input.name)) then [Required(NamePath)] else [])
    + (if !PresentString(input.kind) then [Required(TypePath)]
       else if ParseEventType(input.kind.value).None? then [NotInEnum(TypePath)] else [])
    + (if input.date.None? then [Required(DatePath)] else [])
    + (if !PresentString(input.location) then [Required(LocationPath)] else [])
    + (if input.dressCode.Some? && ParseDressCode(input.dressCode.value).None? then [NotInEnum(DressCodePath)] else [])
    + (if input.capacity.None? then [Required(CapacityPath)]
       else if input.capacity.value < 1.0 then [BelowMin(CapacityPath)] else [])
    + (if input.privacy.Some? && ParsePrivacy(input.privacy.value).None? then [NotInEnum(PrivacyPath)] else [])
  }

  /** The request is accepted exactly when every schema constraint holds. */
  predicate Acceptable(input: EventInput)
  {
    && PresentString(MapTrim(input.name))
    && PresentString(input.kind) && ParseEventType(input.kind.value).Some?
    && input.date.Some?
    && PresentString(input.location)
    && (input.dressCode.Some? ==> ParseDressCode(input.dressCode.value).Some?)
    && input.capacity.Some? && input.capacity.value >= 1.0
    && (input.privacy.Some? ==> ParsePrivacy(input.privacy.value).Some?)
  }

  /** Every constraint holds exactly when no path reports an error. */
  lemma NoErrorsIffAcceptable(input: EventInput)
    ensures Errors(input) == [] <==> Acceptable(input)
  {
    assert |Errors(input)| ==
      (if !PresentString(MapTrim(input.name)) then 1 else 0)
      + (if !PresentString(input.kind) || ParseEventType(input.kind.value).None? then 1 else 0)
      + (if input.date.None? then 1 else 0)
      + (if !PresentString(input.location) then 1 else 0)
      + (if input.dressCode.Some? && ParseDressCode(input.dressCode.value).None? then 1 else 0)
      + (if input.capacity.None? || input.capacity.value < 1.0 then 1 else 0)
      + (if input.privacy.Some? && ParsePrivacy(input.privacy.value).None? then 1 else 0);
  }

  /**
   * `new Event({...}).save()`: apply setters and defaults, then validate.
   * The new document has the caller as creator, no attendees and `now` as
   * its creation time.
   */
  function Validate(input: EventInput, creator: UserId, now: Timestamp): (r: Result<Event, seq<ValidationError>>)
    ensures r.Ok? <==> Acceptable(input)
    ensures r.Err? ==> r.error != [] && r.error == Errors(input)
    ensures r.Ok? ==> && ValidEvent(r.value)
                      && r.value.creator == creator && r.value.attendees == [] && r.value.createdAt == now
  {
    var errors := Errors(input);
    NoErrorsIffAcceptable(input);
    if errors != [] then
      Err(errors)
    else
      var description := MapTrim(input.description);
      assert description.Some? ==> Trim(description.value) == description.value by {
        if input.description.Some? { TrimIdempotent(input.description.value); }
      }
      var name := Trim(input.name.value);
      TrimIdempotent(input.name.value);
      Ok(Event(
        name := name,
        kind := input.kind.value,
        date := input.date.value,
        location := input.location.value,
        dressCode := if input.dressCode.Some? then input.dressCode.value else DressCodeName(Casual),
        capacity := input.capacity.value,
        attendees := [],
        description := description,
        image := if input.image.Some? then input.image.value else "",
        coordinates := input.coordinates,
        privacy := if input.privacy.Some? then input.privacy.value else PrivacyName(Public),
        creator := creator,
        createdAt := now))
  }

  /**
   * An accepted request is stored as given, after the `trim` setters and
   * with `casual`, `public` and the empty image as the defaults.
   */
  lemma ValidateKeepsFields(input: EventInput, creator: UserId, now: Timestamp)
    requires Acceptable(input)
    ensures var e := Validate(input, creator, now).value;
      && e.name == Trim(input.name.value) && e.kind == input.kind.value
      && e.date == input.date.value && e.location == input.location.value
      && e.capacity == input.capacity.value
      && e.description == MapTrim(input.description) && e.coordinates == input.coordinates
      && e.dressCode == (if input.dressCode.Some? then input.dressCode.value else "casual")
      && e.privacy == (if input.privacy.Some? then input.privacy.value else "public")
      && e.image == (if input.image.Some? then input.image.value else "")
  {
  }

  /** The create request that restates a stored document field by field. */
  function InputOf(e: Event): EventInput
  {
    EventInput(Some(e.name), Some(e.kind), Some(e.date), Some(e.location), Some(e.dressCode),
               Some(e.capacity), e.description, Some(e.image), e.coordinates, Some(e.privacy))
  }

  /**
   * Every valid document without attendees is exactly what creating it from
   * its own fields yields: the validator accepts all of the valid documents.
   */
  lemma ValidateRoundTrip(e: Event)
    requires ValidEvent(e) && e.attendees == []
    ensures Validate(InputOf(e), e.creator, e.createdAt) == Ok(e)
  {
    var r := Validate(InputOf(e), e.creator, e.createdAt);
    assert Acceptable(InputOf(e));
    assert r.value.description == e.description;
  }
}
