/**
 * The user record of backend/models/User.js: required name, e-mail and
 * password fields, the `trim` and `lowercase` setters on the e-mail, the
 * password minimum of six UTF-16 code units (JavaScript's `length`) and the
 * password confirmation check.
 *
 * The schema's `joinedEvents` and `createdEvents` arrays are commented out
 * in the source, so they are not part of this record; the event routes still
 * push to and pull from them, and Membership.UserRefs models those lists as
 * the routes use them.
 */
module UserSchema {
  import opened Wrappers
  import opened Text

  const MinPasswordLength: nat := 6

  /** The fields of a registration; `None` is a field left undefined. */
  datatype UserInput = UserInput(
    name: Option<string>,
    email: Option<string>,
    password: Option<string>,
    confirmpassword: Option<string>)

  /** A stored user document. */
  datatype User = User(name: string, email: string, password: string, confirmpassword: string)

  datatype UserPath = NamePath | EmailPath | PasswordPath | ConfirmPasswordPath

  datatype UserError =
    | Required(path: UserPath)
    | TooShort(path: UserPath)
    | PasswordsDoNotMatch  // the message of the `confirmpassword` validator

  /** The stored form of an e-mail address: the `trim` setter, then `lowercase`. */
  function NormalizeEmail(s: string): string
  {
    Lower(Trim(s))
  }

  /** Normalizing a stored address again changes nothing. */
  lemma NormalizeEmailIdempotent(s: string)
    ensures NormalizeEmail(NormalizeEmail(s)) == NormalizeEmail(s)
  {
    LowerTrimCommute(Trim(s));
    TrimIdempotent(s);
    LowerIdempotent(Trim(s));
  }

  /**
   * Addresses that differ only in letter case or in surrounding white space
   * are stored identically, so the unique index on `email` treats them as
   * one address.
   */
  lemma EmailsDifferingInCaseOrPaddingCollide(s: string, pad1: string, pad2: string)
    requires AllSpace(pad1) && AllSpace(pad2)
    ensures NormalizeEmail(pad1 + s + pad2) == NormalizeEmail(s)
    ensures NormalizeEmail(Lower(s)) == NormalizeEmail(s)
  {
    TrimIgnoresPadding(pad1, s, pad2);
    LowerTrimCommute(s);
    LowerIdempotent(Trim(s));
  }

  function NameErrors(input: UserInput): seq<UserError>
  {
    if !PresentString(MapOption(input.name, Trim)) then [Required(NamePath)] else []
  }

  function EmailErrors(input: UserInput): seq<UserError>
  {
    if !PresentString(MapOption(input.email, NormalizeEmail)) then [Required(EmailPath)] else []
  }

  function PasswordErrors(input: UserInput): seq<UserError>
  {
    if !PresentString(input.password) then [Required(PasswordPath)]
    else if JsLength(input.password.value) < MinPasswordLength then [TooShort(PasswordPath)]
    else []
  }

  /** The custom validator compares with the password as given, and so fails when the password is missing. */
  function ConfirmErrors(input: UserInput): seq<UserError>
  {
    if !PresentString(input.confirmpassword) then [Required(ConfirmPasswordPath)]
    else if input.confirmpassword != input.password then [PasswordsDoNotMatch]
    else []
  }

  /** The first failing validator of each path, in schema order. */
  function Errors(input: UserInput): seq<UserError>
  {
    NameErrors(input) + EmailErrors(input) + PasswordErrors(input) + ConfirmErrors(input)
  }

  /** What the schema demands of a document it accepts. */
  predicate ValidUser(u: User)
  {
    && u.name != [] && Trim(u.name) == u.name
    && u.email != [] && NormalizeEmail(u.email) == u.email
    && JsLength(u.password) >= MinPasswordLength
    && u.confirmpassword == u.password
  }

  /** Apply the setters, then validate. */
  function Validate(input: UserInput): (r: Result<User, seq<UserError>>)
    ensures r.Ok? <==> && PresentString(input.name) && Trim(input.name.value) != []
                       && PresentString(input.email) && NormalizeEmail(input.email.value) != []
                       && input.password.Some? && JsLength(input.password.value) >= MinPasswordLength
                       && input.confirmpassword == input.password
    ensures r.Ok? ==> ValidUser(r.value)
                      && r.value.name == Trim(input.name.value)
                      && r.value.email == NormalizeEmail(input.email.value)
                      && r.value.password == input.password.value
    ensures r.Err? ==> r.error != [] && r.error == Errors(input)
  {
    var errors := Errors(input);
    assert errors == [] <==> NameErrors(input) == [] && EmailErrors(input) == []
                             && PasswordErrors(input) == [] && ConfirmErrors(input) == [];
    if errors != [] then
      Err(errors)
    else
      TrimIdempotent(input.name.value);
      NormalizeEmailIdempotent(input.email.value);
      Ok(User(Trim(input.name.value), NormalizeEmail(input.email.value),
              input.password.value, input.confirmpassword.value))
  }

  /** A password of one to five UTF-16 code units is rejected as too short. */
  lemma ShortPasswordRejected(input: UserInput)
    requires input.password.Some? && 0 < JsLength(input.password.value) < MinPasswordLength
    ensures Validate(input).Err?
    ensures TooShort(PasswordPath) in Validate(input).error
  {
    var e := Errors(input);
    assert e[|NameErrors(input) + EmailErrors(input)|] == TooShort(PasswordPath);
  }

  /**
   * `minlength` counts UTF-16 code units: three characters outside the Basic
   * Multilingual Plane make a password long enough.
   */
  lemma AstralPasswordLongEnough(name: string, email: string)
    requires Trim(name) != [] && NormalizeEmail(email) != []
    ensures var pw := "\U{1F600}\U{1F600}\U{1F600}";
            Validate(UserInput(Some(name), Some(email), Some(pw), Some(pw))).Ok?
  {
    var pw := "\U{1F600}\U{1F600}\U{1F600}";
    assert JsLength(pw[2..]) == 2;
    assert JsLength(pw[1..]) == 4;
  }

  /** A confirmation that differs from the password is rejected with "Passwords do not match". */
  lemma MismatchedConfirmationRejected(input: UserInput)
    requires PresentString(input.confirmpassword) && input.confirmpassword != input.password
    ensures Validate(input).Err?
    ensures PasswordsDoNotMatch in Validate(input).error
  {
    var e := Errors(input);
    assert e[|e| - 1] == PasswordsDoNotMatch;
  }

  /** Every one of the four fields is required. */
  lemma MissingFieldRejected(input: UserInput)
    requires input.name.None? || input.email.None? || input.password.None? || input.confirmpassword.None?
    ensures Validate(input).Err?
  {
  }
}
