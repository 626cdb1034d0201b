/**
 * The sign-up action: a fixed chain of checks on the submitted form, each
 * answering 400 with a four-field error record when it fails, then a lookup
 * in the user store, and finally the creation of the user and of its session.
 *
 * `validateEmail`, `safeRedirect`, the store's queries and the session helper
 * are not part of this model: the e-mail check is a parameter `validEmail`,
 * the redirect target and the id the store gives a new user are parameters of
 * the action, and the store is a map from e-mail to user.
 */
module Join {
  import opened Wrappers

  /** What `formData.get(name)` gives: nothing, an uploaded file, or a string. */
  datatype FormEntry = Missing | FileEntry | Text(value: string)

  /** The submitted sign-up form. */
  datatype JoinForm = JoinForm(firstName: FormEntry, lastName: FormEntry, email: FormEntry, password: FormEntry)

  datatype Field = Email | Password | FirstName | LastName

  /** The `errors` object of a failed sign-up: one optional message per field. */
  datatype Errors = Errors(
    email: Option<string>,
    password: Option<string>,
    firstName: Option<string>,
    lastName: Option<string>)

  /** The checked form: the strings passed on to `createUser`. */
  datatype Registration = Registration(email: string, password: string, firstName: string, lastName: string)

  datatype User = User(id: string, email: string, firstName: string, lastName: string)

  /** The action's reply: a 400 with the errors, or a new session that redirects. */
  datatype JoinResponse =
    | BadRequest(status: int, errors: Errors)
    | UserSession(userId: string, remember: bool, redirectTo: string)

  const BadRequestStatus := 400
  const MinPasswordLength := 8

  const EmailInvalid := "Email is invalid"
  const FirstNameRequired := "First name is required"
  const LastNameRequired := "Last name is required"
  const PasswordRequired := "Password is required"
  const PasswordTooShort := "Password is too short"
  const EmailTaken := "A user already exists with this email"

  function MessageOf(errors: Errors, field: Field): Option<string>
  {
    match field
    case Email => errors.email
    case Password => errors.password
    case FirstName => errors.firstName
    case LastName => errors.lastName
  }

  /** The number of fields that carry a message. */
  function NonNullCount(errors: Errors): nat
  {
    (if errors.email.Some? then 1 else 0) + (if errors.password.Some? then 1 else 0)
    + (if errors.firstName.Some? then 1 else 0) + (if errors.lastName.Some? then 1 else 0)
  }

  /** The error record that blames `field` with `message` and leaves every other field null. */
  function ErrorsFor(field: Field, message: string): (errors: Errors)
    ensures MessageOf(errors, field) == Some(message)
    ensures forall f :: f != field ==> MessageOf(errors, f) == None
    ensures NonNullCount(errors) == 1
  {
    match field
    case Email => Errors(Some(message), None, None, None)
    case Password => Errors(None, Some(message), None, None)
    case FirstName => Errors(None, None, Some(message), None)
    case LastName => Errors(None, None, None, Some(message))
  }

  /** `typeof v === "string" && v.length > 0`. */
  predicate IsNonEmptyText(v: FormEntry)
  {
    v.Text? && |v.value| > 0
  }

  /** `validateEmail(v)`: only a string can be a valid address, and `validEmail` decides which strings are. */
  predicate EmailIsValid(v: FormEntry, validEmail: string -> bool)
  {
    v.Text? && validEmail(v.value)
  }

  // ---------------------------------------------------------------------------
  // The field checks, as the action writes them
  // ---------------------------------------------------------------------------

  /** The early-return chain over the form fields, before the store is consulted. */
  function ValidateForm(form: JoinForm, validEmail: string -> bool): Result<Registration, Errors>
  {
    if !EmailIsValid(form.email, validEmail) then Failure(ErrorsFor(Email, EmailInvalid))
    else if !IsNonEmptyText(form.firstName) then Failure(ErrorsFor(FirstName, FirstNameRequired))
    else if !IsNonEmptyText(form.lastName) then Failure(ErrorsFor(LastName, LastNameRequired))
    else if !IsNonEmptyText(form.password) then Failure(ErrorsFor(Password, PasswordRequired))
    else if |form.password.value| < MinPasswordLength then Failure(ErrorsFor(Password, PasswordTooShort))
    else Success(Registration(form.email.value, form.password.value, form.firstName.value, form.lastName.value))
  }

  // ---------------------------------------------------------------------------
  // Reference definition: the first failing check decides
  // ---------------------------------------------------------------------------

  /** A check of the action: whether it passes, and the field and message it reports when it does not. */
  datatype Check = Check(passes: bool, field: Field, message: string)

  /** Every check the action makes, in the order it makes them. */
  function Checks(form: JoinForm, registered: set<string>, validEmail: string -> bool): (cs: seq<Check>)
    ensures |cs| == 6
  {
    [ Check(EmailIsValid(form.email, validEmail), Email, EmailInvalid),
      Check(IsNonEmptyText(form.firstName), FirstName, FirstNameRequired),
      Check(IsNonEmptyText(form.lastName), LastName, LastNameRequired),
      Check(IsNonEmptyText(form.password), Password, PasswordRequired),
      Check(!(form.password.Text? && |form.password.value| < MinPasswordLength), Password, PasswordTooShort),
      Check(!(form.email.Text? && form.email.value in registered), Email, EmailTaken) ]
  }

  /** The index of the first check that fails, if any does. */
  function FirstFailing(cs: seq<Check>): (r: Option<nat>)
    ensures r.Some? ==> r.value < |cs| && !cs[r.value].passes
    ensures r.Some? ==> forall i :: 0 <= i < r.value ==> cs[i].passes
    ensures r.None? <==> forall i :: 0 <= i < |cs| ==> cs[i].passes
  {
    if cs == [] then None
    else if !cs[0].passes then Some(0)
    else match FirstFailing(cs[1..])
      case None => None
      case Some(i) => Some(i + 1)
  }

  /**
   * What sign-up answers for `form` when `registered` holds the e-mails already
   * in the store: the error of the first failing check, or the registration.
   */
  function RegistrationOutcome(form: JoinForm, registered: set<string>, validEmail: string -> bool): (r: Result<Registration, Errors>)
    ensures r.Failure? ==> NonNullCount(r.error) == 1
    ensures r.Success? ==>
      && form.email == Text(r.value.email) && validEmail(r.value.email) && r.value.email !in registered
      && form.firstName == Text(r.value.firstName) && |r.value.firstName| > 0
      && form.lastName == Text(r.value.lastName) && |r.value.lastName| > 0
      && form.password == Text(r.value.password) && |r.value.password| >= MinPasswordLength
  {
    var cs := Checks(form, registered, validEmail);
    match FirstFailing(cs)
    case Some(i) => Failure(ErrorsFor(cs[i].field, cs[i].message))
    case None =>
      assert cs[0].passes && cs[1].passes && cs[2].passes && cs[3].passes && cs[4].passes && cs[5].passes;
      Success(Registration(form.email.value, form.password.value, form.firstName.value, form.lastName.value))
  }

  // ---------------------------------------------------------------------------
  // Properties
  // ---------------------------------------------------------------------------

  /** The check at index `k` decides the reply whenever it fails and every earlier check passes. */
  lemma FirstFailingCheckDecides(form: JoinForm, registered: set<string>, validEmail: string -> bool, k: nat)
    requires k < |Checks(form, registered, validEmail)|
    requires !Checks(form, registered, validEmail)[k].passes
    requires forall i :: 0 <= i < k ==> Checks(form, registered, validEmail)[i].passes
    ensures RegistrationOutcome(form, registered, validEmail)
         == Failure(ErrorsFor(Checks(form, registered, validEmail)[k].field, Checks(form, registered, validEmail)[k].message))
  {

  }

  /**
   * The order of the checks: an invalid e-mail wins over everything, a missing
   * first name over everything after it, and so on down to the duplicate
   * e-mail, which is reported only when every field is acceptable.
   */
  lemma ChecksRunInOrder(form: JoinForm, registered: set<string>, validEmail: string -> bool)
    ensures var outcome := RegistrationOutcome(form, registered, validEmail);
      && (!EmailIsValid(form.email, validEmail) ==> outcome == Failure(ErrorsFor(Email, EmailInvalid)))
      && (EmailIsValid(form.email, validEmail) && !IsNonEmptyText(form.firstName) ==>
            outcome == Failure(ErrorsFor(FirstName, FirstNameRequired)))
      && (EmailIsValid(form.email, validEmail) && IsNonEmptyText(form.firstName) && !IsNonEmptyText(form.lastName) ==>
            outcome == Failure(ErrorsFor(LastName, LastNameRequired)))
      && (EmailIsValid(form.email, validEmail) && IsNonEmptyText(form.firstName) && IsNonEmptyText(form.lastName)
          && !IsNonEmptyText(form.password) ==>
            outcome == Failure(ErrorsFor(Password, PasswordRequired)))
      && (EmailIsValid(form.email, validEmail) && IsNonEmptyText(form.firstName) && IsNonEmptyText(form.lastName)
          && IsNonEmptyText(form.password) && |form.password.value| < MinPasswordLength ==>
            outcome == Failure(ErrorsFor(Password, PasswordTooShort)))
      && (ValidateForm(form, validEmail).Success? && form.email.value in registered ==>
            outcome == Failure(ErrorsFor(Email, EmailTaken)))
  {
    var cs := Checks(form, registered, validEmail);
    var k := if !cs[0].passes then 0 else if !cs[1].passes then 1 else if !cs[2].passes then 2
      else if !cs[3].passes then 3 else if !cs[4].passes then 4 else 5;
    if !cs[k].passes {
      FirstFailingCheckDecides(form, registered, validEmail, k);
    }
  }

  /** The field checks agree with the reference: they decide exactly as its first five checks do. */
  lemma ValidateFormMatchesOutcome(form: JoinForm, registered: set<string>, validEmail: string -> bool)
    ensures ValidateForm(form, validEmail).Failure? ==>
      RegistrationOutcome(form, registered, validEmail) == ValidateForm(form, validEmail)
    ensures ValidateForm(form, validEmail).Success? ==>
      RegistrationOutcome(form, registered, validEmail) ==
        if ValidateForm(form, validEmail).value.email in registered then Failure(ErrorsFor(Email, EmailTaken))
        else ValidateForm(form, validEmail)
  {
    ChecksRunInOrder(form, registered, validEmail);
    var cs := Checks(form, registered, validEmail);
    if ValidateForm(form, validEmail).Success? && form.email.value !in registered {
      assert forall i :: 0 <= i < |cs| ==> cs[i].passes;
    }
  }

  /**
   * Sign-up goes through exactly when the e-mail is valid and not yet taken,
   * both names are non-empty strings and the password is a string of at least
   * eight characters; the registration then carries the submitted strings.
   */
  lemma RegistersIffEveryCheckPasses(form: JoinForm, registered: set<string>, validEmail: string -> bool)
    ensures RegistrationOutcome(form, registered, validEmail).Success? <==>
      && EmailIsValid(form.email, validEmail) && form.email.value !in registered
      && IsNonEmptyText(form.firstName) && IsNonEmptyText(form.lastName)
      && form.password.Text? && |form.password.value| >= MinPasswordLength
    ensures RegistrationOutcome(form, registered, validEmail).Success? ==>
      RegistrationOutcome(form, registered, validEmail).value
        == Registration(form.email.value, form.password.value, form.firstName.value, form.lastName.value)
  {

  }

  /** A password shorter than eight characters never registers, whatever the other fields hold. */
  lemma ShortPasswordNeverRegisters(form: JoinForm, registered: set<string>, validEmail: string -> bool)
    requires form.password.Text? && |form.password.value| < MinPasswordLength
    ensures RegistrationOutcome(form, registered, validEmail).Failure?
  {

  }

  /** When exactly one check fails, the reply blames that check's field and no other. */
  lemma SingleFaultIsReported(form: JoinForm, registered: set<string>, validEmail: string -> bool, k: nat)
    requires k < |Checks(form, registered, validEmail)|
    requires !Checks(form, registered, validEmail)[k].passes
    requires forall i :: 0 <= i < |Checks(form, registered, validEmail)| && i != k ==> Checks(form, registered, validEmail)[i].passes
    ensures var cs := Checks(form, registered, validEmail);
      RegistrationOutcome(form, registered, validEmail).Failure?
      && MessageOf(RegistrationOutcome(form, registered, validEmail).error, cs[k].field) == Some(cs[k].message)
      && NonNullCount(RegistrationOutcome(form, registered, validEmail).error) == 1
  {

  }

  // ---------------------------------------------------------------------------
  // The user store and the action
  // ---------------------------------------------------------------------------

  /** The users table, keyed by e-mail (the column is unique). */
  class UserStore {
    var users: map<string, User>

    ghost predicate Valid()
      reads this
    {
      forall e :: e in users ==> users[e].email == e
    }

    /** `getUserByEmail`: the user registered with `email`, if any. */
    method GetUserByEmail(email: string) returns (user: Option<User>)
      requires Valid()
      ensures user.Some? <==> email in users
      ensures user.Some? ==> user.value == users[email] && user.value.email == email
    {
      if email in users {
        return Some(users[email]);
      }
      return None;
    }

    /** `createUser`: stores a new user under an e-mail not yet taken, with the id the store assigns. */
    method CreateUser(id: string, registration: Registration) returns (user: User)
      requires Valid() && registration.email !in users
      modifies this
      ensures Valid()
      ensures user == User(id, registration.email, registration.firstName, registration.lastName)
      ensures users == old(users)[registration.email := user]
    {
      user := User(id, registration.email, registration.firstName, registration.lastName);
      users := users[registration.email := user];
    }
  }

  /**
   * The sign-up action: the field checks, then the duplicate check against the
   * store, then the new user and a session that is not remembered.
   */
  method Action(store: UserStore, form: JoinForm, redirectTo: string, validEmail: string -> bool, newUserId: string)
    returns (response: JoinResponse)
    requires store.Valid()
    modifies store
    ensures store.Valid()
    ensures response.BadRequest? ==> response.status == BadRequestStatus && NonNullCount(response.errors) == 1
    ensures match RegistrationOutcome(form, old(store.users).Keys, validEmail)
      case Failure(errors) =>
        response == BadRequest(BadRequestStatus, errors) && store.users == old(store.users)
      case Success(registration) =>
        && response == UserSession(newUserId, false, redirectTo)
        && registration.email !in old(store.users)
        && store.users == old(store.users)[registration.email :=
             User(newUserId, registration.email, registration.firstName, registration.lastName)]
  {
    ValidateFormMatchesOutcome(form, store.users.Keys, validEmail);
    match ValidateForm(form, validEmail) {
      case Failure(errors) =>
        return BadRequest(BadRequestStatus, errors);
      case Success(registration) =>
        var existingUser := store.GetUserByEmail(registration.email);
        if existingUser.Some? {
          return BadRequest(BadRequestStatus, ErrorsFor(Email, EmailTaken));
        }
        var user := store.CreateUser(newUserId, registration);
        return UserSession(user.id, false, redirectTo);
    }
  }
}
