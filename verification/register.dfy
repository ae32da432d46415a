/** The registration page (src/pages/Register.jsx): the form, its validator,
    per-field error clearing on edit, and what a submit sends and shows. */
module Register {
  import opened Wrappers
  import opened Text
  import opened AuthContext

  /** The inputs of the form, by their `name` attribute. */
  datatype Field = Username | Email | Password | Bio

  /** A key of the `errors` object: one per field, plus `general`. */
  datatype ErrorKey = FieldError(field: Field) | General

  type Errors = map<ErrorKey, string>

  datatype RegisterForm = RegisterForm(username: string, email: string, password: string, bio: string)

  function Get(form: RegisterForm, f: Field): string {
    match f
    case Username => form.username
    case Email => form.email
    case Password => form.password
    case Bio => form.bio
  }

  /** `{ ...formData, [name]: value }`. */
  function Set(form: RegisterForm, f: Field, value: string): (r: RegisterForm)
    ensures Get(r, f) == value
    ensures forall g :: g != f ==> Get(r, g) == Get(form, g)
  {
    match f
    case Username => form.(username := value)
    case Email => form.(email := value)
    case Password => form.(password := value)
    case Bio => form.(bio := value)
  }

  const UsernameRequired := "Username is required"
  const EmailRequired := "Email is required"
  const InvalidEmail := "Invalid email format"
  const PasswordRequired := "Password is required"

  /** What `errors.username` is set to: a blank username is required. */
  function UsernameError(username: string): (r: Option<string>)
    ensures r.Some? <==> IsBlank(username)
    ensures r.Some? ==> r.value == UsernameRequired
  {
    if TrimsToEmpty(username) then Some(UsernameRequired) else None
  }

  /** What `errors.email` ends up as: line by line, `'Email is required'` for
      a blank email, then `'Invalid email format'` over it for any email that
      fails the pattern.  Since a blank email always fails the pattern, only
      the second message survives. */
  function EmailError(email: string): (r: Option<string>)
    ensures r.Some? <==> !MatchesEmailPattern(email)
    ensures r.Some? ==> r.value == InvalidEmail
  {
    var required := if TrimsToEmpty(email) then Some(EmailRequired) else None;
    if !MatchesEmailPattern(email) then Some(InvalidEmail) else required
  }

  /** What `errors.password` is set to: the password is not trimmed. */
  function PasswordError(password: string): (r: Option<string>)
    ensures r.Some? <==> password == ""
    ensures r.Some? ==> r.value == PasswordRequired
  {
    if password == "" then Some(PasswordRequired) else None
  }

  /** `newErrors`, filled in field by field. */
  function CollectErrors(username: Option<string>, email: Option<string>, password: Option<string>): (errors: Errors)
    ensures FieldError(Username) in errors <==> username.Some?
    ensures FieldError(Email) in errors <==> email.Some?
    ensures FieldError(Password) in errors <==> password.Some?
    ensures FieldError(Bio) !in errors && General !in errors
    ensures username.Some? ==> errors[FieldError(Username)] == username.value
    ensures email.Some? ==> errors[FieldError(Email)] == email.value
    ensures password.Some? ==> errors[FieldError(Password)] == password.value
  {
    var e1: Errors := if username.Some? then map[FieldError(Username) := username.value] else map[];
    var e2 := if email.Some? then e1[FieldError(Email) := email.value] else e1;
    if password.Some? then e2[FieldError(Password) := password.value] else e2
  }

  /** `validateForm()`: one entry per failing check, under that field's key. */
  function ValidateForm(form: RegisterForm): (errors: Errors)
    ensures FieldError(Username) in errors <==> IsBlank(form.username)
    ensures FieldError(Email) in errors <==> !MatchesEmailPattern(form.email)
    ensures FieldError(Password) in errors <==> form.password == ""
    ensures FieldError(Bio) !in errors && General !in errors
    ensures FieldError(Username) in errors ==> errors[FieldError(Username)] == UsernameRequired
    ensures FieldError(Email) in errors ==> errors[FieldError(Email)] == InvalidEmail
    ensures FieldError(Password) in errors ==> errors[FieldError(Password)] == PasswordRequired
  {
    CollectErrors(UsernameError(form.username), EmailError(form.email), PasswordError(form.password))
  }

  /** The form is valid exactly when the username is not blank, the email
      matches `\S+@\S+\.\S+` and a password is given; the password is not trimmed. */
  lemma ValidIff(form: RegisterForm)
    ensures |ValidateForm(form)| == 0 <==>
              !IsBlank(form.username) && MatchesEmailPattern(form.email) && form.password != ""
  {
    var errors := ValidateForm(form);
    if |errors| == 0 {
      assert FieldError(Username) !in errors;
    } else {
      var k :| k in errors;
    }
  }

  /** `'Email is required'` is never shown: every email that triggers it also
      fails the pattern, whose message overwrites it. */
  lemma EmailRequiredIsOverwritten(form: RegisterForm)
    ensures FieldError(Email) in ValidateForm(form) ==> ValidateForm(form)[FieldError(Email)] != EmailRequired
    ensures form.email == "" ==> ValidateForm(form)[FieldError(Email)] == InvalidEmail
  {
    if form.email == "" {
      BlankIsNotEmail(form.email);
    }
  }

  /** An error message is shown when it is truthy. */
  predicate HasError(errors: Errors, k: ErrorKey) {
    k in errors && errors[k] != ""
  }

  /** `handleChange(e)`: the named field takes the value; that field's error,
      if one is showing, is set to `''`; everything else stays. */
  function HandleChange(form: RegisterForm, errors: Errors, f: Field, value: string): (r: (RegisterForm, Errors))
    ensures r.0 == Set(form, f, value)
    ensures !HasError(r.1, FieldError(f))
    ensures forall k :: k != FieldError(f) ==> (k in r.1 <==> k in errors)
    ensures forall k :: k in errors && k != FieldError(f) ==> r.1[k] == errors[k]
    ensures FieldError(f) in r.1 <==> FieldError(f) in errors
  {
    var errors' := if HasError(errors, FieldError(f)) then errors[FieldError(f) := ""] else errors;
    (Set(form, f, value), errors')
  }

  /** The body of the `register` call. */
  datatype Payload = Payload(username: string, email: string, password: string, bio: string)

  /** What `handleSubmit` does before awaiting: either it stops with the
      validation errors, or it sends a payload. */
  datatype Submission = Invalid(errors: Errors) | Send(payload: Payload)

  function Submit(form: RegisterForm): (r: Submission)
    ensures r.Invalid? <==> |ValidateForm(form)| > 0
    ensures r.Invalid? ==> r.errors == ValidateForm(form)
    ensures r.Send? ==> r.payload == Payload(form.username, form.email, form.password, form.bio)
  {
    var errors := ValidateForm(form);
    if |errors| > 0 then Invalid(errors)
    else Send(Payload(form.username, form.email, form.password, if form.bio != "" then form.bio else ""))
  }

  /** No payload leaves an invalid form. */
  lemma InvalidFormSendsNothing(form: RegisterForm)
    requires IsBlank(form.username) || !MatchesEmailPattern(form.email) || form.password == ""
    ensures Submit(form).Invalid?
  {
    ValidIff(form);
  }

  /** The page state that a submit can change. */
  datatype RegisterPage = RegisterPage(form: RegisterForm, errors: Errors, loading: bool,
                                       success: bool, successMessage: string)

  const CreatedMessage := "User created! Please login."

  /** The part of `handleSubmit(e)` after a payload was sent: `result` is
      what `register(payload)` settled with, `Err(message)` if it threw.  The
      result of `AuthContext.Register` carries no `message`, so the success
      message is always the default one. */
  function Settle(page: RegisterPage, result: Result<AuthResult>): (r: RegisterPage)
    ensures r.form == page.form && !r.loading
    ensures result == Ok(Success) ==> r.success && r.successMessage == CreatedMessage && r.errors == map[]
    ensures result != Ok(Success) ==> r.success == page.success && r.successMessage == page.successMessage
    ensures result.Ok? && result.value.Failure? ==> r.errors == map[General := result.value.error]
    ensures result.Err? ==> r.errors == map[General := MessageOr(result.error, "Registration failed")]
  {
    match result
    case Ok(Success) => page.(errors := map[], loading := false, success := true, successMessage := CreatedMessage)
    case Ok(Failure(e)) => page.(errors := map[General := e], loading := false)
    case Err(m) => page.(errors := map[General := MessageOr(m, "Registration failed")], loading := false)
  }

  /** `handleSubmit(e)`: an invalid form only shows its errors; a valid one
      is sent and the page settles with the result. */
  function HandleSubmit(page: RegisterPage, result: Result<AuthResult>): (r: RegisterPage)
    ensures r.form == page.form
    ensures Submit(page.form).Invalid? ==> r == page.(errors := ValidateForm(page.form))
    ensures Submit(page.form).Send? ==> r == Settle(page, result)
  {
    match Submit(page.form)
    case Invalid(errors) => page.(errors := errors)
    case Send(_) => Settle(page, result)
  }

  /** A failed registration shows only the general error, replacing every
      field error that was showing. */
  lemma FailureShowsOnlyGeneral(page: RegisterPage, e: string)
    requires Submit(page.form).Send?
    ensures HandleSubmit(page, Ok(Failure(e))).errors.Keys == {General}
  {
  }
}
