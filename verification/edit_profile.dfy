/** The profile dialog (src/components/EditProfileDialog.jsx): the form it
    starts from, field edits, and the payload handed to `onSave`, which leaves
    out an empty password. */
module EditProfile {
  import opened Wrappers

  /** The user the dialog is opened for; `bio` may be missing. */
  datatype ProfileUser = ProfileUser(username: string, email: string, bio: Option<string>)

  datatype ProfileForm = ProfileForm(username: string, email: string, bio: string, password: string)

  datatype Field = Username | Email | Bio | Password

  /** `onSave`'s argument: `{ ...formData }` without `password` when it is empty. */
  datatype Payload = Payload(username: string, email: string, bio: string, password: Option<string>)

  /** The initial `formData`: `bio: user.bio || ''` and an empty password. */
  function InitialForm(user: ProfileUser): (f: ProfileForm)
    ensures f.username == user.username && f.email == user.email && f.password == ""
    ensures user.bio.Some? && user.bio.value != "" ==> f.bio == user.bio.value
    ensures user.bio.None? || user.bio == Some("") ==> f.bio == ""
  {
    ProfileForm(user.username, user.email, if user.bio.Some? && user.bio.value != "" then user.bio.value else "", "")
  }

  function Get(form: ProfileForm, f: Field): string {
    match f
    case Username => form.username
    case Email => form.email
    case Bio => form.bio
    case Password => form.password
  }

  /** `handleChange(e)`: `{ ...formData, [e.target.name]: e.target.value }`. */
  function HandleChange(form: ProfileForm, f: Field, value: string): (r: ProfileForm)
    ensures Get(r, f) == value
    ensures forall g :: g != f ==> Get(r, g) == Get(form, g)
  {
    match f
    case Username => form.(username := value)
    case Email => form.(email := value)
    case Bio => form.(bio := value)
    case Password => form.(password := value)
  }

  /** `handleSubmit(e)`: the one payload given to `onSave`. */
  function HandleSubmit(form: ProfileForm): (p: Payload)
    ensures p.username == form.username && p.email == form.email && p.bio == form.bio
    ensures p.password.None? <==> form.password == ""
    ensures p.password.Some? ==> p.password.value == form.password
  {
    Payload(form.username, form.email, form.bio,
            if form.password != "" then Some(form.password) else None)
  }

  /** Submitting the dialog untouched sends the user's details back without a
      password. */
  lemma UntouchedDialogKeepsPassword(user: ProfileUser)
    ensures HandleSubmit(InitialForm(user)).password.None?
    ensures HandleSubmit(InitialForm(user)).username == user.username
  {
  }

  /** Nothing is lost in the payload: an omitted password can only have been
      empty, so the payload determines the form it came from. */
  lemma PayloadDeterminesForm(a: ProfileForm, b: ProfileForm)
    requires HandleSubmit(a) == HandleSubmit(b)
    ensures a == b
  {
  }
}
