/** The post composer (src/components/PostForm.jsx): the submit handler's
    guards, what it hands to `onSubmit`, when it resets, and the 500-character
    rule that only the submit button enforces. */
module PostForm {
  import opened Wrappers
  import opened Text
  import opened Js
  import opened Records

  const BlankAlert := "Please write something before posting"
  const FailureAlert := "Failed to create post"

  /** The limit of the character counter and of the submit button. */
  const MaxLength := 500

  datatype FormState = FormState(content: string, isSubmitting: bool)

  /** The arguments of `onSubmit(user.id, { text: content })`. */
  datatype Call = Call(userId: JsId, text: string)

  /** What one `handleSubmit` leaves behind: the new form state, the alert it
      raised, the `onSubmit` call it made and whether it called `onCancel`. */
  datatype Effect = Effect(state: FormState, alert: Option<string>, call: Option<Call>, cancelled: bool)

  /** `user?.id` is truthy. */
  predicate HasUserId(user: Option<UserRef>) {
    user.Some? && IdTruthy(user.value.id)
  }

  /** `handleSubmit(e)`.  `succeeds` says whether the awaited `onSubmit`
      resolves; `hasOnCancel` whether an `onCancel` prop was given. */
  function HandleSubmit(state: FormState, user: Option<UserRef>, succeeds: bool, hasOnCancel: bool): (r: Effect)
    ensures r.call.Some? <==> !IsBlank(state.content) && HasUserId(user)
    ensures r.call.Some? ==> r.call.value == Call(user.value.id, state.content)
    ensures IsBlank(state.content) ==> r == Effect(state, Some(BlankAlert), None, false)
    ensures !IsBlank(state.content) ==> !r.state.isSubmitting
    ensures r.call.Some? && succeeds ==> r.state.content == "" && r.alert.None? && r.cancelled == hasOnCancel
    ensures !IsBlank(state.content) && !(r.call.Some? && succeeds) ==>
              r.state.content == state.content && r.alert == Some(FailureAlert) && !r.cancelled
  {
    if TrimsToEmpty(state.content) then Effect(state, Some(BlankAlert), None, false)
    else if !HasUserId(user) then Effect(FormState(state.content, false), Some(FailureAlert), None, false)
    else
      var call := Call(user.value.id, state.content);
      if succeeds then Effect(FormState("", false), None, Some(call), hasOnCancel)
      else Effect(FormState(state.content, false), Some(FailureAlert), Some(call), false)
  }

  /** Content is cleared only by a submit whose `onSubmit` resolved. */
  lemma ClearedOnlyAfterSuccess(state: FormState, user: Option<UserRef>, succeeds: bool, hasOnCancel: bool)
    requires state.content != ""
    ensures var r := HandleSubmit(state, user, succeeds, hasOnCancel);
            r.state.content == "" <==> r.call.Some? && succeeds
  {
  }

  /** The counter turns red and the warning shows: `content.length > 500`. */
  predicate OverLimit(content: string) {
    Utf16Length(content) > MaxLength
  }

  /** `disabled={isSubmitting || !content.trim() || content.length > 500}`. */
  function SubmitDisabled(state: FormState): (disabled: bool)
    ensures disabled <==> state.isSubmitting || IsBlank(state.content) || OverLimit(state.content)
  {
    state.isSubmitting || TrimsToEmpty(state.content) || Utf16Length(state.content) > MaxLength
  }

  /** 500 characters pass the button, 501 do not; a character outside the
      Basic Multilingual Plane counts twice. */
  lemma LimitCountsCodeUnits()
    ensures !OverLimit(seq(MaxLength, _ => 'a')) && OverLimit(seq(MaxLength + 1, _ => 'a'))
    ensures OverLimit(seq(MaxLength - 1, _ => 'a') + ['\U{1F600}'])
  {
    Utf16LengthOfBmp(seq(MaxLength, _ => 'a'));
    Utf16LengthOfBmp(seq(MaxLength + 1, _ => 'a'));
    var s := seq(MaxLength - 1, _ => 'a') + ['\U{1F600}'];
    var t := seq(MaxLength - 1, _ => 'a');
    Utf16Append(t, ['\U{1F600}']);
    Utf16LengthOfBmp(t);
  }

  /** The handler itself does not check the limit: 501 characters from a
      logged-in user still reach `onSubmit`. */
  lemma HandlerIgnoresLimit(user: UserRef, succeeds: bool, hasOnCancel: bool)
    requires IdTruthy(user.id)
    ensures var content := seq(MaxLength + 1, _ => 'a');
            && OverLimit(content)
            && HandleSubmit(FormState(content, false), Some(user), succeeds, hasOnCancel).call
               == Some(Call(user.id, content))
  {
    var content := seq(MaxLength + 1, _ => 'a');
    Utf16LengthOfBmp(content);
    assert !IsJsSpace(content[0]);
  }
}
