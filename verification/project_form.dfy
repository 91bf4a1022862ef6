/**
 * The state logic of the `ProjectForm` dialog: the two text fields, the
 * local error and how it is routed to the name field or the general alert,
 * the description cap and colour, the submit rule, and the handlers. Each
 * handler is a transition returning the new state and the callbacks it
 * makes, in order.
 */
module ProjectForm {
  import opened Wrappers
  import opened Text
  import opened ErrorCodes
  import opened Exceptions

  /** The two controlled fields. */
  datatype Form = Form(name: string, desc: string)

  const EmptyForm := Form("", "")

  /** Which input an edit comes from (`e.target.name`). */
  datatype Field = Name | Desc

  /** The dialog's own state: the form and the local error. */
  datatype FormState = FormState(form: Form, localError: Option<ApiError>)

  /** The parent's callbacks a handler can make. */
  datatype Effect = ClearErrorCalled | CloseCalled

  /** A transition: the new state and the callbacks made. */
  datatype Step = Step(state: FormState, effects: seq<Effect>)

  /** The longest description the form accepts. */
  const MaxDesc := 300

  /** The message of a failed submit that carries none. */
  const SubmitFailedMessage := "提交失败，请稍后重试"

  /** `isNameFieldError`: the codes the form shows under the name field. */
  predicate IsNameFieldError(code: int)
  {
    code in [PROJECT_ALREADY_EXISTS, PROJECT_NAME_INVALID, VALIDATION_FAILED]
  }

  /** The name-field codes are exactly three catalogue codes, all business
      errors and none of them an auth error. */
  lemma NameFieldCodes(code: int)
    ensures IsNameFieldError(code) <==> code == 3001 || code == 3002 || code == 1009
    ensures IsNameFieldError(code) ==> code in AllCodes && IsBusiness(code) && !IsAuth(code)
    ensures IsNameFieldError(code) ==> MessageOf(code).Some?
  {
    if IsNameFieldError(code) {
      CatalogueCodesHaveMessages();
    }
  }

  /** `nameFieldError`: the local error when its code is one of the three
      name-field codes (3001, 3002, 1009), and nothing otherwise. */
  function NameFieldError(st: FormState): (r: Option<ApiError>)
    ensures r.Some? <==> st.localError.Some? && st.localError.value.code in {3001, 3002, 1009}
    ensures r.Some? ==> r == st.localError
  {
    if st.localError.Some? && IsNameFieldError(st.localError.value.code) then st.localError else None
  }

  /** `generalError`: the local error when its code is none of the three
      name-field codes, and nothing otherwise. */
  function GeneralError(st: FormState): (r: Option<ApiError>)
    ensures r.Some? <==> st.localError.Some? && st.localError.value.code !in {3001, 3002, 1009}
    ensures r.Some? ==> r == st.localError
  {
    if st.localError.Some? && !IsNameFieldError(st.localError.value.code) then st.localError else None
  }

  /** Every local error is shown in exactly one place, and nothing is shown
      without one. */
  lemma ErrorShownOnce(st: FormState)
    ensures st.localError.None? ==> NameFieldError(st).None? && GeneralError(st).None?
    ensures st.localError.Some? ==>
      (NameFieldError(st) == st.localError && GeneralError(st).None?) ||
      (GeneralError(st) == st.localError && NameFieldError(st).None?)
    ensures NameFieldError(st).Some? ==> IsNameFieldError(NameFieldError(st).value.code)
  {
  }

  /** The colour of the character counter. */
  datatype CounterColor = Success | Warning | Error

  /** `getDescriptionColor`: the counter turns warning above 200 characters
      and error above 250. */
  function DescriptionColor(desc: string): (c: CounterColor)
    ensures c == Error <==> |desc| > 250
    ensures c == Warning <==> 200 < |desc| <= 250
    ensures c == Success <==> |desc| <= 200
  {
    if |desc| > 250 then Error
    else if |desc| > 200 then Warning
    else Success
  }

  /** How alarming a colour is. */
  function Rank(c: CounterColor): nat
  {
    match c
    case Success => 0
    case Warning => 1
    case Error => 2
  }

  /** A longer description never gets a calmer colour. */
  lemma DescriptionColorMonotone(a: string, b: string)
    requires |a| <= |b|
    ensures Rank(DescriptionColor(a)) <= Rank(DescriptionColor(b))
  {
  }

  /** `handleChange`: the field takes the new value; a shown error is
      dropped and reported to the parent with `onClearError`, when given. */
  function HandleChange(st: FormState, field: Field, value: string, hasOnClearError: bool): (s: Step)
    ensures field == Name ==> s.state.form == st.form.(name := value)
    ensures field == Desc ==> s.state.form == st.form.(desc := value)
    ensures s.state.localError.None?
    ensures s.effects == [ClearErrorCalled] <==> st.localError.Some? && hasOnClearError
    ensures s.effects == [] <==> !(st.localError.Some? && hasOnClearError)
  {
    var form := match field
      case Name => st.form.(name := value)
      case Desc => st.form.(desc := value);
    if st.localError.Some? then
      Step(FormState(form, None), if hasOnClearError then [ClearErrorCalled] else [])
    else
      Step(FormState(form, None), [])
  }

  /** What typing in a field does: the name field always goes through
      `handleChange`; the description field only when the new text is within
      the cap, and otherwise nothing happens at all. */
  function FieldInput(st: FormState, field: Field, value: string, hasOnClearError: bool): (s: Step)
    ensures field == Desc && |value| > MaxDesc ==> s == Step(st, [])
    ensures field == Name || |value| <= MaxDesc ==> s == HandleChange(st, field, value, hasOnClearError)
  {
    if field == Desc && |value| > MaxDesc then Step(st, [])
    else HandleChange(st, field, value, hasOnClearError)
  }

  /** One keystroke-level edit of a field. */
  datatype Edit = Edit(field: Field, value: string)

  /** A series of edits applied in order, with the callbacks they make; a
      description within the cap stays within the cap whatever is typed. */
  function ApplyEdits(st: FormState, edits: seq<Edit>, hasOnClearError: bool): (s: Step)
    ensures |st.form.desc| <= MaxDesc ==> |s.state.form.desc| <= MaxDesc
    ensures |s.effects| <= 1
    ensures s.effects != [] ==> st.localError.Some?
    ensures edits == [] ==> s == Step(st, [])
    decreases |edits|
  {
    if edits == [] then Step(st, [])
    else
      var first := FieldInput(st, edits[0].field, edits[0].value, hasOnClearError);
      var rest := ApplyEdits(first.state, edits[1..], hasOnClearError);
      Step(rest.state, first.effects + rest.effects)
  }

  /** `!form.name.trim()`: the submit button is disabled while loading and
      while the name holds nothing but whitespace. */
  function SubmitEnabled(loading: bool, form: Form): (enabled: bool)
    ensures enabled <==> !loading && !IsBlank(form.name)
  {
    TrimEmptyIffBlank(form.name);
    !loading && Trim(form.name) != ""
  }

  /** The local error a rejected `onSubmit` produces: the thrown value's code
      unless it has none (or it is 0), the thrown value's message unless it
      has none (or it is empty), no details, and the submit time. A `null` or
      `undefined` rejection produces none: reading its `code` throws a
      `TypeError` inside the `catch` clause. */
  function SubmitFailure(thrown: Thrown, now: string): (e: Option<ApiError>)
    ensures e.None? <==> thrown.Nullish?
    ensures e.Some? && CodeField(thrown).Some? && CodeField(thrown).value != 0 ==> e.value.code == CodeField(thrown).value
    ensures e.Some? && (CodeField(thrown).None? || CodeField(thrown).value == 0) ==> e.value.code == UNKNOWN_ERROR
    ensures e.Some? && MessageField(thrown).Some? && MessageField(thrown).value != "" ==> e.value.message == MessageField(thrown).value
    ensures e.Some? && (MessageField(thrown).None? || MessageField(thrown).value == "") ==> e.value.message == SubmitFailedMessage
    ensures e.Some? ==> e.value.details.None? && e.value.timestamp == Some(now)
  {
    if thrown.Nullish? then None
    else
      var code := if CodeField(thrown).Some? && CodeField(thrown).value != 0 then CodeField(thrown).value else UNKNOWN_ERROR;
      var message := if MessageField(thrown).Some? && MessageField(thrown).value != "" then MessageField(thrown).value else SubmitFailedMessage;
      Some(ApiError(code, message, None, Some(now), None))
  }

  /** `handleSubmit`: `onSubmit` is awaited with the form; a rejection
      becomes the local error, a success leaves the state as it was. A
      `null` or `undefined` rejection makes the `catch` clause itself throw,
      so the state stays as it was and the handler's own promise rejects. */
  function HandleSubmit(st: FormState, rejection: Option<Thrown>, now: string): (r: FormState)
    ensures r.form == st.form
    ensures rejection.None? ==> r == st
    ensures rejection.Some? && rejection.value.Nullish? ==> r == st
    ensures rejection.Some? && !rejection.value.Nullish? ==>
      r.localError.Some? && Some(r.localError.value) == SubmitFailure(rejection.value, now)
  {
    match rejection
    case None => st
    case Some(t) =>
      var failure := SubmitFailure(t, now);
      if failure.Some? then st.(localError := failure) else st
  }

  /** A rejection whose code belongs to the name field is shown under the
      name field; a network failure without a code goes to the general alert;
      a `null` or `undefined` rejection is shown nowhere. */
  lemma SubmitErrorRouting(st: FormState, e: ApiError, message: string, stack: Option<string>, isNull: bool, now: string)
    requires IsNameFieldError(e.code)
    ensures NameFieldError(HandleSubmit(st, Some(Coded(e)), now)).Some?
    ensures GeneralError(HandleSubmit(st, Some(JsError(message, stack)), now)).Some?
    ensures GeneralError(HandleSubmit(st, Some(JsError(message, stack)), now)).value.code == UNKNOWN_ERROR
    ensures HandleSubmit(st, Some(Nullish(isNull)), now) == st
  {
  }

  /** `handleClose`: both fields emptied, the error dropped, then
      `onClearError` (when given) and `onClose`, in that order. */
  function HandleClose(st: FormState, hasOnClearError: bool): (s: Step)
    ensures s.state.form == EmptyForm && s.state.localError.None?
    ensures |s.effects| > 0 && s.effects[|s.effects| - 1] == CloseCalled
    ensures s.effects == (if hasOnClearError then [ClearErrorCalled, CloseCalled] else [CloseCalled])
  {
    Step(FormState(EmptyForm, None), (if hasOnClearError then [ClearErrorCalled] else []) + [CloseCalled])
  }

  /** `handleClearError`, the close control of the general alert. */
  function HandleClearError(st: FormState, hasOnClearError: bool): (s: Step)
    ensures s.state.form == st.form && s.state.localError.None?
    ensures s.effects == [ClearErrorCalled] <==> hasOnClearError
    ensures !hasOnClearError ==> s.effects == []
  {
    Step(st.(localError := None), if hasOnClearError then [ClearErrorCalled] else [])
  }

  /** Closing leaves nothing to close: a second close gives the same state
      and the same callbacks. */
  lemma HandleCloseIdempotent(st: FormState, hasOnClearError: bool)
    ensures HandleClose(HandleClose(st, hasOnClearError).state, hasOnClearError) == HandleClose(st, hasOnClearError)
    ensures NameFieldError(HandleClose(st, hasOnClearError).state).None?
    ensures GeneralError(HandleClose(st, hasOnClearError).state).None?
  {
  }

  /** The project the dialog edits, as far as the form uses it. */
  datatype ProjectFields = ProjectFields(name: string, desc: string)

  /** The effect on `[project, isEdit]`: an edited project fills the form,
      anything else empties it. The local error is untouched. */
  function SyncProject(st: FormState, project: Option<ProjectFields>, isEdit: bool): (r: FormState)
    ensures r.localError == st.localError
    ensures project.Some? && isEdit ==> r.form == Form(project.value.name, project.value.desc)
    ensures !(project.Some? && isEdit) ==> r.form == EmptyForm
  {
    if project.Some? && isEdit then st.(form := Form(project.value.name, project.value.desc))
    else st.(form := EmptyForm)
  }

  /** The effect on `[error]`: the parent's error replaces the local one. */
  function SyncError(st: FormState, error: Option<ApiError>): (r: FormState)
    ensures r.form == st.form && r.localError == error
  {
    st.(localError := error)
  }

  /** The effect on `[open]`: closing the dialog drops the local error. */
  function SyncOpen(st: FormState, open: bool): (r: FormState)
    ensures r.form == st.form
    ensures !open ==> r.localError.None?
    ensures open ==> r == st
  {
    if !open then st.(localError := None) else st
  }

  /** A parent error shown in a closed dialog is dropped by the open effect,
      and an edit after a parent error clears it again. */
  lemma ParentErrorLifecycle(st: FormState, error: ApiError, value: string, hasOnClearError: bool)
    ensures SyncOpen(SyncError(st, Some(error)), false).localError.None?
    ensures var s := HandleChange(SyncError(st, Some(error)), Name, value, hasOnClearError);
      s.state.localError.None? && (hasOnClearError <==> s.effects == [ClearErrorCalled])
  {
  }
}
