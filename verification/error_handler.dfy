/**
 * The error-state controller of `useErrorHandler` and `useAsyncErrorHandler`:
 * one slot holding the current error, replaced by `handleError` /
 * `showError`, emptied by `clearError`, and the `executeAsync` wrapper that
 * runs an operation under that protocol. Each transition is a function from
 * the old state to the new one; the clock reading is a parameter.
 */
module ErrorHandler {
  import opened Wrappers
  import opened ErrorCodes
  import opened Exceptions

  /** `ErrorState`: whether an error is shown, the error, and its display text. */
  datatype ErrorState = ErrorState(hasError: bool, error: Option<ApiError>, message: string)

  /** The state every transition keeps: the flag says whether an error is
      stored, the display text of a stored error is its formatted form, and
      an empty slot shows no text. */
  predicate Consistent(s: ErrorState)
  {
    && s.hasError == s.error.Some?
    && (if s.error.Some? then s.message == FormatErrorForDisplay(s.error.value) else s.message == "")
  }

  /** The state the hook starts in, and the one `clearError` restores. */
  const Empty := ErrorState(false, None, "")

  /** The controller starts out consistent and showing nothing. */
  lemma EmptyIsConsistent()
    ensures Consistent(Empty) && !Empty.hasError && Empty.message == ""
  {
  }

  /** The error `handleError` stores for a caught value: an object with a
      `code` key is kept as it is; anything else becomes an unknown error
      carrying the `Error`'s own message and stack, or the generic message
      and the value's string form. */
  function Normalize(raw: Thrown, now: string): (e: ApiError)
    ensures raw.Coded? ==> e == raw.error
    ensures !raw.Coded? ==> e.code == UNKNOWN_ERROR && e.timestamp == Some(now)
    ensures raw.JsError? ==> e.message == raw.message && e.details == raw.stack
    ensures raw.Other? ==> e.message == GetErrorMessage(UNKNOWN_ERROR) && e.details == Some(raw.text)
    ensures raw.Nullish? ==> e.message == GetErrorMessage(UNKNOWN_ERROR) && e.details == Some(NullishText(raw.isNull))
  {
    match raw
    case Coded(e) => e
    case JsError(m, stack) => ApiError(UNKNOWN_ERROR, m, stack, Some(now), None)
    case Nullish(isNull) => ApiError(UNKNOWN_ERROR, UnknownMessage, Some(NullishText(isNull)), Some(now), None)
    case Other(text) => ApiError(UNKNOWN_ERROR, UnknownMessage, Some(text), Some(now), None)
  }

  /** `handleError`: the slot is overwritten with the normalised error and
      its formatted text, whatever it held before. */
  function HandleError(s: ErrorState, raw: Thrown, now: string): (r: ErrorState)
    ensures Consistent(r) && r.hasError
    ensures r.error == Some(Normalize(raw, now))
  {
    var e := Normalize(raw, now);
    ErrorState(true, Some(e), FormatErrorForDisplay(e))
  }

  /** `clearError`: back to the empty state, whatever was shown. */
  function ClearError(s: ErrorState): (r: ErrorState)
    ensures Consistent(r) && !r.hasError && r.message == ""
  {
    Empty
  }

  /** Clearing twice is the same as clearing once. */
  lemma ClearErrorIdempotent(s: ErrorState)
    ensures ClearError(ClearError(s)) == ClearError(s)
  {
  }

  /** `showError(message, code = 1000)`: a synthetic error with the given
      code and message and no details; the display text is the message. */
  function ShowError(s: ErrorState, message: string, code: Option<int>, now: string): (r: ErrorState)
    ensures Consistent(r) && r.hasError
    ensures r.message == message
    ensures r.error.Some? && r.error.value.code == code.GetOr(UNKNOWN_ERROR)
    ensures r.error.value.message == message && !HasDetails(r.error.value)
  {
    ErrorState(true, Some(ApiError(code.GetOr(UNKNOWN_ERROR), message, None, Some(now), None)), message)
  }

  /** The hook's `isBusinessError` delegate: the code's range class, so a
      business error is neither a success nor a system error. */
  function IsBusinessError(e: ApiError): (b: bool)
    ensures b ==> e.code != SUCCESS && !IsSystem(e.code)
    ensures IsAuth(e.code) ==> b
  {
    IsBusiness(e.code)
  }

  /** The hook's `isSystemError` delegate: never a business error. */
  function IsSystemError(e: ApiError): (b: bool)
    ensures b ==> !IsBusiness(e.code)
    ensures e.code in SystemCodes ==> b
  {
    IsSystem(e.code)
  }

  /** The hook's `isAuthError` delegate: an auth error is also a business
      error. */
  function IsAuthError(e: ApiError): (b: bool)
    ensures b ==> IsBusiness(e.code)
    ensures e.code in AuthCodes ==> b
  {
    IsAuth(e.code)
  }

  /** Every error `handleError` builds itself (from an `Error`, a thrown
      `null` or `undefined`, or any other value) is a business error that is
      neither an auth nor a system error; only a value that already carries
      a code keeps its own class. */
  lemma NormalizedClass(raw: Thrown, now: string)
    ensures !raw.Coded? ==> IsBusinessError(Normalize(raw, now)) && !IsAuthError(Normalize(raw, now)) && !IsSystemError(Normalize(raw, now))
    ensures raw.Coded? ==> IsSystemError(Normalize(raw, now)) == IsSystem(raw.error.code)
  {
  }

  /** How the awaited operation of `executeAsync` settles. */
  datatype Outcome<T> = Resolved(value: T) | Threw(reason: Thrown)

  /** What a supplied callback (`onSuccess` or `onError`) does when called:
      return, or throw a value. */
  datatype Callback = Returns | Throws(reason: Thrown)

  /** A callback invocation, in the order they happen. */
  datatype Call<T> = OnSuccessCalled(value: T) | OnErrorCalled(reason: Thrown)

  /** The effect of one `executeAsync` call: the final state, the value the
      returned promise resolves to (`None` for `null`), the value it rejects
      with when `onError` throws, and the callbacks made. */
  datatype AsyncRun<T> = AsyncRun(state: ErrorState, result: Option<T>, rejection: Option<Thrown>, calls: seq<Call<T>>)

  /** The value that reaches the `catch` clause of `executeAsync`, if any: a
      rejection of the operation, or a throw from `onSuccess`. */
  function Caught<T>(op: Outcome<T>, onSuccess: Option<Callback>): Option<Thrown>
  {
    match op
    case Threw(reason) => Some(reason)
    case Resolved(_) =>
      if onSuccess.Some? && onSuccess.value.Throws? then Some(onSuccess.value.reason) else None
  }

  /** The `catch` clause: `handleError`, then `onError` with the raw value,
      then resolve to `null`; a throw from `onError` escapes the clause and
      rejects the returned promise. */
  function Fail<T>(s: ErrorState, reason: Thrown, calls: seq<Call<T>>, onError: Option<Callback>, now: string): AsyncRun<T>
  {
    AsyncRun(HandleError(s, reason, now), None,
      if onError.Some? && onError.value.Throws? then Some(onError.value.reason) else None,
      calls + if onError.Some? then [OnErrorCalled(reason)] else [])
  }

  /** `executeAsync(op, onSuccess?, onError?)` run to completion: it clears
      the error and awaits the operation. It resolves to the operation's value
      when nothing was caught, to `null` when something was caught, and
      rejects only when `onError` itself throws. */
  function ExecuteAsync<T>(s: ErrorState, op: Outcome<T>, onSuccess: Option<Callback>, onError: Option<Callback>, now: string): (run: AsyncRun<T>)
    ensures Consistent(run.state)
    ensures run.result.Some? <==> Caught(op, onSuccess).None?
    ensures run.result.Some? ==> op.Resolved? && run.result.value == op.value && run.state == Empty
    ensures Caught(op, onSuccess).Some? ==> run.state == HandleError(Empty, Caught(op, onSuccess).value, now)
    ensures run.rejection.Some? <==> Caught(op, onSuccess).Some? && onError.Some? && onError.value.Throws?
    ensures run.rejection.Some? ==> run.rejection.value == onError.value.reason && run.result.None?
    ensures |run.calls| <= 2
    ensures forall i :: 0 <= i < |run.calls| && run.calls[i].OnErrorCalled? ==>
      onError.Some? && i == |run.calls| - 1 && Some(run.calls[i].reason) == Caught(op, onSuccess)
    ensures forall i :: 0 <= i < |run.calls| && run.calls[i].OnSuccessCalled? ==>
      i == 0 && onSuccess.Some? && op == Resolved(run.calls[i].value)
  {
    var cleared := ClearError(s);
    match op
    case Threw(reason) => Fail(cleared, reason, [], onError, now)
    case Resolved(v) =>
      if onSuccess.None? then AsyncRun(cleared, Some(v), None, [])
      else if onSuccess.value.Throws? then Fail(cleared, onSuccess.value.reason, [OnSuccessCalled(v)], onError, now)
      else AsyncRun(cleared, Some(v), None, [OnSuccessCalled(v)])
  }

  /** Every callback is made when the source makes it: `onSuccess` once when
      the operation resolves and one is supplied, `onError` once with the raw
      caught value whenever something was caught and one is supplied. */
  lemma ExecuteAsyncCallbacks<T>(s: ErrorState, op: Outcome<T>, onSuccess: Option<Callback>, onError: Option<Callback>, now: string)
    ensures var run := ExecuteAsync(s, op, onSuccess, onError, now);
      op.Resolved? && onSuccess.Some? ==> |run.calls| > 0 && run.calls[0] == OnSuccessCalled(op.value)
    ensures var run := ExecuteAsync(s, op, onSuccess, onError, now);
      Caught(op, onSuccess).Some? && onError.Some? ==>
        |run.calls| > 0 && run.calls[|run.calls| - 1] == OnErrorCalled(Caught(op, onSuccess).value)
  {
  }

  /** Without a throwing `onError` the returned promise never rejects, and
      the error state after a rejection is the same whether `onError` throws
      or not: `handleError` has already run. */
  lemma ExecuteAsyncRejectsOnlyThroughOnError<T>(s: ErrorState, op: Outcome<T>, onSuccess: Option<Callback>, onError: Option<Callback>, reason: Thrown, now: string)
    ensures onError.None? || onError == Some(Returns) ==> ExecuteAsync(s, op, onSuccess, onError, now).rejection.None?
    ensures ExecuteAsync(s, op, onSuccess, Some(Throws(reason)), now).state == ExecuteAsync(s, op, onSuccess, Some(Returns), now).state
  {
  }

  /** The state after `executeAsync` does not depend on what was shown before:
      the stale error is always cleared first. */
  lemma ExecuteAsyncForgetsPriorState<T>(s1: ErrorState, s2: ErrorState, op: Outcome<T>, onSuccess: Option<Callback>, onError: Option<Callback>, now: string)
    ensures ExecuteAsync(s1, op, onSuccess, onError, now) == ExecuteAsync(s2, op, onSuccess, onError, now)
  {
  }
}
