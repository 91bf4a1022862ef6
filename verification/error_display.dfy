/**
 * `ErrorDisplay` and `ErrorBoundary`: which severity and icon an error is
 * shown with, and which parts of it appear. A render is modelled as the list
 * of facts the markup depends on; colours, layout and the locale formatting
 * of the timestamp are not modelled.
 */
module ErrorDisplay {
  import opened Wrappers
  import opened ErrorCodes
  import opened Exceptions

  /** The MUI severities the component chooses between. */
  datatype Severity = Error | Warning | Info

  /** The two layouts of the component. */
  datatype Variant = AlertVariant | CardVariant

  /** The component's optional props; `onClose` and `onRetry` are recorded
      only as present or absent, and the defaults are applied by `Render`. */
  datatype Props = Props(
    onClose: bool,
    onRetry: bool,
    showDetails: Option<bool>,
    variant: Option<Variant>,
    severity: Option<Severity>)

  const SystemIcon := "🚨"
  const AuthIcon := "🔐"
  const BusinessIcon := "⚠️"
  const OtherIcon := "❌"

  /** `getSeverity`: the first matching class wins, system before auth before
      business, and a code in none of them takes the severity prop. Because
      the auth range lies inside the business range, the order decides; the
      contract states the outcome range by range. */
  function SeverityFor(code: int, fallback: Severity): (sev: Severity)
    ensures code >= 5000 ==> sev == Error
    ensures 2000 <= code < 3000 ==> sev == Warning
    ensures (1000 <= code < 2000 || 3000 <= code < 5000) ==> sev == Info
    ensures code < 1000 ==> sev == fallback
  {
    if IsSystem(code) then Error
    else if IsAuth(code) then Warning
    else if IsBusiness(code) then Info
    else fallback
  }

  /** `getErrorIcon`: the same cascade, with the catch-all icon last. */
  function IconFor(code: int): (icon: string)
    ensures code >= 5000 ==> icon == SystemIcon
    ensures 2000 <= code < 3000 ==> icon == AuthIcon
    ensures (1000 <= code < 2000 || 3000 <= code < 5000) ==> icon == BusinessIcon
    ensures code < 1000 ==> icon == OtherIcon
  {
    if IsSystem(code) then SystemIcon
    else if IsAuth(code) then AuthIcon
    else if IsBusiness(code) then BusinessIcon
    else OtherIcon
  }

  /** The icon and the severity always tell the same story: the catch-all icon
      goes exactly with the codes whose severity is the prop's, and the auth
      icon exactly with the warning severity (whatever the prop says). */
  lemma IconMatchesSeverity(code: int)
    ensures IconFor(code) == OtherIcon <==> code < 1000
    ensures IconFor(code) == OtherIcon <==> forall fallback :: SeverityFor(code, fallback) == fallback
    ensures IconFor(code) == AuthIcon <==> SeverityFor(code, Info) == Warning
    ensures IconFor(code) == SystemIcon <==> SeverityFor(code, Warning) == Error
  {
    if code >= 1000 {
      if IsSystem(code) || IsAuth(code) {
        assert SeverityFor(code, Info) != Info;
      } else {
        assert SeverityFor(code, Error) != Error;
      }
    }
  }

  /** Every catalogue code shows the severity of its class; only the success
      code and the HTTP statuses fall back to the prop. */
  lemma CatalogueSeverities()
    ensures forall c :: c in HttpCodes ==> SeverityFor(c, Error) == Error && IconFor(c) == OtherIcon
    ensures SeverityFor(TOKEN_EXPIRED, Error) == Warning && IconFor(TOKEN_EXPIRED) == AuthIcon
    ensures SeverityFor(PROJECT_NOT_FOUND, Error) == Info && IconFor(PROJECT_NOT_FOUND) == BusinessIcon
    ensures SeverityFor(RATE_LIMIT_EXCEEDED, Info) == Error && IconFor(RATE_LIMIT_EXCEEDED) == SystemIcon
    ensures SeverityFor(UNKNOWN_ERROR, Error) == Info
  {
  }

  /** What one render of the component shows. */
  datatype View = View(
    variant: Variant,
    severity: Severity,
    icon: string,
    title: string,
    details: Option<string>,
    timestamp: Option<string>,
    retryButton: bool,
    closeButton: bool)

  /** `ErrorDisplay(props)`: nothing for a null error; otherwise the error's
      message under its icon, the details only when asked for and present,
      the timestamp when present, a retry button exactly when `onRetry` is
      given, and a close button exactly when `onClose` is given to the card.
      The alert always passes its own `action` box, and an alert with an
      `action` shows no close icon of its own, so `onClose` shows nothing
      there. */
  function Render(error: Option<ApiError>, props: Props): (v: Option<View>)
    ensures v.None? <==> error.None?
    ensures v.Some? ==>
      && v.value.title == error.value.message
      && v.value.icon == IconFor(error.value.code)
      && v.value.severity == SeverityFor(error.value.code, props.severity.GetOr(Error))
      && v.value.variant == props.variant.GetOr(AlertVariant)
      && (v.value.details.Some? <==> props.showDetails == Some(true) && HasDetails(error.value))
      && (v.value.details.Some? ==> v.value.details == error.value.details)
      && (v.value.timestamp.Some? <==> error.value.timestamp.Some? && error.value.timestamp.value != "")
      && (v.value.timestamp.Some? ==> v.value.timestamp == error.value.timestamp)
      && (v.value.retryButton <==> props.onRetry)
      && (v.value.closeButton <==> props.onClose && v.value.variant == CardVariant)
  {
    match error
    case None => None
    case Some(e) =>
      var showDetails := props.showDetails.GetOr(false);
      Some(View(
        props.variant.GetOr(AlertVariant),
        SeverityFor(e.code, props.severity.GetOr(Error)),
        IconFor(e.code),
        e.message,
        if showDetails && HasDetails(e) then e.details else None,
        if e.timestamp.Some? && e.timestamp.value != "" then e.timestamp else None,
        props.onRetry,
        props.onClose && props.variant == Some(CardVariant)))
  }

  /** Only the card closes: an alert offers no close control whatever
      `onClose` is, and a card offers one exactly when it is given. */
  lemma OnlyCardCloses(e: ApiError, p: Props)
    ensures p.variant != Some(CardVariant) ==> !Render(Some(e), p).value.closeButton
    ensures Render(Some(e), p.(variant := Some(CardVariant))).value.closeButton <==> p.onClose
  {
  }

  /** The severity prop is only a default: it never overrides the class of a
      business, auth or system error. */
  lemma SeverityPropIsFallback(e: ApiError, p1: Props, p2: Props)
    requires e.code >= 1000
    requires p1.variant == p2.variant && p1.showDetails == p2.showDetails
    requires p1.onClose == p2.onClose && p1.onRetry == p2.onRetry
    ensures Render(Some(e), p1) == Render(Some(e), p2)
  {
  }

  /** The state of an `ErrorBoundary`: whether a render below it threw, and
      what was thrown. */
  datatype BoundaryState = BoundaryState(hasError: bool, error: Option<Thrown>)

  const BoundaryInitial := BoundaryState(false, None)

  /** The message shown when the thrown value has no message of its own. */
  const RenderFailedMessage := "组件渲染错误"

  /** `getDerivedStateFromError`: remember the thrown value. */
  function DerivedStateFromError(thrown: Thrown): (st: BoundaryState)
    ensures st.hasError && st.error == Some(thrown)
  {
    BoundaryState(true, Some(thrown))
  }

  /** What a boundary renders. */
  datatype BoundaryView =
    | Children
    | CustomFallback(error: Option<Thrown>)
    | Display(view: View)

  /** The stack of a thrown value, as `error?.stack` reads it: only an
      `Error` object carries one (which may still be missing); coded
      objects, `null`, `undefined` and primitives give nothing. */
  function StackOf(t: Thrown): (s: Option<string>)
    ensures s.Some? ==> t.JsError? && t.stack == s
    ensures t.JsError? ==> s == t.stack
  {
    match t
    case JsError(_, stack) => stack
    case Coded(_) => None
    case Nullish(_) => None
    case Other(_) => None
  }

  /** The error the default fallback displays: always the unknown-error code,
      the thrown value's message or the boundary's own message, its stack as
      the details, and the render time. */
  function BoundaryError(thrown: Option<Thrown>, now: string): (e: ApiError)
    ensures e.code == UNKNOWN_ERROR && e.message != "" && e.timestamp == Some(now)
    ensures thrown.Some? && MessageField(thrown.value).Some? && MessageField(thrown.value).value != "" ==>
      e.message == MessageField(thrown.value).value
    ensures thrown.None? || MessageField(thrown.value).None? || MessageField(thrown.value).value == "" ==>
      e.message == RenderFailedMessage
    ensures e.details == if thrown.Some? then StackOf(thrown.value) else None
  {
    var message :=
      if thrown.Some? && MessageField(thrown.value).Some? && MessageField(thrown.value).value != ""
      then MessageField(thrown.value).value
      else RenderFailedMessage;
    ApiError(UNKNOWN_ERROR, message, if thrown.Some? then StackOf(thrown.value) else None, Some(now), None)
  }

  /** `ErrorBoundary.render`: the children while nothing has been thrown; the
      custom fallback when one is given; otherwise an `ErrorDisplay` of the
      boundary error with details switched on and no buttons. */
  function BoundaryRender(st: BoundaryState, hasCustomFallback: bool, now: string): (v: BoundaryView)
    ensures !st.hasError <==> v.Children?
    ensures v.CustomFallback? <==> st.hasError && hasCustomFallback
    ensures v.CustomFallback? ==> v.error == st.error
    ensures v.Display? ==> Render(Some(BoundaryError(st.error, now)), Props(false, false, Some(true), None, None)) == Some(v.view)
  {
    if !st.hasError then Children
    else if hasCustomFallback then CustomFallback(st.error)
    else
      var v := Render(Some(BoundaryError(st.error, now)), Props(false, false, Some(true), None, None));
      Display(v.value)
  }

  /** A boundary that caught a render failure, without a custom fallback,
      shows it as an informational alert with the business icon, the stack
      when there is one, and neither a retry nor a close control. */
  lemma BoundaryShowsInfo(thrown: Thrown, now: string)
    ensures var v := BoundaryRender(DerivedStateFromError(thrown), false, now);
      && v.Display?
      && v.view.severity == Info
      && v.view.icon == BusinessIcon
      && v.view.variant == AlertVariant
      && !v.view.retryButton && !v.view.closeButton
      && (v.view.details.Some? <==> StackOf(thrown).Some? && StackOf(thrown).value != "")
  {
  }

  /** A boundary that has caught nothing renders its children. */
  lemma BoundaryInitialRendersChildren(hasCustomFallback: bool, now: string)
    ensures BoundaryRender(BoundaryInitial, hasCustomFallback, now) == Children
  {
  }
}
