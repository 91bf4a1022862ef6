/**
 * The axios interceptors of the shared request client, as pure decisions.
 * The stored token is a parameter instead of a read of `localStorage`, and
 * the redirect to the login page is returned as a flag instead of being
 * performed on `window.location`.
 */
module Request {
  import opened Wrappers
  import opened Text
  import opened ErrorCodes
  import opened Exceptions
  import opened ErrorHandler

  /** The parts of an outgoing request the interceptor looks at. */
  datatype RequestConfig = RequestConfig(url: string, headers: map<string, string>)

  const AuthorizationHeader := "Authorization"
  const BearerPrefix := "Bearer "

  /** The message of a rejected business failure whose envelope has no `msg`. */
  const RequestFailedMessage := "请求失败"

  /** Where a 401 response sends the browser. */
  const LoginPath := "/login"

  /** The request interceptor: with a non-empty stored token the request
      carries `Authorization: Bearer <token>`; without one it passes through
      untouched; an earlier rejection is passed on unchanged. */
  function RequestInterceptor<E>(incoming: Settled<RequestConfig, E>, token: Option<string>): (out: Settled<RequestConfig, E>)
    ensures incoming.Rejected? ==> out == incoming
    ensures incoming.Fulfilled? ==> out.Fulfilled? && out.value.url == incoming.value.url
    ensures incoming.Fulfilled? && (token.None? || token.value == "") ==> out == incoming
    ensures incoming.Fulfilled? && token.Some? && token.value != "" ==>
      && AuthorizationHeader in out.value.headers
      && StartsWith(out.value.headers[AuthorizationHeader], BearerPrefix)
      && out.value.headers[AuthorizationHeader][|BearerPrefix|..] == token.value
      && (forall h :: h in incoming.value.headers && h != AuthorizationHeader ==>
            h in out.value.headers && out.value.headers[h] == incoming.value.headers[h])
      && (forall h :: h in out.value.headers ==> h in incoming.value.headers || h == AuthorizationHeader)
  {
    match incoming
    case Rejected(_) => incoming
    case Fulfilled(config) =>
      if token.Some? && token.value != "" then
        Fulfilled(config.(headers := config.headers[AuthorizationHeader := BearerPrefix + token.value]))
      else incoming
  }

  /** The interceptor only ever sets the one header: running it again with
      the same token changes nothing, and dropping `Authorization` from its
      output gives back the incoming headers without `Authorization`. */
  lemma RequestInterceptorIdempotent<E>(incoming: Settled<RequestConfig, E>, token: Option<string>)
    ensures RequestInterceptor(RequestInterceptor(incoming, token), token) == RequestInterceptor(incoming, token)
    ensures incoming.Fulfilled? ==>
      RequestInterceptor(incoming, token).value.headers - {AuthorizationHeader} == incoming.value.headers - {AuthorizationHeader}
  {
    if incoming.Fulfilled? && token.Some? && token.value != "" {
      var h := incoming.value.headers[AuthorizationHeader := BearerPrefix + token.value];
      assert h[AuthorizationHeader := BearerPrefix + token.value] == h;
    }
  }

  /** The response envelope `{code, msg, data}`; `msg` is `None` when the
      server sent none (or `null`). */
  datatype Envelope<D> = Envelope(code: int, msg: Option<string>, data: D)

  /** A response that reached the client with a 2xx status. */
  datatype Response<D> = Response(status: int, data: Envelope<D>)

  /** The message of the `Error` a business failure is rejected with:
      `data.msg || '请求失败'`. */
  function RejectionMessage(msg: Option<string>): (m: string)
    ensures m != ""
    ensures msg.Some? && msg.value != "" ==> m == msg.value
    ensures msg.None? || msg.value == "" ==> m == RequestFailedMessage
  {
    if msg.Some? && msg.value != "" then msg.value else RequestFailedMessage
  }

  /** The success branch of the response interceptor: the response goes
      through unchanged exactly when the envelope's code is the success
      sentinel; any other code becomes a plain `Error` (no `code` key) with
      the server's message. `stack` is the stack the engine records for it. */
  function ResponseInterceptor<D>(resp: Response<D>, stack: Option<string>): (out: Settled<Response<D>, Thrown>)
    ensures out.Fulfilled? <==> resp.data.code == SUCCESS
    ensures out.Fulfilled? ==> out.value == resp
    ensures out.Rejected? ==> out.reason.JsError? && out.reason.stack == stack
    ensures out.Rejected? ==> out.reason.message == RejectionMessage(resp.data.msg)
  {
    if resp.data.code == SUCCESS then Fulfilled(resp)
    else Rejected(JsError(RejectionMessage(resp.data.msg), stack))
  }

  /** Every response a caller receives from the client carries the success
      code. */
  lemma DeliveredResponsesSucceeded<D>(resp: Response<D>, stack: Option<string>)
    ensures var out := ResponseInterceptor(resp, stack);
      out.Fulfilled? ==> out.value.data.code == SUCCESS
  {
  }

  /** A business failure handed to the error controller is stored as an
      unknown error (1000) carrying the server's message, or the request
      client's default, because the rejected `Error` has no `code` key. */
  lemma BusinessFailureReachesController<D>(resp: Response<D>, stack: Option<string>, s: ErrorState, now: string)
    requires resp.data.code != SUCCESS
    ensures var out := ResponseInterceptor(resp, stack);
      && out.Rejected?
      && var st := HandleError(s, out.reason, now);
      && st.error.Some?
      && st.error.value.code == UNKNOWN_ERROR
      && st.error.value.message == RejectionMessage(resp.data.msg)
      && st.error.value.details == stack
  {
  }

  /** A failed HTTP exchange as axios reports it: `response` is present when
      the server answered with a non-2xx status, absent for a network failure
      or a timeout. The remaining fields are carried through opaquely. */
  datatype HttpFailure<B> = HttpFailure(status: int, body: B)
  datatype TransportError<B> = TransportError(response: Option<HttpFailure<B>>, message: string)

  /** What the error branch decides: the value it rejects with and whether
      it sends the browser to the login page. */
  datatype ErrorDecision<B> = ErrorDecision(rejected: TransportError<B>, redirectTo: Option<string>)

  /** The error branch of the response interceptor: a 401 answer sends the
      browser to `/login`; 403, 404, 500, any other status and a missing
      response are only logged; in every case the very same error is
      rejected again. */
  function ErrorInterceptor<B>(err: TransportError<B>): (d: ErrorDecision<B>)
    ensures d.rejected == err
    ensures d.redirectTo.Some? <==> err.response.Some? && err.response.value.status == HTTP_UNAUTHORIZED
    ensures d.redirectTo.Some? ==> d.redirectTo.value == LoginPath
  {
    match err.response
    case Some(r) =>
      if r.status == 401 then ErrorDecision(err, Some(LoginPath)) else ErrorDecision(err, None)
    case None => ErrorDecision(err, None)
  }

  /** The redirect agrees with the error taxonomy: it happens exactly when
      the answered status maps to the unauthorized code, and feeding the
      re-rejected error through the branch again decides the same. */
  lemma RedirectMatchesTaxonomy<B>(err: TransportError<B>)
    ensures ErrorInterceptor(err).redirectTo.Some? <==>
      err.response.Some? && CodeFromHttpStatus(err.response.value.status) == HTTP_UNAUTHORIZED
    ensures ErrorInterceptor(ErrorInterceptor(err).rejected) == ErrorInterceptor(err)
  {
  }

  /** Statuses other than 401, and failures without a response, never
      redirect; the error branch only ever re-rejects its input. */
  lemma OnlyUnauthorizedRedirects<B>(err: TransportError<B>)
    ensures err.response.None? ==> ErrorInterceptor(err).redirectTo.None?
    ensures err.response.Some? && err.response.value.status in {403, 404, 500} ==>
      ErrorInterceptor(err).redirectTo.None?
    ensures ErrorInterceptor(err).rejected == err
  {
  }
}
