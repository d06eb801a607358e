/** The HTTP client's two interceptors. Before a request goes out, the stored
    token (when there is a non-empty one) is copied into the `token` header.
    When a reply comes back, a body with code 1 passes through untouched;
    any other body is turned into a rejection carrying its message, and the
    message "NOT_LOGIN" additionally ends the session. A transport error is
    passed on as it is, and a 401 status ends the session too. Ending the
    session means forgetting the token and the stored user and navigating to
    the login page. */
module Request {

  import opened Records
  import opened BrowserStorage

  const TOKEN_HEADER := "token"
  const SUCCESS_CODE := 1
  const NOT_LOGIN := "NOT_LOGIN"
  const DEFAULT_FAILURE := "请求失败"
  const UNAUTHORIZED := 401

  /** The parts of a request configuration the interceptors look at. */
  datatype Config = Config(url: string, verb: string, headers: map<string, string>)

  /** The reply body the backend sends: `{ code, msg, data }`, where `msg`
      and `data` may be `null`. */
  datatype Body<D> = Body(code: int, msg: Option<string>, data: Option<D>)

  /** A transport failure; `status` is the HTTP status when a response
      arrived at all. */
  datatype HttpError = HttpError(status: Option<int>, message: string)

  /** Why a request was rejected: a business error the reply interceptor
      raised (`new Error(message)`), or the transport error itself. */
  datatype Failure = Business(text: string) | Transport(error: HttpError) {
    /** `error.message`, as the store's actions read it. */
    function Message(): string {
      match this
      case Business(text) => text
      case Transport(e) => e.message
    }
  }

  /** How the promise a caller awaits settles. */
  datatype Settled<D> = Resolved(body: Body<D>) | Rejected(failure: Failure)

  /** What an interceptor leaves behind: the storage, the settled promise,
      and whether it sent the browser to the login page. */
  datatype Handled<D> = Handled(storage: Storage, settled: Settled<D>, toLogin: bool)

  /** The request interceptor: the header `token` is set to the stored token
      exactly when that token is truthy; nothing else about the request
      changes. */
  function AttachToken(st: Storage, c: Config): (r: Config)
    ensures r.url == c.url && r.verb == c.verb
    ensures TruthyStr(GetItem(st, TOKEN_KEY)) ==>
      TOKEN_HEADER in r.headers && r.headers[TOKEN_HEADER] == st[TOKEN_KEY]
    ensures forall h :: h != TOKEN_HEADER ==> (h in r.headers <==> h in c.headers)
    ensures forall h :: h != TOKEN_HEADER && h in r.headers ==> r.headers[h] == c.headers[h]
    ensures !TruthyStr(GetItem(st, TOKEN_KEY)) ==> r == c
  {
    var token := GetItem(st, TOKEN_KEY);
    if TruthyStr(token) then c.(headers := c.headers[TOKEN_HEADER := token.value]) else c
  }

  /** Without a session no token header is added. */
  lemma NoSessionNoHeader(st: Storage, c: Config)
    ensures AttachToken(ClearSession(st), c) == c
  {
  }

  /** The reply interceptor. A code-1 body resolves as it is and nothing else
      happens. Any other code rejects with the body's message, or "请求失败"
      when the message is empty or missing; the session is ended exactly
      when the message is "NOT_LOGIN". */
  function OnResponse<D>(st: Storage, body: Body<D>): (r: Handled<D>)
    ensures r.settled.Resolved? <==> body.code == SUCCESS_CODE
    ensures r.settled.Resolved? ==> r.settled.body == body
    ensures r.toLogin <==> body.code != SUCCESS_CODE && body.msg == Some(NOT_LOGIN)
    ensures r.storage == if r.toLogin then ClearSession(st) else st
    ensures r.settled.Rejected? ==>
      && r.settled.failure.Business?
      && r.settled.failure.text == if TruthyStr(body.msg) then body.msg.value else DEFAULT_FAILURE
  {
    if body.code == SUCCESS_CODE then Handled(st, Resolved(body), false)
    else
      var failure := Business(StrOr(body.msg, DEFAULT_FAILURE));
      if body.msg == Some(NOT_LOGIN) then Handled(ClearSession(st), Rejected(failure), true)
      else Handled(st, Rejected(failure), false)
  }

  /** A business rejection always carries a non-empty message. */
  lemma RejectionHasMessage<D>(st: Storage, body: Body<D>)
    ensures var r := OnResponse(st, body);
      r.settled.Rejected? ==> |r.settled.failure.Message()| > 0
  {
  }

  /** The error interceptor: the error is passed on unchanged; a 401 status
      ends the session. */
  function OnError<D>(st: Storage, e: HttpError): (r: Handled<D>)
    ensures r.settled == Rejected(Transport(e))
    ensures r.toLogin <==> e.status == Some(UNAUTHORIZED)
    ensures r.storage == if r.toLogin then ClearSession(st) else st
  {
    if e.status == Some(UNAUTHORIZED) then Handled(ClearSession(st), Rejected(Transport(e)), true)
    else Handled(st, Rejected(Transport(e)), false)
  }

  /** Both interceptors touch the storage only to end the session, and only
      the session's two entries: every other entry survives any reply. */
  lemma InterceptorsKeepOtherEntries<D>(st: Storage, body: Body<D>, e: HttpError, k: string)
    requires k != TOKEN_KEY && k != USER_INFO_KEY
    ensures GetItem(OnResponse(st, body).storage, k) == GetItem(st, k)
    ensures GetItem(OnError<D>(st, e).storage, k) == GetItem(st, k)
  {
  }
}
