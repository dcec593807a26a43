/**
 * The per-request authentication decision of the HTTP-object proxy
 * (`AuthRequestProxy` in xpw_locker/httpproxy.py).
 *
 * `Resolve` is the decision as a pure function of the request, the credential
 * verifier and a snapshot of the session store; it also records, in order, the
 * calls the proxy makes on its collaborators. The class `AuthRequestProxy`
 * does the same work step by step on the shared `SessionKeys` object and is
 * proved to agree with `Resolve`.
 */
module HttpProxy {
  import opened Wrappers
  import opened Sessions

  newtype byte = x: int | 0 <= x < 0x100

  /** The one path that is always let through. */
  const FaviconPath: string := "/favicon.ico"
  /** `Headers.AUTHORIZATION.value` and `Headers.COOKIE.value`. */
  const AuthorizationHeader: string := "Authorization"
  const CookieHeader: string := "Cookie"
  /** Name of the cookie that carries the session id. */
  const SessionCookieName: string := "session_id"
  /** Fields of the login form. */
  const UsernameField: string := "username"
  const PasswordField: string := "password"
  const Post: string := "POST"

  /** The arguments of `authenticate`: path, method, body and headers. */
  datatype HttpRequest = HttpRequest(path: string, httpMethod: string, data: seq<byte>, headers: map<string, string>)

  /** A username/password pair; for a token scheme the library leaves the
      username empty and puts the token in `password`. */
  datatype Auth = Auth(username: string, password: string)

  /** A value list of `parse_qs`, which never holds an empty list. */
  type Values = s: seq<string> | |s| > 0 witness [""]

  /** The library functions the decision relies on, left uninterpreted. */
  datatype Libraries = Libraries(
    // `Authorization.paser(header)`: Basic, Bearer and ApiKey decoding
    parseAuthorization: string -> Auth,
    // `Cookies(header).get(name)`; the empty string when the cookie is absent
    cookieValue: (string, string) -> string,
    // `bytes.decode("utf-8")`; `None` where it raises UnicodeDecodeError
    decodeUtf8: seq<byte> -> Option<string>,
    // `parse_qs(text)`
    parseQs: string -> map<string, Values>)

  /** Which error message the login page shows: none, the template entry
      "input_password_is_null" or the entry "input_verify_error". */
  datatype Prompt = NoPrompt | PasswordIsNull | VerifyError

  /** What `authenticate` produces for one request. `Forward` is its `None`
      (the request goes on to the backend); `Redirect` and `LoginPage` are the
      responses it builds; `Raised` is the UnicodeDecodeError that escapes it
      when a login form body is not UTF-8. `newCookie` is the value set as the
      `session_id` cookie on the login page, if any. */
  datatype Verdict =
    | Forward
    | Redirect(location: string)
    | LoginPage(prompt: Prompt, newCookie: Option<string>)
    | Raised

  /** A call the proxy makes on a collaborator: the credential verifier, or
      `verify`, `sign_in` and `search` on the session store. */
  datatype Call =
    | AuthVerify(auth: Auth)
    | SessionVerify(id: string)
    | SessionSignIn(id: string)
    | SessionSearch(id: string)

  /** The verdict, the session store afterwards and the calls made, in order. */
  datatype Outcome = Outcome(verdict: Verdict, store: Store, calls: seq<Call>)

  /** `headers.get(name, "")`. */
  function HeaderValue(headers: map<string, string>, name: string): string
  {
    if name in headers then headers[name] else ""
  }

  /** The Authorization header, empty when absent. */
  function Authorization(req: HttpRequest): string
  {
    HeaderValue(req.headers, AuthorizationHeader)
  }

  /** The credentials decoded from a non-empty Authorization header. */
  function HeaderAuth(lib: Libraries, req: HttpRequest): Auth
  {
    lib.parseAuthorization(Authorization(req))
  }

  /** The request carries an Authorization header the verifier accepts. */
  predicate HeaderVerified(lib: Libraries, verify: Auth -> bool, req: HttpRequest)
  {
    Authorization(req) != "" && verify(HeaderAuth(lib, req))
  }

  /** The `session_id` cookie of the request; empty means the client has none. */
  function SessionCookie(lib: Libraries, req: HttpRequest): string
  {
    lib.cookieValue(HeaderValue(req.headers, CookieHeader), SessionCookieName)
  }

  /** `form_data.get(name, [""])[0]`. */
  function FormField(form: map<string, Values>, name: string): string
  {
    if name in form then form[name][0] else ""
  }

  /** Username and password of the login form in the body, or `None` when the
      body is not UTF-8 (the decode raises). */
  function FormCredentials(lib: Libraries, req: HttpRequest): Option<Auth>
  {
    match lib.decodeUtf8(req.data)
    case None => None
    case Some(text) =>
      var form := lib.parseQs(text);
      Some(Auth(FormField(form, UsernameField), FormField(form, PasswordField)))
  }

  /** The calls made while checking the Authorization header. */
  function HeaderCalls(lib: Libraries, req: HttpRequest): seq<Call>
  {
    if Authorization(req) != "" then [AuthVerify(HeaderAuth(lib, req))] else []
  }

  /** The calls made up to and including the check of the session cookie. */
  function CookieCalls(lib: Libraries, req: HttpRequest): seq<Call>
  {
    var sessionId := SessionCookie(lib, req);
    HeaderCalls(lib, req) + (if sessionId != "" then [SessionVerify(sessionId)] else [])
  }

  /**
   * The decision `authenticate` takes for `req`, given the verifier `verify`
   * (`TokenAuth.verify`), the store as it is when the request arrives, and the
   * id `freshId` that `search()` would hand out. The checks run in order:
   * the icon path, the Authorization header, the session cookie, the login
   * form (only for a POST that carries a cookie), and last the login page,
   * which issues a new session to a client without a cookie.
   */
  function Resolve(lib: Libraries, verify: Auth -> bool, store: Store, req: HttpRequest, freshId: string): (o: Outcome)
    ensures store.Keys <= o.store.Keys <= store.Keys + {freshId}
    ensures forall id :: IsSignedIn(o.store, id) && !IsSignedIn(store, id) ==>
              id == SessionCookie(lib, req) && o.verdict == Redirect(req.path)
  {
    if req.path == FaviconPath then
      Outcome(Forward, store, [])
    else if HeaderVerified(lib, verify, req) then
      Outcome(Forward, store, HeaderCalls(lib, req))
    else
      var sessionId := SessionCookie(lib, req);
      var calls := CookieCalls(lib, req);
      if sessionId != "" && IsSignedIn(store, sessionId) then
        Outcome(Forward, store, calls)
      else if sessionId != "" && req.httpMethod == Post then
        match FormCredentials(lib, req)
        case None => Outcome(Raised, store, calls)
        case Some(form) =>
          if form.password == "" then
            Outcome(LoginPage(PasswordIsNull, None), store, calls)
          else if verify(form) then
            Outcome(Redirect(req.path), SignedIn(store, sessionId),
                    calls + [AuthVerify(form), SessionSignIn(sessionId)])
          else
            Outcome(LoginPage(VerifyError, None), store, calls + [AuthVerify(form)])
      else if sessionId == "" then
        Outcome(LoginPage(NoPrompt, Some(freshId)), Issued(store, freshId), calls + [SessionSearch(freshId)])
      else
        Outcome(LoginPage(NoPrompt, None), store, calls)
  }

  /** What `request` produces: the backend's response, the proxy's own
      response (a redirect or a login page), or the exception `authenticate`
      raised, which leaves `request` as well. */
  datatype Reply<R> = Relayed(response: R) | Answered(verdict: Verdict) | Threw

  class AuthRequestProxy {
    /** `TokenAuth.verify(username, password)`, as a yes/no answer. */
    const authentication: Auth -> bool
    const sessions: SessionKeys
    const libs: Libraries

    constructor (authentication: Auth -> bool, sessions: SessionKeys, libs: Libraries)
      ensures this.authentication == authentication
      ensures this.sessions == sessions && this.libs == libs
    {
      this.authentication := authentication;
      this.sessions := sessions;
      this.libs := libs;
    }

    /**
     * `authenticate(path, method, data, headers)`. `freshId` is the name
     * `sessions.search()` draws if it is called. The ghost `calls` lists the
     * calls made on the verifier and the store.
     */
    method Authenticate(path: string, httpMethod: string, data: seq<byte>, headers: map<string, string>, freshId: string)
      returns (v: Verdict, ghost calls: seq<Call>)
      requires freshId != "" && freshId !in sessions.store
      modifies sessions
      ensures Resolve(libs, authentication, old(sessions.store), HttpRequest(path, httpMethod, data, headers), freshId)
              == Outcome(v, sessions.store, calls)
    {
      ghost var req := HttpRequest(path, httpMethod, data, headers);
      calls := [];
      if path == FaviconPath {
        return Forward, calls;
      }

      var authorization := HeaderValue(headers, AuthorizationHeader);
      if authorization != "" {
        var auth := libs.parseAuthorization(authorization);
        calls := calls + [AuthVerify(auth)];
        if authentication(auth) {
          return Forward, calls;
        }
      }

      var sessionId := libs.cookieValue(HeaderValue(headers, CookieHeader), SessionCookieName);
      if sessionId != "" {
        calls := calls + [SessionVerify(sessionId)];
        var logged := sessions.Verify(sessionId);
        if logged {
          return Forward, calls;
        }
      }
      assert calls == CookieCalls(libs, req);

      var prompt := NoPrompt;
      if sessionId != "" && httpMethod == Post {
        var text := libs.decodeUtf8(data);
        if text.None? {
          return Raised, calls;
        }
        var form := libs.parseQs(text.value);
        var username := FormField(form, UsernameField);
        var password := FormField(form, PasswordField);
        if password == "" {
          prompt := PasswordIsNull;
        } else {
          calls := calls + [AuthVerify(Auth(username, password))];
          if authentication(Auth(username, password)) {
            sessions.SignIn(sessionId);
            calls := calls + [SessionSignIn(sessionId)];
            return Redirect(path), calls;
          }
          prompt := VerifyError;
        }
      }

      var cookie := None;
      if sessionId == "" {
        var id := sessions.Search(freshId);
        calls := calls + [SessionSearch(id)];
        cookie := Some(id);
      }
      v := LoginPage(prompt, cookie);
    }

    /**
     * `request`: the proxy's own response when `authenticate` built one,
     * the exception when it raised, otherwise the backend's response to the
     * request (`backend` stands for the forwarding done by the base class).
     */
    method Request<R>(path: string, httpMethod: string, data: seq<byte>, headers: map<string, string>,
                      freshId: string, backend: HttpRequest -> R)
      returns (reply: Reply<R>)
      requires freshId != "" && freshId !in sessions.store
      modifies sessions
      ensures var req := HttpRequest(path, httpMethod, data, headers);
              var o := Resolve(libs, authentication, old(sessions.store), req, freshId);
              && sessions.store == o.store
              && (reply.Relayed? <==> o.verdict == Forward)
              && (reply.Threw? <==> o.verdict == Raised)
              && (match o.verdict
                  case Forward => reply == Relayed(backend(req))
                  case Raised => reply == Threw
                  case _ => reply == Answered(o.verdict))
    {
      var v, _ := Authenticate(path, httpMethod, data, headers, freshId);
      if v == Forward {
        reply := Relayed(backend(HttpRequest(path, httpMethod, data, headers)));
      } else if v == Raised {
        reply := Threw;
      } else {
        reply := Answered(v);
      }
    }
  }
}
