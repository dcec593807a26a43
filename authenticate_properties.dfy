/**
 * What one call of `authenticate` promises, stated over `Resolve`: the order
 * in which credentials are tried, when a session is signed in or issued, the
 * short cut for an empty password, and which calls are made on the verifier
 * and the session store.
 */
module AuthenticateProperties {
  import opened Wrappers
  import opened Sessions
  import opened HttpProxy

  /** The form login succeeds for this request against this store: the request
      got past the icon path, the header and the cookie, is a POST carrying a
      cookie, and its form holds a non-empty password the verifier accepts. */
  predicate LoginAccepted(lib: Libraries, verify: Auth -> bool, store: Store, req: HttpRequest)
  {
    var sessionId := SessionCookie(lib, req);
    && req.path != FaviconPath
    && !HeaderVerified(lib, verify, req)
    && sessionId != "" && !IsSignedIn(store, sessionId)
    && req.httpMethod == Post
    && FormCredentials(lib, req).Some?
    && FormCredentials(lib, req).value.password != ""
    && verify(FormCredentials(lib, req).value)
  }

  /** The icon path is forwarded with no call on anything, whatever the
      headers, cookie, method or body. */
  lemma FaviconBypass(lib: Libraries, verify: Auth -> bool, store: Store, req: HttpRequest, freshId: string)
    requires req.path == FaviconPath
    ensures Resolve(lib, verify, store, req, freshId) == Outcome(Forward, store, [])
  {
  }

  /** An accepted Authorization header forwards after one verifier call: the
      cookie is never looked at and the store is untouched. */
  lemma HeaderCredentialsForward(lib: Libraries, verify: Auth -> bool, store: Store, req: HttpRequest, freshId: string)
    requires req.path != FaviconPath
    requires HeaderVerified(lib, verify, req)
    ensures Resolve(lib, verify, store, req, freshId)
            == Outcome(Forward, store, [AuthVerify(lib.parseAuthorization(Authorization(req)))])
  {
  }

  /** Without an accepted header, a signed-in session cookie forwards; the
      store is not changed and no credentials other than the header's are
      checked. */
  lemma SessionCookieForwards(lib: Libraries, verify: Auth -> bool, store: Store, req: HttpRequest, freshId: string)
    requires req.path != FaviconPath
    requires !HeaderVerified(lib, verify, req)
    requires SessionCookie(lib, req) != "" && IsSignedIn(store, SessionCookie(lib, req))
    ensures Resolve(lib, verify, store, req, freshId)
            == Outcome(Forward, store, HeaderCalls(lib, req) + [SessionVerify(SessionCookie(lib, req))])
  {
  }

  /** Forward happens exactly on the icon path, an accepted header or a
      signed-in cookie, and then the store is unchanged. */
  lemma ForwardExactly(lib: Libraries, verify: Auth -> bool, store: Store, req: HttpRequest, freshId: string)
    ensures var o := Resolve(lib, verify, store, req, freshId);
            && (o.verdict == Forward <==>
                  || req.path == FaviconPath
                  || HeaderVerified(lib, verify, req)
                  || (SessionCookie(lib, req) != "" && IsSignedIn(store, SessionCookie(lib, req))))
            && (o.verdict == Forward ==> o.store == store)
  {
  }

  /** `sign_in` is called exactly when the form login is accepted, and only on
      the request's own cookie; exactly then the verdict is a redirect to the
      requested path, and the store is the old one with that session signed in.
      The session ends up signed in only if the store had issued it before:
      `sign_in` on an unknown id changes nothing, yet the redirect is sent. */
  lemma SignInExactly(lib: Libraries, verify: Auth -> bool, store: Store, req: HttpRequest, freshId: string, id: string)
    ensures var o := Resolve(lib, verify, store, req, freshId);
            && (SessionSignIn(id) in o.calls <==> LoginAccepted(lib, verify, store, req) && id == SessionCookie(lib, req))
            && (o.verdict.Redirect? <==> LoginAccepted(lib, verify, store, req))
            && (o.verdict.Redirect? ==>
                  && o.verdict.location == req.path
                  && o.store == SignedIn(store, SessionCookie(lib, req))
                  && (IsSignedIn(o.store, SessionCookie(lib, req)) <==> SessionCookie(lib, req) in store))
  {
  }

  /** An empty (or missing) form password gives the "input_password_is_null"
      page without asking the verifier about the form: the only credentials
      ever checked are those of the Authorization header. The store is not
      changed and, the client having a cookie, no new one is issued. */
  lemma EmptyPasswordShortCircuit(lib: Libraries, verify: Auth -> bool, store: Store, req: HttpRequest, freshId: string)
    requires req.path != FaviconPath && !HeaderVerified(lib, verify, req)
    requires SessionCookie(lib, req) != "" && !IsSignedIn(store, SessionCookie(lib, req))
    requires req.httpMethod == Post
    requires FormCredentials(lib, req).Some? && FormCredentials(lib, req).value.password == ""
    ensures var o := Resolve(lib, verify, store, req, freshId);
            && o.verdict == LoginPage(PasswordIsNull, None)
            && o.store == store
            && forall c | c in o.calls && c.AuthVerify? :: Authorization(req) != "" && c.auth == HeaderAuth(lib, req)
  {
  }

  /** A non-empty password the verifier rejects gives the "input_verify_error"
      page; nothing is signed in and the store is unchanged. */
  lemma RejectedPassword(lib: Libraries, verify: Auth -> bool, store: Store, req: HttpRequest, freshId: string)
    requires req.path != FaviconPath && !HeaderVerified(lib, verify, req)
    requires SessionCookie(lib, req) != "" && !IsSignedIn(store, SessionCookie(lib, req))
    requires req.httpMethod == Post
    requires FormCredentials(lib, req).Some? && FormCredentials(lib, req).value.password != ""
    requires !verify(FormCredentials(lib, req).value)
    ensures var o := Resolve(lib, verify, store, req, freshId);
            && o.verdict == LoginPage(VerifyError, None)
            && o.store == store
            && forall c :: c in o.calls ==> !c.SessionSignIn?
  {
  }

  /** Any other method with a cookie that is not signed in gets the plain
      login page, with no prompt, no new cookie and no change to the store. */
  lemma UnverifiedCookieLoginPage(lib: Libraries, verify: Auth -> bool, store: Store, req: HttpRequest, freshId: string)
    requires req.path != FaviconPath && !HeaderVerified(lib, verify, req)
    requires SessionCookie(lib, req) != "" && !IsSignedIn(store, SessionCookie(lib, req))
    requires req.httpMethod != Post
    ensures Resolve(lib, verify, store, req, freshId)
            == Outcome(LoginPage(NoPrompt, None), store, CookieCalls(lib, req))
  {
  }

  /** A login form body that is not UTF-8 makes `authenticate` raise; no
      session is touched and the verifier is not asked about the form. */
  lemma UndecodableFormRaises(lib: Libraries, verify: Auth -> bool, store: Store, req: HttpRequest, freshId: string)
    requires req.path != FaviconPath && !HeaderVerified(lib, verify, req)
    requires SessionCookie(lib, req) != "" && !IsSignedIn(store, SessionCookie(lib, req))
    requires req.httpMethod == Post
    requires FormCredentials(lib, req).None?
    ensures Resolve(lib, verify, store, req, freshId) == Outcome(Raised, store, CookieCalls(lib, req))
  {
  }

  /** A new session is created and set as the cookie exactly when the request
      carried no session cookie and the verdict is the login page; it is then
      the one pending session added to the store. Forward and Redirect never
      carry a cookie, nor does a page for a client that already had one. */
  lemma CookieIssuedExactly(lib: Libraries, verify: Auth -> bool, store: Store, req: HttpRequest, freshId: string)
    ensures var o := Resolve(lib, verify, store, req, freshId);
            var issued := o.verdict.LoginPage? && SessionCookie(lib, req) == "";
            && (forall y :: SessionSearch(y) in o.calls <==> issued && y == freshId)
            && (o.verdict.LoginPage? && o.verdict.newCookie.Some? <==> issued)
            && (issued ==> o.verdict.newCookie == Some(freshId) && o.store == Issued(store, freshId))
  {
  }

  /** The store changes only by the sign-in of a redirect or the issue of a
      new session with a login page. */
  lemma StoreChangesOnlyByLoginOrIssue(lib: Libraries, verify: Auth -> bool, store: Store, req: HttpRequest, freshId: string)
    ensures var o := Resolve(lib, verify, store, req, freshId);
            || o.store == store
            || (o.verdict.Redirect? && o.store == SignedIn(store, SessionCookie(lib, req)))
            || (o.verdict == LoginPage(NoPrompt, Some(freshId)) && o.store == Issued(store, freshId))
  {
  }
}
