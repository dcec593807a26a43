/**
 * Requests served one after another against the one session store that the
 * server shares between all of them. What holds over any such sequence: a
 * session becomes signed in only through an accepted login form that carried
 * its id, and the only ids the store ever gains are those issued to clients
 * that had no cookie. The browser login flow (challenge, form, access) is
 * proved as a scenario.
 */
module SessionLifecycle {
  import opened Wrappers
  import opened Sessions
  import opened HttpProxy

  /** The verdicts of a sequence of requests and the store after the last. */
  datatype Run = Run(verdicts: seq<Verdict>, store: Store)

  /** Serves `reqs` in order starting from `store`; request `i` would be given
      the fresh session name `ids[i]` if it is issued one. The names are not
      required to be fresh, as the random generator of `search()` makes them:
      a run may reuse a name, and `Issued` then resets that session to
      pending. The lemmas below hold for every run, fresh names or not. */
  function Serve(lib: Libraries, verify: Auth -> bool, store: Store, reqs: seq<HttpRequest>, ids: seq<string>): (r: Run)
    requires |ids| == |reqs|
    ensures |r.verdicts| == |reqs|
    ensures forall i :: 0 <= i < |reqs| && reqs[i].path == FaviconPath ==> r.verdicts[i] == Forward
    decreases |reqs|
  {
    if reqs == [] then Run([], store)
    else
      var o := Resolve(lib, verify, store, reqs[0], ids[0]);
      var rest := Serve(lib, verify, o.store, reqs[1..], ids[1..]);
      Run([o.verdict] + rest.verdicts, rest.store)
  }

  /** A login form for session `id` that the verifier accepts: a POST to a
      path other than the icon, carrying cookie `id` and a non-empty password
      the verifier accepts. It says nothing about the store. */
  predicate LoginSubmitted(lib: Libraries, verify: Auth -> bool, req: HttpRequest, id: string)
  {
    && req.path != FaviconPath
    && req.httpMethod == Post
    && id != "" && SessionCookie(lib, req) == id
    && FormCredentials(lib, req).Some?
    && FormCredentials(lib, req).value.password != ""
    && verify(FormCredentials(lib, req).value)
  }

  /** One request signs in at most the session of its own cookie, and only
      through an accepted login form. */
  lemma SignInStep(lib: Libraries, verify: Auth -> bool, store: Store, req: HttpRequest, freshId: string, id: string)
    requires IsSignedIn(Resolve(lib, verify, store, req, freshId).store, id)
    ensures IsSignedIn(store, id) || LoginSubmitted(lib, verify, req, id)
  {
  }

  /** Over any sequence of requests, a session signed in at the end was signed
      in at the start or some request submitted an accepted login form for it. */
  lemma {:induction false} SignedInOnlyThroughLogin(lib: Libraries, verify: Auth -> bool, store: Store,
                                                    reqs: seq<HttpRequest>, ids: seq<string>, id: string)
    requires |ids| == |reqs|
    requires IsSignedIn(Serve(lib, verify, store, reqs, ids).store, id)
    ensures || IsSignedIn(store, id)
            || exists i :: 0 <= i < |reqs| && LoginSubmitted(lib, verify, reqs[i], id)
    decreases |reqs|
  {
    if reqs != [] {
      var o := Resolve(lib, verify, store, reqs[0], ids[0]);
      SignedInOnlyThroughLogin(lib, verify, o.store, reqs[1..], ids[1..], id);
      if IsSignedIn(o.store, id) {
        SignInStep(lib, verify, store, reqs[0], ids[0], id);
        if !IsSignedIn(store, id) {
          assert LoginSubmitted(lib, verify, reqs[0], id);
        }
      } else {
        var i :| 0 <= i < |reqs| - 1 && LoginSubmitted(lib, verify, reqs[1..][i], id);
        assert reqs[1..][i] == reqs[i + 1];
      }
    }
  }

  /** Over any sequence of requests, every session id the store holds at the
      end was there at the start or was issued to a request without a cookie,
      which then got it back with a login page. */
  lemma {:induction false} KnownIdsOnlyIssued(lib: Libraries, verify: Auth -> bool, store: Store,
                                              reqs: seq<HttpRequest>, ids: seq<string>, id: string)
    requires |ids| == |reqs|
    requires id in Serve(lib, verify, store, reqs, ids).store
    ensures || id in store
            || exists i :: && 0 <= i < |reqs| && ids[i] == id && SessionCookie(lib, reqs[i]) == ""
                           && Serve(lib, verify, store, reqs, ids).verdicts[i] == LoginPage(NoPrompt, Some(id))
    decreases |reqs|
  {
    if reqs != [] {
      var o := Resolve(lib, verify, store, reqs[0], ids[0]);
      var r := Serve(lib, verify, store, reqs, ids);
      var rest := Serve(lib, verify, o.store, reqs[1..], ids[1..]);
      assert r.verdicts == [o.verdict] + rest.verdicts;
      KnownIdsOnlyIssued(lib, verify, o.store, reqs[1..], ids[1..], id);
      if id in o.store {
        if id !in store {
          StoreKeysStep(lib, verify, store, reqs[0], ids[0]);
          assert r.verdicts[0] == LoginPage(NoPrompt, Some(id));
        }
      } else {
        var i :| && 0 <= i < |reqs| - 1 && ids[1..][i] == id && SessionCookie(lib, reqs[1..][i]) == ""
                 && rest.verdicts[i] == LoginPage(NoPrompt, Some(id));
        assert reqs[1..][i] == reqs[i + 1] && r.verdicts[i + 1] == rest.verdicts[i];
      }
    }
  }

  /** One request adds at most its fresh id to the store, and only when it
      had no cookie and got the login page carrying that id. */
  lemma StoreKeysStep(lib: Libraries, verify: Auth -> bool, store: Store, req: HttpRequest, freshId: string)
    ensures var o := Resolve(lib, verify, store, req, freshId);
            && store.Keys <= o.store.Keys
            && (o.store.Keys == store.Keys ||
                (SessionCookie(lib, req) == "" && o.verdict == LoginPage(NoPrompt, Some(freshId))
                 && o.store.Keys == store.Keys + {freshId}))
  {
  }

  /** A client whose cookie `x` the store does not know (forged, or kept from
      before the store was created) is locked out of the cookie path for good:
      `x` never enters the store, so no later request is let through on it,
      and no request is issued a new cookie because the client already sends
      one. A correct login form gets a redirect every time, but the `sign_in`
      it triggers finds no session to sign in. Only the icon path and an
      accepted Authorization header still get through. */
  lemma {:induction false} UnknownCookieLockedOut(lib: Libraries, verify: Auth -> bool, store: Store,
                                                  reqs: seq<HttpRequest>, ids: seq<string>, x: string)
    requires |ids| == |reqs|
    requires x != "" && x !in store
    requires forall i :: 0 <= i < |reqs| ==> SessionCookie(lib, reqs[i]) == x
    ensures var r := Serve(lib, verify, store, reqs, ids);
            && x !in r.store
            && forall i :: 0 <= i < |reqs| ==>
                 && (r.verdicts[i] == Forward ==> reqs[i].path == FaviconPath || HeaderVerified(lib, verify, reqs[i]))
                 && !(r.verdicts[i].LoginPage? && r.verdicts[i].newCookie.Some?)
    decreases |reqs|
  {
    if reqs != [] {
      var o := Resolve(lib, verify, store, reqs[0], ids[0]);
      StoreKeysStep(lib, verify, store, reqs[0], ids[0]);
      assert o.store.Keys == store.Keys;
      var rest := Serve(lib, verify, o.store, reqs[1..], ids[1..]);
      forall i | 0 <= i < |reqs| - 1
        ensures SessionCookie(lib, reqs[1..][i]) == x
      {
        assert reqs[1..][i] == reqs[i + 1];
      }
      UnknownCookieLockedOut(lib, verify, o.store, reqs[1..], ids[1..], x);
      var r := Serve(lib, verify, store, reqs, ids);
      assert r.verdicts == [o.verdict] + rest.verdicts;
      forall i | 0 < i < |reqs|
        ensures r.verdicts[i] == rest.verdicts[i - 1] && reqs[i] == reqs[1..][i - 1]
      {
      }
    }
  }

  /** The browser flow: a client without credentials gets the login page and a
      new pending session; posting the right password with that cookie signs
      the session in and redirects back to the path; the next request with the
      cookie is forwarded. */
  lemma LoginFlow(lib: Libraries, verify: Auth -> bool, store: Store, path: string, freshId: string,
                  cookieHeader: string, body: seq<byte>, user: string, password: string)
    requires path != FaviconPath
    requires freshId != "" && freshId !in store
    requires lib.cookieValue("", SessionCookieName) == ""
    requires lib.cookieValue(cookieHeader, SessionCookieName) == freshId
    requires password != "" && verify(Auth(user, password))
    requires FormCredentials(lib, HttpRequest(path, Post, body, map[CookieHeader := cookieHeader])) == Some(Auth(user, password))
    ensures var challenge := HttpRequest(path, "GET", [], map[]);
            var login := HttpRequest(path, Post, body, map[CookieHeader := cookieHeader]);
            var access := HttpRequest(path, "GET", [], map[CookieHeader := cookieHeader]);
            var r := Serve(lib, verify, store, [challenge, login, access], [freshId, "", ""]);
            && r.verdicts == [LoginPage(NoPrompt, Some(freshId)), Redirect(path), Forward]
            && IsSignedIn(r.store, freshId)
  {
    var challenge := HttpRequest(path, "GET", [], map[]);
    var login := HttpRequest(path, Post, body, map[CookieHeader := cookieHeader]);
    var access := HttpRequest(path, "GET", [], map[CookieHeader := cookieHeader]);
    var o1 := Resolve(lib, verify, store, challenge, freshId);
    assert o1.verdict == LoginPage(NoPrompt, Some(freshId)) && o1.store == Issued(store, freshId);
    var o2 := Resolve(lib, verify, o1.store, login, "");
    assert o2.verdict == Redirect(path) && IsSignedIn(o2.store, freshId);
    var o3 := Resolve(lib, verify, o2.store, access, "");
    assert o3.verdict == Forward && o3.store == o2.store;
    assert [challenge, login, access][1..] == [login, access];
    assert [login, access][1..] == [access];
    assert Serve(lib, verify, o2.store, [access], [""]) == Run([Forward], o3.store);
    assert Serve(lib, verify, o1.store, [login, access], ["", ""]) == Run([Redirect(path), Forward], o3.store);
  }
}
