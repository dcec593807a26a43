# Authentication decision of the xpw-locker HTTP proxy

xpw-locker puts a login gate in front of a backend web service. Its HTTP
proxy, `AuthRequestProxy`, decides for each request whether the request is
passed on to the backend, or whether the proxy answers the request itself,
either with a redirect after a successful form login or with the login page.
The login page may carry an error message and a new `session_id` cookie.

This project models that decision and proves what it promises. The checks run
in a fixed order:

1. the `/favicon.ico` path is always let through;
2. a non-empty `Authorization` header is accepted if the verifier accepts its
   credentials;
3. a non-empty `session_id` cookie is accepted if the session store says it
   is signed in;
4. a `POST` that carries a cookie is read as the login form: an empty password
   gives the "input_password_is_null" page, an accepted one calls `sign_in`
   on the cookie's session and redirects to the same path, and a rejected one
   gives the "input_verify_error" page;
5. anything else gets the login page, with a newly issued session as its
   cookie when the client had none.

Files:

- `wrappers.dfy`: `Option`.
- `sessions.dfy` (module `Sessions`): the session store. It is a map from
  session id to "signed in", with the pure functions `SignedIn` and `Issued`.
  The class `SessionKeys` has the methods `Verify`, `SignIn` and `Search`.
- `httpproxy.dfy` (module `HttpProxy`): the request, the verdict and the calls
  made on collaborators as datatypes. `Resolve` is the decision as a pure
  function over a store snapshot. It is the specification for the class
  `AuthRequestProxy`, whose `Authenticate` follows the source step by step on
  the shared store and records a ghost trace of its calls. `Request` forwards
  to a backend exactly when `Authenticate` produced `Forward`.
- `authenticate_properties.dfy` (module `AuthenticateProperties`): what one
  request promises.
- `session_lifecycle.dfy` (module `SessionLifecycle`): requests served one
  after another against the shared store, with induction proofs over any
  sequence of requests, and the browser login flow as a scenario.

The credential verifier (`TokenAuth.verify`) is a parameter of type
`Auth -> bool`. The library parsers are function values in `Libraries`:
`Authorization.paser`, `Cookies(...).get`, `bytes.decode("utf-8")` and
`parse_qs`. The random name drawn by `SessionKeys.search()` is the parameter
`freshId`. Its library promise (non-empty, not in use) is the precondition of
`Search`.

Two behaviours of the code are worth stating. First, `data.decode("utf-8")`
at line 87 raises on a login form body that is not UTF-8, and the exception
escapes `authenticate` and `request`. The model gives this case the verdict
`Raised`, and `request` the reply `Threw` (see
`AuthenticateProperties.UndecodableFormRaises`). Second, the empty-password
short cut at line 90 applies only to the login form. An `Authorization`
header goes to the verifier whatever its password.

## Model

| member | source | states |
|---|---|---|
| `Sessions.SignedIn` | xpw_locker/httpproxy.py:93 | signing in leaves the set of ids unchanged. The id is signed in afterwards exactly when the store already knew it, and every other session keeps its state |
| `Sessions.Issued` | xpw_locker/httpproxy.py:103 | issuing adds exactly the new id, as a pending (not signed-in) session, and leaves every other session as it was |
| `Sessions.SessionKeys.constructor` | xpw_locker/httpproxy.py:121 | a new store holds no session |
| `Sessions.SessionKeys.Verify` | xpw_locker/httpproxy.py:81 | `verify` answers true exactly for a known, signed-in id, and does not change the store |
| `Sessions.SessionKeys.SignIn` | xpw_locker/httpproxy.py:93 | `sign_in` changes the store exactly as `SignedIn` says |
| `Sessions.SessionKeys.Search` | xpw_locker/httpproxy.py:103 | `search()` returns the fresh name and adds it as a pending session |
| `HttpProxy.Resolve` | xpw_locker/httpproxy.py:60-104 | one request adds at most the fresh id to the store. A session that becomes signed in is the request's own cookie, and the verdict is then the redirect to the requested path |
| `HttpProxy.AuthRequestProxy.constructor` | xpw_locker/httpproxy.py:40-46 | the proxy keeps the verifier and the shared session store it is given |
| `HttpProxy.AuthRequestProxy.Authenticate` | xpw_locker/httpproxy.py:60-104 | the verdict, the store afterwards and the sequence of collaborator calls are exactly those of `Resolve` on the store as it was |
| `HttpProxy.AuthRequestProxy.Request` | xpw_locker/httpproxy.py:106-107 | the backend is contacted if and only if `authenticate` gave `Forward`, and its answer is returned then. The exception of an undecodable form comes out as `Threw`, exactly when `authenticate` raised. Otherwise the proxy's own redirect or login page is the reply. Each request has exactly one outcome |
| `AuthenticateProperties.FaviconBypass` | xpw_locker/httpproxy.py:64-65 | `/favicon.ico` is forwarded whatever the headers, cookie, method or body, with no call on anything and the store unchanged |
| `AuthenticateProperties.HeaderCredentialsForward` | xpw_locker/httpproxy.py:70-77 | an accepted Authorization header forwards after exactly one verifier call. The cookie is never consulted and no session is created or signed in |
| `AuthenticateProperties.SessionCookieForwards` | xpw_locker/httpproxy.py:79-82 | with the header absent or rejected, a signed-in cookie forwards after one `verify` on it, and the store does not change |
| `AuthenticateProperties.ForwardExactly` | xpw_locker/httpproxy.py:64-82 | the verdict is Forward if and only if the path is the icon, the header is accepted or the cookie is signed in. A Forward never changes the store |
| `AuthenticateProperties.SignInExactly` | xpw_locker/httpproxy.py:86-94 | `sign_in` is called if and only if the login is accepted, and only on the request's own cookie. The login is accepted when the earlier checks failed, a cookie is present, the method is POST, the password is non-empty and the verifier accepts it. Exactly then the verdict is a redirect to the same path. The store is then the old one after `sign_in`, so the session is signed in if and only if the store had issued it before |
| `AuthenticateProperties.EmptyPasswordShortCircuit` | xpw_locker/httpproxy.py:86-91 | an empty or missing form password gives the "input_password_is_null" page with no new cookie and an unchanged store. The verifier is never asked about the form, only possibly about the header |
| `AuthenticateProperties.RejectedPassword` | xpw_locker/httpproxy.py:92-96 | a non-empty rejected password gives the "input_verify_error" page, with no `sign_in` call and an unchanged store |
| `AuthenticateProperties.UnverifiedCookieLoginPage` | xpw_locker/httpproxy.py:84-86 | a non-POST request with a cookie that is not signed in gets the login page with an empty prompt, no new cookie and an unchanged store |
| `AuthenticateProperties.UndecodableFormRaises` | xpw_locker/httpproxy.py:87 | a login form body that is not UTF-8 makes `authenticate` raise, with the store unchanged and no verifier call about the form |
| `AuthenticateProperties.CookieIssuedExactly` | xpw_locker/httpproxy.py:101-104 | `search()` is called, and a cookie is set, if and only if the request had no session cookie and the verdict is the login page. The cookie is the fresh id, which is then a pending session. Forward and Redirect never carry a cookie |
| `AuthenticateProperties.StoreChangesOnlyByLoginOrIssue` | xpw_locker/httpproxy.py:93-103 | the store changes only by the sign-in of a redirect or the issue of a session with a plain login page |
| `SessionLifecycle.Serve` | xpw_locker/httpproxy.py:121-126 | serving a sequence of requests against the one shared store gives one verdict per request, and every icon request is forwarded |
| `SessionLifecycle.SignInStep` | xpw_locker/httpproxy.py:86-94 | one request can sign in only the session named by its own cookie, and only through a POST with a non-empty password the verifier accepts |
| `SessionLifecycle.SignedInOnlyThroughLogin` | xpw_locker/httpproxy.py:86-94 | after any sequence of requests, a session that is signed in was signed in at the start, or some request submitted an accepted login form carrying its id |
| `SessionLifecycle.StoreKeysStep` | xpw_locker/httpproxy.py:101-104 | one request never removes a session. It adds one only when it had no cookie, and then it adds exactly its fresh id and gets the login page carrying that id |
| `SessionLifecycle.KnownIdsOnlyIssued` | xpw_locker/httpproxy.py:101-104 | after any sequence of requests, every id in the store was there at the start, or was issued to a cookieless request that got it back with the login page |
| `SessionLifecycle.UnknownCookieLockedOut` | xpw_locker/httpproxy.py:79-104 | a client sending a non-empty cookie the store does not know is never let through on it and never issued a new cookie, over any sequence of requests. Only the icon path or an accepted header still forwards, because `sign_in` finds nothing to sign in and line 102 issues cookies only to clients without one |
| `SessionLifecycle.LoginFlow` | xpw_locker/httpproxy.py:60-104 | a client without credentials gets the login page and a new cookie. A POST of the right password with that cookie redirects to the same path and signs the session in. The next request with that cookie is forwarded |

## Left out

- Session expiry and lifetime: they live inside `SessionKeys` and are not in the code shown. `IsSignedIn` is the answer of `verify`, and no property here depends on how long a session stays signed in.
- `Sessions.SignedIn`: a `sign_in` on an id the store does not know is assumed to be a no-op. The library's own `SessionKeys` code is not part of this model, so this is an assumption, not a fact taken from code. `HttpProxy.Resolve` (the store gains at most the fresh id), `SessionLifecycle.StoreKeysStep`, `SessionLifecycle.KnownIdsOnlyIssued` and `SessionLifecycle.UnknownCookieLockedOut` rest on it. Under it, a client with a forged or outdated cookie is locked out: a correct login form redirects but signs nothing in, and no new cookie is ever issued (`SessionLifecycle.UnknownCookieLockedOut`). Whether the real library behaves so is not known here, so this is not claimed as a defect.
- `Sessions.SessionKeys.Search`: the random id is a parameter. The library's promise that it is non-empty and not yet in use is a precondition rather than a proof.
- Header lookup is an exact-key map lookup. The case-insensitive header object of `http.server` is not modelled.
- `Authorization.paser`, `Cookies`, `parse_qs`, UTF-8 decoding and `TokenAuth.verify` (Argon2 hashing, token comparison) are uninterpreted functions. Any exception they might raise other than the UTF-8 decode error is not modelled.
- Template lookup and rendering (`template.search`, `section.fill`, `seek(...).render`, the Accept-Language default at line 85) and building the `ResponseProxy`. Only the prompt variant, the redirect target and the new cookie are modelled.
- Forwarding to the backend (`super().request`) is a function parameter of `Request`.
- Concurrency: `ThreadingHTTPServer` runs one thread per request against the shared store. `SessionLifecycle` serves requests one at a time in some order, so interleavings inside one request are not modelled.
- `create`, `run`, `add_cmd`, `run_cmd` and `main` (CLI, environment, configuration, random API key, server plumbing) are left out.
- xpw_locker/server.py is an unfinished draft that refers to undefined names, and is not part of this model. The raw-socket proxy (`sockproxy.py`) and its request parser are not part of this model either.
