/**
 * The session store the proxy shares between requests (`SessionKeys` of the
 * xpw library). Only what the proxy observes is modelled: which ids exist and
 * whether each one is signed in. Id generation, expiry and locking live inside
 * the library and are not part of this model.
 */
module Sessions {

  /** Session id -> signed in. A `false` entry is a pending session: its cookie
      was handed out with a login page but no login has succeeded yet. */
  type Store = map<string, bool>

  /** What `SessionKeys.verify(id)` answers: the id is known and signed in. */
  predicate IsSignedIn(store: Store, id: string)
  {
    id in store && store[id]
  }

  /** The store after `SessionKeys.sign_in(id)`. Signing in needs a session the
      store issued before: on an unknown id nothing happens. */
  function SignedIn(store: Store, id: string): (r: Store)
    ensures r.Keys == store.Keys
    ensures IsSignedIn(r, id) <==> id in store
    ensures forall k :: k in store && k != id ==> r[k] == store[k]
  {
    if id in store then store[id := true] else store
  }

  /** The store after `SessionKeys.search()` has created the pending session `id`. */
  function Issued(store: Store, id: string): (r: Store)
    ensures r.Keys == store.Keys + {id}
    ensures id in r && !IsSignedIn(r, id)
    ensures forall k :: k in store && k != id ==> r[k] == store[k]
  {
    store[id := false]
  }

  /** The shared store object; every request handler holds a reference to it. */
  class SessionKeys {
    var store: Store

    constructor ()
      ensures store == map[]
    {
      store := map[];
    }

    /** `verify(session_id)`: a read that never changes the store. */
    method Verify(id: string) returns (ok: bool)
      ensures ok <==> IsSignedIn(store, id)
    {
      ok := id in store && store[id];
    }

    /** `sign_in(session_id)`. */
    method SignIn(id: string)
      modifies this
      ensures store == SignedIn(old(store), id)
    {
      if id in store {
        store := store[id := true];
      }
    }

    /** `search()` with no argument: a new pending session. The random name the
        library draws is the parameter `freshId`; the library promises it is
        non-empty and not yet in use. */
    method Search(freshId: string) returns (id: string)
      requires freshId != "" && freshId !in store
      modifies this
      ensures id == freshId
      ensures store == Issued(old(store), id)
    {
      id := freshId;
      store := store[id := false];
    }
  }
}
