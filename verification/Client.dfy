/**
 * The browser client's mutable fields and the pieces of its methods that run between two suspension points.
 *
 * Each function below says what one such piece does to the fields; the class performs it in place.
 */
module Client {
  import opened Wrappers

  type Id = nat
  type Key = nat
  type Token = string

  const UNAUTHORIZED := 401
  const FORBIDDEN := 403

  /** Promises are named by identifiers; an in-flight slot holds the name of the promise in it. */
  datatype Fields = Fields(
    token: Option<Token>,
    key: Option<Key>,
    refreshInFlight: Option<Id>,
    keyInFlight: Option<Id>,
    logoutInFlight: Option<Id>,
    generation: nat,
    keyGeneration: nat,
    invalidated: bool,
    disposed: bool)

  const NEW_CLIENT := Fields(None, None, None, None, None, 0, 0, false, false)

  /** What a call for the key waits on: the cached key, or a key initialisation. */
  datatype KeyWait = Cached(key: Key) | Flight(id: Id)

  datatype RefreshCall = Refused | Joined(id: Id) | Started(wait: KeyWait)

  datatype SignInCall = Rejected | WaitsFor(logout: Id) | Sends(wait: KeyWait)

  /** A sign-out that begins: what its request waits on, if any, and the key initialisation it must outlast. */
  datatype SignOutCall = Denied | Shares(id: Id) | Begins(wait: Option<KeyWait>, pendingKey: Option<Id>)

  /** How a refresh goes on after a suspension: it is over, or reads the response body. */
  datatype RefreshNext = Over(refreshed: bool) | ReadsBody

  predicate Succeeded(status: nat) {
    200 <= status < 300
  }

  // ---- The key ---------------------------------------------------------------------------

  /** A call for the key; None when it throws. `id` names the initialisation it may start. */
  function GetKey(f: Fields, id: Id): (Fields, Option<KeyWait>) {
    if f.disposed || f.logoutInFlight.Some? then (f, None)
    else if f.key.Some? then (f, Some(Cached(f.key.value)))
    else if f.keyInFlight.Some? then (f, Some(Flight(f.keyInFlight.value)))
    else (f.(keyInFlight := Some(id)), Some(Flight(id)))
  }

  /** The stored key arrives at the initialisation begun under `keyGeneration`; None when that is outdated. */
  function KeyArrives(f: Fields, keyGeneration: nat, key: Key): (Fields, Option<Key>) {
    if keyGeneration != f.keyGeneration then (f, None) else (f.(key := Some(key)), Some(key))
  }

  /** The call that started initialisation `id` is over. */
  function KeyReleased(f: Fields, id: Id): Fields {
    if f.keyInFlight == Some(id) then f.(keyInFlight := None) else f
  }

  // ---- Identity --------------------------------------------------------------------------

  function Invalidate(f: Fields): Fields {
    f.(generation := f.generation + 1, refreshInFlight := None, token := None, invalidated := true)
  }

  function PeerNotice(f: Fields): Fields {
    if f.disposed then f else Invalidate(f)
  }

  function Dispose(f: Fields): Fields {
    if f.disposed then f
    else Invalidate(f).(disposed := true, keyGeneration := f.keyGeneration + 1, key := None, keyInFlight := None)
  }

  predicate MaySetToken(f: Fields) {
    !f.disposed && f.logoutInFlight.None?
  }

  function SetToken(f: Fields, sync: bool, token: Option<Token>): Fields
    requires MaySetToken(f)
  {
    f.(generation := f.generation + 1, refreshInFlight := None, token := token, invalidated := sync && token.None?)
  }

  // ---- Requests --------------------------------------------------------------------------

  /** A fetch begins; None when it throws. */
  function BeginFetch(f: Fields, resolves: bool, id: Id): (Fields, Option<KeyWait>) {
    if f.disposed || f.invalidated || !resolves then (f, None) else GetKey(f, id)
  }

  /** With its proof made, a request leaves only under the generation it was made for. */
  predicate MaySend(f: Fields, generation: nat) {
    generation == f.generation
  }

  function BeginRefresh(f: Fields, refresh: Id, key: Id): (Fields, RefreshCall) {
    if f.disposed || f.invalidated || f.logoutInFlight.Some? then (f, Refused)
    else if f.refreshInFlight.Some? then (f, Joined(f.refreshInFlight.value))
    else
      var (g, wait) := GetKey(f, key);
      (g.(refreshInFlight := Some(refresh)), Started(wait.value))
  }

  /** A fetch's first response; Refused when it is handed to the caller. */
  function FetchAnswered(f: Fields, generation: nat, status: nat, refresh: Id, key: Id): (Fields, RefreshCall) {
    if generation != f.generation || status != UNAUTHORIZED || f.token.None? then (f, Refused)
    else BeginRefresh(f, refresh, key)
  }

  /** The refresh a fetch waited for is over; None when the first response is handed to the caller. */
  function FetchRefreshed(f: Fields, generation: nat, refreshed: bool, key: Id): (Fields, Option<KeyWait>) {
    if !refreshed || generation != f.generation then (f, None) else GetKey(f, key)
  }

  // ---- Refresh ---------------------------------------------------------------------------

  /** A refresh ends: it frees the slot only when the generation it began under is still current. */
  function RefreshEnds(f: Fields, generation: nat): Fields {
    if generation == f.generation then f.(refreshInFlight := None) else f
  }

  function RefreshAnswered(f: Fields, generation: nat, status: nat): (Fields, RefreshNext) {
    if generation != f.generation then (f, Over(false))
    else if Succeeded(status) then (f, ReadsBody)
    else if status == UNAUTHORIZED || status == FORBIDDEN then
      (RefreshEnds(f.(token := None), generation), Over(false))
    else (RefreshEnds(f, generation), Over(false))
  }

  /** `token` is the body's access token, if that is a string. */
  function RefreshParsed(f: Fields, generation: nat, token: Option<Token>): (Fields, bool) {
    if generation != f.generation then (f, false)
    else if token.None? || token.value == "" then (RefreshEnds(f.(token := None), generation), false)
    else (RefreshEnds(f.(token := token), generation), true)
  }

  // ---- Sign-in ---------------------------------------------------------------------------

  function ProceedSignIn(f: Fields, resolves: bool, key: Id): (Fields, SignInCall) {
    var g := f.(generation := f.generation + 1, refreshInFlight := None);
    if !resolves then (g, Rejected)
    else
      var (h, wait) := GetKey(g, key);
      (h, if wait.None? then Rejected else Sends(wait.value))
  }

  function BeginSignIn(f: Fields, resolves: bool, key: Id): (Fields, SignInCall) {
    if f.disposed then (f, Rejected)
    else if f.logoutInFlight.Some? then (f, WaitsFor(f.logoutInFlight.value))
    else ProceedSignIn(f, resolves, key)
  }

  /** A sign-in called under `started` has waited for a sign-out, which settled well or badly. */
  function SignInResumed(f: Fields, started: nat, settledWell: bool, resolves: bool, key: Id): (Fields, SignInCall) {
    if !settledWell || f.disposed || started != f.generation then (f, Rejected)
    else ProceedSignIn(f, resolves, key)
  }

  predicate SignInReadsBody(f: Fields, generation: nat, status: nat) {
    Succeeded(status) && generation == f.generation
  }

  /** The flag says whether the sign-in established an identity. */
  function SignInParsed(f: Fields, generation: nat, token: Option<Token>): (Fields, bool) {
    if generation == f.generation && token.Some? && token.value != "" then
      (f.(token := token, invalidated := false), true)
    else (f, false)
  }

  // ---- Sign-out --------------------------------------------------------------------------

  /** Everything up to the first suspension, the request's own call for the key included. */
  function BeginSignOut(f: Fields, sync: bool, resolves: bool, id: Id, key: Id): (Fields, SignOutCall) {
    if f.disposed then (f, Denied)
    else if f.logoutInFlight.Some? then (f, Shares(f.logoutInFlight.value))
    else
      var g := f.(generation := f.generation + 1,
                  keyGeneration := if sync then f.keyGeneration else f.keyGeneration + 1,
                  refreshInFlight := None, token := None, invalidated := f.invalidated || sync);
      var (h, wait) := if f.token.Some? && resolves then GetKey(g, key) else (g, None);
      (h.(logoutInFlight := Some(id)), Begins(wait, f.keyInFlight))
  }

  predicate SignOutPublishes(f: Fields, generation: nat, status: nat) {
    Succeeded(status) && generation == f.generation
  }

  /** The key initialisation that sign-out had to outlast is over. */
  function SignOutDrained(f: Fields): Fields {
    f.(key := None, keyInFlight := None)
  }

  function SignOutReleased(f: Fields, id: Id): Fields {
    if f.logoutInFlight == Some(id) then f.(logoutInFlight := None) else f
  }

  // ---- The client itself -----------------------------------------------------------------

  class NinshoClient {
    const sync: bool
    var accessToken: Option<Token>
    var key: Option<Key>
    var refreshInFlight: Option<Id>
    var keyInFlight: Option<Id>
    var logoutInFlight: Option<Id>
    var generation: nat
    var keyGeneration: nat
    var identityInvalidated: bool
    var disposed: bool

    ghost function Snapshot(): Fields
      reads this
    {
      Fields(accessToken, key, refreshInFlight, keyInFlight, logoutInFlight, generation, keyGeneration,
             identityInvalidated, disposed)
    }

    constructor (sync: bool)
      ensures this.sync == sync && Snapshot() == NEW_CLIENT
    {
      this.sync := sync;
      accessToken, key, refreshInFlight, keyInFlight, logoutInFlight := None, None, None, None, None;
      generation, keyGeneration, identityInvalidated, disposed := 0, 0, false, false;
    }

    method InvalidateIdentity()
      modifies this
      ensures Snapshot() == Invalidate(old(Snapshot()))
    {
      generation := generation + 1;
      refreshInFlight := None;
      accessToken := None;
      identityInvalidated := true;
    }

    /** The handler of a peer tab's notice. */
    method OnPeerNotice()
      modifies this
      ensures Snapshot() == PeerNotice(old(Snapshot()))
    {
      if !disposed {
        InvalidateIdentity();
      }
    }

    method DisposeClient()
      modifies this
      ensures Snapshot() == Dispose(old(Snapshot()))
    {
      if disposed {
        return;
      }
      disposed := true;
      InvalidateIdentity();
      keyGeneration := keyGeneration + 1;
      key := None;
      keyInFlight := None;
    }

    method RequestKey(id: Id) returns (wait: Option<KeyWait>)
      modifies this
      ensures (Snapshot(), wait) == GetKey(old(Snapshot()), id)
    {
      if disposed || logoutInFlight.Some? {
        return None;
      }
      if key.Some? {
        return Some(Cached(key.value));
      }
      if keyInFlight.Some? {
        return Some(Flight(keyInFlight.value));
      }
      keyInFlight := Some(id);
      wait := Some(Flight(id));
    }

    method AcceptKey(begun: nat, stored: Key) returns (accepted: Option<Key>)
      modifies this
      ensures (Snapshot(), accepted) == KeyArrives(old(Snapshot()), begun, stored)
    {
      if begun != keyGeneration {
        return None;
      }
      key := Some(stored);
      accepted := key;
    }

    method ReleaseKey(id: Id)
      modifies this
      ensures Snapshot() == KeyReleased(old(Snapshot()), id)
    {
      if keyInFlight == Some(id) {
        keyInFlight := None;
      }
    }

    /** Whether the call was accepted, and whether peers are to be told. */
    method SetAccessToken(token: Option<Token>) returns (accepted: bool, publishes: bool)
      modifies this
      ensures accepted == MaySetToken(old(Snapshot()))
      ensures Snapshot() == if accepted then SetToken(old(Snapshot()), sync, token) else old(Snapshot())
      ensures publishes == (accepted && sync && token != old(accessToken))
    {
      if disposed || logoutInFlight.Some? {
        return false, false;
      }
      var changed := token != accessToken;
      generation := generation + 1;
      refreshInFlight := None;
      accessToken := token;
      identityInvalidated := sync && token.None?;
      return true, changed && sync;
    }

    method Fetch(resolves: bool, id: Id) returns (wait: Option<KeyWait>)
      modifies this
      ensures (Snapshot(), wait) == BeginFetch(old(Snapshot()), resolves, id)
    {
      if disposed || identityInvalidated || !resolves {
        return None;
      }
      wait := RequestKey(id);
    }

    method RefreshOnce(refresh: Id, id: Id) returns (call: RefreshCall)
      modifies this
      ensures (Snapshot(), call) == BeginRefresh(old(Snapshot()), refresh, id)
    {
      if disposed || identityInvalidated {
        return Refused;
      }
      if logoutInFlight.Some? {
        return Refused;
      }
      if refreshInFlight.Some? {
        return Joined(refreshInFlight.value);
      }
      var wait := RequestKey(id);
      refreshInFlight := Some(refresh);
      call := Started(wait.value);
    }

    method OnFetchResponse(begun: nat, status: nat, refresh: Id, id: Id) returns (call: RefreshCall)
      modifies this
      ensures (Snapshot(), call) == FetchAnswered(old(Snapshot()), begun, status, refresh, id)
    {
      if begun != generation || status != UNAUTHORIZED || accessToken.None? {
        return Refused;
      }
      call := RefreshOnce(refresh, id);
    }

    method OnFetchRefreshed(begun: nat, refreshed: bool, id: Id) returns (wait: Option<KeyWait>)
      modifies this
      ensures (Snapshot(), wait) == FetchRefreshed(old(Snapshot()), begun, refreshed, id)
    {
      if !refreshed || begun != generation {
        return None;
      }
      wait := RequestKey(id);
    }

    method EndRefresh(begun: nat)
      modifies this
      ensures Snapshot() == RefreshEnds(old(Snapshot()), begun)
    {
      if begun == generation {
        refreshInFlight := None;
      }
    }

    method OnRefreshResponse(begun: nat, status: nat) returns (next: RefreshNext)
      modifies this
      ensures (Snapshot(), next) == RefreshAnswered(old(Snapshot()), begun, status)
    {
      if begun != generation {
        return Over(false);
      }
      if !Succeeded(status) {
        if status == UNAUTHORIZED || status == FORBIDDEN {
          accessToken := None;
        }
        EndRefresh(begun);
        return Over(false);
      }
      next := ReadsBody;
    }

    method OnRefreshBody(begun: nat, token: Option<Token>) returns (refreshed: bool)
      modifies this
      ensures (Snapshot(), refreshed) == RefreshParsed(old(Snapshot()), begun, token)
    {
      if begun != generation {
        return false;
      }
      refreshed := token.Some? && token.value != "";
      accessToken := if refreshed then token else None;
      EndRefresh(begun);
    }

    method ContinueSignIn(resolves: bool, id: Id) returns (call: SignInCall)
      modifies this
      ensures (Snapshot(), call) == ProceedSignIn(old(Snapshot()), resolves, id)
    {
      generation := generation + 1;
      refreshInFlight := None;
      if !resolves {
        return Rejected;
      }
      var wait := RequestKey(id);
      call := if wait.None? then Rejected else Sends(wait.value);
    }

    method SignIn(resolves: bool, id: Id) returns (call: SignInCall)
      modifies this
      ensures (Snapshot(), call) == BeginSignIn(old(Snapshot()), resolves, id)
    {
      if disposed {
        return Rejected;
      }
      if logoutInFlight.Some? {
        return WaitsFor(logoutInFlight.value);
      }
      call := ContinueSignIn(resolves, id);
    }

    method ResumeSignIn(started: nat, settledWell: bool, resolves: bool, id: Id) returns (call: SignInCall)
      modifies this
      ensures (Snapshot(), call) == SignInResumed(old(Snapshot()), started, settledWell, resolves, id)
    {
      if !settledWell || disposed || started != generation {
        return Rejected;
      }
      call := ContinueSignIn(resolves, id);
    }

    method OnSignInBody(begun: nat, token: Option<Token>) returns (established: bool)
      modifies this
      ensures (Snapshot(), established) == SignInParsed(old(Snapshot()), begun, token)
    {
      established := begun == generation && token.Some? && token.value != "";
      if established {
        accessToken := token;
        identityInvalidated := false;
      }
    }

    method SignOut(resolves: bool, logout: Id, id: Id) returns (call: SignOutCall)
      modifies this
      ensures (Snapshot(), call) == BeginSignOut(old(Snapshot()), sync, resolves, logout, id)
    {
      if disposed {
        return Denied;
      }
      if logoutInFlight.Some? {
        return Shares(logoutInFlight.value);
      }
      var token := accessToken;
      generation := generation + 1;
      if !sync {
        keyGeneration := keyGeneration + 1;
      }
      refreshInFlight := None;
      accessToken := None;
      if sync {
        identityInvalidated := true;
      }
      var pendingKey := keyInFlight;
      var wait: Option<KeyWait> := None;
      if token.Some? && resolves {
        wait := RequestKey(id);
      }
      logoutInFlight := Some(logout);
      call := Begins(wait, pendingKey);
    }

    method OnSignOutDrained()
      modifies this
      ensures Snapshot() == SignOutDrained(old(Snapshot()))
    {
      key := None;
      keyInFlight := None;
    }

    method ReleaseSignOut(logout: Id)
      modifies this
      ensures Snapshot() == SignOutReleased(old(Snapshot()), logout)
    {
      if logoutInFlight == Some(logout) {
        logoutInFlight := None;
      }
    }
  }
}
