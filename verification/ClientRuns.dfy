/**
 * Runs of the browser client under an arbitrary scheduler: every pending operation may be resumed at any
 * moment, every request may be answered in any way, and the key store may fail.
 */
module ClientRuns {
  import opened Wrappers
  import opened Client

  /** `sole`: no other client uses the key store. `atomic`: the store implements getOrCreate. */
  datatype Config = Config(sync: bool, atomic: bool, sole: bool)

  datatype Kind = FetchFirst | FetchSecond | Refreshing | SigningIn | SigningOut(pendingKey: Option<Id>)

  /** Where an operation is suspended. */
  datatype Phase =
    | AwaitKey(wait: KeyWait)
    | Proving(key: Key)
    | Requesting
    | Parsing
    | AwaitRefresh(refresh: Id)
    | AwaitLogout(logout: Id)
    | AwaitPending
    | Clearing
    | Settled(well: bool)
    | Finished

  /** An operation with the generation it captured: for a sign-in that waits, the one it was called under. */
  datatype Op = Op(kind: Kind, generation: nat, phase: Phase) {
    predicate Live() {
      !phase.Settled? && !phase.Finished?
    }
  }

  datatype InitPhase =
    | Loading
    | Generating
    | Creating(candidate: Key)
    | Stored(found: Option<Key>)
    | Ready(result: Option<Key>)

  /** A key initialisation, with the key generation it captured; no key stands for a rejection. */
  datatype KeyInit = KeyInit(keyGeneration: nat, phase: InitPhase)

  datatype Event = Request(op: Id, key: Key) | SignedOut | Published

  datatype State = State(
    fields: Fields,
    ops: map<Id, Op>,
    inits: map<Id, KeyInit>,
    store: Option<Key>,
    log: seq<Event>)

  /** One atomic piece of execution, with what the environment chose for it. */
  datatype Step =
    | CallSetToken(token: Option<Token>)
    | CallDispose
    | ReceiveNotice
    | CallGetKey(k: Id)
    | CallFetch(o: Id, k: Id, resolves: bool)
    | CallRefresh(o: Id, k: Id)
    | CallSignIn(o: Id, k: Id, resolves: bool)
    | CallSignOut(o: Id, k: Id, resolves: bool)
    | GotKey(o: Id)
    | Proved(o: Id)
    | Fails(o: Id)
    | Answered(o: Id, status: nat, r: Id, k: Id)
    | Parsed(o: Id, body: Option<Token>)
    | Resumed(o: Id, k: Id, resolves: bool)
    | Drained(o: Id)
    | Cleared(o: Id, well: bool)
    | Released(o: Id)
    | KeyLoaded(i: Id, found: Option<Key>)
    | KeyGenerated(i: Id, candidate: Key)
    | KeyCreated(i: Id)
    | KeyFails(i: Id, written: bool)
    | KeyArrived(i: Id)
    | KeyCallOver(i: Id)
    | PeerStore(contents: Option<Key>)

  predicate Initial(s: State) {
    s.fields == NEW_CLIENT && s.ops == map[] && s.inits == map[] && s.log == []
  }

  predicate Fresh(s: State, id: Id) {
    id !in s.ops && id !in s.inits
  }

  predicate Suspended(s: State, o: Id) {
    o in s.ops && s.ops[o].Live()
  }

  predicate Initialising(inits: map<Id, KeyInit>, i: Id) {
    i in inits && !inits[i].phase.Ready?
  }

  predicate Enabled(c: Config, s: State, step: Step) {
    match step
    case CallSetToken(_) => true
    case CallDispose => true
    case ReceiveNotice => c.sync
    case CallGetKey(k) => Fresh(s, k)
    case CallFetch(o, k, _) => Fresh(s, o) && Fresh(s, k) && o != k
    case CallRefresh(o, k) => Fresh(s, o) && Fresh(s, k) && o != k
    case CallSignIn(o, k, _) => Fresh(s, o) && Fresh(s, k) && o != k
    case CallSignOut(o, k, _) => Fresh(s, o) && Fresh(s, k) && o != k
    case GotKey(o) => Suspended(s, o) && s.ops[o].phase.AwaitKey? && KeyIsReady(s, s.ops[o].phase.wait)
    case Proved(o) => Suspended(s, o) && s.ops[o].phase.Proving?
    case Fails(o) =>
      Suspended(s, o) && (s.ops[o].phase.Proving? || s.ops[o].phase.Requesting? || s.ops[o].phase.Parsing?)
    case Answered(o, _, r, k) =>
      Suspended(s, o) && s.ops[o].phase.Requesting? && Fresh(s, r) && Fresh(s, k) && r != k
    case Parsed(o, _) => Suspended(s, o) && s.ops[o].phase.Parsing?
    case Resumed(o, k, _) => Suspended(s, o) && Fresh(s, k) && Awaited(s, s.ops[o].phase)
    case Drained(o) =>
      && Suspended(s, o) && s.ops[o].phase.AwaitPending? && s.ops[o].kind.SigningOut?
      && (s.ops[o].kind.pendingKey.Some? ==> !Initialising(s.inits, s.ops[o].kind.pendingKey.value))
    case Cleared(o, _) => Suspended(s, o) && s.ops[o].phase.Clearing?
    case Released(o) => o in s.ops && s.ops[o].kind.SigningOut? && s.ops[o].phase.Settled?
    case KeyLoaded(i, found) =>
      i in s.inits && s.inits[i].phase.Loading? && (c.sole ==> found == s.store)
    case KeyGenerated(i, _) => i in s.inits && s.inits[i].phase.Generating?
    case KeyCreated(i) => i in s.inits && s.inits[i].phase.Creating?
    case KeyFails(i, written) =>
      && Initialising(s.inits, i) && !s.inits[i].phase.Stored?
      && (written ==> s.inits[i].phase.Creating?)
    case KeyArrived(i) => i in s.inits && s.inits[i].phase.Stored?
    case KeyCallOver(i) => i in s.inits && s.inits[i].phase.Ready?
    case PeerStore(_) => !c.sole
  }

  predicate KeyIsReady(s: State, wait: KeyWait) {
    wait.Flight? ==> wait.id in s.inits && s.inits[wait.id].phase.Ready?
  }

  /** What a fetch or a sign-in waits for is over; a sign-out's slot is free before anyone who waited for it runs. */
  predicate Awaited(s: State, phase: Phase) {
    || (phase.AwaitRefresh? && phase.refresh in s.ops && s.ops[phase.refresh].phase.Settled?)
    || (phase.AwaitLogout? && phase.logout in s.ops && s.ops[phase.logout].phase.Settled?
        && s.fields.logoutInFlight != Some(phase.logout))
  }

  // ---- The pieces ------------------------------------------------------------------------

  /** The new fields, one operation's new place, and the key initialisation `k` if that is what it waits on. */
  function Put(s: State, f: Fields, o: Id, op: Op, k: Id): State {
    var wait := if op.phase.AwaitKey? then Some(op.phase.wait) else None;
    s.(fields := f, ops := s.ops[o := op], inits := WithInit(s.inits, f, wait, k))
  }

  function WithInit(inits: map<Id, KeyInit>, f: Fields, wait: Option<KeyWait>, k: Id): map<Id, KeyInit> {
    if wait == Some(Flight(k)) && k !in inits then inits[k := KeyInit(f.keyGeneration, Loading)] else inits
  }

  function Move(s: State, o: Id, phase: Phase): State
    requires o in s.ops
  {
    s.(ops := s.ops[o := s.ops[o].(phase := phase)])
  }

  /** The suspended expression of operation `o` throws. */
  function Thrown(s: State, o: Id): State
    requires o in s.ops
  {
    match s.ops[o].kind
    case Refreshing => Move(s, o, Settled(false)).(fields := RefreshEnds(s.fields, s.ops[o].generation))
    case SigningOut(_) => Move(s, o, AwaitPending)
    case _ => Move(s, o, Finished)
  }

  function Told(s: State, publishes: bool): State {
    if publishes then s.(log := s.log + [Published]) else s
  }

  function ApplySetToken(c: Config, s: State, token: Option<Token>): State {
    if !MaySetToken(s.fields) then s
    else Told(s.(fields := SetToken(s.fields, c.sync, token)), c.sync && token != s.fields.token)
  }

  function ApplyGetKey(s: State, k: Id): State {
    var (f, wait) := GetKey(s.fields, k);
    s.(fields := f, inits := WithInit(s.inits, f, wait, k))
  }

  function ApplyFetch(s: State, o: Id, k: Id, resolves: bool): State {
    var (f, wait) := BeginFetch(s.fields, resolves, k);
    if wait.None? then s.(fields := f) else Put(s, f, o, Op(FetchFirst, f.generation, AwaitKey(wait.value)), k)
  }

  function ApplyRefresh(s: State, o: Id, k: Id): State {
    var (f, call) := BeginRefresh(s.fields, o, k);
    if call.Started? then Put(s, f, o, Op(Refreshing, f.generation, AwaitKey(call.wait)), k) else s
  }

  function ApplySignIn(s: State, o: Id, k: Id, resolves: bool): State {
    var (f, call) := BeginSignIn(s.fields, resolves, k);
    match call
    case Rejected => s.(fields := f)
    case WaitsFor(logout) => Put(s, f, o, Op(SigningIn, f.generation, AwaitLogout(logout)), k)
    case Sends(wait) => Put(s, f, o, Op(SigningIn, f.generation, AwaitKey(wait)), k)
  }

  function ApplySignOut(c: Config, s: State, o: Id, k: Id, resolves: bool): State {
    var (f, call) := BeginSignOut(s.fields, c.sync, resolves, o, k);
    if !call.Begins? then s
    else
      Put(s, f, o, Op(SigningOut(call.pendingKey), f.generation,
                      if call.wait.Some? then AwaitKey(call.wait.value) else AwaitPending), k)
  }

  function ApplyGotKey(s: State, o: Id): State
    requires o in s.ops && s.ops[o].phase.AwaitKey? && KeyIsReady(s, s.ops[o].phase.wait)
  {
    match s.ops[o].phase.wait
    case Cached(key) => Move(s, o, Proving(key))
    case Flight(i) =>
      var result := s.inits[i].phase.result;
      if result.None? then Thrown(s, o) else Move(s, o, Proving(result.value))
  }

  function ApplyProved(s: State, o: Id): State
    requires o in s.ops && s.ops[o].phase.Proving?
  {
    if !MaySend(s.fields, s.ops[o].generation) then Thrown(s, o)
    else Move(s, o, Requesting).(log := s.log + [Request(o, s.ops[o].phase.key)])
  }

  function ApplyFetchAnswered(s: State, o: Id, status: nat, r: Id, k: Id): State
    requires o in s.ops
  {
    var (f, call) := FetchAnswered(s.fields, s.ops[o].generation, status, r, k);
    match call
    case Refused => Move(s, o, Finished)
    case Joined(refresh) => Move(s, o, AwaitRefresh(refresh))
    case Started(wait) => Put(Move(s, o, AwaitRefresh(r)), f, r, Op(Refreshing, f.generation, AwaitKey(wait)), k)
  }

  function ApplyAnswered(c: Config, s: State, o: Id, status: nat, r: Id, k: Id): State
    requires o in s.ops
  {
    var op := s.ops[o];
    match op.kind
    case FetchFirst => ApplyFetchAnswered(s, o, status, r, k)
    case FetchSecond => Move(s, o, Finished)
    case Refreshing =>
      var (f, next) := RefreshAnswered(s.fields, op.generation, status);
      Move(s, o, if next.Over? then Settled(next.refreshed) else Parsing).(fields := f)
    case SigningIn => Move(s, o, if SignInReadsBody(s.fields, op.generation, status) then Parsing else Finished)
    case SigningOut(_) => Told(Move(s, o, AwaitPending), c.sync && SignOutPublishes(s.fields, op.generation, status))
  }

  function ApplyParsed(c: Config, s: State, o: Id, body: Option<Token>): State
    requires o in s.ops
  {
    if s.ops[o].kind.Refreshing? then
      var (f, refreshed) := RefreshParsed(s.fields, s.ops[o].generation, body);
      Move(s, o, Settled(refreshed)).(fields := f)
    else
      var (f, established) := SignInParsed(s.fields, s.ops[o].generation, body);
      Told(Move(s, o, Finished).(fields := f), c.sync && established)
  }

  function ApplyFetchResumed(s: State, o: Id, k: Id): State
    requires o in s.ops && s.ops[o].phase.AwaitRefresh? && Awaited(s, s.ops[o].phase)
  {
    var refreshed := s.ops[s.ops[o].phase.refresh].phase.well;
    var (f, wait) := FetchRefreshed(s.fields, s.ops[o].generation, refreshed, k);
    if wait.None? then Move(s, o, Finished) else Put(s, f, o, Op(FetchSecond, f.generation, AwaitKey(wait.value)), k)
  }

  /** A sign-out whose store could not be cleared rejects, and so does the sign-in that waited for it. */
  function ApplySignInResumed(s: State, o: Id, k: Id, settledWell: bool, resolves: bool): State
    requires o in s.ops
  {
    var (f, call) := SignInResumed(s.fields, s.ops[o].generation, settledWell, resolves, k);
    if call.Sends? then Put(s, f, o, Op(SigningIn, f.generation, AwaitKey(call.wait)), k)
    else Move(s, o, Finished).(fields := f)
  }

  function ApplyDrained(c: Config, s: State, o: Id): State
    requires o in s.ops
  {
    Move(s, o, if c.sync then Settled(true) else Clearing).(fields := SignOutDrained(s.fields))
  }

  function ApplyCleared(s: State, o: Id, well: bool): State
    requires o in s.ops
  {
    if well then Move(s, o, Settled(true)).(store := None, log := s.log + [SignedOut])
    else Move(s, o, Settled(false))
  }

  function SetInit(s: State, i: Id, phase: InitPhase): State
    requires i in s.inits
  {
    s.(inits := s.inits[i := s.inits[i].(phase := phase)])
  }

  /** What the store holds once a candidate is offered: getOrCreate keeps a key that is there, save replaces it. */
  function Winner(c: Config, store: Option<Key>, candidate: Key): Key {
    if c.atomic && store.Some? then store.value else candidate
  }

  function ApplyKeyCreated(c: Config, s: State, i: Id): State
    requires i in s.inits && s.inits[i].phase.Creating?
  {
    var winner := Winner(c, s.store, s.inits[i].phase.candidate);
    SetInit(s, i, Stored(Some(winner))).(store := Some(winner))
  }

  function ApplyKeyFails(c: Config, s: State, i: Id, written: bool): State
    requires i in s.inits && (written ==> s.inits[i].phase.Creating?)
  {
    SetInit(s, i, Stored(None)).(
      store := if written then Some(Winner(c, s.store, s.inits[i].phase.candidate)) else s.store)
  }

  function ApplyKeyArrived(s: State, i: Id): State
    requires i in s.inits && s.inits[i].phase.Stored?
  {
    var found := s.inits[i].phase.found;
    if found.None? then SetInit(s, i, Ready(None))
    else
      var (f, accepted) := KeyArrives(s.fields, s.inits[i].keyGeneration, found.value);
      SetInit(s, i, Ready(accepted)).(fields := f)
  }

  function Apply(c: Config, s: State, step: Step): State
    requires Enabled(c, s, step)
  {
    match step
    case CallSetToken(token) => ApplySetToken(c, s, token)
    case CallDispose => s.(fields := Dispose(s.fields))
    case ReceiveNotice => s.(fields := PeerNotice(s.fields))
    case CallGetKey(k) => ApplyGetKey(s, k)
    case CallFetch(o, k, resolves) => ApplyFetch(s, o, k, resolves)
    case CallRefresh(o, k) => ApplyRefresh(s, o, k)
    case CallSignIn(o, k, resolves) => ApplySignIn(s, o, k, resolves)
    case CallSignOut(o, k, resolves) => ApplySignOut(c, s, o, k, resolves)
    case GotKey(o) => ApplyGotKey(s, o)
    case Proved(o) => ApplyProved(s, o)
    case Fails(o) => Thrown(s, o)
    case Answered(o, status, r, k) => ApplyAnswered(c, s, o, status, r, k)
    case Parsed(o, body) => ApplyParsed(c, s, o, body)
    case Resumed(o, k, resolves) =>
      if s.ops[o].phase.AwaitRefresh? then ApplyFetchResumed(s, o, k)
      else ApplySignInResumed(s, o, k, s.ops[s.ops[o].phase.logout].phase.well, resolves)
    case Drained(o) => ApplyDrained(c, s, o)
    case Cleared(o, well) => ApplyCleared(s, o, well)
    case Released(o) => s.(fields := SignOutReleased(s.fields, o))
    case KeyLoaded(i, found) => SetInit(s, i, if found.Some? then Stored(found) else Generating)
    case KeyGenerated(i, candidate) => SetInit(s, i, Creating(candidate))
    case KeyCreated(i) => ApplyKeyCreated(c, s, i)
    case KeyFails(i, written) => ApplyKeyFails(c, s, i, written)
    case KeyArrived(i) => ApplyKeyArrived(s, i)
    case KeyCallOver(i) => s.(fields := KeyReleased(s.fields, i))
    case PeerStore(contents) => s.(store := contents)
  }
}
