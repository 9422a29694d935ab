/** What each step of the client does to each of its fields, and to what others can see of it. */
module ClientEffects {
  import opened Wrappers
  import opened Client
  import opened ClientRuns

  // ---- When a step is taken up ---------------------------------------------------------------

  /** Neither disposed nor signing out: such a client takes calls. */
  predicate Open(s: State) {
    !s.fields.disposed && s.fields.logoutInFlight.None?
  }

  /** The operation belongs to the identity of the moment. */
  predicate Current(s: State, o: Id)
    requires o in s.ops
  {
    s.ops[o].generation == s.fields.generation
  }

  predicate Ok2xx(status: nat) {
    200 <= status <= 299
  }

  /** A body that carries a token. */
  predicate Carries(body: Option<Token>) {
    body.Some? && body.value != ""
  }

  /** A sign-in that has waited for a sign-out goes on. */
  predicate SignInGoesOn(c: Config, s: State, step: Step)
    requires Enabled(c, s, step)
  {
    && step.Resumed? && s.ops[step.o].phase.AwaitLogout?
    && s.ops[s.ops[step.o].phase.logout].phase.well && !s.fields.disposed && Current(s, step.o)
  }

  /** A fetch goes on after the refresh that it waited for. */
  predicate FetchGoesOn(c: Config, s: State, step: Step)
    requires Enabled(c, s, step)
  {
    && step.Resumed? && s.ops[step.o].phase.AwaitRefresh?
    && s.ops[s.ops[step.o].phase.refresh].phase.well && Current(s, step.o)
  }

  /** A fetch answered with 401 while its identity still stands and has a token. */
  predicate FetchRefused(c: Config, s: State, step: Step)
    requires Enabled(c, s, step)
  {
    && step.Answered? && s.ops[step.o].kind.FetchFirst?
    && step.status == 401 && Current(s, step.o) && s.fields.token.Some?
  }

  predicate MayRefresh(s: State) {
    Open(s) && !s.fields.invalidated
  }

  /** A refresh begins: called for, or needed by a fetch, while none is in flight. */
  function RefreshBegun(c: Config, s: State, step: Step): Option<Id>
    requires Enabled(c, s, step)
  {
    if !MayRefresh(s) || s.fields.refreshInFlight.Some? then None
    else if step.CallRefresh? then Some(step.o)
    else if FetchRefused(c, s, step) then Some(step.r)
    else None
  }

  /** The key a failed wait leaves an operation without. */
  predicate KeyMissing(c: Config, s: State, step: Step)
    requires Enabled(c, s, step)
  {
    && step.GotKey? && s.ops[step.o].phase.wait.Flight?
    && s.inits[s.ops[step.o].phase.wait.id].phase.result.None?
  }

  /** A refresh ends while its identity still stands. */
  predicate RefreshOver(c: Config, s: State, step: Step)
    requires Enabled(c, s, step)
  {
    && (step.Fails? || step.Parsed? || step.Answered? || KeyMissing(c, s, step))
    && s.ops[step.o].kind.Refreshing? && Current(s, step.o)
    && (step.Answered? ==> !Ok2xx(step.status))
  }

  /** A sign-in's body arrives with a token, for the identity of the moment. */
  predicate SignInSucceeds(c: Config, s: State, step: Step)
    requires Enabled(c, s, step)
  {
    && step.Parsed? && !s.ops[step.o].kind.Refreshing? && Current(s, step.o) && Carries(step.body)
  }

  /** The identity of the moment ends, or is replaced, or a sign-in sets out to. */
  predicate Advances(c: Config, s: State, step: Step)
    requires Enabled(c, s, step)
  {
    || (Open(s) && (step.CallSetToken? || step.CallSignOut? || step.CallSignIn?))
    || (!s.fields.disposed && (step.CallDispose? || step.ReceiveNotice?))
    || SignInGoesOn(c, s, step)
  }

  /** A step that needs the key, and the initialisation it may begin. */
  function AsksForKey(c: Config, s: State, step: Step): Option<Id>
    requires Enabled(c, s, step)
  {
    if !Open(s) then None
    else if step.CallGetKey? then Some(step.k)
    else if step.CallFetch? && !s.fields.invalidated && step.resolves then Some(step.k)
    else if step.CallSignIn? && step.resolves then Some(step.k)
    else if step.CallSignOut? && s.fields.token.Some? && step.resolves then Some(step.k)
    else if SignInGoesOn(c, s, step) && step.resolves then Some(step.k)
    else if FetchGoesOn(c, s, step) then Some(step.k)
    else if RefreshBegun(c, s, step).Some? then Some(step.k)
    else None
  }

  // ---- The fields, apart from the operations -------------------------------------------------

  /** The fields after a step, as the piece of code that it runs leaves them. */
  function NewFields(c: Config, s: State, step: Step): Fields
    requires Enabled(c, s, step)
  {
    var f := s.fields;
    match step
    case CallSetToken(token) => if MaySetToken(f) then SetToken(f, c.sync, token) else f
    case CallDispose => Dispose(f)
    case ReceiveNotice => PeerNotice(f)
    case CallGetKey(k) => GetKey(f, k).0
    case CallFetch(_, k, resolves) => BeginFetch(f, resolves, k).0
    case CallRefresh(o, k) => BeginRefresh(f, o, k).0
    case CallSignIn(_, k, resolves) => BeginSignIn(f, resolves, k).0
    case CallSignOut(o, k, resolves) => BeginSignOut(f, c.sync, resolves, o, k).0
    case GotKey(o) => if KeyMissing(c, s, step) then FieldsThrown(s, o) else f
    case Proved(o) => if Current(s, o) then f else FieldsThrown(s, o)
    case Fails(o) => FieldsThrown(s, o)
    case Answered(o, status, r, k) => FieldsAnswered(s, o, status, r, k)
    case Parsed(o, body) =>
      if s.ops[o].kind.Refreshing? then RefreshParsed(f, s.ops[o].generation, body).0
      else SignInParsed(f, s.ops[o].generation, body).0
    case Resumed(o, k, resolves) => FieldsResumed(s, o, k, resolves)
    case Drained(_) => SignOutDrained(f)
    case Released(o) => SignOutReleased(f, o)
    case KeyArrived(i) =>
      var found := s.inits[i].phase.found;
      if found.None? then f else KeyArrives(f, s.inits[i].keyGeneration, found.value).0
    case KeyCallOver(i) => KeyReleased(f, i)
    case _ => f
  }

  function FieldsThrown(s: State, o: Id): Fields
    requires o in s.ops
  {
    if s.ops[o].kind.Refreshing? then RefreshEnds(s.fields, s.ops[o].generation) else s.fields
  }

  function FieldsAnswered(s: State, o: Id, status: nat, r: Id, k: Id): Fields
    requires o in s.ops
  {
    match s.ops[o].kind
    case FetchFirst => FetchAnswered(s.fields, s.ops[o].generation, status, r, k).0
    case Refreshing => RefreshAnswered(s.fields, s.ops[o].generation, status).0
    case _ => s.fields
  }

  function FieldsResumed(s: State, o: Id, k: Id, resolves: bool): Fields
    requires o in s.ops && Awaited(s, s.ops[o].phase)
  {
    var op := s.ops[o];
    if op.phase.AwaitRefresh? then
      FetchRefreshed(s.fields, op.generation, s.ops[op.phase.refresh].phase.well, k).0
    else SignInResumed(s.fields, op.generation, s.ops[op.phase.logout].phase.well, resolves, k).0
  }

  /** Operations and initialisations move beside the fields, not in them. */
  lemma FieldsAfter(c: Config, s: State, step: Step)
    requires Enabled(c, s, step)
    ensures Apply(c, s, step).fields == NewFields(c, s, step)
  {
    hide Dispose, PeerNotice, SetToken, RefreshEnds, RefreshParsed, SignInParsed, ProceedSignIn;
    hide SignOutDrained, SignOutReleased, KeyReleased, WithInit;
  }

  // ---- Field by field ------------------------------------------------------------------------

  /**
   * The token after a step: an accepted explicit one; none after a sign-out, a disposal, a notice, or a current
   * refresh that is answered 401 or 403 or brings no token; the one a current refresh or sign-in brings;
   * otherwise the one before.
   */
  lemma TokenAfter(c: Config, s: State, step: Step)
    requires Enabled(c, s, step)
    ensures Apply(c, s, step).fields.token
            == if step.CallSetToken? && Open(s) then step.token
               else if step.CallSignOut? && Open(s) then None
               else if (step.CallDispose? || step.ReceiveNotice?) && !s.fields.disposed then None
               else if SignInSucceeds(c, s, step) then step.body
               else if step.Parsed? && RefreshOver(c, s, step) then if Carries(step.body) then step.body else None
               else if step.Answered? && RefreshOver(c, s, step) && (step.status == 401 || step.status == 403) then None
               else s.fields.token
  {
    hide Apply;
    FieldsAfter(c, s, step);
  }

  /** The identity is invalidated by a notice, a disposal, or with sync a sign-out or a null token, and lifted. */
  lemma InvalidatedAfter(c: Config, s: State, step: Step)
    requires Enabled(c, s, step)
    ensures Apply(c, s, step).fields.invalidated
            == if step.CallSetToken? && Open(s) then c.sync && step.token.None?
               else if step.CallSignOut? && Open(s) then s.fields.invalidated || c.sync
               else if (step.CallDispose? || step.ReceiveNotice?) && !s.fields.disposed then true
               else s.fields.invalidated && !SignInSucceeds(c, s, step)
  {
    hide Apply;
    FieldsAfter(c, s, step);
  }

  lemma GenerationAfter(c: Config, s: State, step: Step)
    requires Enabled(c, s, step)
    ensures Apply(c, s, step).fields.generation == s.fields.generation + if Advances(c, s, step) then 1 else 0
  {
    hide Apply;
    FieldsAfter(c, s, step);
  }

  /** The refresh slot is freed with the identity or its refresh, and taken by the refresh that begins. */
  lemma RefreshSlotAfter(c: Config, s: State, step: Step)
    requires Enabled(c, s, step)
    ensures Apply(c, s, step).fields.refreshInFlight
            == if Advances(c, s, step) || RefreshOver(c, s, step) then None
               else if RefreshBegun(c, s, step).Some? then RefreshBegun(c, s, step)
               else s.fields.refreshInFlight
  {
    hide Apply;
    FieldsAfter(c, s, step);
  }

  lemma KeyAfter(c: Config, s: State, step: Step)
    requires Enabled(c, s, step)
    ensures Apply(c, s, step).fields.key
            == if step.Drained? || (step.CallDispose? && !s.fields.disposed) then None
               else if step.KeyArrived? && s.inits[step.i].phase.found.Some?
                       && s.inits[step.i].keyGeneration == s.fields.keyGeneration
               then s.inits[step.i].phase.found
               else s.fields.key
  {
    hide Apply;
    FieldsAfter(c, s, step);
  }

  /** The key slot is taken only when there is neither a cached key nor an initialisation to join. */
  lemma KeySlotAfter(c: Config, s: State, step: Step)
    requires Enabled(c, s, step)
    ensures Apply(c, s, step).fields.keyInFlight
            == if step.Drained? || (step.CallDispose? && !s.fields.disposed) then None
               else if step.KeyCallOver? && s.fields.keyInFlight == Some(step.i) then None
               else if s.fields.key.None? && s.fields.keyInFlight.None? && AsksForKey(c, s, step).Some?
               then AsksForKey(c, s, step)
               else s.fields.keyInFlight
  {
    hide Apply;
    FieldsAfter(c, s, step);
  }

  lemma SignOutSlotAfter(c: Config, s: State, step: Step)
    requires Enabled(c, s, step)
    ensures Apply(c, s, step).fields.logoutInFlight
            == if step.CallSignOut? && Open(s) then Some(step.o)
               else if step.Released? && s.fields.logoutInFlight == Some(step.o) then None
               else s.fields.logoutInFlight
  {
    hide Apply;
    FieldsAfter(c, s, step);
  }

  lemma KeyGenerationAfter(c: Config, s: State, step: Step)
    requires Enabled(c, s, step)
    ensures Apply(c, s, step).fields.keyGeneration
            == s.fields.keyGeneration
               + if (step.CallSignOut? && Open(s) && !c.sync) || (step.CallDispose? && !s.fields.disposed) then 1 else 0
  {
    hide Apply;
    FieldsAfter(c, s, step);
  }

  lemma DisposedAfter(c: Config, s: State, step: Step)
    requires Enabled(c, s, step)
    ensures Apply(c, s, step).fields.disposed == (s.fields.disposed || step.CallDispose?)
  {
    hide Apply;
    FieldsAfter(c, s, step);
  }

  /** What others see of a step: a request, a notice to the peers, or the end of a sign-out that cleared the store. */
  lemma LogAfter(c: Config, s: State, step: Step)
    requires Enabled(c, s, step)
    ensures Apply(c, s, step).log
            == s.log
               + if step.Proved? && Current(s, step.o) then [Request(step.o, s.ops[step.o].phase.key)]
                 else if step.Cleared? && step.well then [SignedOut]
                 else if c.sync && SignInSucceeds(c, s, step) then [Published]
                 else if c.sync && step.CallSetToken? && Open(s) && step.token != s.fields.token then [Published]
                 else if c.sync && step.Answered? && s.ops[step.o].kind.SigningOut? && Current(s, step.o)
                         && Ok2xx(step.status)
                 then [Published]
                 else []
  {
    assert s.log + [] == s.log;
  }

  /** A candidate is stored unless the store is atomic and holds a key already. */
  lemma StoreAfter(c: Config, s: State, step: Step)
    requires Enabled(c, s, step)
    ensures Apply(c, s, step).store
            == if step.PeerStore? then step.contents
               else if step.Cleared? && step.well then None
               else if (step.KeyCreated? || (step.KeyFails? && step.written)) && !(c.atomic && s.store.Some?)
               then Some(s.inits[step.i].phase.candidate)
               else s.store
  {
  }

  // ---- Operations ----------------------------------------------------------------------------

  /** What an operation that needs the key waits for: the cached key, the initialisation in flight, or its own. */
  function WaitFor(s: State, k: Id): KeyWait {
    if s.fields.key.Some? then Cached(s.fields.key.value)
    else if s.fields.keyInFlight.Some? then Flight(s.fields.keyInFlight.value)
    else Flight(k)
  }

  /** A call that is taken up leaves an operation behind, under the new generation; one that is refused leaves none. */
  lemma CallLeaves(c: Config, s: State, step: Step)
    requires Enabled(c, s, step)
    ensures step.CallFetch? ==>
      Apply(c, s, step).ops
      == if Open(s) && !s.fields.invalidated && step.resolves
         then s.ops[step.o := Op(FetchFirst, s.fields.generation, AwaitKey(WaitFor(s, step.k)))] else s.ops
    ensures step.CallRefresh? ==>
      Apply(c, s, step).ops
      == if RefreshBegun(c, s, step).Some?
         then s.ops[step.o := Op(Refreshing, s.fields.generation, AwaitKey(WaitFor(s, step.k)))] else s.ops
    ensures step.CallSignIn? ==>
      Apply(c, s, step).ops
      == if s.fields.disposed then s.ops
         else if s.fields.logoutInFlight.Some?
         then s.ops[step.o := Op(SigningIn, s.fields.generation, AwaitLogout(s.fields.logoutInFlight.value))]
         else if step.resolves
         then s.ops[step.o := Op(SigningIn, s.fields.generation + 1, AwaitKey(WaitFor(s, step.k)))]
         else s.ops
    ensures step.CallSignOut? ==>
      Apply(c, s, step).ops
      == if !Open(s) then s.ops
         else s.ops[step.o := Op(SigningOut(s.fields.keyInFlight), s.fields.generation + 1,
                                 if s.fields.token.Some? && step.resolves then AwaitKey(WaitFor(s, step.k))
                                 else AwaitPending)]
  {
  }

  /** What becomes of an operation whose suspended expression throws. */
  function PhaseThrown(op: Op): Phase {
    match op.kind
    case Refreshing => Settled(false)
    case SigningOut(_) => AwaitPending
    case _ => Finished
  }

  /** How far an operation gets with its key and its proof. */
  lemma ProofGoesOn(c: Config, s: State, step: Step)
    requires Enabled(c, s, step) && (step.GotKey? || step.Proved? || step.Fails?)
    ensures var op := s.ops[step.o];
      Apply(c, s, step).ops
      == s.ops[step.o := op.(phase :=
           if step.Fails? || KeyMissing(c, s, step) then PhaseThrown(op)
           else if step.Proved? then if Current(s, step.o) then Requesting else PhaseThrown(op)
           else if op.phase.wait.Cached? then Proving(op.phase.wait.key)
           else Proving(s.inits[op.phase.wait.id].phase.result.value))]
  {
  }

  /** How far a response takes an operation other than a fetch. */
  lemma ResponseGoesOn(c: Config, s: State, step: Step)
    requires Enabled(c, s, step) && step.Answered? && !s.ops[step.o].kind.FetchFirst?
    ensures var op := s.ops[step.o];
      Apply(c, s, step).ops
      == s.ops[step.o := op.(phase :=
           match op.kind
           case Refreshing => if Current(s, step.o) && Ok2xx(step.status) then Parsing else Settled(false)
           case SigningIn => if Current(s, step.o) && Ok2xx(step.status) then Parsing else Finished
           case SigningOut(_) => AwaitPending
           case _ => Finished)]
  {
  }

  /** A fetch is over with its response, unless that is a refusal which a refresh may cure. */
  lemma FetchGoesThrough(c: Config, s: State, step: Step)
    requires Enabled(c, s, step) && step.Answered? && s.ops[step.o].kind.FetchFirst?
    ensures var op := s.ops[step.o];
      Apply(c, s, step).ops
      == if !FetchRefused(c, s, step) || !MayRefresh(s) then s.ops[step.o := op.(phase := Finished)]
         else if s.fields.refreshInFlight.Some?
         then s.ops[step.o := op.(phase := AwaitRefresh(s.fields.refreshInFlight.value))]
         else s.ops[step.o := op.(phase := AwaitRefresh(step.r))]
                   [step.r := Op(Refreshing, s.fields.generation, AwaitKey(WaitFor(s, step.k)))]
  {
  }

  /** A body settles a refresh, well exactly when it brings a token in time, and ends a sign-in. */
  lemma BodyGoesOn(c: Config, s: State, step: Step)
    requires Enabled(c, s, step) && step.Parsed?
    ensures var op := s.ops[step.o];
      Apply(c, s, step).ops
      == s.ops[step.o := op.(phase :=
           if op.kind.Refreshing? then Settled(Current(s, step.o) && Carries(step.body)) else Finished)]
  {
  }

  /** A waiting fetch is sent once more, and a waiting sign-in is sent, under the generation of the moment. */
  lemma WaitGoesOn(c: Config, s: State, step: Step)
    requires Enabled(c, s, step) && step.Resumed?
    ensures var op := s.ops[step.o];
      Apply(c, s, step).ops
      == if FetchGoesOn(c, s, step) && Open(s)
         then s.ops[step.o := Op(FetchSecond, s.fields.generation, AwaitKey(WaitFor(s, step.k)))]
         else if SignInGoesOn(c, s, step) && Open(s) && step.resolves
         then s.ops[step.o := Op(SigningIn, s.fields.generation + 1, AwaitKey(WaitFor(s, step.k)))]
         else s.ops[step.o := op.(phase := Finished)]
  {
  }

  /** How a sign-out ends: with sync at once, otherwise once the store has been cleared, or could not be. */
  lemma SignOutGoesOn(c: Config, s: State, step: Step)
    requires Enabled(c, s, step) && (step.Drained? || step.Cleared?)
    ensures Apply(c, s, step).ops
            == s.ops[step.o := s.ops[step.o].(phase :=
                 if step.Cleared? then Settled(step.well) else if c.sync then Settled(true) else Clearing)]
  {
  }

  // ---- Key initialisations -------------------------------------------------------------------

  /** The initialisations, with one begun by the step that takes the key slot, under the key generation it leaves. */
  function NewInits(c: Config, s: State, step: Step): map<Id, KeyInit>
    requires Enabled(c, s, step)
  {
    if s.fields.key.None? && s.fields.keyInFlight.None? && AsksForKey(c, s, step).Some?
    then s.inits[AsksForKey(c, s, step).value :=
                   KeyInit(s.fields.keyGeneration + if step.CallSignOut? && !c.sync then 1 else 0, Loading)]
    else s.inits
  }

  lemma CallBeginsInit(c: Config, s: State, step: Step)
    requires Enabled(c, s, step)
    requires step.CallGetKey? || step.CallFetch? || step.CallRefresh?
    requires s.fields.keyInFlight.Some? ==> s.fields.keyInFlight.value in s.inits
    ensures Apply(c, s, step).inits == NewInits(c, s, step)
  {
  }

  lemma SignBeginsInit(c: Config, s: State, step: Step)
    requires Enabled(c, s, step)
    requires step.CallSignIn? || step.CallSignOut?
    requires s.fields.keyInFlight.Some? ==> s.fields.keyInFlight.value in s.inits
    ensures Apply(c, s, step).inits == NewInits(c, s, step)
  {
  }

  lemma ResumptionBeginsInit(c: Config, s: State, step: Step)
    requires Enabled(c, s, step) && (step.Answered? || step.Resumed?)
    requires s.fields.keyInFlight.Some? ==> s.fields.keyInFlight.value in s.inits
    ensures Apply(c, s, step).inits == NewInits(c, s, step)
  {
  }

  /** A step begins a key initialisation exactly when it needs the key and there is none, cached or on its way. */
  lemma InitBegins(c: Config, s: State, step: Step)
    requires Enabled(c, s, step)
    requires !step.KeyLoaded? && !step.KeyGenerated? && !step.KeyCreated? && !step.KeyFails? && !step.KeyArrived?
    requires s.fields.keyInFlight.Some? ==> s.fields.keyInFlight.value in s.inits
    ensures Apply(c, s, step).inits == NewInits(c, s, step)
  {
    if step.CallGetKey? || step.CallFetch? || step.CallRefresh? {
      CallBeginsInit(c, s, step);
    } else if step.CallSignIn? || step.CallSignOut? {
      SignBeginsInit(c, s, step);
    } else if step.Answered? || step.Resumed? {
      ResumptionBeginsInit(c, s, step);
    } else {
      hide NewFields, WithInit, GetKey;
    }
  }

  /** A stored key is used; without one, a candidate is made and offered to the store; a failure leaves none. */
  lemma InitGoesOn(c: Config, s: State, step: Step)
    requires Enabled(c, s, step)
    requires step.KeyLoaded? || step.KeyGenerated? || step.KeyCreated? || step.KeyFails? || step.KeyArrived?
    ensures var init := s.inits[step.i];
      Apply(c, s, step).inits
      == s.inits[step.i := init.(phase :=
           match step
           case KeyLoaded(_, found) => if found.Some? then Stored(found) else Generating
           case KeyGenerated(_, candidate) => Creating(candidate)
           case KeyCreated(_) =>
             Stored(if c.atomic && s.store.Some? then s.store else Some(init.phase.candidate))
           case KeyFails(_, _) => Stored(None)
           case _ => Ready(if init.keyGeneration == s.fields.keyGeneration then init.phase.found else None))]
  {
  }
}
