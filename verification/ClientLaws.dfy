/** What holds over whole runs of the client, whatever the scheduler, the network and the store do. */
module ClientLaws {
  import opened Wrappers
  import opened Client
  import opened ClientRuns
  import opened ClientInvariant
  import opened ClientKeys

  // ---- Every step keeps the invariant --------------------------------------------------------

  ghost predicate Safe(c: Config, s: State) {
    Inv(s) && Keys(s) && (c.sole ==> Stocked(s))
  }

  lemma StepKeepsInv(c: Config, s: State, step: Step)
    requires Safe(c, s) && Enabled(c, s, step)
    ensures Inv(Apply(c, s, step))
  {
    hide Core, InitsHold;
    match step
    case CallSetToken(token) => SetTokenKeeps(c, s, token);
    case CallDispose => DisposeKeeps(s);
    case ReceiveNotice => NoticeKeeps(s);
    case CallGetKey(k) => GetKeyKeeps(s, k);
    case CallFetch(o, k, resolves) => FetchKeeps(s, o, k, resolves);
    case CallRefresh(o, k) => RefreshKeeps(s, o, k);
    case CallSignIn(o, k, resolves) => SignInKeeps(s, o, k, resolves);
    case CallSignOut(o, k, resolves) => SignOutKeeps(c, s, o, k, resolves);
    case GotKey(o) => GotKeyKeeps(s, o);
    case Proved(o) => ProvedKeeps(s, o);
    case Fails(o) => ThrownKeeps(s, o);
    case Answered(o, status, r, k) =>
      if s.ops[o].kind.FetchFirst? {
        FetchAnsweredKeeps(s, o, status, r, k);
      } else {
        AnsweredKeeps(c, s, o, status, r, k);
      }
    case Parsed(o, body) => ParsedKeeps(c, s, o, body);
    case Resumed(o, k, resolves) =>
      if s.ops[o].phase.AwaitRefresh? {
        FetchResumedKeeps(s, o, k);
      } else {
        SignInResumedKeeps(s, o, k, s.ops[s.ops[o].phase.logout].phase.well, resolves);
      }
    case Drained(o) => DrainedKeeps(c, s, o);
    case Cleared(o, well) => ClearedKeeps(s, o, well);
    case Released(o) => ReleasedKeeps(s, o);
    case KeyArrived(i) => KeyArrivedKeeps(s, i);
    case KeyCallOver(i) => KeyCallOverKeeps(s, i);
    case _ =>
  }

  lemma StepKeepsKeys(c: Config, s: State, step: Step)
    requires Safe(c, s) && Enabled(c, s, step)
    ensures Keys(Apply(c, s, step))
  {
    hide Core, Keys;
    match step
    case CallSetToken(token) => SetTokenKeys(c, s, token);
    case CallDispose => DisposeKeys(s);
    case ReceiveNotice => NoticeKeys(s);
    case CallGetKey(k) => GetKeyKeys(s, k);
    case CallFetch(o, k, resolves) => FetchKeys(s, o, k, resolves);
    case CallRefresh(o, k) => RefreshKeys(s, o, k);
    case CallSignIn(o, k, resolves) => SignInKeys(s, o, k, resolves);
    case CallSignOut(o, k, resolves) => SignOutKeys(c, s, o, k, resolves);
    case GotKey(o) => GotKeyKeys(s, o);
    case Proved(o) => ProvedKeys(s, o);
    case Fails(o) => ThrownKeys(s, o);
    case Answered(o, status, r, k) =>
      if s.ops[o].kind.FetchFirst? {
        FetchAnsweredKeys(s, o, status, r, k);
      } else {
        AnsweredKeys(c, s, o, status, r, k);
      }
    case Parsed(o, body) => ParsedKeys(c, s, o, body);
    case Resumed(o, k, resolves) =>
      if s.ops[o].phase.AwaitRefresh? {
        FetchResumedKeys(s, o, k);
      } else {
        SignInResumedKeys(s, o, k, s.ops[s.ops[o].phase.logout].phase.well, resolves);
      }
    case Drained(o) => DrainedKeys(c, s, o);
    case Cleared(o, well) => ClearedKeys(s, o, well);
    case Released(o) => ReleasedKeys(s, o);
    case KeyLoaded(i, found) => InitMovesKeys(s, i, if found.Some? then Stored(found) else Generating);
    case KeyGenerated(i, candidate) => InitMovesKeys(s, i, Creating(candidate));
    case KeyCreated(i) =>
      var stored := Stored(Some(Winner(c, s.store, s.inits[i].phase.candidate)));
      InitMovesKeys(s, i, stored);
      StoreAside(SetInit(s, i, stored), Apply(c, s, step).store);
    case KeyFails(i, _) =>
      InitMovesKeys(s, i, Stored(None));
      StoreAside(SetInit(s, i, Stored(None)), Apply(c, s, step).store);
    case KeyArrived(i) => KeyArrivedKeys(s, i);
    case KeyCallOver(i) => KeyCallOverKeys(s, i);
    case PeerStore(contents) => StoreAside(s, contents);
  }

  lemma StoreAside(s: State, store: Option<Key>)
    requires Keys(s)
    ensures Keys(s.(store := store))
  {
  }

  lemma StepKeepsStocked(c: Config, s: State, step: Step)
    requires c.sole && Safe(c, s) && Enabled(c, s, step)
    ensures Stocked(Apply(c, s, step))
  {
    hide Core, Keys, Stocked;
    match step
    case CallSetToken(token) => SetTokenStocked(c, s, token);
    case CallDispose => DisposeStocked(s);
    case ReceiveNotice => NoticeStocked(s);
    case CallGetKey(k) => GetKeyStocked(s, k);
    case CallFetch(o, k, resolves) => FetchStocked(s, o, k, resolves);
    case CallRefresh(o, k) => RefreshStocked(s, o, k);
    case CallSignIn(o, k, resolves) => SignInStocked(s, o, k, resolves);
    case CallSignOut(o, k, resolves) => SignOutStocked(c, s, o, k, resolves);
    case GotKey(o) => GotKeyStocked(s, o);
    case Proved(o) => ProvedStocked(s, o);
    case Fails(o) => ThrownStocked(s, o);
    case Answered(o, status, r, k) =>
      if s.ops[o].kind.FetchFirst? {
        FetchAnsweredStocked(s, o, status, r, k);
      } else {
        AnsweredStocked(c, s, o, status, r, k);
      }
    case Parsed(o, body) => ParsedStocked(c, s, o, body);
    case Resumed(o, k, resolves) =>
      if s.ops[o].phase.AwaitRefresh? {
        FetchResumedStocked(s, o, k);
      } else {
        SignInResumedStocked(s, o, k, s.ops[s.ops[o].phase.logout].phase.well, resolves);
      }
    case Drained(o) => DrainedStocked(c, s, o);
    case Cleared(o, well) => ClearedStocked(s, o, well);
    case Released(o) => ReleasedStocked(s, o);
    case KeyLoaded(i, _) => KeyLoadedStocked(s, i);
    case KeyGenerated(i, candidate) => KeyGeneratedStocked(s, i, candidate);
    case KeyCreated(i) => KeyCreatedStocked(c, s, i);
    case KeyFails(i, written) => KeyFailsStocked(c, s, i, written);
    case KeyArrived(i) => KeyArrivedStocked(s, i);
    case KeyCallOver(i) => KeyCallOverStocked(s, i);
    case PeerStore(_) =>
  }

  lemma StepKeepsSafe(c: Config, s: State, step: Step)
    requires Safe(c, s) && Enabled(c, s, step)
    ensures Safe(c, Apply(c, s, step))
  {
    hide Inv, Keys, Stocked, Apply, Enabled;
    StepKeepsInv(c, s, step);
    StepKeepsKeys(c, s, step);
    if c.sole {
      StepKeepsStocked(c, s, step);
    }
  }

  // ---- Runs ----------------------------------------------------------------------------------

  /** A run from a new client: the scheduler's choices and the states they lead through. */
  predicate IsRun(c: Config, run: seq<State>, steps: seq<Step>) {
    && |run| == |steps| + 1
    && Initial(run[0])
    && forall i :: 0 <= i < |steps| ==> Enabled(c, run[i], steps[i]) && run[i + 1] == Apply(c, run[i], steps[i])
  }

  lemma {:induction false} RunIsSafe(c: Config, run: seq<State>, steps: seq<Step>, i: nat)
    requires IsRun(c, run, steps) && i < |run|
    ensures Safe(c, run[i])
  {
    hide Apply, Enabled, Safe;
    if i == 0 {
      InitialIsSafe(c, run[0]);
    } else {
      RunIsSafe(c, run, steps, i - 1);
      StepKeepsSafe(c, run[i - 1], steps[i - 1]);
    }
  }

  lemma InitialIsSafe(c: Config, s: State)
    requires Initial(s)
    ensures Safe(c, s)
  {
  }

  // ---- Nothing outlives a change of identity ---------------------------------------------------

  /** The operation that a step resumes. */
  function Actor(step: Step): Option<Id> {
    match step
    case GotKey(o) => Some(o)
    case Proved(o) => Some(o)
    case Fails(o) => Some(o)
    case Answered(o, _, _, _) => Some(o)
    case Parsed(o, _) => Some(o)
    case Resumed(o, _, _) => Some(o)
    case Drained(o) => Some(o)
    case Cleared(o, _) => Some(o)
    case Released(o) => Some(o)
    case _ => None
  }

  /** Calls and notices that replace or end the identity. */
  predicate Boundary(step: Step) {
    step.CallSetToken? || step.CallDispose? || step.ReceiveNotice? || step.CallSignOut?
  }

  /** The token is written by such a call, or by a refresh or sign-in whose captured generation is current. */
  lemma TokenWriters(c: Config, s: State, step: Step)
    requires Safe(c, s) && Enabled(c, s, step) && Apply(c, s, step).fields.token != s.fields.token
    ensures
      || Boundary(step)
      || (&& (step.Answered? || step.Parsed?)
          && var op := s.ops[Actor(step).value];
             (op.kind.Refreshing? || op.kind.SigningIn?) && op.generation == s.fields.generation)
  {
    hide Keys, Stocked, Core;
    if Actor(step).Some? {
      CoreOp(s.fields, s.ops, Actor(step).value);
    }
  }

  predicate Outdated(s: State, o: Id) {
    o in s.ops && s.ops[o].generation < s.fields.generation
  }

  /** What the step of an outdated operation may not do. */
  predicate Harmless(s: State, t: State) {
    && t.fields.token == s.fields.token
    && t.fields.invalidated == s.fields.invalidated
    && t.fields.generation == s.fields.generation
    && t.fields.refreshInFlight == s.fields.refreshInFlight
    && (t.log == s.log || t.log == s.log + [SignedOut])
  }

  lemma OutdatedIsHarmless(c: Config, s: State, step: Step, o: Id)
    requires Enabled(c, s, step) && Outdated(s, o) && Actor(step) == Some(o)
    ensures Harmless(s, Apply(c, s, step))
    ensures o in Apply(c, s, step).ops && Apply(c, s, step).ops[o].generation == s.ops[o].generation
  {
  }

  lemma OthersUntouched(c: Config, s: State, step: Step, o: Id)
    requires Enabled(c, s, step) && o in s.ops && Actor(step) != Some(o)
    ensures o in Apply(c, s, step).ops && Apply(c, s, step).ops[o] == s.ops[o]
  {
  }

  lemma CallsOnlyAdvance(c: Config, s: State, step: Step)
    requires Enabled(c, s, step) && Actor(step).None?
    ensures s.fields.generation <= Apply(c, s, step).fields.generation
  {
  }

  lemma ResumptionsOnlyAdvance(c: Config, s: State, step: Step)
    requires Enabled(c, s, step) && Actor(step).Some?
    ensures s.fields.generation <= Apply(c, s, step).fields.generation
  {
  }

  /** An outdated operation stays outdated, whatever runs. */
  lemma StaysOutdated(c: Config, s: State, step: Step, o: Id)
    requires Enabled(c, s, step) && Outdated(s, o)
    ensures Outdated(Apply(c, s, step), o)
  {
    hide Apply, Enabled;
    if Actor(step) == Some(o) {
      OutdatedIsHarmless(c, s, step, o);
    } else {
      OthersUntouched(c, s, step, o);
      if Actor(step).Some? {
        ResumptionsOnlyAdvance(c, s, step);
      } else {
        CallsOnlyAdvance(c, s, step);
      }
    }
  }

  lemma {:induction false} OutdatedFrom(c: Config, run: seq<State>, steps: seq<Step>, i: nat, j: nat, o: Id)
    requires IsRun(c, run, steps) && i <= j < |run| && Outdated(run[i], o)
    ensures Outdated(run[j], o)
    decreases j
  {
    hide Apply, Enabled, Outdated;
    if i < j {
      OutdatedFrom(c, run, steps, i, j - 1, o);
      StaysOutdated(c, run[j - 1], steps[j - 1], o);
    }
  }

  /**
   * Once the generation has advanced, nothing that had begun before installs or clears a token, frees or
   * takes the refresh slot, sends a request or tells a peer, however late it resumes.
   */
  lemma NothingOutlivesItsGeneration(c: Config, run: seq<State>, steps: seq<Step>, i: nat, j: nat, o: Id)
    requires IsRun(c, run, steps) && i < j < |steps|
    requires o in run[i].ops && Actor(steps[i]) != Some(o)
    requires run[i].fields.generation < run[i + 1].fields.generation
    requires Actor(steps[j]) == Some(o)
    ensures Harmless(run[j], run[j + 1])
  {
    hide Apply, Enabled, Keys, Stocked, Core, Harmless;
    RunIsSafe(c, run, steps, i);
    CoreOp(run[i].fields, run[i].ops, o);
    OthersUntouched(c, run[i], steps[i], o);
    OutdatedFrom(c, run, steps, i + 1, j, o);
    OutdatedIsHarmless(c, run[j], steps[j], o);
  }

  /** Every accepted sign-out, disposal, peer notice or explicit token advances the generation. */
  lemma BoundariesAdvance(c: Config, s: State, step: Step)
    requires Enabled(c, s, step) && Boundary(step)
    ensures Apply(c, s, step) == s || Apply(c, s, step).fields.generation == s.fields.generation + 1
  {
  }

  // ---- One refresh at a time -------------------------------------------------------------------

  /** The refresh slot holds exactly the one unfinished refresh of the current generation. */
  lemma RefreshSlotIsExact(c: Config, run: seq<State>, steps: seq<Step>, i: nat, o: Id)
    requires IsRun(c, run, steps) && i < |run|
    ensures run[i].fields.refreshInFlight == Some(o)
            <==> UnfinishedRefresh(run[i].ops, o) && run[i].ops[o].generation == run[i].fields.generation
  {
    hide Apply, Enabled, Keys, Stocked, Core;
    RunIsSafe(c, run, steps, i);
    CoreFields(run[i].fields, run[i].ops);
    if o in run[i].ops {
      CoreOp(run[i].fields, run[i].ops, o);
    }
  }

  /** Two refreshes of one generation, even of a past one, are never unfinished together. */
  lemma RefreshesNeverOverlap(c: Config, run: seq<State>, steps: seq<Step>, i: nat, a: Id, b: Id)
    requires IsRun(c, run, steps) && i < |run|
    requires UnfinishedRefresh(run[i].ops, a) && UnfinishedRefresh(run[i].ops, b)
    requires run[i].ops[a].generation == run[i].ops[b].generation
    ensures a == b
  {
    hide Apply, Enabled, Keys, Stocked;
    RunIsSafe(c, run, steps, i);
  }

  /** A refresh request leaves only while that refresh holds the slot. */
  lemma RefreshRequestsHoldTheSlot(c: Config, run: seq<State>, steps: seq<Step>, i: nat, o: Id, key: Key)
    requires IsRun(c, run, steps) && i < |steps|
    requires run[i + 1].log == run[i].log + [Request(o, key)] && o in run[i].ops && run[i].ops[o].kind.Refreshing?
    ensures run[i].fields.refreshInFlight == Some(o)
  {
    hide Keys, Stocked, Core;
    hide Safe;
    RequestsComeFromProofs(c, run[i], steps[i], o, key);
    RefreshSlotIsExact(c, run, steps, i, o);
  }

  /** Whoever sends a request held its proof, under the generation that is current. */
  lemma RequestsComeFromProofs(c: Config, s: State, step: Step, o: Id, key: Key)
    requires Enabled(c, s, step) && Apply(c, s, step).log == s.log + [Request(o, key)]
    ensures step == Proved(o) && s.ops[o].phase == Proving(key)
    ensures s.ops[o].generation == s.fields.generation
  {
    assert (s.log + [Request(o, key)])[|s.log|] == Request(o, key);
    LogGrowsByOne(c, s, step);
  }

  /** A step adds at most one event to the log, and says what it was. */
  lemma LogGrowsByOne(c: Config, s: State, step: Step)
    requires Enabled(c, s, step)
    ensures
      || Apply(c, s, step).log == s.log
      || Apply(c, s, step).log == s.log + [Published]
      || (step.Cleared? && Apply(c, s, step).log == s.log + [SignedOut])
      || (&& step.Proved? && s.ops[step.o].generation == s.fields.generation
          && Apply(c, s, step).log == s.log + [Request(step.o, s.ops[step.o].phase.key)])
  {
  }

  // ---- One key between sign-outs ---------------------------------------------------------------

  /** No request of the log was signed while another key had signed since the last completed sign-out. */
  lemma {:induction false} SignersAgree(c: Config, run: seq<State>, steps: seq<Step>, i: nat, a: nat, b: nat)
    requires c.sole && IsRun(c, run, steps) && i < |run| && a < b < |run[i].log|
    requires run[i].log[a].Request? && run[i].log[b].Request?
    requires forall n :: a < n < b ==> run[i].log[n] != SignedOut
    ensures run[i].log[a].key == run[i].log[b].key
    decreases i
  {
    hide Apply, Enabled, Safe;
    if i > 0 {
      var s, t := run[i - 1], run[i];
      LogGrowsByOne(c, s, steps[i - 1]);
      if b < |s.log| {
        assert forall n :: 0 <= n < |s.log| ==> s.log[n] == t.log[n];
        SignersAgree(c, run, steps, i - 1, a, b);
      } else {
        RunIsSafe(c, run, steps, i);
        SignersHold(t.log, a);
        SignersHold(t.log, b);
        StockedSigners(c, t);
      }
    }
  }

  lemma StockedSigners(c: Config, s: State)
    requires c.sole && Safe(c, s)
    ensures forall key :: key in Signers(s.log) ==> s.store == Some(key)
  {
    hide Inv, Keys;
  }

  /** A request after which no sign-out has completed is among the signers. */
  lemma {:induction false} SignersHold(log: seq<Event>, a: nat)
    requires a < |log| && log[a].Request? && forall n :: a < n < |log| ==> log[n] != SignedOut
    ensures log[a].key in Signers(log)
  {
    if a < |log| - 1 {
      SignersHold(log[..|log| - 1], a);
    }
  }

  ghost predicate NothingStarting(s: State) {
    forall k: Id :: !Initialising(s.inits, k)
  }

  /** A sign-out that completes leaves no key cached, none stored and none on its way. */
  lemma SignOutLeavesNoKey(c: Config, run: seq<State>, steps: seq<Step>, i: nat, o: Id)
    requires IsRun(c, run, steps) && i < |steps| && steps[i] == Cleared(o, true)
    ensures run[i + 1].store.None? && run[i + 1].fields.key.None? && run[i + 1].fields.keyInFlight.None?
    ensures NothingStarting(run[i + 1])
  {
    hide Stocked, Core;
    RunIsSafe(c, run, steps, i);
    var s := run[i];
    CoreOp(s.fields, s.ops, o);
    assert Outlasted(s, s.ops[o]);
  }

  /** The key initialisations of `before` are all over. */
  predicate AllOver(before: set<Id>, s: State) {
    forall k :: k in before ==> k in s.inits && s.inits[k].phase.Ready?
  }

  lemma OverStaysOver(c: Config, s: State, step: Step, before: set<Id>)
    requires Enabled(c, s, step) && AllOver(before, s)
    ensures AllOver(before, Apply(c, s, step))
  {
  }

  /** Without peers, only a running key initialisation fills an empty store. */
  lemma OnlyInitsFill(c: Config, s: State, step: Step)
    requires c.sole && Enabled(c, s, step) && s.store.None? && Apply(c, s, step).store.Some?
    ensures (step.KeyCreated? || step.KeyFails?) && step.i in s.inits && !s.inits[step.i].phase.Ready?
  {
  }

  lemma InitsAreKept(c: Config, s: State, step: Step)
    requires Enabled(c, s, step)
    ensures s.inits.Keys <= Apply(c, s, step).inits.Keys
  {
  }

  /** After a completed sign-out the store stays empty until a key initialisation begun later fills it. */
  lemma {:induction false} StoreStaysEmpty(
      c: Config, run: seq<State>, steps: seq<Step>, i: nat, o: Id, j: nat)
    requires c.sole && IsRun(c, run, steps) && i < |steps| && steps[i] == Cleared(o, true)
    requires i < j < |run|
    ensures AllOver(run[i].inits.Keys, run[j])
    ensures run[j].store.Some? ==> exists k :: k in run[j].inits && k !in run[i].inits
    decreases j
  {
    hide Apply, Enabled, AllOver;
    if j == i + 1 {
      SignOutLeavesNoKey(c, run, steps, i, o);
      InitsAreKept(c, run[i], steps[i]);
      forall k | k in run[i].inits.Keys ensures k in run[j].inits && run[j].inits[k].phase.Ready? {
        assert !Initialising(run[j].inits, k);
      }
      AllOverMeans(run[i].inits.Keys, run[j]);
    } else {
      var s, step := run[j - 1], steps[j - 1];
      StoreStaysEmpty(c, run, steps, i, o, j - 1);
      OverStaysOver(c, s, step, run[i].inits.Keys);
      InitsAreKept(c, s, step);
      if run[j].store.Some? && s.store.None? {
        OnlyInitsFill(c, s, step);
        NotOver(run[i].inits.Keys, s, step.i);
        assert step.i in run[j].inits && step.i !in run[i].inits;
      }
    }
  }

  lemma AllOverMeans(before: set<Id>, s: State)
    requires forall k :: k in before ==> k in s.inits && s.inits[k].phase.Ready?
    ensures AllOver(before, s)
  {
  }

  lemma NotOver(before: set<Id>, s: State, k: Id)
    requires AllOver(before, s) && k in s.inits && !s.inits[k].phase.Ready?
    ensures k !in before
  {
  }

  // ---- While a sign-out is in flight -----------------------------------------------------------

  /**
   * From a sign-out's call until its slot is free there is no token, only its own request can leave, and
   * a sign-in called meanwhile changes nothing but to wait.
   */
  lemma SignOutSilences(c: Config, run: seq<State>, steps: seq<Step>, i: nat, out: Id)
    requires IsRun(c, run, steps) && i < |run| && run[i].fields.logoutInFlight == Some(out)
    ensures run[i].fields.token.None?
    ensures i < |steps| ==> forall o: Id, key: Key :: run[i + 1].log == run[i].log + [Request(o, key)] ==> o == out
    ensures i < |steps| && (steps[i].CallSignIn? || steps[i].CallFetch? || steps[i].CallRefresh?
                            || steps[i].CallSetToken? || steps[i].CallGetKey? || steps[i].CallSignOut?) ==>
              run[i + 1].fields == run[i].fields && run[i + 1].inits == run[i].inits
  {
    hide Keys, Stocked, Core;
    RunIsSafe(c, run, steps, i);
    var s := run[i];
    CoreFields(s.fields, s.ops);
    if i < |steps| {
      forall o: Id, key: Key | run[i + 1].log == s.log + [Request(o, key)] ensures o == out {
        RequestsComeFromProofs(c, s, steps[i], o, key);
        CoreOp(s.fields, s.ops, o);
      }
      assert s.fields.logoutInFlight.Some?;
    }
  }

  // ---- Invalidated and disposed clients --------------------------------------------------------

  /** Without session sync an identity is invalidated by disposal alone. */
  lemma {:induction false} AloneIsInvalidatedByDisposal(c: Config, run: seq<State>, steps: seq<Step>, i: nat)
    requires IsRun(c, run, steps) && i < |run| && !c.sync && run[i].fields.invalidated
    ensures run[i].fields.disposed
  {
    hide Apply, Enabled;
    if i > 0 {
      if run[i - 1].fields.invalidated {
        AloneIsInvalidatedByDisposal(c, run, steps, i - 1);
      }
      StillInvalidatedByDisposal(c, run[i - 1], steps[i - 1]);
    }
  }

  lemma StillInvalidatedByDisposal(c: Config, s: State, step: Step)
    requires Enabled(c, s, step) && !c.sync && (s.fields.invalidated ==> s.fields.disposed)
    ensures Apply(c, s, step).fields.invalidated ==> Apply(c, s, step).fields.disposed
  {
  }

  lemma InvalidationLifters(c: Config, s: State, step: Step)
    requires Enabled(c, s, step) && s.fields.invalidated && !Apply(c, s, step).fields.invalidated
    requires step.Parsed? ==> PhaseFits(s.ops[step.o])
    ensures
      || (step.CallSetToken? && MaySetToken(s.fields) && (step.token.Some? || !c.sync))
      || (step.Parsed? && s.ops[step.o].kind.SigningIn? && Apply(c, s, step).fields.token.Some?)
  {
  }

  /** An invalidated identity has no token; only an established sign-in or an explicit token lifts it. */
  lemma InvalidationHolds(c: Config, run: seq<State>, steps: seq<Step>, i: nat)
    requires IsRun(c, run, steps) && i < |run| && run[i].fields.invalidated
    ensures run[i].fields.token.None? && run[i].fields.refreshInFlight.None?
    ensures i < |steps| && !run[i + 1].fields.invalidated ==>
              || (steps[i].CallSetToken? && steps[i].token.Some?)
              || (steps[i].Parsed? && run[i].ops[steps[i].o].kind.SigningIn? && run[i + 1].fields.token.Some?)
  {
    hide Keys, Stocked, Core, Apply;
    RunIsSafe(c, run, steps, i);
    CoreFields(run[i].fields, run[i].ops);
    if i < |steps| && !run[i + 1].fields.invalidated {
      if !c.sync {
        AloneIsInvalidatedByDisposal(c, run, steps, i);
      }
      if steps[i].Parsed? {
        CoreOp(run[i].fields, run[i].ops, steps[i].o);
      }
      InvalidationLifters(c, run[i], steps[i]);
    }
  }

  /** Disposal is for good: no token, no key, no request and no notice ever again. */
  lemma {:induction false} DisposalIsFinal(c: Config, run: seq<State>, steps: seq<Step>, i: nat, j: nat)
    requires IsRun(c, run, steps) && i <= j < |run| && run[i].fields.disposed
    ensures run[j].fields.disposed && run[j].fields.token.None? && run[j].fields.key.None?
    ensures j < |steps| ==> run[j + 1].log == run[j].log || run[j + 1].log == run[j].log + [SignedOut]
    decreases j
  {
    hide Apply, Enabled, Keys, Stocked, Core;
    if i < j {
      DisposalIsFinal(c, run, steps, i, j - 1);
      DisposedStays(c, run[j - 1], steps[j - 1]);
    }
    RunIsSafe(c, run, steps, j);
    CoreFields(run[j].fields, run[j].ops);
    if j < |steps| {
      DisposedIsSilent(c, run[j], steps[j]);
    }
  }

  lemma DisposedStays(c: Config, s: State, step: Step)
    requires Enabled(c, s, step) && s.fields.disposed
    ensures Apply(c, s, step).fields.disposed
  {
  }

  lemma DisposedIsSilent(c: Config, s: State, step: Step)
    requires Safe(c, s) && Enabled(c, s, step) && s.fields.disposed
    ensures Apply(c, s, step).log == s.log || Apply(c, s, step).log == s.log + [SignedOut]
  {
    hide Keys, Stocked, Core;
    if Actor(step).Some? {
      CoreOp(s.fields, s.ops, Actor(step).value);
      OutdatedIsHarmless(c, s, step, Actor(step).value);
    }
  }

  /** Only an own change of identity is told to peers; hearing of one from a peer never is. */
  lemma NoticesAreOwn(c: Config, s: State, step: Step)
    requires Safe(c, s) && Enabled(c, s, step) && Apply(c, s, step).log == s.log + [Published]
    ensures c.sync
    ensures
      || (step.CallSetToken? && s.fields.token != step.token)
      || (step.Parsed? && s.ops[step.o].kind.SigningIn? && Apply(c, s, step).fields.token.Some?)
      || (step.Answered? && s.ops[step.o].kind.SigningOut? && s.fields.logoutInFlight == Some(step.o)
          && Succeeded(step.status))
  {
    hide Keys, Stocked, Core;
    assert (s.log + [Published])[|s.log|] == Published;
    if Actor(step).Some? {
      CoreOp(s.fields, s.ops, Actor(step).value);
    }
  }
}
