/** Which key signs: what holds of the client's key store, and of the key initialisations a sign-out must outlast. */
module ClientKeys {
  import opened Wrappers
  import opened Client
  import opened ClientRuns
  import opened ClientInvariant

  predicate FlightsKnown(s: State) {
    forall o :: o in s.ops ==> match s.ops[o].phase
                               case AwaitKey(Flight(i)) => i in s.inits
                               case _ => true
  }

  /** A key initialisation that runs during a sign-out is one the sign-out will outlast. */
  ghost predicate Outlasted(s: State, op: Op)
    requires op.kind.SigningOut?
  {
    && (forall i: Id :: Initialising(s.inits, i) ==>
          !op.phase.Clearing? && (op.kind.pendingKey == Some(i) || op.phase == AwaitKey(Flight(i))))
    && (op.phase.Clearing? ==> s.fields.key.None? && s.fields.keyInFlight.None?)
  }

  ghost predicate SignOutOutlasts(s: State) {
    s.fields.logoutInFlight.Some? && s.fields.logoutInFlight.value in s.ops ==>
      var op := s.ops[s.fields.logoutInFlight.value];
      op.kind.SigningOut? && op.Live() ==> Outlasted(s, op)
  }

  ghost predicate Keys(s: State) {
    InitsHold(s) && FlightsKnown(s) && SignOutOutlasts(s)
  }

  lemma SetTokenKeys(c: Config, s: State, token: Option<Token>)
    requires Inv(s) && Keys(s)
    ensures Keys(ApplySetToken(c, s, token))
  {
    hide Core;
    CoreFields(s.fields, s.ops);
  }

  lemma DisposeKeys(s: State)
    requires Inv(s) && Keys(s)
    ensures Keys(s.(fields := Dispose(s.fields)))
  {
    hide Core;
    CoreFields(s.fields, s.ops);
  }

  lemma NoticeKeys(s: State)
    requires Inv(s) && Keys(s)
    ensures Keys(s.(fields := PeerNotice(s.fields)))
  {
    hide Core;
    CoreFields(s.fields, s.ops);
  }

  lemma GetKeyKeys(s: State, k: Id)
    requires Inv(s) && Keys(s) && Fresh(s, k)
    ensures Keys(ApplyGetKey(s, k))
  {
    hide Core;
    CoreFields(s.fields, s.ops);
  }

  lemma FetchKeys(s: State, o: Id, k: Id, resolves: bool)
    requires Inv(s) && Keys(s) && Fresh(s, o) && Fresh(s, k) && o != k
    ensures Keys(ApplyFetch(s, o, k, resolves))
  {
    hide Core;
    CoreFields(s.fields, s.ops);
  }

  lemma RefreshKeys(s: State, o: Id, k: Id)
    requires Inv(s) && Keys(s) && Fresh(s, o) && Fresh(s, k) && o != k
    ensures Keys(ApplyRefresh(s, o, k))
  {
    hide Core;
    CoreFields(s.fields, s.ops);
  }

  lemma SignInKeys(s: State, o: Id, k: Id, resolves: bool)
    requires Inv(s) && Keys(s) && Fresh(s, o) && Fresh(s, k) && o != k
    ensures Keys(ApplySignIn(s, o, k, resolves))
  {
    hide Core;
    CoreFields(s.fields, s.ops);
  }

  lemma SignOutKeys(c: Config, s: State, o: Id, k: Id, resolves: bool)
    requires Inv(s) && Keys(s) && Fresh(s, o) && Fresh(s, k) && o != k
    ensures Keys(ApplySignOut(c, s, o, k, resolves))
  {
    hide Core;
    CoreFields(s.fields, s.ops);
  }

  lemma ThrownKeys(s: State, o: Id)
    requires Inv(s) && Keys(s) && Suspended(s, o)
    requires (s.ops[o].phase.AwaitKey? ==> KeyIsReady(s, s.ops[o].phase.wait))
    ensures Keys(Thrown(s, o))
  {
    hide Core;
    CoreOp(s.fields, s.ops, o);
    CoreFields(s.fields, s.ops);
  }

  lemma GotKeyKeys(s: State, o: Id)
    requires Inv(s) && Keys(s) && Suspended(s, o) && s.ops[o].phase.AwaitKey? && KeyIsReady(s, s.ops[o].phase.wait)
    ensures Keys(ApplyGotKey(s, o))
  {
    hide Core;
    CoreOp(s.fields, s.ops, o);
    CoreFields(s.fields, s.ops);
  }

  lemma ProvedKeys(s: State, o: Id)
    requires Inv(s) && Keys(s) && Suspended(s, o) && s.ops[o].phase.Proving?
    ensures Keys(ApplyProved(s, o))
  {
    hide Core;
    CoreOp(s.fields, s.ops, o);
    CoreFields(s.fields, s.ops);
  }

  lemma AnsweredKeys(c: Config, s: State, o: Id, status: nat, r: Id, k: Id)
    requires Inv(s) && Keys(s) && Suspended(s, o) && s.ops[o].phase.Requesting? && !s.ops[o].kind.FetchFirst?
    ensures Keys(ApplyAnswered(c, s, o, status, r, k))
  {
    hide Core;
    CoreOp(s.fields, s.ops, o);
    CoreFields(s.fields, s.ops);
  }

  lemma ParsedKeys(c: Config, s: State, o: Id, body: Option<Token>)
    requires Inv(s) && Keys(s) && Suspended(s, o) && s.ops[o].phase.Parsing?
    ensures Keys(ApplyParsed(c, s, o, body))
  {
    hide Core;
    CoreOp(s.fields, s.ops, o);
    CoreFields(s.fields, s.ops);
  }

  lemma FetchResumedKeys(s: State, o: Id, k: Id)
    requires Inv(s) && Keys(s) && Suspended(s, o) && Fresh(s, k) && s.ops[o].phase.AwaitRefresh?
    requires Awaited(s, s.ops[o].phase)
    ensures Keys(ApplyFetchResumed(s, o, k))
  {
    hide Core;
    CoreOp(s.fields, s.ops, o);
    CoreFields(s.fields, s.ops);
  }

  lemma SignInResumedKeys(s: State, o: Id, k: Id, well: bool, resolves: bool)
    requires Inv(s) && Keys(s) && Suspended(s, o) && Fresh(s, k) && s.ops[o].phase.AwaitLogout?
    requires Awaited(s, s.ops[o].phase)
    ensures Keys(ApplySignInResumed(s, o, k, well, resolves))
  {
    hide Core;
    CoreOp(s.fields, s.ops, o);
    CoreFields(s.fields, s.ops);
  }

  lemma DrainedKeys(c: Config, s: State, o: Id)
    requires Inv(s) && Keys(s) && Suspended(s, o) && s.ops[o].phase.AwaitPending?
    requires s.ops[o].kind.SigningOut? && s.ops[o].kind.pendingKey.Some? ==>
               !Initialising(s.inits, s.ops[o].kind.pendingKey.value)
    ensures Keys(ApplyDrained(c, s, o))
  {
    hide Core;
    CoreOp(s.fields, s.ops, o);
    CoreFields(s.fields, s.ops);
  }

  lemma ClearedKeys(s: State, o: Id, well: bool)
    requires Inv(s) && Keys(s) && Suspended(s, o) && s.ops[o].phase.Clearing?
    ensures Keys(ApplyCleared(s, o, well))
  {
    hide Core;
    CoreOp(s.fields, s.ops, o);
    CoreFields(s.fields, s.ops);
  }

  lemma ReleasedKeys(s: State, o: Id)
    requires Inv(s) && Keys(s) && o in s.ops && s.ops[o].kind.SigningOut? && s.ops[o].phase.Settled?
    ensures Keys(s.(fields := SignOutReleased(s.fields, o)))
  {
    hide Core;
    CoreOp(s.fields, s.ops, o);
    CoreFields(s.fields, s.ops);
  }

  lemma KeyArrivedKeys(s: State, i: Id)
    requires Inv(s) && Keys(s) && i in s.inits && s.inits[i].phase.Stored?
    ensures Keys(ApplyKeyArrived(s, i))
  {
    hide Core;
    CoreFields(s.fields, s.ops);
    var t := ApplyKeyArrived(s, i);
    assert forall j :: Initialising(t.inits, j) ==> Initialising(s.inits, j) && j != i;
  }


  lemma FetchAnsweredKeys(s: State, o: Id, status: nat, r: Id, k: Id)
    requires Inv(s) && Keys(s) && Suspended(s, o) && s.ops[o].phase.Requesting? && s.ops[o].kind.FetchFirst?
    requires Fresh(s, r) && Fresh(s, k) && r != k
    ensures Keys(ApplyFetchAnswered(s, o, status, r, k))
  {
    hide Core;
    CoreFields(s.fields, s.ops);
    CoreOp(s.fields, s.ops, o);
  }

  /** A running key initialisation moves on and still runs. */
  lemma InitMovesKeys(s: State, i: Id, phase: InitPhase)
    requires Keys(s) && Initialising(s.inits, i) && !phase.Ready?
    ensures Keys(SetInit(s, i, phase))
  {
    assert forall j :: Initialising(SetInit(s, i, phase).inits, j) ==> Initialising(s.inits, j);
  }

  lemma KeyCallOverKeys(s: State, i: Id)
    requires Keys(s) && i in s.inits && s.inits[i].phase.Ready?
    ensures Keys(s.(fields := KeyReleased(s.fields, i)))
  {
  }

  // ---- The store, when no other client uses it ---------------------------------------------

  /** The keys of the requests sent since the last completed sign-out. */
  function Signers(log: seq<Event>): set<Key> {
    if |log| == 0 then {}
    else
      match log[|log| - 1]
      case Request(_, key) => Signers(log[..|log| - 1]) + {key}
      case SignedOut => {}
      case Published => Signers(log[..|log| - 1])
  }

  predicate InitStocked(f: Fields, store: Option<Key>, i: Id, init: KeyInit) {
    match init.phase
    case Loading => true
    case Generating => store.None?
    case Creating(_) => store.None?
    case Stored(found) => found.Some? ==> store == found
    case Ready(result) => f.keyInFlight == Some(i) && result.Some? ==> store == result
  }

  /** The key a pending, current operation holds or will be given is the stored one. */
  predicate OpStocked(s: State, op: Op) {
    op.Live() && op.generation == s.fields.generation ==>
      match op.phase
      case AwaitKey(Cached(key)) => s.store == Some(key)
      case AwaitKey(Flight(i)) =>
        i in s.inits && (s.inits[i].phase.Ready? && s.inits[i].phase.result.Some? ==>
                           s.store == s.inits[i].phase.result)
      case Proving(key) => s.store == Some(key)
      case _ => true
  }

  predicate LogStocked(s: State) {
    forall key :: key in Signers(s.log) ==> s.store == Some(key)
  }

  lemma CoreAges(f: Fields, ops: Ops)
    requires Core(f, ops)
    ensures forall o :: o in ops ==> ops[o].generation <= f.generation
  {
  }

  /** Nothing pending and current holds a key while a sign-out clears the store. */
  lemma CoreSpared(f: Fields, ops: Ops, out: Id)
    requires Core(f, ops) && out in ops && ops[out].phase.Clearing?
    ensures f.logoutInFlight == Some(out)
    ensures forall o :: o in ops && o != out && ops[o].Live() && ops[o].generation == f.generation ==>
              ops[o].phase.AwaitLogout?
  {
    assert OpFits(f, out, ops[out]);
    assert forall o :: o in ops ==> OpFits(f, o, ops[o]);
  }

  /** Any key in use anywhere is the one in the store. */
  predicate Stocked(s: State) {
    && (s.fields.key.Some? ==> s.store == s.fields.key)
    && (forall i :: i in s.inits ==> InitStocked(s.fields, s.store, i, s.inits[i]))
    && (forall o :: o in s.ops ==> OpStocked(s, s.ops[o]))
    && LogStocked(s)
  }

  /** An operation moves, and nothing that bears on any key changes but where it is. */
  lemma MoveStocked(s: State, t: State, o: Id)
    requires Stocked(s) && o in t.ops && t.ops == s.ops[o := t.ops[o]]
    requires t.inits == s.inits && t.store == s.store && t.fields.generation == s.fields.generation
    requires t.fields.key == s.fields.key && t.fields.keyInFlight == s.fields.keyInFlight
    requires OpStocked(t, t.ops[o]) && LogStocked(t)
    ensures Stocked(t)
  {
    hide LogStocked;
    forall x | x in t.ops && x != o ensures OpStocked(t, t.ops[x]) {
      assert OpStocked(s, s.ops[x]);
    }
    forall i | i in t.inits ensures InitStocked(t.fields, t.store, i, t.inits[i]) {
      assert InitStocked(s.fields, s.store, i, s.inits[i]);
    }
  }

  lemma SetTokenStocked(c: Config, s: State, token: Option<Token>)
    requires Inv(s) && Keys(s) && Stocked(s)
    ensures Stocked(ApplySetToken(c, s, token))
  {
    hide Core;
    CoreFields(s.fields, s.ops);
    CoreAges(s.fields, s.ops);
    assert (s.log + [Published])[..|s.log|] == s.log;
  }

  lemma DisposeStocked(s: State)
    requires Inv(s) && Keys(s) && Stocked(s)
    ensures Stocked(s.(fields := Dispose(s.fields)))
  {
    hide Core;
    CoreFields(s.fields, s.ops);
    CoreAges(s.fields, s.ops);
  }

  lemma NoticeStocked(s: State)
    requires Inv(s) && Keys(s) && Stocked(s)
    ensures Stocked(s.(fields := PeerNotice(s.fields)))
  {
    hide Core;
    CoreFields(s.fields, s.ops);
    CoreAges(s.fields, s.ops);
  }

  lemma GetKeyStocked(s: State, k: Id)
    requires Inv(s) && Keys(s) && Stocked(s) && Fresh(s, k)
    ensures Stocked(ApplyGetKey(s, k))
  {
    hide Core;
    CoreFields(s.fields, s.ops);
  }

  lemma FetchStocked(s: State, o: Id, k: Id, resolves: bool)
    requires Inv(s) && Keys(s) && Stocked(s) && Fresh(s, o) && Fresh(s, k) && o != k
    ensures Stocked(ApplyFetch(s, o, k, resolves))
  {
    hide Core;
    CoreFields(s.fields, s.ops);
  }

  lemma RefreshStocked(s: State, o: Id, k: Id)
    requires Inv(s) && Keys(s) && Stocked(s) && Fresh(s, o) && Fresh(s, k) && o != k
    ensures Stocked(ApplyRefresh(s, o, k))
  {
    hide Core;
    CoreFields(s.fields, s.ops);
  }

  lemma SignInStocked(s: State, o: Id, k: Id, resolves: bool)
    requires Inv(s) && Keys(s) && Stocked(s) && Fresh(s, o) && Fresh(s, k) && o != k
    ensures Stocked(ApplySignIn(s, o, k, resolves))
  {
    hide Core;
    CoreFields(s.fields, s.ops);
    CoreAges(s.fields, s.ops);
  }

  lemma SignOutStocked(c: Config, s: State, o: Id, k: Id, resolves: bool)
    requires Inv(s) && Keys(s) && Stocked(s) && Fresh(s, o) && Fresh(s, k) && o != k
    ensures Stocked(ApplySignOut(c, s, o, k, resolves))
  {
    hide Core;
    CoreFields(s.fields, s.ops);
    CoreAges(s.fields, s.ops);
  }

  lemma ThrownStocked(s: State, o: Id)
    requires Inv(s) && Keys(s) && Stocked(s) && Suspended(s, o)
    requires (s.ops[o].phase.AwaitKey? ==> KeyIsReady(s, s.ops[o].phase.wait))
    ensures Stocked(Thrown(s, o))
  {
    hide Core, InitsHold, FlightsKnown, SignOutOutlasts;
    CoreOp(s.fields, s.ops, o);
    assert OpStocked(s, s.ops[o]);
    MoveStocked(s, Thrown(s, o), o);
  }

  lemma GotKeyStocked(s: State, o: Id)
    requires Inv(s) && Keys(s) && Stocked(s) && Suspended(s, o) && s.ops[o].phase.AwaitKey?
    requires KeyIsReady(s, s.ops[o].phase.wait)
    ensures Stocked(ApplyGotKey(s, o))
  {
    hide Core, InitsHold, FlightsKnown, SignOutOutlasts;
    CoreOp(s.fields, s.ops, o);
    assert OpStocked(s, s.ops[o]);
    MoveStocked(s, ApplyGotKey(s, o), o);
  }

  lemma ProvedStocked(s: State, o: Id)
    requires Inv(s) && Keys(s) && Stocked(s) && Suspended(s, o) && s.ops[o].phase.Proving?
    ensures Stocked(ApplyProved(s, o))
  {
    hide Core, InitsHold, FlightsKnown, SignOutOutlasts;
    CoreOp(s.fields, s.ops, o);
    assert OpStocked(s, s.ops[o]);
    assert (s.log + [Request(o, s.ops[o].phase.key)])[..|s.log|] == s.log;
    MoveStocked(s, ApplyProved(s, o), o);
  }

  lemma AnsweredStocked(c: Config, s: State, o: Id, status: nat, r: Id, k: Id)
    requires Inv(s) && Keys(s) && Stocked(s) && Suspended(s, o) && s.ops[o].phase.Requesting?
    requires !s.ops[o].kind.FetchFirst?
    ensures Stocked(ApplyAnswered(c, s, o, status, r, k))
  {
    hide Core, InitsHold, FlightsKnown, SignOutOutlasts;
    CoreOp(s.fields, s.ops, o);
    assert OpStocked(s, s.ops[o]);
    assert (s.log + [Published])[..|s.log|] == s.log;
    MoveStocked(s, ApplyAnswered(c, s, o, status, r, k), o);
  }

  lemma ParsedStocked(c: Config, s: State, o: Id, body: Option<Token>)
    requires Inv(s) && Keys(s) && Stocked(s) && Suspended(s, o) && s.ops[o].phase.Parsing?
    ensures Stocked(ApplyParsed(c, s, o, body))
  {
    hide Core, InitsHold, FlightsKnown, SignOutOutlasts;
    CoreOp(s.fields, s.ops, o);
    assert OpStocked(s, s.ops[o]);
    assert (s.log + [Published])[..|s.log|] == s.log;
    MoveStocked(s, ApplyParsed(c, s, o, body), o);
  }

  lemma FetchResumedStocked(s: State, o: Id, k: Id)
    requires Inv(s) && Keys(s) && Stocked(s) && Suspended(s, o) && Fresh(s, k) && s.ops[o].phase.AwaitRefresh?
    requires Awaited(s, s.ops[o].phase)
    ensures Stocked(ApplyFetchResumed(s, o, k))
  {
    hide Core;
    CoreOp(s.fields, s.ops, o);
    CoreFields(s.fields, s.ops);
  }

  lemma SignInResumedStocked(s: State, o: Id, k: Id, well: bool, resolves: bool)
    requires Inv(s) && Keys(s) && Stocked(s) && Suspended(s, o) && Fresh(s, k) && s.ops[o].phase.AwaitLogout?
    requires Awaited(s, s.ops[o].phase)
    ensures Stocked(ApplySignInResumed(s, o, k, well, resolves))
  {
    hide Core;
    CoreOp(s.fields, s.ops, o);
    CoreFields(s.fields, s.ops);
    CoreAges(s.fields, s.ops);
  }

  lemma DrainedStocked(c: Config, s: State, o: Id)
    requires Inv(s) && Keys(s) && Stocked(s) && Suspended(s, o) && s.ops[o].phase.AwaitPending?
    ensures Stocked(ApplyDrained(c, s, o))
  {
    hide Core;
    CoreOp(s.fields, s.ops, o);
    CoreFields(s.fields, s.ops);
  }

  lemma ClearedStocked(s: State, o: Id, well: bool)
    requires Inv(s) && Keys(s) && Stocked(s) && Suspended(s, o) && s.ops[o].phase.Clearing?
    ensures Stocked(ApplyCleared(s, o, well))
  {
    hide Core;
    CoreOp(s.fields, s.ops, o);
    CoreSpared(s.fields, s.ops, o);
    if well {
      var t := ApplyCleared(s, o, well);
      assert Outlasted(s, s.ops[o]);
      forall i | i in t.inits ensures InitStocked(t.fields, t.store, i, t.inits[i]) {
        assert !Initialising(s.inits, i);
      }
      forall x | x in t.ops ensures OpStocked(t, t.ops[x]) {
        assert x != o ==> t.ops[x] == s.ops[x];
      }
      assert t.log[..|t.log| - 1] == s.log;
    }
  }

  lemma ReleasedStocked(s: State, o: Id)
    requires Inv(s) && Keys(s) && Stocked(s) && o in s.ops && s.ops[o].kind.SigningOut? && s.ops[o].phase.Settled?
    ensures Stocked(s.(fields := SignOutReleased(s.fields, o)))
  {
    hide Core;
    CoreOp(s.fields, s.ops, o);
    CoreFields(s.fields, s.ops);
  }

  lemma KeyArrivedStocked(s: State, i: Id)
    requires Inv(s) && Keys(s) && Stocked(s) && i in s.inits && s.inits[i].phase.Stored?
    ensures Stocked(ApplyKeyArrived(s, i))
  {
    hide Core, InitsHold, FlightsKnown, SignOutOutlasts, LogStocked;
    var t := ApplyKeyArrived(s, i);
    assert InitStocked(s.fields, s.store, i, s.inits[i]);
    forall x | x in t.ops ensures OpStocked(t, t.ops[x]) {
      assert OpStocked(s, s.ops[x]);
    }
    forall j | j in t.inits ensures InitStocked(t.fields, t.store, j, t.inits[j]) {
      assert j != i ==> InitStocked(s.fields, s.store, j, s.inits[j]);
    }
    assert LogStocked(t) by {
      SameLogStocked(s, t);
    }
  }

  lemma SameLogStocked(s: State, t: State)
    requires LogStocked(s) && t.log == s.log && t.store == s.store
    ensures LogStocked(t)
  {
  }

  lemma FetchAnsweredStocked(s: State, o: Id, status: nat, r: Id, k: Id)
    requires Inv(s) && Keys(s) && Stocked(s)
    requires Suspended(s, o) && s.ops[o].phase.Requesting? && s.ops[o].kind.FetchFirst?
    requires Fresh(s, r) && Fresh(s, k) && r != k
    ensures Stocked(ApplyFetchAnswered(s, o, status, r, k))
  {
    hide Core;
    CoreFields(s.fields, s.ops);
    CoreOp(s.fields, s.ops, o);
  }

  lemma KeyLoadedStocked(s: State, i: Id)
    requires Keys(s) && Stocked(s) && i in s.inits && s.inits[i].phase.Loading?
    ensures Stocked(SetInit(s, i, if s.store.Some? then Stored(s.store) else Generating))
  {
  }

  lemma KeyGeneratedStocked(s: State, i: Id, candidate: Key)
    requires Keys(s) && Stocked(s) && i in s.inits && s.inits[i].phase.Generating?
    ensures Stocked(SetInit(s, i, Creating(candidate)))
  {
  }

  lemma KeyCreatedStocked(c: Config, s: State, i: Id)
    requires Keys(s) && Stocked(s) && i in s.inits && s.inits[i].phase.Creating?
    ensures Stocked(ApplyKeyCreated(c, s, i))
  {
    OnlyInit(s, i);
  }

  /** While one key initialisation creates a key, no other runs and the store is empty. */
  lemma OnlyInit(s: State, i: Id)
    requires Keys(s) && Stocked(s) && i in s.inits && s.inits[i].phase.Creating?
    ensures s.store.None?
    ensures forall j :: j in s.inits && j != i ==> s.inits[j].phase.Ready?
  {
    assert InitStocked(s.fields, s.store, i, s.inits[i]);
    assert Initialising(s.inits, i);
    assert forall j :: j in s.inits && !s.inits[j].phase.Ready? ==> Initialising(s.inits, j);
  }

  lemma KeyFailsStocked(c: Config, s: State, i: Id, written: bool)
    requires Keys(s) && Stocked(s) && Initialising(s.inits, i) && (written ==> s.inits[i].phase.Creating?)
    ensures Stocked(ApplyKeyFails(c, s, i, written))
  {
    if written {
      OnlyInit(s, i);
    }
  }

  lemma KeyCallOverStocked(s: State, i: Id)
    requires Stocked(s)
    ensures Stocked(s.(fields := KeyReleased(s.fields, i)))
  {
  }
}
