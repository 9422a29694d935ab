/** What holds of every reachable state of the client, whatever the scheduler, the network and the store do. */
module ClientInvariant {
  import opened Wrappers
  import opened Client
  import opened ClientRuns

  type Ops = map<Id, Op>

  /** Operations are only where their kind can be. */
  predicate PhaseFits(op: Op) {
    match op.phase
    case AwaitKey(_) => true
    case Proving(_) => true
    case Requesting => true
    case Parsing => op.kind.Refreshing? || op.kind.SigningIn?
    case AwaitRefresh(_) => op.kind.FetchFirst?
    case AwaitLogout(_) => op.kind.SigningIn?
    case AwaitPending => op.kind.SigningOut?
    case Clearing => op.kind.SigningOut?
    case Settled(_) => op.kind.Refreshing? || op.kind.SigningOut?
    case Finished => !op.kind.Refreshing? && !op.kind.SigningOut?
  }

  /** What each operation owes the fields. */
  predicate OpFits(f: Fields, o: Id, op: Op) {
    && PhaseFits(op)
    && op.generation <= f.generation
    && (op.kind.Refreshing? && op.Live() && op.generation == f.generation ==> f.refreshInFlight == Some(o))
    && (op.kind.SigningOut? && op.Live() ==> f.logoutInFlight == Some(o))
    && (f.logoutInFlight.Some? && op.Live() && op.generation == f.generation ==>
          f.logoutInFlight == Some(o) || op.phase == AwaitLogout(f.logoutInFlight.value))
    && (f.disposed ==> op.generation < f.generation)
  }

  /** What the fields owe the operations, and each other. */
  predicate FieldsFit(f: Fields, ops: Ops) {
    && (f.refreshInFlight.Some? ==>
          && f.refreshInFlight.value in ops
          && var r := ops[f.refreshInFlight.value];
             r.kind.Refreshing? && r.Live() && r.generation == f.generation)
    && (f.logoutInFlight.Some? ==>
          && f.token.None? && f.logoutInFlight.value in ops && ops[f.logoutInFlight.value].kind.SigningOut?)
    && (f.invalidated ==> f.token.None? && f.refreshInFlight.None?)
    && (f.disposed ==> f.invalidated && f.key.None? && f.keyInFlight.None?)
  }

  predicate UnfinishedRefresh(ops: Ops, o: Id) {
    o in ops && ops[o].kind.Refreshing? && ops[o].Live()
  }

  /** Two refreshes of one generation, current or past, are never unfinished together. */
  predicate OneRefreshEach(ops: Ops) {
    forall a, b :: a in ops && b in ops && UnfinishedRefresh(ops, a) && UnfinishedRefresh(ops, b)
                   && ops[a].generation == ops[b].generation
      ==> a == b
  }

  predicate Core(f: Fields, ops: Ops) {
    FieldsFit(f, ops) && OneRefreshEach(ops) && forall o :: o in ops ==> OpFits(f, o, ops[o])
  }

  // ---- One step, seen from the operations it does not concern ------------------------------

  /** Fields may change from `f` to `g` in a step of operation `o` without disturbing the others. */
  predicate Compatible(f: Fields, g: Fields, o: Option<Id>) {
    && f.generation <= g.generation
    && (f.refreshInFlight.Some? && f.refreshInFlight != o && g.generation == f.generation ==>
          g.refreshInFlight == f.refreshInFlight)
    && (f.logoutInFlight.Some? && f.logoutInFlight != o ==> g.logoutInFlight == f.logoutInFlight)
    && (g.logoutInFlight.Some? && g.generation == f.generation ==> g.logoutInFlight == f.logoutInFlight)
    && (g.disposed && !f.disposed ==> g.generation > f.generation)
  }

  lemma OtherFits(f: Fields, g: Fields, o: Option<Id>, x: Id, op: Op)
    requires OpFits(f, x, op) && Compatible(f, g, o) && o != Some(x)
    ensures OpFits(g, x, op)
  {
  }

  /** Only the fields change. */
  lemma FieldsChange(f: Fields, ops: Ops, g: Fields)
    requires Core(f, ops) && Compatible(f, g, None) && FieldsFit(g, ops)
    ensures Core(g, ops)
  {
    hide OpFits, Compatible, FieldsFit, OneRefreshEach;
    forall x | x in ops ensures OpFits(g, x, ops[x]) {
      OtherFits(f, g, None, x, ops[x]);
    }
  }

  /** A refresh is new only where the slot was free. */
  predicate NoSecondRefresh(f: Fields, ops: Ops, o: Id, op: Op) {
    op.kind.Refreshing? && op.Live() ==>
      || (UnfinishedRefresh(ops, o) && ops[o].generation == op.generation)
      || (f.refreshInFlight.None? && op.generation == f.generation)
  }

  /** One operation is new, or moves. */
  lemma OpChanges(f: Fields, ops: Ops, g: Fields, o: Id, op: Op)
    requires Core(f, ops) && Compatible(f, g, Some(o)) && FieldsFit(g, ops[o := op])
    requires OpFits(g, o, op) && NoSecondRefresh(f, ops, o, op)
    ensures Core(g, ops[o := op])
  {
    hide OpFits, Compatible, FieldsFit, OneRefreshEach;
    var after := ops[o := op];
    forall x | x in after ensures OpFits(g, x, after[x]) {
      if x != o {
        OtherFits(f, g, Some(o), x, ops[x]);
      }
    }
    assert OneRefreshEach(after) by {
      StillOneRefreshEach(f, ops, o, op);
    }
  }

  lemma StillOneRefreshEach(f: Fields, ops: Ops, o: Id, op: Op)
    requires Core(f, ops) && NoSecondRefresh(f, ops, o, op)
    ensures OneRefreshEach(ops[o := op])
  {
    hide FieldsFit;
    var after := ops[o := op];
    forall x | x in ops && x != o && UnfinishedRefresh(ops, x) && op.kind.Refreshing? && op.Live()
      ensures ops[x].generation != op.generation {
      assert OpFits(f, x, ops[x]);
      assert o in ops && UnfinishedRefresh(ops, o) ==> ops[x].generation != ops[o].generation;
    }
    assert forall x :: x in after && x != o && UnfinishedRefresh(after, x) ==> UnfinishedRefresh(ops, x);
  }

  /** What each key initialisation owes the fields: unless the client is disposed, a running one is in the slot. */
  predicate InitFits(f: Fields, i: Id, init: KeyInit) {
    && init.keyGeneration <= f.keyGeneration
    && (f.disposed ==> init.keyGeneration < f.keyGeneration)
    && (!init.phase.Ready? ==> f.keyInFlight == Some(i) || f.disposed)
  }

  /** At most one key initialisation runs. */
  ghost predicate InitsHold(s: State) {
    && (s.fields.keyInFlight.Some? ==> s.fields.keyInFlight.value in s.inits)
    && (forall i :: i in s.inits ==> InitFits(s.fields, i, s.inits[i]))
    && (forall i: Id, j: Id :: Initialising(s.inits, i) && Initialising(s.inits, j) ==> i == j)
  }

  ghost predicate Inv(s: State) {
    Core(s.fields, s.ops)
  }

  lemma CoreFields(f: Fields, ops: Ops)
    requires Core(f, ops)
    ensures FieldsFit(f, ops)
  {
  }

  lemma CoreOp(f: Fields, ops: Ops, o: Id)
    requires Core(f, ops) && o in ops
    ensures OpFits(f, o, ops[o])
  {
  }

  lemma SetTokenKeeps(c: Config, s: State, token: Option<Token>)
    requires Inv(s)
    ensures Inv(ApplySetToken(c, s, token))
  {
    hide Core;
    var t := ApplySetToken(c, s, token);
    CoreFields(s.fields, s.ops);
    FieldsChange(s.fields, s.ops, t.fields);
  }

  lemma DisposeKeeps(s: State)
    requires Inv(s)
    ensures Inv(s.(fields := Dispose(s.fields)))
  {
    hide Core;
    var t := s.(fields := Dispose(s.fields));
    CoreFields(s.fields, s.ops);
    FieldsChange(s.fields, s.ops, t.fields);
  }

  lemma NoticeKeeps(s: State)
    requires Inv(s)
    ensures Inv(s.(fields := PeerNotice(s.fields)))
  {
    hide Core;
    var t := s.(fields := PeerNotice(s.fields));
    CoreFields(s.fields, s.ops);
    FieldsChange(s.fields, s.ops, t.fields);
  }

  lemma GetKeyKeeps(s: State, k: Id)
    requires Inv(s) && Fresh(s, k)
    ensures Inv(ApplyGetKey(s, k))
  {
    hide Core;
    var t := ApplyGetKey(s, k);
    CoreFields(s.fields, s.ops);
    FieldsChange(s.fields, s.ops, t.fields);
  }

  lemma FetchKeeps(s: State, o: Id, k: Id, resolves: bool)
    requires Inv(s) && Fresh(s, o) && Fresh(s, k) && o != k
    ensures Inv(ApplyFetch(s, o, k, resolves))
  {
    hide Core;
    var t := ApplyFetch(s, o, k, resolves);
    CoreFields(s.fields, s.ops);
    if o in t.ops {
      OpChanges(s.fields, s.ops, t.fields, o, t.ops[o]);
    } else {
      FieldsChange(s.fields, s.ops, t.fields);
    }
  }

  lemma RefreshKeeps(s: State, o: Id, k: Id)
    requires Inv(s) && Fresh(s, o) && Fresh(s, k) && o != k
    ensures Inv(ApplyRefresh(s, o, k))
  {
    hide Core;
    var t := ApplyRefresh(s, o, k);
    CoreFields(s.fields, s.ops);
    if o in t.ops {
      OpChanges(s.fields, s.ops, t.fields, o, t.ops[o]);
    } else {
      FieldsChange(s.fields, s.ops, t.fields);
    }
  }

  lemma SignInKeeps(s: State, o: Id, k: Id, resolves: bool)
    requires Inv(s) && Fresh(s, o) && Fresh(s, k) && o != k
    ensures Inv(ApplySignIn(s, o, k, resolves))
  {
    hide Core;
    var t := ApplySignIn(s, o, k, resolves);
    CoreFields(s.fields, s.ops);
    if o in t.ops {
      OpChanges(s.fields, s.ops, t.fields, o, t.ops[o]);
    } else {
      FieldsChange(s.fields, s.ops, t.fields);
    }
  }

  lemma SignOutKeeps(c: Config, s: State, o: Id, k: Id, resolves: bool)
    requires Inv(s) && Fresh(s, o) && Fresh(s, k) && o != k
    ensures Inv(ApplySignOut(c, s, o, k, resolves))
  {
    hide Core;
    var t := ApplySignOut(c, s, o, k, resolves);
    CoreFields(s.fields, s.ops);
    if o in t.ops {
      OpChanges(s.fields, s.ops, t.fields, o, t.ops[o]);
    } else {
      FieldsChange(s.fields, s.ops, t.fields);
    }
  }

  lemma ThrownKeeps(s: State, o: Id)
    requires Inv(s) && Suspended(s, o)
    ensures Inv(Thrown(s, o))
  {
    hide Core;
    var t := Thrown(s, o);
    CoreFields(s.fields, s.ops);
    CoreOp(s.fields, s.ops, o);
    OpChanges(s.fields, s.ops, t.fields, o, t.ops[o]);
  }

  lemma GotKeyKeeps(s: State, o: Id)
    requires Inv(s) && Suspended(s, o) && s.ops[o].phase.AwaitKey? && KeyIsReady(s, s.ops[o].phase.wait)
    ensures Inv(ApplyGotKey(s, o))
  {
    hide Core;
    var t := ApplyGotKey(s, o);
    CoreFields(s.fields, s.ops);
    CoreOp(s.fields, s.ops, o);
    OpChanges(s.fields, s.ops, t.fields, o, t.ops[o]);
  }

  lemma ProvedKeeps(s: State, o: Id)
    requires Inv(s) && Suspended(s, o) && s.ops[o].phase.Proving?
    ensures Inv(ApplyProved(s, o))
  {
    hide Core;
    var t := ApplyProved(s, o);
    CoreFields(s.fields, s.ops);
    CoreOp(s.fields, s.ops, o);
    OpChanges(s.fields, s.ops, t.fields, o, t.ops[o]);
  }

  lemma AnsweredKeeps(c: Config, s: State, o: Id, status: nat, r: Id, k: Id)
    requires Inv(s) && Suspended(s, o) && s.ops[o].phase.Requesting? && !s.ops[o].kind.FetchFirst?
    ensures Inv(ApplyAnswered(c, s, o, status, r, k))
  {
    hide Core;
    var t := ApplyAnswered(c, s, o, status, r, k);
    CoreFields(s.fields, s.ops);
    CoreOp(s.fields, s.ops, o);
    OpChanges(s.fields, s.ops, t.fields, o, t.ops[o]);
  }

  lemma ParsedKeeps(c: Config, s: State, o: Id, body: Option<Token>)
    requires Inv(s) && Suspended(s, o) && s.ops[o].phase.Parsing?
    ensures Inv(ApplyParsed(c, s, o, body))
  {
    hide Core;
    var t := ApplyParsed(c, s, o, body);
    CoreFields(s.fields, s.ops);
    CoreOp(s.fields, s.ops, o);
    OpChanges(s.fields, s.ops, t.fields, o, t.ops[o]);
  }

  lemma FetchResumedKeeps(s: State, o: Id, k: Id)
    requires Inv(s) && Suspended(s, o) && Fresh(s, k) && s.ops[o].phase.AwaitRefresh? && Awaited(s, s.ops[o].phase)
    ensures Inv(ApplyFetchResumed(s, o, k))
  {
    hide Core;
    var t := ApplyFetchResumed(s, o, k);
    CoreFields(s.fields, s.ops);
    CoreOp(s.fields, s.ops, o);
    OpChanges(s.fields, s.ops, t.fields, o, t.ops[o]);
  }

  lemma SignInResumedKeeps(s: State, o: Id, k: Id, well: bool, resolves: bool)
    requires Inv(s) && Suspended(s, o) && Fresh(s, k) && s.ops[o].phase.AwaitLogout? && Awaited(s, s.ops[o].phase)
    ensures Inv(ApplySignInResumed(s, o, k, well, resolves))
  {
    hide Core;
    var t := ApplySignInResumed(s, o, k, well, resolves);
    CoreFields(s.fields, s.ops);
    CoreOp(s.fields, s.ops, o);
    OpChanges(s.fields, s.ops, t.fields, o, t.ops[o]);
  }

  lemma DrainedKeeps(c: Config, s: State, o: Id)
    requires Inv(s) && Suspended(s, o) && s.ops[o].phase.AwaitPending?
    ensures Inv(ApplyDrained(c, s, o))
  {
    hide Core;
    var t := ApplyDrained(c, s, o);
    CoreFields(s.fields, s.ops);
    CoreOp(s.fields, s.ops, o);
    OpChanges(s.fields, s.ops, t.fields, o, t.ops[o]);
  }

  lemma ClearedKeeps(s: State, o: Id, well: bool)
    requires Inv(s) && Suspended(s, o) && s.ops[o].phase.Clearing?
    ensures Inv(ApplyCleared(s, o, well))
  {
    hide Core;
    var t := ApplyCleared(s, o, well);
    CoreFields(s.fields, s.ops);
    CoreOp(s.fields, s.ops, o);
    OpChanges(s.fields, s.ops, t.fields, o, t.ops[o]);
  }

  lemma ReleasedKeeps(s: State, o: Id)
    requires Inv(s) && o in s.ops && s.ops[o].kind.SigningOut? && s.ops[o].phase.Settled?
    ensures Inv(s.(fields := SignOutReleased(s.fields, o)))
  {
    hide Core;
    var t := s.(fields := SignOutReleased(s.fields, o));
    CoreFields(s.fields, s.ops);
    CoreOp(s.fields, s.ops, o);
    assert s.ops[o := s.ops[o]] == s.ops;
    OpChanges(s.fields, s.ops, t.fields, o, s.ops[o]);
  }

  lemma KeyArrivedKeeps(s: State, i: Id)
    requires Inv(s) && InitsHold(s) && i in s.inits && s.inits[i].phase.Stored?
    ensures Inv(ApplyKeyArrived(s, i))
  {
    hide Core;
    var t := ApplyKeyArrived(s, i);
    CoreFields(s.fields, s.ops);
    FieldsChange(s.fields, s.ops, t.fields);
  }


  lemma FetchAnsweredKeeps(s: State, o: Id, status: nat, r: Id, k: Id)
    requires Inv(s) && Suspended(s, o) && s.ops[o].phase.Requesting? && s.ops[o].kind.FetchFirst?
    requires Fresh(s, r) && Fresh(s, k) && r != k
    ensures Inv(ApplyFetchAnswered(s, o, status, r, k))
  {
    hide Core;
    var t := ApplyFetchAnswered(s, o, status, r, k);
    CoreFields(s.fields, s.ops);
    CoreOp(s.fields, s.ops, o);
    OpChanges(s.fields, s.ops, s.fields, o, t.ops[o]);
    if r in t.ops {
      OpChanges(s.fields, s.ops[o := t.ops[o]], t.fields, r, t.ops[r]);
    }
  }

  lemma KeyCallOverKeeps(s: State, i: Id)
    requires Inv(s)
    ensures Inv(s.(fields := KeyReleased(s.fields, i)))
  {
    hide Core;
    CoreFields(s.fields, s.ops);
    FieldsChange(s.fields, s.ops, KeyReleased(s.fields, i));
  }
}
