/** Where the client's tokens come from, and how its operations get to their ends. */
module ClientScenarios {
  import opened Wrappers
  import opened Client
  import opened ClientRuns
  import opened ClientInvariant
  import opened ClientKeys
  import opened ClientLaws
  import opened ClientEffects

  // ---- What each writer leaves, in any run -----------------------------------------------------

  /** A sign-in whose body brings a token in time installs it and tells peers; any other changes nothing. */
  lemma SignInEstablishes(c: Config, run: seq<State>, steps: seq<Step>, i: nat, o: Id, body: Option<Token>)
    requires IsRun(c, run, steps) && i < |steps| && steps[i] == Parsed(o, body) && run[i].ops[o].kind.SigningIn?
    ensures var s, t := run[i], run[i + 1];
      if s.ops[o].generation == s.fields.generation && body.Some? && body.value != "" then
        && t.fields == s.fields.(token := body, invalidated := false)
        && t.log == (if c.sync then s.log + [Published] else s.log)
      else t.fields == s.fields && t.log == s.log
  {
    hide Apply;
    EveryFieldAfter(c, run[i], steps[i]);
    LogAfter(c, run[i], steps[i]);
    assert run[i].log + [] == run[i].log;
  }

  /** A body that reaches a refresh in time installs its token and settles it well, or clears the token. */
  lemma RefreshInstalls(c: Config, run: seq<State>, steps: seq<Step>, i: nat, o: Id, body: Option<Token>)
    requires IsRun(c, run, steps) && i < |steps| && steps[i] == Parsed(o, body) && run[i].ops[o].kind.Refreshing?
    ensures var s, t := run[i], run[i + 1];
      if s.ops[o].generation != s.fields.generation then t.fields == s.fields && t.ops[o].phase == Settled(false)
      else if body.Some? && body.value != "" then
        t.fields == s.fields.(token := body, refreshInFlight := None) && t.ops[o].phase == Settled(true)
      else t.fields == s.fields.(token := None, refreshInFlight := None) && t.ops[o].phase == Settled(false)
    ensures run[i + 1].log == run[i].log
  {
    hide Apply;
    EveryFieldAfter(c, run[i], steps[i]);
    LogAfter(c, run[i], steps[i]);
    BodyGoesOn(c, run[i], steps[i]);
    assert run[i].log + [] == run[i].log;
  }

  /** A refresh refused with 401 or 403 in time clears the token; any other refusal leaves it. */
  lemma RefreshRefused(c: Config, run: seq<State>, steps: seq<Step>, i: nat, o: Id)
    requires IsRun(c, run, steps) && i < |steps| && steps[i].Answered? && steps[i].o == o
    requires run[i].ops[o].kind.Refreshing? && !(200 <= steps[i].status <= 299)
    ensures var s, t := run[i], run[i + 1];
      && t.ops[o].phase == Settled(false)
      && (if s.ops[o].generation != s.fields.generation then t.fields == s.fields
          else if steps[i].status == 401 || steps[i].status == 403 then
            t.fields == s.fields.(token := None, refreshInFlight := None)
          else t.fields == s.fields.(refreshInFlight := None))
  {
    hide Apply;
    EveryFieldAfter(c, run[i], steps[i]);
    ResponseGoesOn(c, run[i], steps[i]);
  }

  /** An explicit token, when it is accepted, is exactly what is left. */
  lemma ExplicitTokenStands(c: Config, run: seq<State>, steps: seq<Step>, i: nat, token: Option<Token>)
    requires IsRun(c, run, steps) && i < |steps| && steps[i] == CallSetToken(token)
    ensures var s, t := run[i], run[i + 1];
      if s.fields.disposed || s.fields.logoutInFlight.Some? then t == s
      else
        && t == s.(fields := t.fields, log := t.log)
        && t.fields == s.fields.(token := token, generation := s.fields.generation + 1, refreshInFlight := None,
                                 invalidated := c.sync && token.None?)
        && t.log == (if c.sync && token != s.fields.token then s.log + [Published] else s.log)
  {
  }

  lemma EveryFieldAfter(c: Config, s: State, step: Step)
    requires Enabled(c, s, step) && (step.Parsed? || step.Answered?) && s.ops[step.o].phase != AwaitPending
    requires step.Answered? ==> s.ops[step.o].kind.Refreshing?
    ensures var t := Apply(c, s, step);
      && t.fields.token == (if SignInSucceeds(c, s, step) then step.body
                            else if !RefreshOver(c, s, step) then s.fields.token
                            else if step.Parsed? then if Carries(step.body) then step.body else None
                            else if step.status == 401 || step.status == 403 then None
                            else s.fields.token)
      && t.fields.refreshInFlight == (if RefreshOver(c, s, step) then None else s.fields.refreshInFlight)
      && t.fields == s.fields.(token := t.fields.token, refreshInFlight := t.fields.refreshInFlight,
                               invalidated := s.fields.invalidated && !SignInSucceeds(c, s, step))
  {
    hide Apply;
    FieldsAfter(c, s, step);
  }

  // ---- Provenance ------------------------------------------------------------------------------

  /** The step brings this token in: an accepted explicit one, or a body in time of a sign-in or a refresh. */
  predicate Brings(c: Config, s: State, step: Step, token: Token)
    requires Enabled(c, s, step)
  {
    || (step == CallSetToken(Some(token)) && Open(s))
    || (&& step.Parsed? && step.body == Some(token) && token != ""
        && (s.ops[step.o].kind.SigningIn? || s.ops[step.o].kind.Refreshing?)
        && s.ops[step.o].generation == s.fields.generation)
  }

  /** Whatever token the client has was brought in by some step, and no step since has touched it. */
  lemma {:induction false} TokenWasBrought(c: Config, run: seq<State>, steps: seq<Step>, i: nat) returns (j: nat)
    requires IsRun(c, run, steps) && i < |run| && run[i].fields.token.Some?
    ensures j < i && Brings(c, run[j], steps[j], run[i].fields.token.value)
    ensures forall k :: j < k <= i ==> run[k].fields.token == run[i].fields.token
  {
    hide Apply, Safe, Inv, Keys, Stocked;
    assert i > 0;
    var s, step := run[i - 1], steps[i - 1];
    if BringsNow(c, run, steps, i - 1) {
      j := i - 1;
    } else {
      j := TokenWasBrought(c, run, steps, i - 1);
    }
  }

  /** The step brings the token that is there after it; if it does not, that was there before. */
  ghost predicate BringsNow(c: Config, run: seq<State>, steps: seq<Step>, i: nat): (yes: bool)
    requires IsRun(c, run, steps) && i < |steps| && run[i + 1].fields.token.Some?
    ensures yes <==> Brings(c, run[i], steps[i], run[i + 1].fields.token.value)
    ensures !yes ==> run[i].fields.token == run[i + 1].fields.token
  {
    TokenStaysOrIsBrought(c, run, steps, i);
    Brings(c, run[i], steps[i], run[i + 1].fields.token.value)
  }

  lemma TokenStaysOrIsBrought(c: Config, run: seq<State>, steps: seq<Step>, i: nat)
    requires IsRun(c, run, steps) && i < |steps| && run[i + 1].fields.token.Some?
    ensures Brings(c, run[i], steps[i], run[i + 1].fields.token.value)
            || run[i].fields.token == run[i + 1].fields.token
  {
    hide Apply, Keys, Stocked, Core;
    RunIsSafe(c, run, steps, i);
    TokenAfter(c, run[i], steps[i]);
    if steps[i].Parsed? {
      CoreOp(run[i].fields, run[i].ops, steps[i].o);
    }
  }

  // ---- Getting there ---------------------------------------------------------------------------

  /** States that the steps lead through, from any state on. */
  predicate Leads(c: Config, run: seq<State>, steps: seq<Step>) {
    && |run| == |steps| + 1
    && forall i :: 0 <= i < |steps| ==> Enabled(c, run[i], steps[i]) && run[i + 1] == Apply(c, run[i], steps[i])
  }

  /** A client that has its key, and an operation of the moment's identity that waits for it. */
  predicate KeyAtHand(s: State, o: Id, kind: Kind, key: Key) {
    s.fields.key == Some(key) && o in s.ops && s.ops[o] == Op(kind, s.fields.generation, AwaitKey(Cached(key)))
  }

  /** With the key at hand, an operation of the moment's identity is proved and sent. */
  lemma Sent(c: Config, s: State, o: Id, kind: Kind, key: Key) returns (mid: State, t: State)
    requires KeyAtHand(s, o, kind, key)
    ensures Enabled(c, s, GotKey(o)) && mid == Apply(c, s, GotKey(o))
    ensures Enabled(c, mid, Proved(o)) && t == Apply(c, mid, Proved(o))
    ensures t == s.(ops := s.ops[o := Op(kind, s.fields.generation, Requesting)], log := s.log + [Request(o, key)])
  {
    mid := Apply(c, s, GotKey(o));
    t := Apply(c, mid, Proved(o));
    assert mid.ops[o := Op(kind, s.fields.generation, Requesting)]
           == s.ops[o := Op(kind, s.fields.generation, Requesting)];
  }

  /** A response with success and a body with a token bring a refresh or a sign-in to its end. */
  lemma AnsweredWell(c: Config, s: State, o: Id, status: nat, token: Token, r: Id, k: Id)
      returns (mid: State, t: State)
    requires o in s.ops && s.ops[o].phase == Requesting && s.ops[o].generation == s.fields.generation
    requires s.ops[o].kind.Refreshing? || s.ops[o].kind.SigningIn?
    requires 200 <= status <= 299 && token != "" && Fresh(s, r) && Fresh(s, k) && r != k
    ensures Enabled(c, s, Answered(o, status, r, k)) && mid == Apply(c, s, Answered(o, status, r, k))
    ensures Enabled(c, mid, Parsed(o, Some(token))) && t == Apply(c, mid, Parsed(o, Some(token)))
    ensures s.ops[o].kind.Refreshing? ==>
      t == s.(ops := s.ops[o := s.ops[o].(phase := Settled(true))],
              fields := s.fields.(token := Some(token), refreshInFlight := None))
    ensures s.ops[o].kind.SigningIn? ==>
      t == s.(ops := s.ops[o := s.ops[o].(phase := Finished)],
              fields := s.fields.(token := Some(token), invalidated := false),
              log := if c.sync then s.log + [Published] else s.log)
  {
    mid := Apply(c, s, Answered(o, status, r, k));
    t := Apply(c, mid, Parsed(o, Some(token)));
    var phase := if s.ops[o].kind.Refreshing? then Settled(true) else Finished;
    assert mid.ops[o := s.ops[o].(phase := phase)] == s.ops[o := s.ops[o].(phase := phase)];
  }

  /**
   * A client that is open can sign in: the request leaves with the key at hand, and a successful response with a
   * token establishes the identity, lifts an invalidation, and is told to peers.
   */
  lemma SignInGetsThrough(c: Config, s: State, o: Id, k: Id, r: Id, key: Key, status: nat, token: Token)
      returns (run: seq<State>, steps: seq<Step>)
    requires Open(s) && s.fields.key == Some(key)
    requires Fresh(s, o) && Fresh(s, k) && Fresh(s, r) && o != k && o != r && k != r
    requires 200 <= status <= 299 && token != ""
    ensures Leads(c, run, steps) && run[0] == s && |steps| == 5
    ensures steps == [CallSignIn(o, k, true), GotKey(o), Proved(o), Answered(o, status, r, k), Parsed(o, Some(token))]
    ensures run[5].fields
            == s.fields.(generation := s.fields.generation + 1, refreshInFlight := None, token := Some(token),
                         invalidated := false)
    ensures run[5].log == s.log + [Request(o, key)] + (if c.sync then [Published] else [])
  {
    steps := [CallSignIn(o, k, true), GotKey(o), Proved(o), Answered(o, status, r, k), Parsed(o, Some(token))];
    var s1 := Apply(c, s, steps[0]);
    assert s1 == s.(fields := s.fields.(generation := s.fields.generation + 1, refreshInFlight := None),
                    ops := s.ops[o := Op(SigningIn, s.fields.generation + 1, AwaitKey(Cached(key)))]);
    var s2, s3 := Sent(c, s1, o, SigningIn, key);
    var s4, s5 := AnsweredWell(c, s3, o, status, token, r, k);
    run := [s, s1, s2, s3, s4, s5];
    Chained(c, run, steps);
    assert s3.log + [] == s3.log;
  }

  lemma Chained(c: Config, run: seq<State>, steps: seq<Step>)
    requires |steps| == 5 && |run| == 6
    requires Enabled(c, run[0], steps[0]) && run[1] == Apply(c, run[0], steps[0])
    requires Enabled(c, run[1], steps[1]) && run[2] == Apply(c, run[1], steps[1])
    requires Enabled(c, run[2], steps[2]) && run[3] == Apply(c, run[2], steps[2])
    requires Enabled(c, run[3], steps[3]) && run[4] == Apply(c, run[3], steps[3])
    requires Enabled(c, run[4], steps[4]) && run[5] == Apply(c, run[4], steps[4])
    ensures Leads(c, run, steps)
  {
    hide Apply, Enabled;
  }

  /**
   * A fetch recovers from a refusal: answered 401, it has the token refreshed, and once that has succeeded it is
   * sent a second time, under the same identity and key; the new token is in place by then.
   */
  lemma FetchRecovers(c: Config, s: State, o: Id, r: Id, k: Id, x: Id, key: Key, status: nat, token: Token)
      returns (first: seq<State>, second: seq<State>)
    requires Open(s) && !s.fields.invalidated && s.fields.token.Some? && s.fields.refreshInFlight.None?
    requires s.fields.key == Some(key) && o in s.ops && s.ops[o] == Op(FetchFirst, s.fields.generation, Requesting)
    requires Fresh(s, r) && Fresh(s, k) && Fresh(s, x) && r != k && r != x && k != x
    requires 200 <= status <= 299 && token != ""
    ensures |first| == 6 && first[0] == s
    ensures Leads(c, first, [Answered(o, 401, r, k), GotKey(r), Proved(r), Answered(r, status, x, k),
                             Parsed(r, Some(token))])
    ensures |second| == 4 && second[0] == first[5] && Leads(c, second, [Resumed(o, k, true), GotKey(o), Proved(o)])
    ensures second[3].fields == s.fields.(token := Some(token))
    ensures o in second[3].ops && second[3].ops[o] == Op(FetchSecond, s.fields.generation, Requesting)
    ensures second[3].log == s.log + [Request(r, key)] + [Request(o, key)]
  {
    hide Apply, Enabled;
    var steps := [Answered(o, 401, r, k), GotKey(r), Proved(r), Answered(r, status, x, k), Parsed(r, Some(token))];
    var s1 := FetchTurns(c, s, o, r, k, key);
    var s2, s3 := Sent(c, s1, r, Refreshing, key);
    var s4, s5 := AnsweredWell(c, s3, r, status, token, x, k);
    first := [s, s1, s2, s3, s4, s5];
    Chained(c, first, steps);
    var again := [Resumed(o, k, true), GotKey(o), Proved(o)];
    var s6 := FetchReturns(c, s5, o, r, k, key);
    var s7, s8 := Sent(c, s6, o, FetchSecond, key);
    second := [s5, s6, s7, s8];
    assert Leads(c, second, again) by {
      assert second[1] == Apply(c, second[0], again[0]) && second[2] == Apply(c, second[1], again[1]);
      assert second[3] == Apply(c, second[2], again[2]);
    }
  }

  lemma FetchTurns(c: Config, s: State, o: Id, r: Id, k: Id, key: Key) returns (t: State)
    requires Open(s) && !s.fields.invalidated && s.fields.token.Some? && s.fields.refreshInFlight.None?
    requires s.fields.key == Some(key) && o in s.ops && s.ops[o] == Op(FetchFirst, s.fields.generation, Requesting)
    requires Fresh(s, r) && Fresh(s, k) && r != k
    ensures Enabled(c, s, Answered(o, 401, r, k)) && t == Apply(c, s, Answered(o, 401, r, k))
    ensures t == s.(fields := s.fields.(refreshInFlight := Some(r)),
                    ops := s.ops[o := Op(FetchFirst, s.fields.generation, AwaitRefresh(r))]
                                [r := Op(Refreshing, s.fields.generation, AwaitKey(Cached(key)))])
  {
    t := Apply(c, s, Answered(o, 401, r, k));
  }

  lemma FetchReturns(c: Config, s: State, o: Id, r: Id, k: Id, key: Key) returns (t: State)
    requires Open(s) && s.fields.key == Some(key) && Fresh(s, k)
    requires o in s.ops && s.ops[o] == Op(FetchFirst, s.fields.generation, AwaitRefresh(r))
    requires r in s.ops && s.ops[r].phase == Settled(true)
    ensures Enabled(c, s, Resumed(o, k, true)) && t == Apply(c, s, Resumed(o, k, true))
    ensures t == s.(ops := s.ops[o := Op(FetchSecond, s.fields.generation, AwaitKey(Cached(key)))])
  {
    t := Apply(c, s, Resumed(o, k, true));
  }

  /**
   * A client with a token, its key at hand and none on its way can sign out: its request leaves, a success is told
   * to peers, and in the end there is no token and no cached key, the slot is free, and without sync no stored key.
   */
  lemma SignOutGetsThrough(c: Config, s: State, o: Id, k: Id, r: Id, key: Key, status: nat)
      returns (sent: seq<State>, ended: State)
    requires Open(s) && s.fields.token.Some? && s.fields.key == Some(key) && s.fields.keyInFlight.None?
    requires Fresh(s, o) && Fresh(s, k) && Fresh(s, r) && o != k && o != r && k != r && 200 <= status <= 299
    ensures |sent| == 6 && sent[0] == s
    ensures Leads(c, sent, [CallSignOut(o, k, true), GotKey(o), Proved(o), Answered(o, status, r, k), Drained(o)])
    ensures if c.sync then Enabled(c, sent[5], Released(o)) && ended == Apply(c, sent[5], Released(o))
            else
              && Enabled(c, sent[5], Cleared(o, true))
              && Enabled(c, Apply(c, sent[5], Cleared(o, true)), Released(o))
              && ended == Apply(c, Apply(c, sent[5], Cleared(o, true)), Released(o))
    ensures ended.fields.token.None? && ended.fields.key.None? && ended.fields.keyInFlight.None?
    ensures Open(ended) && ended.fields.invalidated == (s.fields.invalidated || c.sync)
    ensures ended.store == if c.sync then s.store else None
    ensures ended.log == s.log + [Request(o, key)] + [if c.sync then Published else SignedOut]
  {
    hide Apply, Enabled;
    var steps := [CallSignOut(o, k, true), GotKey(o), Proved(o), Answered(o, status, r, k), Drained(o)];
    var s1 := SignOutTurns(c, s, o, k, key);
    var s2, s3 := Sent(c, s1, o, SigningOut(None), key);
    var s4, s5 := SignOutAnswered(c, s3, o, status, r, k);
    sent := [s, s1, s2, s3, s4, s5];
    Chained(c, sent, steps);
    ended := SignOutEnds(c, s5, o);
    assert s3.log + [] == s3.log && s5.log + [] == s5.log;
  }

  lemma SignOutAnswered(c: Config, s: State, o: Id, status: nat, r: Id, k: Id) returns (mid: State, t: State)
    requires o in s.ops && s.ops[o] == Op(SigningOut(None), s.fields.generation, Requesting)
    requires Fresh(s, r) && Fresh(s, k) && r != k && 200 <= status <= 299
    ensures Enabled(c, s, Answered(o, status, r, k)) && mid == Apply(c, s, Answered(o, status, r, k))
    ensures Enabled(c, mid, Drained(o)) && t == Apply(c, mid, Drained(o))
    ensures t == s.(fields := s.fields.(key := None, keyInFlight := None), ops := t.ops,
                    log := s.log + if c.sync then [Published] else [])
    ensures o in t.ops && t.ops[o].kind.SigningOut? && t.ops[o].phase == if c.sync then Settled(true) else Clearing
  {
    mid := Apply(c, s, Answered(o, status, r, k));
    t := Apply(c, mid, Drained(o));
    assert s.log + [] == s.log;
  }

  lemma SignOutEnds(c: Config, s: State, o: Id) returns (t: State)
    requires o in s.ops && s.ops[o].kind.SigningOut? && s.fields.logoutInFlight == Some(o)
    requires s.ops[o].phase == if c.sync then Settled(true) else Clearing
    ensures if c.sync then Enabled(c, s, Released(o)) && t == Apply(c, s, Released(o))
            else
              && Enabled(c, s, Cleared(o, true))
              && Enabled(c, Apply(c, s, Cleared(o, true)), Released(o))
              && t == Apply(c, Apply(c, s, Cleared(o, true)), Released(o))
    ensures t.fields == s.fields.(logoutInFlight := None) && t.store == (if c.sync then s.store else None)
    ensures t.log == s.log + if c.sync then [] else [SignedOut]
  {
    t := Apply(c, if c.sync then s else Apply(c, s, Cleared(o, true)), Released(o));
    assert s.log + [] == s.log;
  }

  lemma SignOutTurns(c: Config, s: State, o: Id, k: Id, key: Key) returns (t: State)
    requires Open(s) && s.fields.token.Some? && s.fields.key == Some(key) && s.fields.keyInFlight.None?
    requires Fresh(s, o) && Fresh(s, k) && o != k
    ensures Enabled(c, s, CallSignOut(o, k, true)) && t == Apply(c, s, CallSignOut(o, k, true))
    ensures t.fields.logoutInFlight == Some(o) && t.fields.token.None? && KeyAtHand(t, o, SigningOut(None), key)
    ensures t.fields.invalidated == (s.fields.invalidated || c.sync) && !t.fields.disposed
    ensures t.store == s.store && t.log == s.log && forall id :: id != o ==> (Fresh(s, id) <==> Fresh(t, id))
  {
    t := Apply(c, s, CallSignOut(o, k, true));
  }
}
