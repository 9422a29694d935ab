/**
 * Runs of any number of servers over one challenge store. Every call touches the store in one atomic
 * operation, so concurrent calls interleave at those operations and nowhere else.
 */
module ServerRuns {
  import opened Bytes
  import opened Wrappers
  import opened Challenge
  import opened Server
  import Attestation
  import AuthData
  import Ceremony
  import Cose

  /** What happens to a store key: issued, consumed, found too old, dropped by the store; and a finished ceremony. */
  datatype Event =
    | Started(key: string, context: Context)
    | Burnt(key: string)
    | Lapsed(key: string)
    | Dropped(key: string)
    | Finished(key: string, userId: string, userVerified: bool)

  datatype State = State(entries: Entries, log: seq<Event>)

  /** Each call may come from a server configured in its own way, and reads its own clock. */
  datatype Step =
    | StartCall(o: Options, kind: CeremonyType, userId: Option<string>, uv: Option<UserVerification>,
                challenge: string, now: int)
    | RegisterCall(o: Options, f: Ceremony.Facilities, registration: Ceremony.RegistrationResponse,
                   expectedUser: Option<string>, now: int, later: int)
    | AuthenticateCall(o: Options, f: Ceremony.Facilities, assertion: Ceremony.AuthenticationResponse,
                       credential: Ceremony.StoredCredential, now: int)
    | Drop(key: string)

  /** The store key that a response asks for, when it asks for one at all. */
  function KeyAsked(o: Options, f: Ceremony.Facilities, kind: CeremonyType, clientData: ByteString): Option<string> {
    match Ceremony.ExtractChallenge(f, clientData)
    case Err(_) => None
    case Ok(challenge) =>
      if 0 < |challenge| <= MAX_CHALLENGE_INPUT then Some(StoreKey(ManagerConfig(o), kind, challenge)) else None
  }

  function BurnEvents(o: Options, f: Ceremony.Facilities, entries: Entries, kind: CeremonyType,
                      clientData: ByteString, now: int): seq<Event>
  {
    var key := KeyAsked(o, f, kind, clientData);
    if key.None? || key.value !in entries then []
    else if Accept(entries[key.value], kind, now).Ok? then [Burnt(key.value)]
    else [Lapsed(key.value)]
  }

  function ApplyRegister(s: State, step: Step): State
    requires step.RegisterCall?
  {
    var clientData := step.registration.clientData;
    var (left, r) :=
      FinishRegistration(step.o, step.f, s.entries, step.registration, step.expectedUser, step.now, step.later);
    var key := KeyAsked(step.o, step.f, Registration, clientData);
    State(left, s.log + BurnEvents(step.o, step.f, s.entries, Registration, clientData, step.now)
                + if r.Ok? && key.Some?
                  then [Finished(key.value, r.value.userId, r.value.verified.authData.UserVerified())] else [])
  }

  function ApplyAuthenticate(s: State, step: Step): State
    requires step.AuthenticateCall?
  {
    var clientData := step.assertion.clientData;
    var (left, r) := FinishAuthentication(step.o, step.f, s.entries, step.assertion, step.credential, step.now);
    var key := KeyAsked(step.o, step.f, Authentication, clientData);
    State(left, s.log + BurnEvents(step.o, step.f, s.entries, Authentication, clientData, step.now)
                + if r.Ok? && key.Some?
                  then [Finished(key.value, r.value.userId, r.value.verified.authData.UserVerified())] else [])
  }

  function Apply(s: State, step: Step): State {
    match step
    case StartCall(o, kind, userId, uv, challenge, now) =>
      var (entries, r) := Start(o, s.entries, kind, userId, uv, challenge, now);
      if r.Err? then s.(entries := entries)
      else
        State(entries, s.log + [Started(StoreKey(ManagerConfig(o), kind, challenge),
                                        StartContext(o, kind, userId, uv, now))])
    case RegisterCall(_, _, _, _, _, _) => ApplyRegister(s, step)
    case AuthenticateCall(_, _, _, _, _) => ApplyAuthenticate(s, step)
    case Drop(key) =>
      if key in s.entries then State(s.entries - {key}, s.log + [Dropped(key)]) else s
  }

  // ---- The store mirrors the log -----------------------------------------------------------

  /** The context under a key that has been issued and has not been taken or dropped since. */
  function Pending(log: seq<Event>, key: string): Option<Context> {
    if |log| == 0 then None
    else
      var last, before := log[|log| - 1], log[..|log| - 1];
      if last.key != key then Pending(before, key)
      else
        match last
        case Started(_, context) => Some(context)
        case Finished(_, _, _) => Pending(before, key)
        case _ => None
  }

  ghost predicate Mirrors(s: State) {
    forall key: string :: (if key in s.entries then s.entries[key] else None) == Pending(s.log, key)
                          && (key in s.entries ==> s.entries[key].Some?)
  }

  lemma PendingAfter(log: seq<Event>, e: Event, key: string)
    ensures Pending(log + [e], key)
            == if e.key != key || e.Finished? then Pending(log, key)
               else if e.Started? then Some(e.context)
               else None
  {
    assert (log + [e])[..|log|] == log;
  }

  /** Taking a key out of the store, with or without success, ends its pending record. */
  lemma BurnMirrors(s: State, o: Options, f: Ceremony.Facilities, kind: CeremonyType, clientData: ByteString, now: int)
    requires Mirrors(s)
    ensures var events := BurnEvents(o, f, s.entries, kind, clientData, now);
      && Mirrors(State(Burn(o, f, s.entries, kind, clientData, now).0, s.log + events))
      && (Burn(o, f, s.entries, kind, clientData, now).1.Ok? ==>
            && KeyAsked(o, f, kind, clientData).Some?
            && var key := KeyAsked(o, f, kind, clientData).value;
            && events == [Burnt(key)]
            && Pending(s.log, key) == Some(Burn(o, f, s.entries, kind, clientData, now).1.value))
  {
    hide Ceremony.ExtractChallenge, Pending;
    var events := BurnEvents(o, f, s.entries, kind, clientData, now);
    var left := Burn(o, f, s.entries, kind, clientData, now).0;
    forall key: string ensures
      && (if key in left then left[key] else None) == Pending(s.log + events, key)
      && (key in left ==> left[key].Some?)
    {
      if |events| == 0 {
        assert s.log + events == s.log;
      } else {
        PendingAfter(s.log, events[0], key);
      }
    }
  }

  /** Whether a finished ceremony kept to what its start call asked for. */
  predicate Honours(context: Context, finished: Event)
    requires finished.Finished?
  {
    && (context.userId.Some? ==> context.userId == Some(finished.userId))
    && (context.userVerification == Some(Required) ==> finished.userVerified)
  }

  /** The i-th event started the ceremony that the j-th finished; in between only its challenge was burnt. */
  predicate Origin(log: seq<Event>, i: nat, j: nat)
    requires i < j < |log| && log[j].Finished?
  {
    && log[i].Started? && log[i].key == log[j].key && Honours(log[i].context, log[j])
    && log[j - 1] == Burnt(log[j].key)
    && forall n :: i < n < j - 1 ==> log[n].key != log[j].key
  }

  predicate AllHaveOrigin(log: seq<Event>) {
    forall j :: 0 <= j < |log| && log[j].Finished? ==> exists i :: 0 <= i < j && Origin(log, i, j)
  }

  lemma {:induction false} PendingHasStart(log: seq<Event>, key: string) returns (i: nat)
    requires Pending(log, key).Some?
    requires forall n :: 0 <= n < |log| && log[n].Finished? ==> n > 0 && log[n - 1] == Burnt(log[n].key)
    ensures i < |log| && log[i] == Started(key, Pending(log, key).value)
    ensures forall n :: i < n < |log| ==> log[n].key != key
    decreases |log|
  {
    var last, before := log[|log| - 1], log[..|log| - 1];
    if last.key == key && last.Started? {
      i := |log| - 1;
    } else {
      assert forall n :: 0 <= n < |before| ==> before[n] == log[n];
      i := PendingHasStart(before, key);
    }
  }

  /** Appending events none of which is a finish keeps every origin. */
  lemma OriginsStay(log: seq<Event>, more: seq<Event>)
    requires AllHaveOrigin(log) && forall n :: 0 <= n < |more| ==> !more[n].Finished?
    ensures AllHaveOrigin(log + more)
  {
    var all := log + more;
    forall j | 0 <= j < |all| && all[j].Finished? ensures exists i :: 0 <= i < j && Origin(all, i, j) {
      assert j < |log| && all[j] == log[j];
      var i :| 0 <= i < j && Origin(log, i, j);
      assert forall n :: 0 <= n <= j ==> all[n] == log[n];
      assert Origin(all, i, j);
    }
  }

  lemma OriginsKnown(log: seq<Event>)
    requires AllHaveOrigin(log)
    ensures forall n :: 0 <= n < |log| && log[n].Finished? ==> n > 0 && log[n - 1] == Burnt(log[n].key)
  {
  }

  /** A burnt challenge and the finish that follows it have their origin in what was pending. */
  lemma FinishHasOrigin(log: seq<Event>, finished: Event)
    requires AllHaveOrigin(log) && finished.Finished?
    requires Pending(log, finished.key).Some? && Honours(Pending(log, finished.key).value, finished)
    ensures AllHaveOrigin(log + [Burnt(finished.key)] + [finished])
  {
    OriginsKnown(log);
    var i := PendingHasStart(log, finished.key);
    var burnt := log + [Burnt(finished.key)];
    OriginsStay(log, [Burnt(finished.key)]);
    var all := burnt + [finished];
    forall j | 0 <= j < |all| && all[j].Finished? ensures exists k :: 0 <= k < j && Origin(all, k, j) {
      if j < |burnt| {
        assert all[j] == burnt[j];
        var k :| 0 <= k < j && Origin(burnt, k, j);
        assert forall n :: 0 <= n <= j ==> all[n] == burnt[n];
        assert Origin(all, k, j);
      } else {
        assert forall n :: 0 <= n < |log| ==> all[n] == log[n];
        assert Origin(all, i, j);
      }
    }
  }

  ghost predicate Good(s: State) {
    Mirrors(s) && AllHaveOrigin(s.log)
  }

  lemma RegisterKeepsGood(s: State, step: Step)
    requires Good(s) && step.RegisterCall?
    ensures Good(ApplyRegister(s, step))
  {
    hide Pending, Burn, BurnEvents, JudgeRegistration, AllHaveOrigin, KeyAsked;
    var clientData := step.registration.clientData;
    var events := BurnEvents(step.o, step.f, s.entries, Registration, clientData, step.now);
    BurnMirrors(s, step.o, step.f, Registration, clientData, step.now);
    var context := Burn(step.o, step.f, s.entries, Registration, clientData, step.now).1;
    NoFinishAmong(step.o, step.f, s.entries, Registration, clientData, step.now);
    OriginsStay(s.log, events);
    var t := ApplyRegister(s, step);
    if context.Ok?
       && JudgeRegistration(step.o, step.f, context.value, step.registration, step.expectedUser, step.later).Ok?
    {
      RegistrationKeepsPolicy(step.o, step.f, context.value, step.registration, step.expectedUser, step.later);
      var finished := t.log[|t.log| - 1];
      FinishHasOrigin(s.log, finished);
      FinishMirrors(State(t.entries, s.log + events), finished);
    } else {
      assert t.log == s.log + events;
    }
  }

  lemma AuthenticateKeepsGood(s: State, step: Step)
    requires Good(s) && step.AuthenticateCall?
    ensures Good(ApplyAuthenticate(s, step))
  {
    hide Pending, Burn, BurnEvents, JudgeAuthentication, AllHaveOrigin, KeyAsked;
    var clientData := step.assertion.clientData;
    var events := BurnEvents(step.o, step.f, s.entries, Authentication, clientData, step.now);
    BurnMirrors(s, step.o, step.f, Authentication, clientData, step.now);
    var context := Burn(step.o, step.f, s.entries, Authentication, clientData, step.now).1;
    NoFinishAmong(step.o, step.f, s.entries, Authentication, clientData, step.now);
    OriginsStay(s.log, events);
    var t := ApplyAuthenticate(s, step);
    if context.Ok? && JudgeAuthentication(step.o, step.f, context.value, step.assertion, step.credential).Ok? {
      AuthenticationKeepsPolicy(step.o, step.f, context.value, step.assertion, step.credential);
      var finished := t.log[|t.log| - 1];
      FinishHasOrigin(s.log, finished);
      FinishMirrors(State(t.entries, s.log + events), finished);
    } else {
      assert t.log == s.log + events;
    }
  }

  lemma NoFinishAmong(o: Options, f: Ceremony.Facilities, entries: Entries, kind: CeremonyType,
                      clientData: ByteString, now: int)
    ensures var events := BurnEvents(o, f, entries, kind, clientData, now);
      forall n :: 0 <= n < |events| ==> !events[n].Finished?
  {
  }

  lemma FinishMirrors(s: State, finished: Event)
    requires Mirrors(s) && finished.Finished?
    ensures Mirrors(s.(log := s.log + [finished]))
  {
    hide Pending;
    forall key: string ensures Pending(s.log + [finished], key) == Pending(s.log, key) {
      PendingAfter(s.log, finished, key);
    }
  }

  lemma StepKeepsGood(s: State, step: Step)
    requires Good(s)
    ensures Good(Apply(s, step))
  {
    hide Pending, AllHaveOrigin, ApplyRegister, ApplyAuthenticate;
    match step
    case RegisterCall(_, _, _, _, _, _) => RegisterKeepsGood(s, step);
    case AuthenticateCall(_, _, _, _, _) => AuthenticateKeepsGood(s, step);
    case _ =>
      var t := Apply(s, step);
      if t != s {
        var e := t.log[|s.log|];
        assert t.log == s.log + [e];
        OriginsStay(s.log, [e]);
        forall key: string ensures
          && (if key in t.entries then t.entries[key] else None) == Pending(t.log, key)
          && (key in t.entries ==> t.entries[key].Some?)
        {
          PendingAfter(s.log, e, key);
        }
      }
  }

  // ---- Runs ------------------------------------------------------------------------------

  predicate IsRun(run: seq<State>, steps: seq<Step>) {
    && |run| == |steps| + 1 && run[0] == State(map[], [])
    && forall i :: 0 <= i < |steps| ==> run[i + 1] == Apply(run[i], steps[i])
  }

  lemma {:induction false} RunIsGood(run: seq<State>, steps: seq<Step>, i: nat)
    requires IsRun(run, steps) && i < |run|
    ensures Good(run[i])
  {
    hide Apply;
    if i > 0 {
      RunIsGood(run, steps, i - 1);
      StepKeepsGood(run[i - 1], steps[i - 1]);
    }
  }

  // ---- From a finish back to its start call ------------------------------------------------

  /** Only a start call puts a record into the store. */
  lemma RecordsComeFromStarts(s: State, step: Step, key: string)
    requires key in Apply(s, step).entries && (key !in s.entries || Apply(s, step).entries[key] != s.entries[key])
    ensures step.StartCall? && key == ChallengeKey(step.o, step.kind, step.challenge)
    ensures Apply(s, step).entries[key].Some?
    ensures Records(step.o, step.kind, step.userId, step.uv, step.now, Apply(s, step).entries[key].value)
    ensures Apply(s, step).log == s.log + [Started(key, Apply(s, step).entries[key].value)]
  {
    hide JudgeRegistration, JudgeAuthentication, Ceremony.ExtractChallenge, ChallengeKey, Records;
    if step.StartCall? {
      StartExactly(step.o, s.entries, step.kind, step.userId, step.uv, step.challenge, step.now);
      KeySpelled(step.o, step.kind, step.challenge);
    }
  }

  /** Whatever lies in the store was put there by some start call, and has lain there untouched since. */
  lemma {:induction false} RecordTraced(run: seq<State>, steps: seq<Step>, m: nat, key: string) returns (k: nat)
    requires IsRun(run, steps) && m < |run| && key in run[m].entries
    ensures k < m && steps[k].StartCall? && key == ChallengeKey(steps[k].o, steps[k].kind, steps[k].challenge)
    ensures run[m].entries[key].Some?
    ensures Records(steps[k].o, steps[k].kind, steps[k].userId, steps[k].uv, steps[k].now,
                    run[m].entries[key].value)
    ensures run[k + 1].log == run[k].log + [Started(key, run[m].entries[key].value)]
    ensures forall n :: k < n <= m ==> key in run[n].entries && run[n].entries[key] == run[m].entries[key]
  {
    hide Apply, ChallengeKey, Records;
    var s := run[m - 1];
    if key in s.entries && s.entries[key] == run[m].entries[key] {
      k := RecordTraced(run, steps, m - 1, key);
    } else {
      RecordsComeFromStarts(s, steps[m - 1], key);
      k := m - 1;
    }
  }

  /** The requirement that a start call set: its own, else its server's. */
  predicate Demanded(start: Step)
    requires start.StartCall?
  {
    start.uv == Some(Required) || (start.uv.None? && start.o.userVerification == Some(Required))
  }

  /** A start call for this kind of ceremony, whose challenge is asked for in time. */
  predicate Answers(start: Step, kind: CeremonyType, o: Options, challenge: string, now: int) {
    && start.StartCall? && start.kind == kind
    && ChallengeKey(start.o, kind, start.challenge) == ChallengeKey(o, kind, challenge)
    && now - start.now < start.o.timeoutMs + 1000
  }

  /**
   * A registration that finishes goes back to a start call: for a registration, under the key of the challenge that
   * the response carries, not longer ago than its timeout in whole seconds, and for the user that is returned. The
   * user was verified if that call demanded it, and nothing else has touched the record since.
   */
  lemma RegistrationTraced(run: seq<State>, steps: seq<Step>, m: nat, r: FinishedRegistration)
      returns (k: nat, challenge: string)
    requires IsRun(run, steps) && m < |steps| && steps[m].RegisterCall?
    requires FinishRegistration(steps[m].o, steps[m].f, run[m].entries, steps[m].registration,
                                steps[m].expectedUser, steps[m].now, steps[m].later).1 == Ok(r)
    ensures k < m && Carries(steps[m].f, steps[m].registration.clientData, challenge)
    ensures Answers(steps[k], Registration, steps[m].o, challenge, steps[m].now)
    ensures steps[k].userId == Some(r.userId)
    ensures steps[m].expectedUser.Some? ==> steps[m].expectedUser.value == r.userId
    ensures r.verified.authData.UserPresent() && (Demanded(steps[k]) ==> r.verified.authData.UserVerified())
    ensures Untouched(run, k, m, ChallengeKey(steps[m].o, Registration, challenge))
  {
    hide Apply, FinishRegistration, Carries, ChallengeKey, Ceremony.ClientDataShown, Ceremony.ParseAttestationObject;
    hide Attestation.Verify, Cose.ParseKey, AuthData.Parse, Cose.Sound;
    var step := steps[m];
    RegistrationExactly(step.o, step.f, run[m].entries, step.registration, step.expectedUser, step.now, step.later, r);
    var context: Context, e: Ceremony.Expectations;
    challenge, context, e :|
      && Carries(step.f, step.registration.clientData, challenge)
      && Live(step.o, run[m].entries, Registration, challenge, step.now, context)
      && RegistrationEarned(step.o, step.f, step.registration, step.expectedUser, step.later, challenge, context, e, r);
    k := RecordTraced(run, steps, m, ChallengeKey(step.o, Registration, challenge));
  }

  /** The record put into the store by the k-th step lies there, unchanged, until the m-th. */
  predicate Untouched(run: seq<State>, k: nat, m: nat, key: string)
    requires k < m < |run|
  {
    && key in run[k + 1].entries
    && forall n :: k < n <= m ==> key in run[n].entries && run[n].entries[key] == run[k + 1].entries[key]
  }

  /** An authentication likewise; its user is that of the start call where that named one. */
  lemma AuthenticationTraced(run: seq<State>, steps: seq<Step>, m: nat, r: FinishedAuthentication)
      returns (k: nat, challenge: string)
    requires IsRun(run, steps) && m < |steps| && steps[m].AuthenticateCall?
    requires FinishAuthentication(steps[m].o, steps[m].f, run[m].entries, steps[m].assertion, steps[m].credential,
                                  steps[m].now).1 == Ok(r)
    ensures k < m && Carries(steps[m].f, steps[m].assertion.clientData, challenge)
    ensures Answers(steps[k], Authentication, steps[m].o, challenge, steps[m].now)
    ensures steps[k].userId.Some? ==> steps[k].userId.value == r.userId
    ensures steps[m].credential.userId.Some? ==> steps[m].credential.userId.value == r.userId
    ensures r.verified.authData.UserPresent() && (Demanded(steps[k]) ==> r.verified.authData.UserVerified())
    ensures Untouched(run, k, m, ChallengeKey(steps[m].o, Authentication, challenge))
  {
    hide Apply, FinishAuthentication, Carries, ChallengeKey, Ceremony.ClientDataShown, Cose.ParseKey, AuthData.Parse;
    hide Cose.Sound;
    var step := steps[m];
    AuthenticationExactly(step.o, step.f, run[m].entries, step.assertion, step.credential, step.now, r);
    var context: Context, e: Ceremony.Expectations;
    challenge, context, e :|
      && Carries(step.f, step.assertion.clientData, challenge)
      && Live(step.o, run[m].entries, Authentication, challenge, step.now, context)
      && AuthenticationEarned(step.o, step.f, step.assertion, step.credential, challenge, context, e, r);
    k := RecordTraced(run, steps, m, ChallengeKey(step.o, Authentication, challenge));
  }

  /** The start call that logged a start, with what it was called with. */
  lemma {:induction false} StartLogged(run: seq<State>, steps: seq<Step>, i: nat, start: nat) returns (k: nat)
    requires IsRun(run, steps) && i < |run| && start < |run[i].log| && run[i].log[start].Started?
    ensures k < i && steps[k].StartCall? && |run[k].log| == start
    ensures run[i].log[start].key == ChallengeKey(steps[k].o, steps[k].kind, steps[k].challenge)
    ensures Records(steps[k].o, steps[k].kind, steps[k].userId, steps[k].uv, steps[k].now, run[i].log[start].context)
  {
    hide Apply, ChallengeKey, Records;
    var s := run[i - 1];
    LogGrows(s, steps[i - 1]);
    if start < |s.log| {
      k := StartLogged(run, steps, i - 1, start);
    } else {
      k := i - 1;
    }
  }

  lemma LogGrows(s: State, step: Step)
    ensures s.log <= Apply(s, step).log
    ensures forall n :: |s.log| <= n < |Apply(s, step).log| && Apply(s, step).log[n].Started? ==>
      && step.StartCall? && n == |s.log|
      && Apply(s, step).log[n].key == ChallengeKey(step.o, step.kind, step.challenge)
      && Records(step.o, step.kind, step.userId, step.uv, step.now, Apply(s, step).log[n].context)
  {
    hide JudgeRegistration, JudgeAuthentication, Ceremony.ExtractChallenge, Burn, ChallengeKey, Records;
    if step.StartCall? {
      StartExactly(step.o, s.entries, step.kind, step.userId, step.uv, step.challenge, step.now);
      KeySpelled(step.o, step.kind, step.challenge);
    }
  }

  /**
   * Every ceremony that finishes was started under its key, by a call for that user if for any, and with the flag
   * set whenever that call demanded it, whatever else the server was set to; nothing else had happened to its
   * challenge in between.
   */
  lemma FinishedAsStarted(run: seq<State>, steps: seq<Step>, i: nat, j: nat) returns (start: nat, k: nat)
    requires IsRun(run, steps) && i < |run| && j < |run[i].log| && run[i].log[j].Finished?
    ensures start < j && Origin(run[i].log, start, j)
    ensures k < i && steps[k].StartCall? && |run[k].log| == start
    ensures run[i].log[j].key == ChallengeKey(steps[k].o, steps[k].kind, steps[k].challenge)
    ensures steps[k].userId.Some? ==> run[i].log[j].userId == steps[k].userId.value
    ensures Demanded(steps[k]) ==> run[i].log[j].userVerified
  {
    hide Apply, Mirrors, ChallengeKey;
    RunIsGood(run, steps, i);
    start :| 0 <= start < j && Origin(run[i].log, start, j);
    k := StartLogged(run, steps, i, start);
  }

  /** No start is finished twice: between two finishes under one key there is a start of its own. */
  lemma EachStartFinishesOnce(run: seq<State>, steps: seq<Step>, i: nat, j: nat, k: nat) returns (start: nat)
    requires IsRun(run, steps) && i < |run| && j < k < |run[i].log|
    requires run[i].log[j].Finished? && run[i].log[k].Finished? && run[i].log[j].key == run[i].log[k].key
    ensures j < start < k && Origin(run[i].log, start, k)
  {
    var call: nat;
    start, call := FinishedAsStarted(run, steps, i, k);
  }

  // ---- Conservation ------------------------------------------------------------------------

  function Issues(log: seq<Event>, key: string): nat {
    if |log| == 0 then 0
    else Issues(log[..|log| - 1], key) + if log[|log| - 1].Started? && log[|log| - 1].key == key then 1 else 0
  }

  function Consumptions(log: seq<Event>, key: string): nat {
    if |log| == 0 then 0
    else Consumptions(log[..|log| - 1], key) + if log[|log| - 1] == Burnt(key) then 1 else 0
  }

  function Expiries(log: seq<Event>, key: string): nat {
    if |log| == 0 then 0
    else
      Expiries(log[..|log| - 1], key)
      + if log[|log| - 1] == Lapsed(key) || log[|log| - 1] == Dropped(key) then 1 else 0
  }

  /** A key is issued only when nothing is pending under it, and taken or dropped only when something is. */
  predicate Alternates(log: seq<Event>) {
    forall n :: 0 <= n < |log| && !log[n].Finished? ==>
      (log[n].Started? <==> Pending(log[..n], log[n].key).None?)
  }

  lemma AlternatesGrows(log: seq<Event>, e: Event)
    requires Alternates(log)
    requires !e.Finished? ==> (e.Started? <==> Pending(log, e.key).None?)
    ensures Alternates(log + [e])
  {
    hide Pending;
    var all := log + [e];
    assert all[..|log|] == log;
    assert forall n :: 0 <= n < |log| ==> all[n] == log[n] && all[..n] == log[..n];
  }

  lemma BurnAlternates(s: State, o: Options, f: Ceremony.Facilities, kind: CeremonyType, clientData: ByteString,
                       now: int)
    requires Mirrors(s) && Alternates(s.log)
    ensures Alternates(s.log + BurnEvents(o, f, s.entries, kind, clientData, now))
  {
    hide Pending, Alternates;
    var events := BurnEvents(o, f, s.entries, kind, clientData, now);
    if |events| == 0 {
      assert s.log + events == s.log;
    } else {
      AlternatesGrows(s.log, events[0]);
    }
  }

  lemma StepAlternates(s: State, step: Step)
    requires Good(s) && Alternates(s.log)
    ensures Alternates(Apply(s, step).log)
  {
    hide Pending, Alternates, AllHaveOrigin, BurnEvents, FinishRegistration, FinishAuthentication;
    var t := Apply(s, step);
    if step.RegisterCall? || step.AuthenticateCall? {
      var kind := if step.RegisterCall? then Registration else Authentication;
      var clientData := if step.RegisterCall? then step.registration.clientData else step.assertion.clientData;
      BurnAlternates(s, step.o, step.f, kind, clientData, step.now);
      var burnt := s.log + BurnEvents(step.o, step.f, s.entries, kind, clientData, step.now);
      if t.log != burnt {
        AlternatesGrows(burnt, t.log[|t.log| - 1]);
      }
    } else if t.log != s.log {
      AlternatesGrows(s.log, t.log[|s.log|]);
    }
  }

  lemma {:induction false} RunAlternates(run: seq<State>, steps: seq<Step>, i: nat)
    requires IsRun(run, steps) && i < |run|
    ensures Alternates(run[i].log)
  {
    hide Apply;
    if i > 0 {
      RunAlternates(run, steps, i - 1);
      RunIsGood(run, steps, i - 1);
      StepAlternates(run[i - 1], steps[i - 1]);
    }
  }

  lemma {:induction false} CountsBalance(log: seq<Event>, key: string)
    requires Alternates(log)
    ensures Issues(log, key)
            == Consumptions(log, key) + Expiries(log, key) + if Pending(log, key).Some? then 1 else 0
    decreases |log|
  {
    if |log| > 0 {
      var before := log[..|log| - 1];
      assert forall n :: 0 <= n < |before| ==> log[n] == before[n] && log[..n] == before[..n];
      CountsBalance(before, key);
    }
  }

  /** For every ceremony type and challenge, over every run: issued = live + consumed + expired. */
  lemma ChallengesAreConserved(
      run: seq<State>, steps: seq<Step>, i: nat, c: Config, kind: CeremonyType, challenge: string)
    requires IsRun(run, steps) && i < |run|
    ensures var key := StoreKey(c, kind, challenge);
      Issues(run[i].log, key)
      == (if key in run[i].entries then 1 else 0) + Consumptions(run[i].log, key) + Expiries(run[i].log, key)
  {
    hide Apply, Pending, Issues, Consumptions, Expiries, AllHaveOrigin, Alternates;
    var key := StoreKey(c, kind, challenge);
    RunIsGood(run, steps, i);
    RunAlternates(run, steps, i);
    CountsBalance(run[i].log, key);
  }

  /** A finish call, however it ends, leaves no live record under the key it asked for. */
  lemma FailedFinishLeavesNothing(s: State, step: Step)
    requires step.RegisterCall? || step.AuthenticateCall?
    ensures var kind := if step.RegisterCall? then Registration else Authentication;
      var clientData := if step.RegisterCall? then step.registration.clientData else step.assertion.clientData;
      var key := KeyAsked(step.o, step.f, kind, clientData);
      key.Some? ==> key.value !in Apply(s, step).entries
  {
    hide JudgeRegistration, JudgeAuthentication, Ceremony.ExtractChallenge;
  }
}
