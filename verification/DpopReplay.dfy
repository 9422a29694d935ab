/**
 * Single use of DPoP proof identifiers (section 11.1 of RFC 9449): the guard, the retention it is built with,
 * and runs of it over a store whose entries expire. Times are in milliseconds, settings in seconds.
 */
module DpopReplay {
  import opened Wrappers
  import StoreKeys

  datatype FailureMode = Open | Closed

  datatype Error = StoreUnavailable

  /** Keys and the moments their entries expire. */
  type Entries = map<string, int>

  datatype Settings = Settings(maxAgeSeconds: nat, clockToleranceSeconds: nat)

  /** How long an identifier is remembered. */
  function Retention(s: Settings): nat {
    s.maxAgeSeconds + 2 * s.clockToleranceSeconds + 1
  }

  /** Whether a proof made at `iat` is within its acceptance window at `now`. */
  predicate Acceptable(s: Settings, iat: int, now: int) {
    iat <= now + s.clockToleranceSeconds * 1000 && now - iat <= (s.maxAgeSeconds + s.clockToleranceSeconds) * 1000
  }

  predicate Held(entries: Entries, key: string, now: int) {
    key in entries && now < entries[key]
  }

  function KeyOf(jkt: string, jti: string): string {
    StoreKeys.Render(StoreKeys.DpopProof(jkt, jti))
  }

  // ---- The store and the guard -------------------------------------------------------------

  class ExpiringStore {
    var entries: Entries

    constructor ()
      ensures entries == map[]
    {
      entries := map[];
    }

    /** Records the key unless an entry is held under it, in one step. */
    method SetIfAbsent(key: string, ttlSeconds: nat, now: int) returns (stored: bool)
      modifies this
      ensures stored == !Held(old(entries), key, now)
      ensures entries == if stored then old(entries)[key := now + ttlSeconds * 1000] else old(entries)
    {
      stored := !(key in entries && now < entries[key]);
      if stored {
        entries := entries[key := now + ttlSeconds * 1000];
      }
    }
  }

  /** What a claim does: a reachable store decides it, an unreachable one leaves it to the failure mode. */
  function ClaimIn(mode: FailureMode, retention: nat, entries: Entries, key: string, now: int, reachable: bool)
    : (Entries, Result<bool, Error>)
  {
    if !reachable then (entries, if mode.Open? then Ok(true) else Err(StoreUnavailable))
    else if Held(entries, key, now) then (entries, Ok(false))
    else (entries[key := now + retention * 1000], Ok(true))
  }

  class DpopReplayGuard {
    const store: ExpiringStore
    const onStoreError: FailureMode
    const retentionSeconds: nat

    constructor (store: ExpiringStore, onStoreError: FailureMode, retentionSeconds: nat)
      ensures this.store == store && this.onStoreError == onStoreError && this.retentionSeconds == retentionSeconds
    {
      this.store := store;
      this.onStoreError := onStoreError;
      this.retentionSeconds := retentionSeconds;
    }

    /** Whether this is the first use; `reachable` says whether the store answers. */
    method Claim(jkt: string, jti: string, now: int, reachable: bool) returns (r: Result<bool, Error>)
      modifies store
      ensures (store.entries, r)
              == ClaimIn(onStoreError, retentionSeconds, old(store.entries), KeyOf(jkt, jti), now, reachable)
    {
      var key := KeyOf(jkt, jti);
      if !reachable {
        return if onStoreError.Open? then Ok(true) else Err(StoreUnavailable);
      }
      var first := store.SetIfAbsent(key, retentionSeconds, now);
      r := Ok(first);
    }
  }

  // ---- Runs ------------------------------------------------------------------------------

  /** A claim as it went: whose proof, when, whether the store answered, and whether it succeeded. */
  datatype Claimed = Claimed(jkt: string, jti: string, at: int, reached: bool, success: bool)

  datatype State = State(now: int, entries: Entries, claims: seq<Claimed>)

  /**
   * Time passes; a proof is claimed, while the store answers or not (and then it may have recorded the key all
   * the same); the store forgets an expired entry; other records come and go.
   */
  datatype Step =
    | Tick(milliseconds: nat)
    | Claim(jkt: string, jti: string, reachable: bool, recorded: bool)
    | Forget(key: string)
    | Other(key: string, expires: Option<int>)

  predicate IsProofKey(key: string) {
    StoreKeys.NAMESPACE + "dpop:" <= key
  }

  predicate Enabled(s: State, step: Step) {
    match step
    case Forget(key) => key in s.entries && !Held(s.entries, key, s.now)
    case Other(key, _) => !IsProofKey(key)
    case _ => true
  }

  /** One step of a guard in some mode, built with some retention. */
  function Apply(mode: FailureMode, retention: nat, s: State, step: Step): State
    requires Enabled(s, step)
  {
    match step
    case Tick(milliseconds) => s.(now := s.now + milliseconds)
    case Claim(jkt, jti, reachable, recorded) =>
      var key := KeyOf(jkt, jti);
      var (entries, r) := ClaimIn(mode, retention, s.entries, key, s.now, reachable);
      var after := if !reachable && recorded && !Held(entries, key, s.now)
                   then entries[key := s.now + retention * 1000] else entries;
      State(s.now, after, s.claims + [Claimed(jkt, jti, s.now, reachable, r == Ok(true))])
    case Forget(key) => s.(entries := s.entries - {key})
    case Other(key, expires) =>
      s.(entries := if expires.Some? then s.entries[key := expires.value] else s.entries - {key})
  }

  predicate IsRun(mode: FailureMode, retention: nat, run: seq<State>, steps: seq<Step>) {
    && |run| == |steps| + 1 && run[0].entries == map[] && run[0].claims == []
    && forall i :: 0 <= i < |steps| ==>
         Enabled(run[i], steps[i]) && run[i + 1] == Apply(mode, retention, run[i], steps[i])
  }

  /** A claim that the store itself let through. */
  predicate Recorded(c: Claimed) {
    c.success && c.reached
  }

  /** Every claim the store let through is remembered until its retention has passed. */
  predicate Remembered(retention: nat, s: State) {
    forall i :: 0 <= i < |s.claims| && Recorded(s.claims[i]) ==>
      && s.claims[i].at <= s.now
      && var expiry := s.claims[i].at + retention * 1000;
         s.now < expiry ==> KeyOf(s.claims[i].jkt, s.claims[i].jti) in s.entries
                            && s.entries[KeyOf(s.claims[i].jkt, s.claims[i].jti)] >= expiry
  }

  lemma ProofKeysAreTheirOwn(jkt: string, jti: string)
    ensures IsProofKey(KeyOf(jkt, jti))
  {
    var prefix := StoreKeys.NAMESPACE + "dpop:";
    assert KeyOf(jkt, jti) == prefix + (jkt + ":" + jti);
  }

  lemma StepRemembers(mode: FailureMode, retention: nat, s: State, step: Step)
    requires Enabled(s, step) && Remembered(retention, s)
    ensures Remembered(retention, Apply(mode, retention, s, step))
  {
    hide KeyOf, IsProofKey;
    var t := Apply(mode, retention, s, step);
    forall i | 0 <= i < |t.claims| && Recorded(t.claims[i]) ensures
      && t.claims[i].at <= t.now
      && var expiry := t.claims[i].at + retention * 1000;
         t.now < expiry ==> KeyOf(t.claims[i].jkt, t.claims[i].jti) in t.entries
                            && t.entries[KeyOf(t.claims[i].jkt, t.claims[i].jti)] >= expiry
    {
      ProofKeysAreTheirOwn(t.claims[i].jkt, t.claims[i].jti);
      if i < |s.claims| {
        assert t.claims[i] == s.claims[i];
      }
    }
  }

  lemma {:induction false} RunRemembers(
      mode: FailureMode, retention: nat, run: seq<State>, steps: seq<Step>, i: nat)
    requires IsRun(mode, retention, run, steps) && i < |run|
    ensures Remembered(retention, run[i])
  {
    hide Apply, Enabled, Remembered;
    if i == 0 {
      NothingToRemember(retention, run[0]);
    } else {
      RunRemembers(mode, retention, run, steps, i - 1);
      StepRemembers(mode, retention, run[i - 1], steps[i - 1]);
    }
  }

  lemma NothingToRemember(retention: nat, s: State)
    requires s.claims == []
    ensures Remembered(retention, s)
  {
  }

  /** In either mode, the store lets a claimed key through again only once the retention has run out. */
  lemma {:induction false} SecondSuccessIsLate(
      mode: FailureMode, retention: nat, run: seq<State>, steps: seq<Step>, i: nat, a: nat, b: nat)
    requires IsRun(mode, retention, run, steps) && i < |run| && a < b < |run[i].claims|
    requires var c := run[i].claims;
      Recorded(c[a]) && Recorded(c[b]) && KeyOf(c[a].jkt, c[a].jti) == KeyOf(c[b].jkt, c[b].jti)
    ensures run[i].claims[b].at >= run[i].claims[a].at + retention * 1000
    decreases i
  {
    hide KeyOf, Remembered;
    if i > 0 {
      var s := run[i - 1];
      if b < |s.claims| {
        assert s.claims[a] == run[i].claims[a] && s.claims[b] == run[i].claims[b];
        SecondSuccessIsLate(mode, retention, run, steps, i - 1, a, b);
      } else {
        RunRemembers(mode, retention, run, steps, i - 1);
        assert s.claims[a] == run[i].claims[a];
        if s.now < s.claims[a].at + retention * 1000 {
          StillHeld(retention, s, a);
        }
      }
    }
  }

  lemma StillHeld(retention: nat, s: State, a: nat)
    requires Remembered(retention, s) && a < |s.claims| && Recorded(s.claims[a])
    requires s.now < s.claims[a].at + retention * 1000
    ensures Held(s.entries, KeyOf(s.claims[a].jkt, s.claims[a].jti), s.now)
  {
    hide KeyOf;
  }

  /** In fail-closed mode only the store lets anything through. */
  lemma {:induction false} ClosedNeedsStore(retention: nat, run: seq<State>, steps: seq<Step>, i: nat, a: nat)
    requires IsRun(Closed, retention, run, steps) && i < |run| && a < |run[i].claims|
    ensures run[i].claims[a].success ==> run[i].claims[a].reached
    decreases i
  {
    hide KeyOf, Held;
    if i > 0 && a < |run[i - 1].claims| {
      assert run[i - 1].claims[a] == run[i].claims[a];
      ClosedNeedsStore(retention, run, steps, i - 1, a);
    }
  }

  // ---- Single use ------------------------------------------------------------------------

  /** Two claims of one proof, the first after a check that accepted it, the second within a second of one. */
  predicate BothTimely(settings: Settings, iat: int, checkedA: int, checkedB: int, a: Claimed, b: Claimed) {
    && a.jkt == b.jkt && a.jti == b.jti
    && Acceptable(settings, iat, checkedA) && checkedA <= a.at
    && Acceptable(settings, iat, checkedB) && b.at < checkedB + 1000
  }

  /**
   * With the configured retention, or any longer one, a proof is used twice while it is acceptable only in
   * fail-open mode, and only where one of the two claims found the store unreachable: in no other run, and not
   * even when each claim is made up to a second after the proof's age was checked.
   */
  lemma ReuseNeedsOutage(mode: FailureMode, settings: Settings, retention: nat, run: seq<State>, steps: seq<Step>,
                         i: nat, a: nat, b: nat, iat: int, checkedA: int, checkedB: int)
    requires retention >= Retention(settings)
    requires IsRun(mode, retention, run, steps) && i < |run| && a < b < |run[i].claims|
    requires BothTimely(settings, iat, checkedA, checkedB, run[i].claims[a], run[i].claims[b])
    requires run[i].claims[a].success && run[i].claims[b].success
    ensures mode.Open? && !(run[i].claims[a].reached && run[i].claims[b].reached)
  {
    hide KeyOf, IsRun;
    if run[i].claims[a].reached && run[i].claims[b].reached {
      SecondSuccessIsLate(mode, retention, run, steps, i, a, b);
    }
    if mode.Closed? {
      ClosedNeedsStore(retention, run, steps, i, a);
      ClosedNeedsStore(retention, run, steps, i, b);
    }
  }

  /** In fail-closed mode no proof is claimed with success twice while it is acceptable. */
  lemma NoProofIsUsedTwice(settings: Settings, run: seq<State>, steps: seq<Step>, i: nat, a: nat, b: nat,
                           iat: int, checkedA: int, checkedB: int)
    requires IsRun(Closed, Retention(settings), run, steps) && i < |run| && a < b < |run[i].claims|
    requires BothTimely(settings, iat, checkedA, checkedB, run[i].claims[a], run[i].claims[b])
    ensures !(run[i].claims[a].success && run[i].claims[b].success)
  {
    hide KeyOf, IsRun;
    if run[i].claims[a].success && run[i].claims[b].success {
      ReuseNeedsOutage(Closed, settings, Retention(settings), run, steps, i, a, b, iat, checkedA, checkedB);
    }
  }

  /** Claims of different proofs never meet under one key, unless a thumbprint holds a colon. */
  lemma ProofKeysDiffer(jktA: string, jtiA: string, jktB: string, jtiB: string)
    requires ':' !in jktA && ':' !in jktB && KeyOf(jktA, jtiA) == KeyOf(jktB, jtiB)
    ensures jktA == jktB && jtiA == jtiB
  {
    StoreKeys.KeysNeverCollide(StoreKeys.DpopProof(jktA, jtiA), StoreKeys.DpopProof(jktB, jtiB));
  }

  /**
   * The configured retention is the least that will do: under any shorter one, even in fail-closed mode with
   * the store always there, every proof has a run in which it is used at both ends of its window.
   */
  lemma ShorterRetentionForgets(settings: Settings, retention: nat, jkt: string, jti: string, iat: int)
      returns (run: seq<State>, steps: seq<Step>)
    requires retention < Retention(settings)
    ensures IsRun(Closed, retention, run, steps) && |run| == 4 && |run[3].claims| == 2
    ensures var a, b := run[3].claims[0], run[3].claims[1];
      && BothTimely(settings, iat, a.at, b.at, a, b) && a.jkt == jkt && a.jti == jti
      && Recorded(a) && Recorded(b)
  {
    hide KeyOf;
    var first := iat - settings.clockToleranceSeconds * 1000;
    var window: nat := (Retention(settings) - 1) * 1000;
    var use := Claim(jkt, jti, true, false);
    var s0 := State(first, map[], []);
    var s1 := Apply(Closed, retention, s0, use);
    var s2 := Apply(Closed, retention, s1, Tick(window));
    var s3 := Apply(Closed, retention, s2, use);
    run, steps := [s0, s1, s2, s3], [use, Tick(window), use];
    assert s1.entries[KeyOf(jkt, jti)] == first + retention * 1000 <= s2.now;
    assert s3.claims == [Claimed(jkt, jti, first, true, true)] + [Claimed(jkt, jti, first + window, true, true)];
  }

  /** In fail-open mode an unreachable store lets a proof through again and again. */
  lemma OpenModeRepeats(retention: nat, s: State, jkt: string, jti: string)
    ensures var step := Claim(jkt, jti, false, false);
      var once := Apply(Open, retention, s, step);
      var twice := Apply(Open, retention, once, step);
      && twice.now == s.now && twice.entries == s.entries
      && twice.claims == s.claims + [Claimed(jkt, jti, s.now, false, true), Claimed(jkt, jti, s.now, false, true)]
  {
    var e := Claimed(jkt, jti, s.now, false, true);
    assert s.claims + [e] + [e] == s.claims + [e, e];
  }
}
