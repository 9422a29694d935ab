/** Challenge issuance and single-use consumption over a store with two atomic operations. */
module Challenge {
  import opened Wrappers
  import Text

  datatype CeremonyType = Registration | Authentication

  datatype UserVerification = Required | Preferred | Discouraged

  datatype Error =
    | BadTtl
    | BadChallengeBytes
    | Collision
    | EmptyChallenge
    | ImplausibleLength
    | NotFound
    | MalformedRecord
    | Expired
    | WrongCeremony

  /** What is recorded when a challenge is issued; times are in milliseconds. */
  datatype Context = Context(
    kind: CeremonyType, userId: Option<string>, issuedAt: int, expiresAt: int,
    userVerification: Option<UserVerification>)

  datatype Issued = Issued(challenge: string, expiresAt: int)

  /** A stored record: a context, or text that is not one. */
  type Entries = map<string, Option<Context>>

  const MIN_CHALLENGE_BYTES := 16
  const MAX_TTL_SECONDS := 3600
  const MAX_CHALLENGE_INPUT := 512

  function TypeName(kind: CeremonyType): string {
    if kind.Registration? then "registration" else "authentication"
  }

  /** The length of the base64url text of so many random bytes. */
  function TokenLength(bytes: nat): nat {
    (4 * bytes + 2) / 3
  }

  /** What a manager is configured with; `hash` is the hash of a challenge as text. */
  datatype Config = Config(ttlSeconds: int, challengeBytes: int, keyPrefix: string, hash: string -> string)

  predicate ValidConfig(c: Config) {
    0 < c.ttlSeconds <= MAX_TTL_SECONDS && c.challengeBytes >= MIN_CHALLENGE_BYTES
  }

  function StoreKey(c: Config, kind: CeremonyType, challenge: string): string {
    c.keyPrefix + ":challenge:" + TypeName(kind) + ":" + c.hash(challenge)
  }

  function MakeContext(c: Config, kind: CeremonyType, userId: Option<string>,
                       userVerification: Option<UserVerification>, now: int): Context
  {
    Context(kind, userId, now, now + c.ttlSeconds * 1000, userVerification)
  }

  // ---- What the operations do to the store -------------------------------------------------

  function Issue(c: Config, entries: Entries, challenge: string, context: Context): (Entries, Result<Issued, Error>) {
    var key := StoreKey(c, context.kind, challenge);
    if key in entries then (entries, Err(Collision))
    else (entries[key := Some(context)], Ok(Issued(challenge, context.expiresAt)))
  }

  /** The checks on a record that has been taken out of the store. */
  function Accept(record: Option<Context>, kind: CeremonyType, now: int): Result<Context, Error> {
    match record
    case None => Err(MalformedRecord)
    case Some(context) =>
      if now > context.expiresAt then Err(Expired)
      else if context.kind != kind then Err(WrongCeremony)
      else Ok(context)
  }

  function Consume(c: Config, entries: Entries, kind: CeremonyType, challenge: string, now: int)
    : (Entries, Result<Context, Error>)
  {
    if |challenge| == 0 then (entries, Err(EmptyChallenge))
    else if |challenge| > MAX_CHALLENGE_INPUT then (entries, Err(ImplausibleLength))
    else
      var key := StoreKey(c, kind, challenge);
      if key !in entries then (entries, Err(NotFound)) else (entries - {key}, Accept(entries[key], kind, now))
  }

  // ---- The store and the manager -----------------------------------------------------------

  class Store {
    var entries: Entries

    constructor ()
      ensures entries == map[]
    {
      entries := map[];
    }

    method SetIfAbsent(key: string, context: Context) returns (stored: bool)
      modifies this
      ensures stored == (key !in old(entries))
      ensures entries == if stored then old(entries)[key := Some(context)] else old(entries)
    {
      stored := key !in entries;
      if stored {
        entries := entries[key := Some(context)];
      }
    }

    method Take(key: string) returns (record: Option<Option<Context>>)
      modifies this
      ensures record == if key in old(entries) then Some(old(entries)[key]) else None
      ensures entries == old(entries) - {key}
    {
      record := if key in entries then Some(entries[key]) else None;
      entries := entries - {key};
    }
  }

  class ChallengeManager {
    const store: Store
    const config: Config

    constructor (store: Store, config: Config)
      requires ValidConfig(config)
      ensures this.store == store && this.config == config
    {
      this.store := store;
      this.config := config;
    }

    /** `challenge` is the random text that was generated, `now` the one reading of the clock. */
    method IssueChallenge(kind: CeremonyType, userId: Option<string>, userVerification: Option<UserVerification>,
                          challenge: string, now: int) returns (r: Result<Issued, Error>)
      modifies store
      ensures (store.entries, r)
              == Issue(config, old(store.entries), challenge, MakeContext(config, kind, userId, userVerification, now))
    {
      var context := MakeContext(config, kind, userId, userVerification, now);
      var stored := store.SetIfAbsent(StoreKey(config, kind, challenge), context);
      if !stored {
        return Err(Collision);
      }
      return Ok(Issued(challenge, context.expiresAt));
    }

    method ConsumeChallenge(kind: CeremonyType, challenge: string, now: int) returns (r: Result<Context, Error>)
      modifies store
      ensures (store.entries, r) == Consume(config, old(store.entries), kind, challenge, now)
    {
      if |challenge| == 0 {
        return Err(EmptyChallenge);
      }
      if |challenge| > MAX_CHALLENGE_INPUT {
        return Err(ImplausibleLength);
      }
      var key := StoreKey(config, kind, challenge);
      var raw := store.Take(key);
      if raw.None? {
        assert store.entries == old(store.entries);
        return Err(NotFound);
      }
      r := Accept(raw.value, kind, now);
    }
  }

  /** A manager, or the reason its options were refused. */
  method CreateManager(store: Store, config: Config) returns (r: Result<ChallengeManager, Error>)
    ensures r.Ok? <==> 1 <= config.ttlSeconds <= 3600 && config.challengeBytes >= 16
    ensures r.Ok? ==> r.value.store == store && r.value.config == config && fresh(r.value)
    ensures r.Err? ==> r.error == if 1 <= config.ttlSeconds <= 3600 then BadChallengeBytes else BadTtl
  {
    if config.ttlSeconds <= 0 || config.ttlSeconds > MAX_TTL_SECONDS {
      return Err(BadTtl);
    }
    if config.challengeBytes < MIN_CHALLENGE_BYTES {
      return Err(BadChallengeBytes);
    }
    var manager := new ChallengeManager(store, config);
    return Ok(manager);
  }

  // ---- Keys ------------------------------------------------------------------------------

  /** No two challenges hash alike. */
  ghost predicate Injective(hash: string -> string) {
    forall x, y :: hash(x) == hash(y) ==> x == y
  }

  /** A store key belongs to one ceremony type and one challenge: neither type finds the other's. */
  lemma StoreKeyInjective(c: Config, kindA: CeremonyType, a: string, kindB: CeremonyType, b: string)
    requires Injective(c.hash) && StoreKey(c, kindA, a) == StoreKey(c, kindB, b)
    ensures kindA == kindB && a == b
  {
    var prefix := c.keyPrefix + ":challenge:";
    assert StoreKey(c, kindA, a) == prefix + TypeName(kindA) + [':'] + c.hash(a);
    assert StoreKey(c, kindB, b) == prefix + TypeName(kindB) + [':'] + c.hash(b);
    Text.JoinInjective(prefix, TypeName(kindA), TypeName(kindB), c.hash(a), c.hash(b), ':');
    assert |TypeName(Registration)| == 12 && |TypeName(Authentication)| == 14;
  }

  // ---- Consumption -------------------------------------------------------------------------

  /**
   * A consumed challenge is gone whatever the outcome, unless it was turned away for its length before the
   * store was asked.
   */
  lemma ConsumeLeavesNothing(c: Config, entries: Entries, kind: CeremonyType, challenge: string, now: int)
    ensures StoreKey(c, kind, challenge) !in Consume(c, entries, kind, challenge, now).0
            <==> StoreKey(c, kind, challenge) !in entries || 0 < |challenge| <= MAX_CHALLENGE_INPUT
  {
  }

  /** An issued challenge is consumed in its time if and only if its text is within the accepted length. */
  lemma IssuedIsConsumable(
      c: Config, entries: Entries, challenge: string, context: Context, now: int)
    requires StoreKey(c, context.kind, challenge) !in entries && now <= context.expiresAt
    ensures var stored := Issue(c, entries, challenge, context).0;
      Consume(c, stored, context.kind, challenge, now).1 == Ok(context)
      <==> 0 < |challenge| <= MAX_CHALLENGE_INPUT
  {
  }

  /**
   * A manager configured for up to 384 random bytes issues challenges that can be consumed in their time. One
   * configured for more issues them all the same, and refuses every one of them at any time, from any store.
   */
  lemma ConsumableSizes(c: Config, entries: Entries, challenge: string, context: Context, later: Entries, now: int)
    requires ValidConfig(c) && |challenge| == TokenLength(c.challengeBytes)
    requires Issue(c, entries, challenge, context).1.Ok?
    ensures Consume(c, Issue(c, entries, challenge, context).0, context.kind, challenge, now).1 == Ok(context)
            <==> c.challengeBytes <= 384 && now <= context.expiresAt
    ensures c.challengeBytes > 384 ==>
      forall kind :: Consume(c, later, kind, challenge, now) == (later, Err(ImplausibleLength))
  {
  }

  /** Challenges of one ceremony type are never consumed by the other: to it the store is empty. */
  lemma TypesAreSeparate(c: Config, entries: Entries, kind: CeremonyType, other: CeremonyType, challenge: string,
                         now: int)
    requires Injective(c.hash) && kind != other
    requires forall key :: key in entries ==> exists ch :: key == StoreKey(c, other, ch)
    ensures Consume(c, entries, kind, challenge, now).1.Err?
    ensures Consume(c, entries, kind, challenge, now).0 == entries
  {
    var key := StoreKey(c, kind, challenge);
    if key in entries {
      var ch :| key == StoreKey(c, other, ch);
      StoreKeyInjective(c, kind, challenge, other, ch);
    }
  }
}
