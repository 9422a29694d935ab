/** The relying-party server: ceremonies started with a stored challenge and finished by burning it first. */
module Server {
  import opened Bytes
  import opened Wrappers
  import opened Challenge
  import Attestation
  import Ceremony

  /** How a server is configured; the optional settings fall back to the documented defaults. */
  datatype Options = Options(
    rpId: string, origins: seq<string>, timeoutMs: nat, algorithms: seq<int>,
    userVerification: Option<UserVerification>, allowCrossOrigin: bool, rejectRegression: bool,
    attestation: Attestation.Policy, keyPrefix: string, hash: string -> string)

  const CHALLENGE_BYTES := 32

  /** One number governs both the ceremony's timeout and the challenge's lifetime. */
  function ManagerConfig(o: Options): Config {
    Config((o.timeoutMs + 999) / 1000, CHALLENGE_BYTES, o.keyPrefix, o.hash)
  }

  /** The requirement in force: the call's own, the server's, or the default. */
  function EffectiveUv(own: Option<UserVerification>, server: Option<UserVerification>): UserVerification {
    if own.Some? then own.value else if server.Some? then server.value else Preferred
  }

  function StartContext(o: Options, kind: CeremonyType, userId: Option<string>, uv: Option<UserVerification>, now: int)
    : Context
  {
    MakeContext(ManagerConfig(o), kind, userId, Some(EffectiveUv(uv, o.userVerification)), now)
  }

  /** A start call is one issue of a challenge. */
  function Start(o: Options, entries: Entries, kind: CeremonyType, userId: Option<string>,
                 uv: Option<UserVerification>, challenge: string, now: int): (Entries, Result<Issued, Challenge.Error>)
  {
    Issue(ManagerConfig(o), entries, challenge, StartContext(o, kind, userId, uv, now))
  }

  /** Extracting and consuming the challenge comes before anything else is looked at. */
  function Burn(o: Options, f: Ceremony.Facilities, entries: Entries, kind: CeremonyType, clientData: ByteString,
                now: int): (Entries, Result<Context, Ceremony.Error>)
  {
    match Ceremony.ExtractChallenge(f, clientData)
    case Err(e) => (entries, Err(e))
    case Ok(challenge) =>
      var (left, r) := Consume(ManagerConfig(o), entries, kind, challenge, now);
      (left, if r.Ok? then Ok(r.value) else Err(Ceremony.BadChallenge(r.error)))
  }

  function ExpectationsFor(o: Options, f: Ceremony.Facilities, context: Context, clientData: ByteString)
    : Result<Ceremony.Expectations, Ceremony.Error>
  {
    var challenge :- Ceremony.ExtractChallenge(f, clientData);
    Ok(Ceremony.Expectations(o.rpId, o.origins, challenge, EffectiveUv(context.userVerification, o.userVerification),
                             o.allowCrossOrigin, o.algorithms))
  }

  datatype FinishedRegistration = FinishedRegistration(verified: Ceremony.Registered, userId: string)

  datatype FinishedAuthentication = FinishedAuthentication(verified: Ceremony.Authenticated, userId: string)

  /** What a registration is judged by once its challenge is burnt. */
  function JudgeRegistration(o: Options, f: Ceremony.Facilities, context: Context,
                             response: Ceremony.RegistrationResponse, expectedUser: Option<string>, now: int)
    : Result<FinishedRegistration, Ceremony.Error>
  {
    if context.userId.None? then Err(Ceremony.ChallengeWithoutUser)
    else if expectedUser.Some? && expectedUser != context.userId then Err(Ceremony.DifferentUser)
    else
      var e :- ExpectationsFor(o, f, context, response.clientData);
      var verified :- Ceremony.VerifyRegistration(f, now, response, e, o.attestation);
      Ok(FinishedRegistration(verified, context.userId.value))
  }

  function JudgeAuthentication(o: Options, f: Ceremony.Facilities, context: Context,
                               response: Ceremony.AuthenticationResponse, credential: Ceremony.StoredCredential)
    : Result<FinishedAuthentication, Ceremony.Error>
  {
    if context.userId.Some? && credential.userId.Some? && context.userId != credential.userId then
      Err(Ceremony.DifferentUser)
    else
      var e :- ExpectationsFor(o, f, context, response.clientData);
      var verified :- Ceremony.VerifyAuthentication(f, response, e, credential, o.rejectRegression);
      if credential.userId.Some? then Ok(FinishedAuthentication(verified, credential.userId.value))
      else if context.userId.Some? then Ok(FinishedAuthentication(verified, context.userId.value))
      else if verified.userHandle.Some? then Ok(FinishedAuthentication(verified, verified.userHandle.value))
      else Err(Ceremony.NoUser)
  }

  function FinishRegistration(o: Options, f: Ceremony.Facilities, entries: Entries,
                              response: Ceremony.RegistrationResponse, expectedUser: Option<string>,
                              now: int, later: int): (Entries, Result<FinishedRegistration, Ceremony.Error>)
  {
    var (left, context) := Burn(o, f, entries, Registration, response.clientData, now);
    (left, if context.Err? then Err(context.error)
           else JudgeRegistration(o, f, context.value, response, expectedUser, later))
  }

  function FinishAuthentication(o: Options, f: Ceremony.Facilities, entries: Entries,
                                response: Ceremony.AuthenticationResponse, credential: Ceremony.StoredCredential,
                                now: int): (Entries, Result<FinishedAuthentication, Ceremony.Error>)
  {
    var (left, context) := Burn(o, f, entries, Authentication, response.clientData, now);
    (left, if context.Err? then Err(context.error) else JudgeAuthentication(o, f, context.value, response, credential))
  }

  // ---- The server itself -------------------------------------------------------------------

  class WebAuthnServer {
    const options: Options
    const facilities: Ceremony.Facilities
    const challenges: ChallengeManager

    constructor (options: Options, facilities: Ceremony.Facilities, store: Store)
      requires ValidConfig(ManagerConfig(options))
      ensures this.options == options && this.facilities == facilities && Valid() && challenges.store == store
    {
      this.options := options;
      this.facilities := facilities;
      var manager := new ChallengeManager(store, ManagerConfig(options));
      challenges := manager;
    }

    ghost predicate Valid() {
      challenges.config == ManagerConfig(options)
    }

    method StartCeremony(kind: CeremonyType, userId: Option<string>, uv: Option<UserVerification>,
                         challenge: string, now: int) returns (r: Result<Issued, Challenge.Error>)
      requires Valid()
      modifies challenges.store
      ensures (challenges.store.entries, r)
              == Start(options, old(challenges.store.entries), kind, userId, uv, challenge, now)
    {
      var effective := EffectiveUv(uv, options.userVerification);
      r := challenges.IssueChallenge(kind, userId, Some(effective), challenge, now);
    }

    method BurnChallenge(kind: CeremonyType, clientData: ByteString, now: int)
        returns (r: Result<Context, Ceremony.Error>)
      requires Valid()
      modifies challenges.store
      ensures (challenges.store.entries, r)
              == Burn(options, facilities, old(challenges.store.entries), kind, clientData, now)
    {
      var challenge := Ceremony.ExtractChallenge(facilities, clientData);
      if challenge.Err? {
        return Err(challenge.error);
      }
      var context := challenges.ConsumeChallenge(kind, challenge.value, now);
      if context.Err? {
        return Err(Ceremony.BadChallenge(context.error));
      }
      r := Ok(context.value);
    }

    method Register(response: Ceremony.RegistrationResponse, expectedUser: Option<string>, now: int, later: int)
        returns (r: Result<FinishedRegistration, Ceremony.Error>)
      requires Valid()
      modifies challenges.store
      ensures (challenges.store.entries, r)
              == FinishRegistration(options, facilities, old(challenges.store.entries), response, expectedUser,
                                    now, later)
    {
      hide JudgeRegistration;
      var context := BurnChallenge(Registration, response.clientData, now);
      if context.Err? {
        return Err(context.error);
      }
      r := JudgeRegistration(options, facilities, context.value, response, expectedUser, later);
    }

    method Authenticate(response: Ceremony.AuthenticationResponse, credential: Ceremony.StoredCredential, now: int)
        returns (r: Result<FinishedAuthentication, Ceremony.Error>)
      requires Valid()
      modifies challenges.store
      ensures (challenges.store.entries, r)
              == FinishAuthentication(options, facilities, old(challenges.store.entries), response, credential, now)
    {
      hide JudgeAuthentication;
      var context := BurnChallenge(Authentication, response.clientData, now);
      if context.Err? {
        return Err(context.error);
      }
      r := JudgeAuthentication(options, facilities, context.value, response, credential);
    }
  }

  // ---- What finishing shows ----------------------------------------------------------------

  /** A finished registration belongs to the challenge's user and met the challenge's requirement. */
  lemma RegistrationKeepsPolicy(o: Options, f: Ceremony.Facilities, context: Context,
                                response: Ceremony.RegistrationResponse, expectedUser: Option<string>, now: int)
    requires JudgeRegistration(o, f, context, response, expectedUser, now).Ok?
    ensures var r := JudgeRegistration(o, f, context, response, expectedUser, now).value;
      && context.userId == Some(r.userId) && (expectedUser.Some? ==> expectedUser == Some(r.userId))
      && r.verified.authData.UserPresent()
      && (context.userVerification == Some(Required) ==> r.verified.authData.UserVerified())
  {
    hide Ceremony.VerifyRegistration;
    var e := ExpectationsFor(o, f, context, response.clientData).value;
    var verified := Ceremony.VerifyRegistration(f, now, response, e, o.attestation).value;
    Ceremony.RegistrationIsShown(f, now, response, e, o.attestation, verified);
  }

  /** A finished authentication is the challenge's user's, where it has one, and met its requirement. */
  lemma AuthenticationKeepsPolicy(o: Options, f: Ceremony.Facilities, context: Context,
                                  response: Ceremony.AuthenticationResponse, credential: Ceremony.StoredCredential)
    requires JudgeAuthentication(o, f, context, response, credential).Ok?
    ensures var r := JudgeAuthentication(o, f, context, response, credential).value;
      && (context.userId.Some? ==> context.userId == Some(r.userId))
      && (credential.userId.Some? ==> credential.userId == Some(r.userId))
      && r.verified.authData.UserPresent()
      && (context.userVerification == Some(Required) ==> r.verified.authData.UserVerified())
  {
    hide Ceremony.VerifyAuthentication;
    var e := ExpectationsFor(o, f, context, response.clientData).value;
    var verified := Ceremony.VerifyAuthentication(f, response, e, credential, o.rejectRegression).value;
    Ceremony.AuthenticationIsShown(f, response, e, credential, o.rejectRegression, verified);
  }

  // ---- What starting records, and what finishing takes -----------------------------------------

  /** The store key of a ceremony's challenge. */
  function ChallengeKey(o: Options, kind: CeremonyType, challenge: string): string {
    match kind
    case Registration => o.keyPrefix + ":challenge:registration:" + o.hash(challenge)
    case Authentication => o.keyPrefix + ":challenge:authentication:" + o.hash(challenge)
  }

  /** The requirement in force: the call's own, else the server's, else that verification is preferred. */
  function Requirement(own: Option<UserVerification>, server: Option<UserVerification>): UserVerification {
    match (own, server)
    case (Some(uv), _) => uv
    case (None, Some(uv)) => uv
    case (None, None) => Preferred
  }

  /** What a start call records: the user and the requirement it was called with, for the timeout in whole seconds. */
  predicate Records(o: Options, kind: CeremonyType, userId: Option<string>, uv: Option<UserVerification>, now: int,
                    context: Context) {
    && context.kind == kind && context.userId == userId && context.issuedAt == now
    && context.userVerification == Some(Requirement(uv, o.userVerification))
    && 0 <= context.expiresAt - now - o.timeoutMs < 1000 && (context.expiresAt - now) % 1000 == 0
  }

  /** A start call succeeds unless its key is taken, and then what it records is all that is new in the store. */
  lemma StartExactly(o: Options, entries: Entries, kind: CeremonyType, userId: Option<string>,
                     uv: Option<UserVerification>, challenge: string, now: int)
    ensures var (after, r) := Start(o, entries, kind, userId, uv, challenge, now);
      var key := ChallengeKey(o, kind, challenge);
      && (r.Ok? <==> key !in entries)
      && (r.Err? ==> after == entries)
      && (r.Ok? ==>
            && key in after && after[key].Some? && Records(o, kind, userId, uv, now, after[key].value)
            && after == entries[key := after[key]]
            && r.value == Issued(challenge, after[key].value.expiresAt))
  {
    KeySpelled(o, kind, challenge);
    var seconds := (o.timeoutMs + 999) / 1000;
    assert 0 <= seconds * 1000 - o.timeoutMs < 1000;
    assert (seconds * 1000) % 1000 == 0;
  }

  lemma KeySpelled(o: Options, kind: CeremonyType, challenge: string)
    ensures StoreKey(ManagerConfig(o), kind, challenge) == ChallengeKey(o, kind, challenge)
  {
    var prefix, hash := o.keyPrefix, o.hash(challenge);
    assert prefix + ":challenge:" + "registration" + ":" + hash == prefix + ":challenge:registration:" + hash;
    assert prefix + ":challenge:" + "authentication" + ":" + hash == prefix + ":challenge:authentication:" + hash;
  }

  /** The client data can be read, and carries this challenge in its canonical spelling. */
  predicate Carries(f: Ceremony.Facilities, clientData: ByteString, challenge: string) {
    && 1 <= |clientData| <= 8192 && f.readClientData(clientData).Some?
    && challenge == f.canonical(f.readClientData(clientData).value.challenge)
  }

  /** A record of this kind is in the store under the challenge's key, whole and in time. */
  predicate Live(o: Options, entries: Entries, kind: CeremonyType, challenge: string, now: int, context: Context) {
    && 1 <= |challenge| <= 512
    && ChallengeKey(o, kind, challenge) in entries && entries[ChallengeKey(o, kind, challenge)] == Some(context)
    && now <= context.expiresAt && context.kind == kind
  }

  /** Burning yields the live record of the challenge that the client data carries, and takes it out. */
  lemma BurnExactly(o: Options, f: Ceremony.Facilities, entries: Entries, kind: CeremonyType, clientData: ByteString,
                    now: int, context: Context)
    ensures Burn(o, f, entries, kind, clientData, now).1 == Ok(context)
            <==> exists challenge ::
                   Carries(f, clientData, challenge) && Live(o, entries, kind, challenge, now, context)
    ensures forall challenge | Carries(f, clientData, challenge) && 1 <= |challenge| <= 512 ::
              Burn(o, f, entries, kind, clientData, now).0 == entries - {ChallengeKey(o, kind, challenge)}
    ensures (forall challenge | Carries(f, clientData, challenge) :: !(1 <= |challenge| <= 512)) ==>
              Burn(o, f, entries, kind, clientData, now).0 == entries
  {
    hide ChallengeKey, StoreKey;
    var extracted := Ceremony.ExtractChallenge(f, clientData);
    if extracted.Ok? {
      KeySpelled(o, kind, extracted.value);
      assert Carries(f, clientData, extracted.value);
      var key := ChallengeKey(o, kind, extracted.value);
      assert key !in entries ==> entries - {key} == entries;
    }
  }

  /** What a finish expects of a response: the server's settings, this challenge, and this requirement. */
  predicate ExpectedBy(o: Options, challenge: string, context: Context, e: Ceremony.Expectations) {
    && e.rpId == o.rpId && e.origins == o.origins && e.challenge == challenge && e.algorithms == o.algorithms
    && e.allowCrossOrigin == o.allowCrossOrigin
    && e.userVerification == Requirement(context.userVerification, o.userVerification)
  }

  /** A registration that has earned its result, for a challenge whose record is this. */
  predicate RegistrationEarned(o: Options, f: Ceremony.Facilities, response: Ceremony.RegistrationResponse,
                               expectedUser: Option<string>, later: int, challenge: string, context: Context,
                               e: Ceremony.Expectations, r: FinishedRegistration) {
    && context.userId == Some(r.userId) && (expectedUser.Some? ==> expectedUser.value == r.userId)
    && ExpectedBy(o, challenge, context, e)
    && Ceremony.RegistrationShown(f, later, response, e, o.attestation, r.verified)
  }

  /** A registration finishes if and only if its challenge is live, and it has earned its result for that. */
  lemma RegistrationExactly(o: Options, f: Ceremony.Facilities, entries: Entries,
                            response: Ceremony.RegistrationResponse, expectedUser: Option<string>, now: int,
                            later: int, r: FinishedRegistration)
    ensures FinishRegistration(o, f, entries, response, expectedUser, now, later).1 == Ok(r)
            <==> exists challenge, context, e ::
                   && Carries(f, response.clientData, challenge)
                   && Live(o, entries, Registration, challenge, now, context)
                   && RegistrationEarned(o, f, response, expectedUser, later, challenge, context, e, r)
  {
    hide FinishRegistration, Carries, Live, RegistrationEarned;
    if FinishRegistration(o, f, entries, response, expectedUser, now, later).1 == Ok(r) {
      var challenge, context, e := RegistrationTrace(o, f, entries, response, expectedUser, now, later, r);
    }
    forall challenge, context, e |
      && Carries(f, response.clientData, challenge)
      && Live(o, entries, Registration, challenge, now, context)
      && RegistrationEarned(o, f, response, expectedUser, later, challenge, context, e, r)
      ensures FinishRegistration(o, f, entries, response, expectedUser, now, later).1 == Ok(r)
    {
      RegistrationPays(o, f, entries, response, expectedUser, now, later, r, challenge, context, e);
    }
  }

  lemma RegistrationTrace(o: Options, f: Ceremony.Facilities, entries: Entries,
                          response: Ceremony.RegistrationResponse, expectedUser: Option<string>, now: int,
                          later: int, r: FinishedRegistration)
      returns (challenge: string, context: Context, e: Ceremony.Expectations)
    requires FinishRegistration(o, f, entries, response, expectedUser, now, later).1 == Ok(r)
    ensures Carries(f, response.clientData, challenge) && Live(o, entries, Registration, challenge, now, context)
    ensures RegistrationEarned(o, f, response, expectedUser, later, challenge, context, e, r)
  {
    hide Burn, Carries, Live, Ceremony.VerifyRegistration, Ceremony.RegistrationShown, ExpectationsFor, ExpectedBy;
    FinishRegistrationSteps(o, f, entries, response, expectedUser, now, later, r);
    context := Burn(o, f, entries, Registration, response.clientData, now).1.value;
    BurnExactly(o, f, entries, Registration, response.clientData, now, context);
    challenge :| Carries(f, response.clientData, challenge)
                 && Live(o, entries, Registration, challenge, now, context);
    ExtractionMeans(f, response.clientData, challenge);
    e := ExpectationsFor(o, f, context, response.clientData).value;
    ExpectationsMean(o, f, context, response.clientData, challenge);
    Ceremony.RegistrationIsShown(f, later, response, e, o.attestation, r.verified);
  }

  lemma RegistrationPays(o: Options, f: Ceremony.Facilities, entries: Entries,
                         response: Ceremony.RegistrationResponse, expectedUser: Option<string>, now: int,
                         later: int, r: FinishedRegistration, challenge: string, context: Context,
                         e: Ceremony.Expectations)
    requires Carries(f, response.clientData, challenge) && Live(o, entries, Registration, challenge, now, context)
    requires RegistrationEarned(o, f, response, expectedUser, later, challenge, context, e, r)
    ensures FinishRegistration(o, f, entries, response, expectedUser, now, later).1 == Ok(r)
  {
    hide Burn, Carries, Live, Ceremony.VerifyRegistration, Ceremony.RegistrationShown, ExpectationsFor, ExpectedBy;
    hide FinishRegistration;
    BurnExactly(o, f, entries, Registration, response.clientData, now, context);
    ExtractionMeans(f, response.clientData, challenge);
    ExpectationsMean(o, f, context, response.clientData, challenge);
    Ceremony.RegistrationIsShown(f, later, response, e, o.attestation, r.verified);
    FinishRegistrationSteps(o, f, entries, response, expectedUser, now, later, r);
  }

  lemma ExtractionMeans(f: Ceremony.Facilities, clientData: ByteString, challenge: string)
    ensures Carries(f, clientData, challenge) <==> Ceremony.ExtractChallenge(f, clientData) == Ok(challenge)
  {
  }

  lemma ExpectationsMean(o: Options, f: Ceremony.Facilities, context: Context, clientData: ByteString,
                         challenge: string)
    requires Ceremony.ExtractChallenge(f, clientData) == Ok(challenge)
    ensures forall e :: ExpectedBy(o, challenge, context, e) <==> ExpectationsFor(o, f, context, clientData) == Ok(e)
  {
    hide Ceremony.ExtractChallenge;
  }

  lemma FinishRegistrationSteps(o: Options, f: Ceremony.Facilities, entries: Entries,
                                response: Ceremony.RegistrationResponse, expectedUser: Option<string>, now: int,
                                later: int, r: FinishedRegistration)
    ensures FinishRegistration(o, f, entries, response, expectedUser, now, later).1 == Ok(r)
            <==> && Burn(o, f, entries, Registration, response.clientData, now).1.Ok?
                 && var context := Burn(o, f, entries, Registration, response.clientData, now).1.value;
                    var e := ExpectationsFor(o, f, context, response.clientData);
                 && context.userId == Some(r.userId) && (expectedUser.Some? ==> expectedUser == context.userId)
                 && e.Ok? && Ceremony.VerifyRegistration(f, later, response, e.value, o.attestation) == Ok(r.verified)
  {
    hide Burn, Ceremony.VerifyRegistration, ExpectationsFor;
  }

  /** The user of an authentication: the credential's, else the challenge's, else the handle's. */
  predicate UserOf(context: Context, credential: Ceremony.StoredCredential, handle: Option<string>, userId: string) {
    && (credential.userId.Some? && context.userId.Some? ==> credential.userId.value == context.userId.value)
    && Some(userId) == match (credential.userId, context.userId)
                       case (Some(_), _) => credential.userId
                       case (None, Some(_)) => context.userId
                       case (None, None) => handle
  }

  ghost predicate AuthenticationEarned(o: Options, f: Ceremony.Facilities, response: Ceremony.AuthenticationResponse,
                                       credential: Ceremony.StoredCredential, challenge: string, context: Context,
                                       e: Ceremony.Expectations, r: FinishedAuthentication) {
    && ExpectedBy(o, challenge, context, e) && UserOf(context, credential, r.verified.userHandle, r.userId)
    && Ceremony.AuthenticationShown(f, response, e, credential, o.rejectRegression, r.verified)
  }

  /** An authentication finishes if and only if its challenge is live, and it has earned its result for that. */
  lemma AuthenticationExactly(o: Options, f: Ceremony.Facilities, entries: Entries,
                              response: Ceremony.AuthenticationResponse, credential: Ceremony.StoredCredential,
                              now: int, r: FinishedAuthentication)
    ensures FinishAuthentication(o, f, entries, response, credential, now).1 == Ok(r)
            <==> exists challenge, context, e ::
                   && Carries(f, response.clientData, challenge)
                   && Live(o, entries, Authentication, challenge, now, context)
                   && AuthenticationEarned(o, f, response, credential, challenge, context, e, r)
  {
    hide FinishAuthentication, Carries, Live, AuthenticationEarned;
    if FinishAuthentication(o, f, entries, response, credential, now).1 == Ok(r) {
      var challenge, context, e := AuthenticationTrace(o, f, entries, response, credential, now, r);
    }
    forall challenge, context, e |
      && Carries(f, response.clientData, challenge)
      && Live(o, entries, Authentication, challenge, now, context)
      && AuthenticationEarned(o, f, response, credential, challenge, context, e, r)
      ensures FinishAuthentication(o, f, entries, response, credential, now).1 == Ok(r)
    {
      AuthenticationPays(o, f, entries, response, credential, now, r, challenge, context, e);
    }
  }

  lemma AuthenticationTrace(o: Options, f: Ceremony.Facilities, entries: Entries,
                            response: Ceremony.AuthenticationResponse, credential: Ceremony.StoredCredential,
                            now: int, r: FinishedAuthentication)
      returns (challenge: string, context: Context, e: Ceremony.Expectations)
    requires FinishAuthentication(o, f, entries, response, credential, now).1 == Ok(r)
    ensures Carries(f, response.clientData, challenge) && Live(o, entries, Authentication, challenge, now, context)
    ensures AuthenticationEarned(o, f, response, credential, challenge, context, e, r)
  {
    hide Burn, Carries, Live, Ceremony.VerifyAuthentication, Ceremony.AuthenticationShown, ExpectationsFor, ExpectedBy;
    FinishAuthenticationSteps(o, f, entries, response, credential, now, r);
    context := Burn(o, f, entries, Authentication, response.clientData, now).1.value;
    BurnExactly(o, f, entries, Authentication, response.clientData, now, context);
    challenge :| Carries(f, response.clientData, challenge)
                 && Live(o, entries, Authentication, challenge, now, context);
    ExtractionMeans(f, response.clientData, challenge);
    e := ExpectationsFor(o, f, context, response.clientData).value;
    ExpectationsMean(o, f, context, response.clientData, challenge);
    Ceremony.AuthenticationIsShown(f, response, e, credential, o.rejectRegression, r.verified);
  }

  lemma AuthenticationPays(o: Options, f: Ceremony.Facilities, entries: Entries,
                           response: Ceremony.AuthenticationResponse, credential: Ceremony.StoredCredential,
                           now: int, r: FinishedAuthentication, challenge: string, context: Context,
                           e: Ceremony.Expectations)
    requires Carries(f, response.clientData, challenge) && Live(o, entries, Authentication, challenge, now, context)
    requires AuthenticationEarned(o, f, response, credential, challenge, context, e, r)
    ensures FinishAuthentication(o, f, entries, response, credential, now).1 == Ok(r)
  {
    hide Burn, Carries, Live, Ceremony.VerifyAuthentication, Ceremony.AuthenticationShown, ExpectationsFor, ExpectedBy;
    hide FinishAuthentication;
    BurnExactly(o, f, entries, Authentication, response.clientData, now, context);
    ExtractionMeans(f, response.clientData, challenge);
    ExpectationsMean(o, f, context, response.clientData, challenge);
    Ceremony.AuthenticationIsShown(f, response, e, credential, o.rejectRegression, r.verified);
    FinishAuthenticationSteps(o, f, entries, response, credential, now, r);
  }

  lemma FinishAuthenticationSteps(o: Options, f: Ceremony.Facilities, entries: Entries,
                                  response: Ceremony.AuthenticationResponse, credential: Ceremony.StoredCredential,
                                  now: int, r: FinishedAuthentication)
    ensures FinishAuthentication(o, f, entries, response, credential, now).1 == Ok(r)
            <==> && Burn(o, f, entries, Authentication, response.clientData, now).1.Ok?
                 && var context := Burn(o, f, entries, Authentication, response.clientData, now).1.value;
                    var e := ExpectationsFor(o, f, context, response.clientData);
                 && e.Ok? && UserOf(context, credential, r.verified.userHandle, r.userId)
                 && Ceremony.VerifyAuthentication(f, response, e.value, credential, o.rejectRegression)
                    == Ok(r.verified)
  {
    hide Burn, Ceremony.VerifyAuthentication, ExpectationsFor;
  }
}
