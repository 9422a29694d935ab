/** Verification of the two ceremonies: client data, flags, registration, authentication and its counter. */
module Ceremony {
  import opened Bytes
  import opened Wrappers
  import Attestation
  import AuthData
  import Cbor
  import Challenge
  import Cose

  datatype Error =
    | ClientDataEmpty
    | ClientDataTooLarge
    | ClientDataMalformed
    | WrongType
    | ChallengeMismatch
    | NoOriginConfigured
    | OriginNotExpected
    | CrossOrigin
    | NotPresent
    | NotVerified
    | WrongRelyingParty
    | BadAttestationObject
    | BadAuthenticatorData(reason: AuthData.Error)
    | NoCredential
    | UnexpectedCredential
    | BadCredentialKey(keyReason: Cose.Error)
    | KeyNotImportable
    | BadAttestation(attestationReason: Attestation.Error)
    | CredentialIdMismatch
    | UserHandleMismatch
    | UserHandleMalformed
    | SignatureInvalid
    | CounterRegressed
    | BadChallenge(challengeReason: Challenge.Error)
    | ChallengeWithoutUser
    | DifferentUser
    | NoUser

  /** The fields of client data, once its JSON has been read. */
  datatype ClientData = ClientData(kind: string, challenge: string, origin: string, crossOrigin: Option<bool>)

  /** Facilities the ceremonies use and do not define. */
  datatype Facilities = Facilities(
    attestation: Attestation.World,
    readClientData: ByteString -> Option<ClientData>,
    canonical: string -> string,
    utf8Encode: string -> ByteString,
    utf8Decode: ByteString -> Option<string>,
    importable: Cose.Material -> bool,
    verify: (Cose.Material, ByteString, ByteString) -> bool)

  datatype Expectations = Expectations(
    rpId: string, origins: seq<string>, challenge: string,
    userVerification: Challenge.UserVerification, allowCrossOrigin: bool, algorithms: seq<int>)

  const MAX_CLIENT_DATA_BYTES := 8192
  const CREATE_TYPE := "webauthn.create"
  const GET_TYPE := "webauthn.get"

  // ---- What both ceremonies check ----------------------------------------------------------

  function ParseClientData(f: Facilities, b: ByteString): Result<ClientData, Error> {
    if |b| == 0 then Err(ClientDataEmpty)
    else if |b| > MAX_CLIENT_DATA_BYTES then Err(ClientDataTooLarge)
    else
      match f.readClientData(b)
      case None => Err(ClientDataMalformed)
      case Some(d) => Ok(d)
  }

  /** The challenge a response carries, in its canonical spelling. */
  function ExtractChallenge(f: Facilities, b: ByteString): Result<string, Error> {
    var d :- ParseClientData(f, b);
    Ok(f.canonical(d.challenge))
  }

  function VerifyClientData(f: Facilities, d: ClientData, kind: string, e: Expectations): Result<string, Error> {
    if d.kind != kind then Err(WrongType)
    else if f.canonical(d.challenge) == "" || f.canonical(d.challenge) != f.canonical(e.challenge) then
      Err(ChallengeMismatch)
    else if |e.origins| == 0 then Err(NoOriginConfigured)
    else if d.origin !in e.origins then Err(OriginNotExpected)
    else if d.crossOrigin == Some(true) && !e.allowCrossOrigin then Err(CrossOrigin)
    else Ok(d.origin)
  }

  function VerifyFlags(a: AuthData.AuthenticatorData, uv: Challenge.UserVerification): Result<(), Error> {
    if !a.UserPresent() then Err(NotPresent)
    else if uv.Required? && !a.UserVerified() then Err(NotVerified)
    else Ok(())
  }

  /** Authenticator data of this relying party whose flags meet the requirement. */
  function ReadAuthData(f: Facilities, b: ByteString, e: Expectations): Result<AuthData.AuthenticatorData, Error> {
    match AuthData.Parse(b)
    case Err(reason) => Err(BadAuthenticatorData(reason))
    case Ok(a) =>
      if a.rpIdHash != f.attestation.Sha256(f.utf8Encode(e.rpId)) then Err(WrongRelyingParty)
      else
        var _ :- VerifyFlags(a, e.userVerification);
        Ok(a)
  }

  function ImportKey(f: Facilities, b: ByteString, algorithms: seq<int>): Result<Cose.Material, Error> {
    match Cose.ParseKey(b, algorithms)
    case Err(reason) => Err(BadCredentialKey(reason))
    case Ok(material) => if f.importable(material) then Ok(material) else Err(KeyNotImportable)
  }

  // ---- Registration ------------------------------------------------------------------------

  datatype AttestationObject = AttestationObject(
    format: ByteString, authData: ByteString, statement: seq<Cbor.Entry>)

  function ParseAttestationObject(b: ByteString): Result<AttestationObject, Error> {
    match Cbor.DecodeAll(b)
    case Err(_) => Err(BadAttestationObject)
    case Ok(v) =>
      if !v.Map? then Err(BadAttestationObject)
      else
        match (Attestation.Field(v.entries, "fmt"), Attestation.Field(v.entries, "authData"),
               Attestation.Field(v.entries, "attStmt"))
        case (Some(Text(format)), Some(Bytes(authData)), Some(Map(statement))) =>
          Ok(AttestationObject(format, authData, statement))
        case _ => Err(BadAttestationObject)
  }

  datatype RegistrationResponse = RegistrationResponse(clientData: ByteString, attestationObject: ByteString)

  datatype Registered = Registered(
    credential: AuthData.Attested, key: Cose.Material, authData: AuthData.AuthenticatorData,
    attestation: Attestation.Outcome, origin: string)

  function AttestationInput(
      f: Facilities, response: RegistrationResponse, parsed: AttestationObject, credential: AuthData.Attested,
      key: Cose.Material): Attestation.Input
  {
    Attestation.Input(parsed.format, parsed.statement, parsed.authData,
                      f.attestation.Sha256(response.clientData), credential.aaguid, credential.publicKey,
                      credential.credentialId, Cose.AlgorithmOf(key))
  }

  function VerifyRegistration(f: Facilities, now: int, response: RegistrationResponse, e: Expectations,
                              policy: Attestation.Policy): Result<Registered, Error>
  {
    var d :- ParseClientData(f, response.clientData);
    var origin :- VerifyClientData(f, d, CREATE_TYPE, e);
    var parsed :- ParseAttestationObject(response.attestationObject);
    var a :- ReadAuthData(f, parsed.authData, e);
    if a.attested.None? then Err(NoCredential)
    else
      var credential := a.attested.value;
      var key :- ImportKey(f, credential.publicKey, e.algorithms);
      match Attestation.Verify(f.attestation, now, AttestationInput(f, response, parsed, credential, key), policy)
      case Err(reason) => Err(BadAttestation(reason))
      case Ok(outcome) => Ok(Registered(credential, key, a, outcome, origin))
  }

  /** The client data is for this kind of ceremony, its challenge, an expected origin, and no other origin's frame. */
  predicate ClientDataShown(f: Facilities, b: ByteString, kind: string, e: Expectations, origin: string) {
    && 0 < |b| <= MAX_CLIENT_DATA_BYTES && f.readClientData(b).Some?
    && var d := f.readClientData(b).value;
    && d.kind == kind && f.canonical(d.challenge) == f.canonical(e.challenge) != ""
    && d.origin in e.origins && origin == d.origin
    && (d.crossOrigin == Some(true) ==> e.allowCrossOrigin)
  }

  /** The authenticator data is for this relying party, of a present user, verified where that is required. */
  predicate AuthDataShown(f: Facilities, b: ByteString, e: Expectations, a: AuthData.AuthenticatorData) {
    && AuthData.Parse(b) == Ok(a)
    && a.rpIdHash == f.attestation.Sha256(f.utf8Encode(e.rpId))
    && a.UserPresent() && (e.userVerification.Required? ==> a.UserVerified())
  }

  /** What an accepted registration has shown of the response. */
  predicate RegistrationShown(f: Facilities, now: int, response: RegistrationResponse, e: Expectations,
                              policy: Attestation.Policy, r: Registered)
  {
    && ClientDataShown(f, response.clientData, CREATE_TYPE, e, r.origin)
    && ParseAttestationObject(response.attestationObject).Ok?
    && var parsed := ParseAttestationObject(response.attestationObject).value;
    && AuthDataShown(f, parsed.authData, e, r.authData) && r.authData.attested == Some(r.credential)
    && Cose.ParseKey(r.credential.publicKey, e.algorithms) == Ok(r.key) && f.importable(r.key)
    && Cose.Sound(r.key) && Cose.AlgorithmOf(r.key) in e.algorithms
    && Attestation.Verify(f.attestation, now, AttestationInput(f, response, parsed, r.credential, r.key), policy)
       == Ok(r.attestation)
  }

  /** A registration is accepted as just what its response shows, and only then. */
  lemma RegistrationIsShown(f: Facilities, now: int, response: RegistrationResponse, e: Expectations,
                            policy: Attestation.Policy, r: Registered)
    ensures VerifyRegistration(f, now, response, e, policy) == Ok(r)
            <==> RegistrationShown(f, now, response, e, policy, r)
  {
    hide Attestation.Verify, AuthData.Parse, Cose.ParseKey, ParseAttestationObject, Cose.Sound, AttestationInput;
    if Cose.ParseKey(r.credential.publicKey, e.algorithms).Ok? {
      Cose.AcceptedIsSound(r.credential.publicKey, e.algorithms);
    }
  }

  // ---- Authentication ----------------------------------------------------------------------

  datatype StoredCredential = StoredCredential(
    credentialId: ByteString, publicKey: ByteString, signCount: nat, userId: Option<string>)

  datatype AuthenticationResponse = AuthenticationResponse(
    clientData: ByteString, authenticatorData: ByteString, signature: ByteString,
    userHandle: ByteString, credentialId: Option<ByteString>)

  datatype Authenticated = Authenticated(
    authData: AuthData.AuthenticatorData, counterSupported: bool, origin: string, userHandle: Option<string>)

  /** The handle a discoverable credential reports; an absent one is as good as an empty one. */
  function ReadUserHandle(f: Facilities, response: AuthenticationResponse, credential: StoredCredential)
    : Result<Option<string>, Error>
  {
    if |response.userHandle| == 0 then Ok(None)
    else
      match f.utf8Decode(response.userHandle)
      case None => Err(UserHandleMalformed)
      case Some(handle) =>
        if credential.userId.Some? && credential.userId.value != handle then Err(UserHandleMismatch)
        else Ok(Some(handle))
  }

  predicate CounterSupported(stored: nat, presented: nat) {
    presented != 0 || stored != 0
  }

  predicate CounterAccepted(stored: nat, presented: nat, rejectRegression: bool) {
    CounterSupported(stored, presented) && presented <= stored ==> !rejectRegression
  }

  function VerifyAuthentication(f: Facilities, response: AuthenticationResponse, e: Expectations,
                                credential: StoredCredential, rejectRegression: bool): Result<Authenticated, Error>
  {
    if response.credentialId.Some? && response.credentialId.value != credential.credentialId then
      Err(CredentialIdMismatch)
    else
      var handle :- ReadUserHandle(f, response, credential);
      var d :- ParseClientData(f, response.clientData);
      var origin :- VerifyClientData(f, d, GET_TYPE, e);
      var a :- ReadAuthData(f, response.authenticatorData, e);
      if a.attested.Some? then Err(UnexpectedCredential)
      else
        var key :- ImportKey(f, credential.publicKey, e.algorithms);
        var signed := response.authenticatorData + f.attestation.Sha256(response.clientData);
        if !f.verify(key, response.signature, signed) then Err(SignatureInvalid)
        else if !CounterAccepted(credential.signCount, a.signCount, rejectRegression) then Err(CounterRegressed)
        else Ok(Authenticated(a, CounterSupported(credential.signCount, a.signCount), origin, handle))
  }

  /** What an accepted assertion has shown of the response. */
  ghost predicate AuthenticationShown(f: Facilities, response: AuthenticationResponse, e: Expectations,
                                      credential: StoredCredential, rejectRegression: bool, r: Authenticated)
  {
    && (response.credentialId.Some? ==> response.credentialId.value == credential.credentialId)
    && r.userHandle == (if |response.userHandle| == 0 then None else f.utf8Decode(response.userHandle))
    && (|response.userHandle| > 0 ==> r.userHandle.Some?)
    && (r.userHandle.Some? && credential.userId.Some? ==> r.userHandle == credential.userId)
    && ClientDataShown(f, response.clientData, GET_TYPE, e, r.origin)
    && AuthDataShown(f, response.authenticatorData, e, r.authData) && r.authData.attested.None?
    && (exists key :: Cose.Sound(key) && Cose.ParseKey(credential.publicKey, e.algorithms) == Ok(key)
          && f.importable(key)
          && f.verify(key, response.signature,
                      response.authenticatorData + f.attestation.Sha256(response.clientData)))
    && r.counterSupported == (r.authData.signCount != 0 || credential.signCount != 0)
    && (rejectRegression ==> !r.counterSupported || r.authData.signCount > credential.signCount)
  }

  /** An assertion is accepted as just what its response shows, and only then. */
  lemma AuthenticationIsShown(f: Facilities, response: AuthenticationResponse, e: Expectations,
                              credential: StoredCredential, rejectRegression: bool, r: Authenticated)
    ensures VerifyAuthentication(f, response, e, credential, rejectRegression) == Ok(r)
            <==> AuthenticationShown(f, response, e, credential, rejectRegression, r)
  {
    hide AuthData.Parse, Cose.ParseKey, Cose.Sound;
    var key := Cose.ParseKey(credential.publicKey, e.algorithms);
    if key.Ok? {
      Cose.AcceptedIsSound(credential.publicKey, e.algorithms);
      assert Cose.Sound(key.value) && Cose.ParseKey(credential.publicKey, e.algorithms) == Ok(key.value);
    }
  }

  // ---- The counter over a credential's life --------------------------------------------------

  /** Counters accepted one after another, each stored for the next, when regressions are rejected. */
  predicate AcceptedInTurn(first: nat, counters: seq<nat>)
    decreases |counters|
  {
    |counters| > 0 ==>
      CounterAccepted(first, counters[0], true) && AcceptedInTurn(counters[0], counters[1..])
  }

  /** No counter is ever accepted twice, or after a higher one, except the zero of authenticators that have none. */
  lemma {:induction false} CountersOnlyRise(first: nat, counters: seq<nat>, i: nat, j: nat)
    requires AcceptedInTurn(first, counters) && i < j < |counters|
    ensures counters[i] < counters[j] || counters[i] == counters[j] == 0
    decreases j
  {
    if i > 0 {
      CountersOnlyRise(counters[0], counters[1..], i - 1, j - 1);
    } else if j > 1 {
      CountersOnlyRise(counters[0], counters[1..], 0, j - 1);
      assert counters[1..][0] == counters[1];
      assert CounterAccepted(counters[0], counters[1], true);
    } else {
      assert counters[1..][0] == counters[1];
    }
  }
}
