/** A software authenticator, and what becomes of the responses it builds. */
module Authenticator {
  import opened Bytes
  import opened Wrappers
  import Attestation
  import AuthData
  import Cbor
  import CborEncoder
  import CborLaws
  import Ceremony
  import Cose
  import Utf8

  /** What an authenticator holds for one credential, its private key aside. */
  datatype Device = Device(aaguid: ByteString, credentialId: ByteString, key: Cose.Material)

  predicate Ready(d: Device) {
    && |d.aaguid| == AuthData.AAGUID_BYTES && 1 <= |d.credentialId| <= AuthData.MAX_CREDENTIAL_ID_BYTES
    && Cose.Sound(d.key) && Cose.Writable(d.key)
  }

  // ---- What is built -----------------------------------------------------------------------

  function RegistrationData(d: Device, rpIdHash: ByteString, flags: Byte, signCount: nat): AuthData.AuthenticatorData {
    AuthData.AuthenticatorData(
      rpIdHash, flags, signCount, Some(AuthData.Attested(d.aaguid, d.credentialId, Cose.Build(d.key))), None)
  }

  function AssertionData(rpIdHash: ByteString, flags: Byte, signCount: nat): AuthData.AuthenticatorData {
    AuthData.AuthenticatorData(rpIdHash, flags, signCount, None, None)
  }

  /** Flags that agree with a section for the credential, or with none, and with no extensions. */
  predicate FlagsFit(flags: Byte, attested: bool) {
    && AuthData.Flag(flags, AuthData.ATTESTED_CREDENTIAL) == attested
    && !AuthData.Flag(flags, AuthData.EXTENSION_DATA)
    && (AuthData.Flag(flags, AuthData.BACKUP_STATE) ==> AuthData.Flag(flags, AuthData.BACKUP_ELIGIBLE))
  }

  /** Statements and format names that CBOR carries faithfully inside an attestation object. */
  predicate Carried(format: ByteString, statement: seq<Cbor.Entry>, authData: ByteString) {
    && Utf8.Valid(format) && |format| < CborEncoder.TWO_32 && !Utf8.StartsWithBom(format)
    && CborEncoder.Encodable(Cbor.Map(statement)) && CborEncoder.Representable(Cbor.Map(statement), 1)
    && |authData| < CborEncoder.TWO_32
  }

  function ObjectEntries(format: ByteString, statement: seq<Cbor.Entry>, authData: ByteString): seq<Cbor.Entry> {
    [Cbor.Entry(Cbor.Text(Ascii("fmt")), Cbor.Text(format)),
     Cbor.Entry(Cbor.Text(Ascii("attStmt")), Cbor.Map(statement)),
     Cbor.Entry(Cbor.Text(Ascii("authData")), Cbor.Bytes(authData))]
  }

  function BuildObject(format: ByteString, statement: seq<Cbor.Entry>, authData: ByteString): ByteString
    requires Carried(format, statement, authData)
  {
    ObjectCarried(format, statement, authData);
    CborEncoder.Encode(Cbor.Map(ObjectEntries(format, statement, authData)))
  }

  lemma {:induction false} PlainIsValid(b: ByteString)
    requires forall i :: 0 <= i < |b| ==> b[i] < 128
    ensures Utf8.Valid(b)
  {
    if |b| > 0 {
      PlainIsValid(b[1..]);
    }
  }

  lemma PlainName(name: string)
    requires forall i :: 0 <= i < |name| ==> name[i] < 128 as char
    ensures Utf8.Valid(Ascii(name)) && !Utf8.StartsWithBom(Ascii(name))
  {
    PlainIsValid(Ascii(name));
    if |name| >= 3 {
      assert Ascii(name)[..3][0] < 128;
    }
  }

  /** An entry under a plain name is encodable and representable where its value is. */
  lemma NamedEntryCarried(name: string, value: Cbor.Value)
    requires forall i :: 0 <= i < |name| ==> name[i] < 128 as char
    requires |name| < CborEncoder.TWO_32
    requires CborEncoder.Encodable(value) && CborEncoder.Representable(value, 1)
    ensures CborEncoder.EntryEncodable(Cbor.Entry(Cbor.Text(Ascii(name)), value))
    ensures CborEncoder.EntryRepresentable(Cbor.Entry(Cbor.Text(Ascii(name)), value), 1)
  {
    hide Ascii, Utf8.Valid;
    PlainName(name);
  }

  lemma ObjectCarried(format: ByteString, statement: seq<Cbor.Entry>, authData: ByteString)
    requires Carried(format, statement, authData)
    ensures CborEncoder.Encodable(Cbor.Map(ObjectEntries(format, statement, authData)))
    ensures CborEncoder.Representable(Cbor.Map(ObjectEntries(format, statement, authData)), 0)
  {
    hide Ascii, Utf8.Valid, CborEncoder.EntryEncodable, CborEncoder.EntryRepresentable;
    var entries := ObjectEntries(format, statement, authData);
    NamedEntryCarried("fmt", Cbor.Text(format));
    NamedEntryCarried("attStmt", Cbor.Map(statement));
    NamedEntryCarried("authData", Cbor.Bytes(authData));
    NamesDiffer();
    EntriesCarried(entries);
  }

  lemma EntriesCarried(entries: seq<Cbor.Entry>)
    requires |entries| < CborEncoder.TWO_32 && CborLaws.DistinctKeys(entries)
    requires forall i :: 0 <= i < |entries| ==>
      CborEncoder.EntryEncodable(entries[i]) && CborEncoder.EntryRepresentable(entries[i], 1)
    ensures CborEncoder.Encodable(Cbor.Map(entries)) && CborEncoder.Representable(Cbor.Map(entries), 0)
  {
    hide CborEncoder.EntryEncodable, CborEncoder.EntryRepresentable;
    assert CborEncoder.EntriesEncodable(entries) && CborEncoder.EntriesRepresentable(entries, 1);
  }

  lemma NamesDiffer()
    ensures Ascii("fmt") != Ascii("attStmt") && Ascii("fmt") != Ascii("authData")
    ensures Ascii("attStmt") != Ascii("authData")
  {
    assert |Ascii("fmt")| == 3 && |Ascii("attStmt")| == 7 && |Ascii("authData")| == 8;
  }

  /** A built attestation object is read back as its three parts. */
  lemma ObjectReadBack(format: ByteString, statement: seq<Cbor.Entry>, authData: ByteString)
    requires Carried(format, statement, authData)
    ensures Ceremony.ParseAttestationObject(BuildObject(format, statement, authData))
            == Ok(Ceremony.AttestationObject(format, authData, statement))
  {
    hide Cbor.Decode, CborEncoder.Encode, CborEncoder.Encodable, CborEncoder.Representable, Ascii;
    var entries := ObjectEntries(format, statement, authData);
    ObjectCarried(format, statement, authData);
    CborEncoder.RoundTrip(Cbor.Map(entries), 0, []);
    assert BuildObject(format, statement, authData) + [] == BuildObject(format, statement, authData);
    NamesDiffer();
    ObjectLookups(format, statement, authData);
  }

  lemma ObjectLookups(format: ByteString, statement: seq<Cbor.Entry>, authData: ByteString)
    ensures var entries := ObjectEntries(format, statement, authData);
      && Attestation.Field(entries, "fmt") == Some(Cbor.Text(format))
      && Attestation.Field(entries, "attStmt") == Some(Cbor.Map(statement))
      && Attestation.Field(entries, "authData") == Some(Cbor.Bytes(authData))
  {
    hide Ascii;
    NamesDiffer();
    var entries := ObjectEntries(format, statement, authData);
    var second, third := entries[1..], entries[1..][1..];
    assert second[0] == entries[1] && third[0] == entries[2];
    LookupSkips(entries, Cbor.Text(Ascii("attStmt")));
    LookupSkips(entries, Cbor.Text(Ascii("authData")));
    LookupSkips(second, Cbor.Text(Ascii("attStmt")));
    LookupSkips(second, Cbor.Text(Ascii("authData")));
    LookupSkips(third, Cbor.Text(Ascii("authData")));
  }

  lemma LookupSkips(entries: seq<Cbor.Entry>, key: Cbor.Value)
    requires |entries| > 0
    ensures Cbor.Lookup(entries, key)
            == if entries[0].key == key then Some(entries[0].value) else Cbor.Lookup(entries[1..], key)
  {
  }

  // ---- What becomes of it ------------------------------------------------------------------

  /** The conditions that no authenticator can meet for the client: its own data must match the ceremony. */
  predicate ClientMatches(f: Ceremony.Facilities, clientData: ByteString, kind: string, e: Ceremony.Expectations) {
    && Ceremony.ParseClientData(f, clientData).Ok?
    && Ceremony.VerifyClientData(f, Ceremony.ParseClientData(f, clientData).value, kind, e).Ok?
  }

  /** Presence, verification where it is required, and the right relying party. */
  predicate DataMatches(f: Ceremony.Facilities, rpIdHash: ByteString, flags: Byte, e: Ceremony.Expectations) {
    && rpIdHash == f.attestation.Sha256(f.utf8Encode(e.rpId))
    && AuthData.Flag(flags, AuthData.USER_PRESENT)
    && (e.userVerification.Required? ==> AuthData.Flag(flags, AuthData.USER_VERIFIED))
  }

  lemma BuiltDataRead(f: Ceremony.Facilities, a: AuthData.AuthenticatorData, e: Ceremony.Expectations)
    requires AuthData.Consistent(a, [])
    ensures var r := Ceremony.ReadAuthData(f, AuthData.Build(a, []), e);
      (r.Ok? <==> DataMatches(f, a.rpIdHash, a.rawFlags, e)) && (r.Ok? ==> r.value == a)
  {
    hide AuthData.Parse, AuthData.Build, AuthData.Consistent;
    AuthData.BuiltIsParsed(a, []);
  }

  /** A written key, decoded by itself, is a whole value. */
  lemma KeyIsWhole(key: Cose.Material)
    requires Cose.Writable(key)
    ensures Cbor.DecodeAll(Cose.Build(key)).Ok?
  {
    hide Cbor.Decode, CborEncoder.Encode, CborEncoder.Encodable, CborEncoder.Representable, Cose.KeyMap;
    Cose.KeyMapEncodable(key);
    Cose.KeyMapRepresentable(key);
    CborEncoder.RoundTrip(Cbor.Map(Cose.KeyMap(key)), 0, []);
    assert Cose.Build(key) + [] == Cose.Build(key);
  }

  /** What an attestation verifier is given of a built registration. */
  function BuiltInput(f: Ceremony.Facilities, d: Device, format: ByteString, statement: seq<Cbor.Entry>,
                      authData: ByteString, clientData: ByteString): Attestation.Input
  {
    Attestation.Input(format, statement, authData, f.attestation.Sha256(clientData), d.aaguid,
                      Cose.Build(d.key), d.credentialId, Cose.AlgorithmOf(d.key))
  }

  /**
   * A built registration is accepted if and only if the client data and flags meet the expectations, the
   * key's algorithm is allowed and importable, and the attestation verifies; and then it registers exactly
   * the device's credential.
   */
  lemma RegistrationOutcome(
      f: Ceremony.Facilities, now: int, d: Device, rpIdHash: ByteString, flags: Byte, signCount: nat,
      format: ByteString, statement: seq<Cbor.Entry>, clientData: ByteString, e: Ceremony.Expectations,
      policy: Attestation.Policy)
    requires Ready(d) && |rpIdHash| == 32 && signCount < 0x1_0000_0000 && FlagsFit(flags, true)
    requires Carried(format, statement, AuthData.Build(RegistrationData(d, rpIdHash, flags, signCount), []))
    ensures var authData := AuthData.Build(RegistrationData(d, rpIdHash, flags, signCount), []);
      var response := Ceremony.RegistrationResponse(clientData, BuildObject(format, statement, authData));
      var r := Ceremony.VerifyRegistration(f, now, response, e, policy);
      && (r.Ok? <==>
            && ClientMatches(f, clientData, Ceremony.CREATE_TYPE, e) && DataMatches(f, rpIdHash, flags, e)
            && Cose.AlgorithmOf(d.key) in e.algorithms && f.importable(d.key)
            && Attestation.Verify(f.attestation, now, BuiltInput(f, d, format, statement, authData, clientData),
                                  policy).Ok?)
      && (r.Ok? ==> r.value.credential == AuthData.Attested(d.aaguid, d.credentialId, Cose.Build(d.key))
                    && r.value.key == d.key && r.value.authData.signCount == signCount)
  {
    hide AuthData.Build, AuthData.Parse, Attestation.Verify, Ceremony.ParseAttestationObject, BuildObject, Carried;
    hide Cose.Sound, Cose.Writable, Cose.Build, Cose.ParseKey, Ceremony.ReadAuthData, DataMatches;
    hide Ceremony.ParseClientData, Ceremony.VerifyClientData;
    var a := RegistrationData(d, rpIdHash, flags, signCount);
    var authData := AuthData.Build(a, []);
    KeyIsWhole(d.key);
    assert AuthData.Consistent(a, []);
    ObjectReadBack(format, statement, authData);
    BuiltDataRead(f, a, e);
    Cose.ReadUndoesBuild(d.key, e.algorithms);
    SoundKeyParses(d.key, e.algorithms);
  }

  lemma SoundKeyParses(key: Cose.Material, algorithms: seq<int>)
    requires Cose.Writable(key) && Cose.Sound(key)
    ensures Cose.ParseKey(Cose.Build(key), algorithms).Ok? <==> Cose.AlgorithmOf(key) in algorithms
  {
    hide Cbor.Decode, CborEncoder.Encode, CborEncoder.Encodable, CborEncoder.Representable;
    hide Cose.KeyMap, Cose.Get, Cose.Sound;
    Cose.ReadUndoesBuild(key, algorithms);
    KeyIsWhole(key);
    Cose.KeyMapEncodable(key);
    Cose.KeyMapRepresentable(key);
    CborEncoder.RoundTrip(Cbor.Map(Cose.KeyMap(key)), 0, []);
    assert Cose.Build(key) + [] == Cose.Build(key);
    Cose.KeyMapLookups(key);
  }

  /** A passkey needs no attestation: under a policy that accepts none, nothing but the ceremony decides. */
  lemma PasskeyOutcome(
      f: Ceremony.Facilities, now: int, d: Device, rpIdHash: ByteString, flags: Byte, signCount: nat,
      clientData: ByteString, e: Ceremony.Expectations, policy: Attestation.Policy)
    requires Ready(d) && |rpIdHash| == 32 && signCount < 0x1_0000_0000 && FlagsFit(flags, true)
    requires |AuthData.Build(RegistrationData(d, rpIdHash, flags, signCount), [])| < CborEncoder.TWO_32
    requires Attestation.NONE in Attestation.AcceptedFormats(policy) && policy.allowedAaguids.None?
    ensures var authData := AuthData.Build(RegistrationData(d, rpIdHash, flags, signCount), []);
      && Carried(Attestation.NONE, [], authData)
      && var response := Ceremony.RegistrationResponse(clientData, BuildObject(Attestation.NONE, [], authData));
         (Ceremony.VerifyRegistration(f, now, response, e, policy).Ok?
          <==> ClientMatches(f, clientData, Ceremony.CREATE_TYPE, e) && DataMatches(f, rpIdHash, flags, e)
               && Cose.AlgorithmOf(d.key) in e.algorithms && f.importable(d.key))
  {
    hide AuthData.Build, Ceremony.VerifyRegistration, BuildObject, Cose.Sound, Cose.Writable, Cose.Build;
    hide Attestation.Verify, ClientMatches, DataMatches;
    var authData := AuthData.Build(RegistrationData(d, rpIdHash, flags, signCount), []);
    PlainName("none");
    assert CborEncoder.EntriesEncodable([]) && CborEncoder.EntriesRepresentable([], 2);
    RegistrationOutcome(f, now, d, rpIdHash, flags, signCount, Attestation.NONE, [], clientData, e, policy);
    NoneVerifies(f.attestation, now, BuiltInput(f, d, Attestation.NONE, [], authData, clientData), policy);
  }

  lemma NoneVerifies(w: Attestation.World, now: int, input: Attestation.Input, policy: Attestation.Policy)
    requires input.format == Attestation.NONE && input.statement == []
    requires Attestation.NONE in Attestation.AcceptedFormats(policy) && policy.allowedAaguids.None?
    ensures Attestation.Verify(w, now, input, policy).Ok?
  {
    hide Attestation.VerifyApple, Attestation.VerifyTpm, Attestation.VerifySafetyNet, Attestation.VerifyAndroidKey;
    hide Attestation.VerifyU2f, Attestation.VerifyPacked;
    assert Attestation.VERIFIABLE_FORMATS[0] == Attestation.NONE;
  }

  /** No handle, or one that is text, and the credential's user where that is known. */
  predicate HandleMatches(f: Ceremony.Facilities, userHandle: ByteString, userId: Option<string>) {
    |userHandle| > 0 ==>
      f.utf8Decode(userHandle).Some? && (userId.Some? ==> userId == f.utf8Decode(userHandle))
  }

  /** What the relying party keeps of a registered device. */
  function Kept(d: Device, signCount: nat, userId: Option<string>): Ceremony.StoredCredential {
    Ceremony.StoredCredential(d.credentialId, Cose.Build(d.key), signCount, userId)
  }

  /**
   * A built assertion is accepted if and only if the client data and flags meet the expectations, the key is
   * allowed and importable, the signature verifies over exactly what was built, the counter is in order, and
   * the user handle, if there is one, names the credential's user.
   */
  lemma AuthenticationOutcome(
      f: Ceremony.Facilities, d: Device, rpIdHash: ByteString, flags: Byte, signCount: nat, stored: nat,
      userId: Option<string>, signature: ByteString, userHandle: ByteString, clientData: ByteString,
      e: Ceremony.Expectations, rejectRegression: bool)
    requires Ready(d) && |rpIdHash| == 32 && signCount < 0x1_0000_0000 && FlagsFit(flags, false)
    ensures var authData := AuthData.Build(AssertionData(rpIdHash, flags, signCount), []);
      var response :=
        Ceremony.AuthenticationResponse(clientData, authData, signature, userHandle, Some(d.credentialId));
      Ceremony.VerifyAuthentication(f, response, e, Kept(d, stored, userId), rejectRegression).Ok?
      <==>
      && ClientMatches(f, clientData, Ceremony.GET_TYPE, e) && DataMatches(f, rpIdHash, flags, e)
      && Cose.AlgorithmOf(d.key) in e.algorithms && f.importable(d.key)
      && f.verify(d.key, signature, authData + f.attestation.Sha256(clientData))
      && Ceremony.CounterAccepted(stored, signCount, rejectRegression) && HandleMatches(f, userHandle, userId)
  {
    hide AuthData.Build, AuthData.Parse, Cose.Sound, Cose.Writable, Cose.Build, Cose.ParseKey;
    hide Ceremony.ReadAuthData, DataMatches, Ceremony.ParseClientData, Ceremony.VerifyClientData;
    var a := AssertionData(rpIdHash, flags, signCount);
    assert AuthData.Consistent(a, []);
    BuiltDataRead(f, a, e);
    Cose.ReadUndoesBuild(d.key, e.algorithms);
    SoundKeyParses(d.key, e.algorithms);
  }

  // ---- The authenticator itself --------------------------------------------------------------

  class VirtualAuthenticator {
    const device: Device
    const sign: ByteString -> ByteString
    const sha256: ByteString -> ByteString
    var signCount: nat

    constructor (device: Device, sign: ByteString -> ByteString, sha256: ByteString -> ByteString, signCount: nat)
      ensures this.device == device && this.sign == sign && this.sha256 == sha256 && this.signCount == signCount
    {
      this.device := device;
      this.sign := sign;
      this.sha256 := sha256;
      this.signCount := signCount;
    }

    /** An assertion under the given counter or the next, signed over what it carries unless overridden. */
    method Authenticate(rpIdHash: ByteString, flags: Byte, clientData: ByteString, counter: Option<nat>,
                        userHandle: ByteString, signature: Option<ByteString>)
        returns (r: Ceremony.AuthenticationResponse)
      modifies this
      ensures signCount == old(signCount) + (if counter.Some? then 0 else 1)
      ensures var authData :=
          AuthData.Build(AssertionData(rpIdHash, flags, if counter.Some? then counter.value else signCount), []);
        r == Ceremony.AuthenticationResponse(
               clientData, authData,
               if signature.Some? then signature.value else sign(authData + sha256(clientData)),
               userHandle, Some(device.credentialId))
    {
      hide AuthData.Build;
      var count: nat;
      if counter.Some? {
        count := counter.value;
      } else {
        signCount := signCount + 1;
        count := signCount;
      }
      var authData := AuthData.Build(AssertionData(rpIdHash, flags, count), []);
      var signed := authData + sha256(clientData);
      r := Ceremony.AuthenticationResponse(
        clientData, authData, if signature.Some? then signature.value else sign(signed), userHandle,
        Some(device.credentialId));
    }
  }
}
