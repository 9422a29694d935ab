/** Attestation statements in their seven formats, and what each must show before it is accepted. */
module Attestation {
  import opened Bytes
  import opened Wrappers
  import opened Chain
  import AndroidKey
  import Asn1
  import Cbor
  import Certificates
  import Cose
  import Oid
  import Text
  import Tpm

  datatype Error =
    | FormatNotAccepted
    | FormatNotVerifiable
    | StatementNotEmpty
    | AllowlistNeedsAaguid
    | ModelNotAllowed
    | X5cNotArray
    | X5cTooLong
    | X5cEntryNotBytes
    | X5cEntryInvalid
    | NoChain
    | NoAnchors
    | BadAnchor
    | NotAnchored
    | NoAlgorithm
    | UnsupportedAlgorithm
    | NoSignature
    | BadSignature
    | CertificateUnreadable(reason: Asn1.Error)
    | NoNonceExtension
    | MalformedNonce
    | NonceMismatch
    | CredentialKeyUnreadable
    | CredentialKeyMismatch
    | UnsupportedTpmVersion
    | MissingTpmStructures
    | BadTpmStructure(tpmReason: Tpm.Error)
    | CeremonyNotHashed
    | CaAsLeaf
    | AikSubjectNotEmpty
    | AikUsageMissing
    | NoSafetyNetVersion
    | NoSafetyNetResponse
    | BadSafetyNetResponse
    | SafetyNetHostMismatch
    | SafetyNetVerdicts
    | NoAndroidExtension
    | BadKeyDescription(androidReason: AndroidKey.Error)
    | ChallengeMismatch
    | U2fChainLength
    | NotP256
    | SelfNotAccepted
    | SelfAlgorithmMismatch
    | AaguidExtensionMalformed
    | AaguidMismatch

  datatype Kind = NoAttestation | SelfAttestation | Basic

  datatype Outcome = Outcome(
    format: ByteString, kind: Kind, aaguidVerified: bool, aaguid: string, subject: Option<string>)

  /** What the relying party accepts. */
  datatype Policy = Policy(
    formats: Option<seq<ByteString>>,
    trustAnchors: Option<seq<ByteString>>,
    modelAnchors: map<string, seq<ByteString>>,
    allowedAaguids: Option<seq<string>>,
    allowSelfAttestation: bool,
    allowSoftwareEnforcedAndroidKey: bool)

  /** A ceremony's part of what is verified. */
  datatype Input = Input(
    format: ByteString, statement: seq<Cbor.Entry>, authData: ByteString, clientDataHash: ByteString,
    aaguid: ByteString, credentialPublicKey: ByteString, credentialId: ByteString, credentialAlgorithm: int)

  /** A SafetyNet response, once its envelope has been opened. */
  datatype SafetyNet = SafetyNet(
    certificates: seq<ByteString>, signingInput: ByteString, signature: ByteString, nonce: string)

  /** The cryptographic and X.509 facilities that are used, none of which is modelled further. */
  datatype World = World(
    parse: ByteString -> Option<Certificate>,
    issuance: Issuance,
    verify: (int, PublicKey, ByteString, ByteString) -> bool,
    digest: (nat, ByteString) -> ByteString,
    keyOf: Cose.Material -> Option<PublicKey>,
    base64: ByteString -> string,
    openSafetyNet: ByteString -> Option<SafetyNet>,
    verdictsHold: SafetyNet -> bool)
  {
    function Sha256(b: ByteString): ByteString {
      digest(Tpm.ALG_SHA256, b)
    }
  }

  const NONE := Ascii("none")
  const PACKED := Ascii("packed")
  const APPLE := Ascii("apple")
  const TPM := Ascii("tpm")
  const FIDO_U2F := Ascii("fido-u2f")
  const ANDROID_KEY := Ascii("android-key")
  const ANDROID_SAFETYNET := Ascii("android-safetynet")
  const VERIFIABLE_FORMATS := [NONE, PACKED, APPLE, TPM, FIDO_U2F, ANDROID_KEY, ANDROID_SAFETYNET]

  const MAX_X5C_ENTRIES := 8
  const FIDO_AAGUID_OID: Oid.Oid := [1, 3, 6, 1, 4, 1, 45724, 1, 1, 4]
  const APPLE_NONCE_OID: Oid.Oid := [1, 2, 840, 113635, 100, 8, 2]
  const ANDROID_KEY_OID: Oid.Oid := [1, 3, 6, 1, 4, 1, 11129, 2, 1, 17]
  const EKU_OID: Oid.Oid := [2, 5, 29, 37]
  const AIK_CERTIFICATE_OID: Oid.Oid := [2, 23, 133, 8, 3]
  const SAFETYNET_HOSTNAME := "attest.android.com"

  const HEX_DIGITS := "0123456789abcdef"

  function ToHex(b: ByteString): string {
    if |b| == 0 then "" else [HEX_DIGITS[b[0] / 16], HEX_DIGITS[b[0] % 16]] + ToHex(b[1..])
  }

  // ---- Parts shared by the formats ---------------------------------------------------------

  function Field(statement: seq<Cbor.Entry>, name: string): Option<Cbor.Value> {
    Cbor.Lookup(statement, Cbor.Text(Ascii(name)))
  }

  /** A byte string of the statement that must not be empty. */
  function Signature(statement: seq<Cbor.Entry>): Result<ByteString, Error> {
    match Field(statement, "sig")
    case Some(Bytes(b)) => if |b| == 0 then Err(NoSignature) else Ok(b)
    case _ => Err(NoSignature)
  }

  /** The statement's algorithm, when it is one of those supported for its format. */
  function Algorithm(statement: seq<Cbor.Entry>, supported: seq<int>): Result<int, Error> {
    match Field(statement, "alg")
    case Some(Num(n)) => if n in supported then Ok(n) else Err(UnsupportedAlgorithm)
    case _ => Err(NoAlgorithm)
  }

  /** A signature counts only from a key of the kind the algorithm names. */
  predicate SignatureVerifies(w: World, alg: int, key: PublicKey, data: ByteString, signature: ByteString) {
    && (if alg == Cose.RS256 then key.kind == RsaKind
        else if alg == Cose.EDDSA then key.kind == Ed25519Kind
        else key.kind == P256Kind || key.kind == OtherEcKind)
    && w.verify(alg, key, data, signature)
  }

  function ParseCertificates(w: World, entries: seq<Cbor.Value>): Result<seq<Certificate>, Error> {
    if |entries| == 0 then Ok([])
    else if !entries[0].Bytes? then Err(X5cEntryNotBytes)
    else if w.parse(entries[0].bytes).None? then Err(X5cEntryInvalid)
    else
      var rest :- ParseCertificates(w, entries[1..]);
      Ok([w.parse(entries[0].bytes).value] + rest)
  }

  /** The certificates of a statement; None when it carries no chain at all. */
  function ReadX5c(w: World, statement: seq<Cbor.Entry>): Result<Option<seq<Certificate>>, Error> {
    match Field(statement, "x5c")
    case None => Ok(None)
    case Some(Arr(items)) =>
      if |items| == 0 then Err(X5cNotArray)
      else if |items| > MAX_X5C_ENTRIES then Err(X5cTooLong)
      else
        var chain :- ParseCertificates(w, items);
        Ok(Some(chain))
    case _ => Err(X5cNotArray)
  }

  function RequireX5c(w: World, statement: seq<Cbor.Entry>): (r: Result<seq<Certificate>, Error>)
    ensures r.Ok? ==> |r.value| > 0
  {
    var chain :- ReadX5c(w, statement);
    ParsedCount(w, statement);
    if chain.None? then Err(NoChain) else Ok(chain.value)
  }

  lemma ParsedCount(w: World, statement: seq<Cbor.Entry>)
    ensures var r := ReadX5c(w, statement); r.Ok? && r.value.Some? ==> 0 < |r.value.value| <= MAX_X5C_ENTRIES
  {
    match Field(statement, "x5c")
    case Some(Arr(items)) => ParsedCertificateCount(w, items);
    case _ =>
  }

  lemma {:induction false} ParsedCertificateCount(w: World, entries: seq<Cbor.Value>)
    ensures var r := ParseCertificates(w, entries); r.Ok? ==> |r.value| == |entries|
  {
    if |entries| > 0 {
      ParsedCertificateCount(w, entries[1..]);
    }
  }

  /** The roots for a model: its own where the policy pins them, the general ones otherwise. */
  function AnchorsFor(policy: Policy, aaguid: string): seq<ByteString> {
    if aaguid in policy.modelAnchors then policy.modelAnchors[aaguid]
    else if policy.trustAnchors.Some? then policy.trustAnchors.value
    else []
  }

  function ParseDers(w: World, ders: seq<ByteString>, error: Error): Result<seq<Certificate>, Error> {
    if |ders| == 0 then Ok([])
    else if w.parse(ders[0]).None? then Err(error)
    else
      var rest :- ParseDers(w, ders[1..], error);
      Ok([w.parse(ders[0]).value] + rest)
  }

  /** The anchors a chain may end at; a chain without roots to reach proves nothing. */
  function RequireAnchors(w: World, policy: Policy, aaguid: string): Result<seq<Certificate>, Error> {
    if |AnchorsFor(policy, aaguid)| == 0 then Err(NoAnchors) else ParseDers(w, AnchorsFor(policy, aaguid), BadAnchor)
  }

  /** Whether an allowlist, if there is one, names the model. */
  function CheckModel(policy: Policy, aaguid: string): Result<(), Error> {
    if policy.allowedAaguids.Some? && aaguid !in policy.allowedAaguids.value then Err(ModelNotAllowed) else Ok(())
  }

  /** Formats that convey no model cannot be held to an allowlist. */
  function RefuseAllowlist(policy: Policy): Result<(), Error> {
    if policy.allowedAaguids.Some? then Err(AllowlistNeedsAaguid) else Ok(())
  }

  function CheckChain(w: World, now: int, chain: seq<Certificate>, anchors: seq<Certificate>): Result<(), Error> {
    if ReachesAnchor(w.issuance, now, chain, anchors) then Ok(()) else Err(NotAnchored)
  }

  function Require(condition: bool, error: Error): Result<(), Error> {
    if condition then Ok(()) else Err(error)
  }

  /** What a ceremony signs, or has hashed. */
  function Ceremony(input: Input): ByteString {
    input.authData + input.clientDataHash
  }

  function CredentialKey(w: World, input: Input, alg: int): Result<PublicKey, Error> {
    match Cose.ParseKey(input.credentialPublicKey, [alg])
    case Err(_) => Err(CredentialKeyUnreadable)
    case Ok(material) =>
      var key := w.keyOf(material);
      if key.None? then Err(CredentialKeyUnreadable) else Ok(key.value)
  }

  /** The certificate's key must be the credential's own. */
  function CheckHoldsCredentialKey(w: World, input: Input, certificate: Certificate): Result<(), Error> {
    var key :- CredentialKey(w, input, input.credentialAlgorithm);
    Require(key.spki == certificate.key.spki, CredentialKeyMismatch)
  }

  function Extension(certificate: Certificate, oid: Oid.Oid): Result<Option<ByteString>, Error> {
    match Certificates.FindExtension(certificate.raw, oid)
    case Err(e) => Err(CertificateUnreadable(e))
    case Ok(value) => Ok(value)
  }

  // ---- apple -------------------------------------------------------------------------------

  /** The nonce inside `SEQUENCE { [1] { OCTET STRING } }`. */
  function NonceIn(extension: ByteString): Result<ByteString, Error> {
    match Asn1.ReadTlv(extension, 0)
    case Err(_) => Err(MalformedNonce)
    case Ok(outer) =>
      if outer.tag != 0x30 then Err(MalformedNonce)
      else
        match Asn1.ReadTlv(extension, outer.start)
        case Err(_) => Err(MalformedNonce)
        case Ok(context) =>
          if context.tag != 0xA1 then Err(MalformedNonce)
          else
            match Asn1.ReadTlv(extension, context.start)
            case Err(_) => Err(MalformedNonce)
            case Ok(octets) =>
              if octets.tag != 0x04 then Err(MalformedNonce) else Ok(extension[octets.start..octets.end])
  }

  function AppleNonce(certificate: Certificate): Result<ByteString, Error> {
    var extension :- Extension(certificate, APPLE_NONCE_OID);
    if extension.None? then Err(NoNonceExtension) else NonceIn(extension.value)
  }

  function VerifyApple(w: World, now: int, input: Input, policy: Policy): Result<Outcome, Error> {
    var hex := ToHex(input.aaguid);
    var chain :- RequireX5c(w, input.statement);
    var anchors :- RequireAnchors(w, policy, hex);
    var nonce :- AppleNonce(chain[0]);
    var _ :- Require(nonce == w.Sha256(Ceremony(input)), NonceMismatch);
    var _ :- CheckHoldsCredentialKey(w, input, chain[0]);
    var _ :- CheckChain(w, now, chain, anchors);
    var _ :- CheckModel(policy, hex);
    Ok(Outcome(APPLE, Basic, true, hex, Some(chain[0].subject)))
  }

  // ---- tpm ---------------------------------------------------------------------------------

  /** Whether some OID from `offset` on, up to `end`, is the target; a malformed run holds none. */
  predicate HoldsOid(b: ByteString, offset: nat, end: nat, target: ByteString)
    decreases end - offset
  {
    offset < end
    && Asn1.ReadTlv(b, offset).Ok?
    && var entry := Asn1.ReadTlv(b, offset).value;
       (entry.tag == 0x06 && b[entry.start..entry.end] == target) || HoldsOid(b, entry.end, end, target)
  }

  predicate UsageIn(extension: ByteString, target: ByteString) {
    && Asn1.ReadTlv(extension, 0).Ok?
    && var list := Asn1.ReadTlv(extension, 0).value;
       list.tag == 0x30 && HoldsOid(extension, list.start, list.end, target)
  }

  predicate HasExtendedKeyUsage(certificate: ByteString, usage: Oid.Oid) {
    var extension := Certificates.FindExtension(certificate, EKU_OID);
    var target := Oid.Encode(usage);
    extension.Ok? && extension.value.Some? && target.Ok? && UsageIn(extension.value.value, target.value)
  }

  /** The loop over the usages of one extension value. */
  method SearchUsages(extension: ByteString, target: ByteString) returns (found: bool)
    ensures found == UsageIn(extension, target)
  {
    hide Asn1.ReadTlv;
    var list := Asn1.ReadTlvAt(extension, 0);
    if list.Err? || list.value.tag != 0x30 {
      return false;
    }
    var offset := list.value.start;
    while offset < list.value.end
      invariant UsageIn(extension, target) == HoldsOid(extension, offset, list.value.end, target)
      decreases list.value.end - offset
    {
      var entry := Asn1.ReadTlvAt(extension, offset);
      if entry.Err? {
        return false;
      }
      if entry.value.tag == 0x06 && extension[entry.value.start..entry.value.end] == target {
        return true;
      }
      offset := entry.value.end;
    }
    return false;
  }

  function ComparableKey(material: Cose.Material): Option<Tpm.CredentialKey> {
    match material
    case Ec2(x, y) => Some(Tpm.EcCredential(x, y))
    case Rsa(n, e) => Some(Tpm.RsaCredential(n, BigEndian(e)))
    case Okp(_) => None
  }

  /** The public area describes the credential key. */
  function CheckPubArea(input: Input, alg: int, pubArea: ByteString): Result<(), Error> {
    match Tpm.ParsePublic(pubArea)
    case Err(e) => Err(BadTpmStructure(e))
    case Ok(public) =>
      match Cose.ParseKey(input.credentialPublicKey, [alg])
      case Err(_) => Err(CredentialKeyUnreadable)
      case Ok(material) =>
        var key := ComparableKey(material);
        if key.None? then Err(CredentialKeyUnreadable)
        else
          var mismatch := Tpm.VerifyPublicKeyMatches(public, key.value);
          if mismatch.Some? then Err(BadTpmStructure(mismatch.value)) else Ok(())
  }

  /** The statement hashes this ceremony and names the public area. */
  function CheckCertInfo(w: World, input: Input, certInfo: ByteString, pubArea: ByteString): Result<(), Error> {
    match Tpm.ParseAttest(certInfo)
    case Err(e) => Err(BadTpmStructure(e))
    case Ok(attest) =>
      if attest.extraData != w.Sha256(Ceremony(input)) then Err(CeremonyNotHashed)
      else
        var mismatch := Tpm.VerifyAttestedName(attest.attestedName, pubArea, w.digest);
        if mismatch.Some? then Err(BadTpmStructure(mismatch.value)) else Ok(())
  }

  /** The `certInfo` and `pubArea` of a statement of the supported version. */
  function TpmParts(statement: seq<Cbor.Entry>): Result<(ByteString, ByteString, ByteString), Error> {
    if Field(statement, "ver") != Some(Cbor.Text(Ascii("2.0"))) then Err(UnsupportedTpmVersion)
    else
      var signature :- Signature(statement);
      match (Field(statement, "certInfo"), Field(statement, "pubArea"))
      case (Some(Bytes(certInfo)), Some(Bytes(pubArea))) => Ok((signature, certInfo, pubArea))
      case _ => Err(MissingTpmStructures)
  }

  function VerifyTpm(w: World, now: int, input: Input, policy: Policy): Result<Outcome, Error> {
    var hex := ToHex(input.aaguid);
    var alg :- Algorithm(input.statement, [Cose.ES256, Cose.RS256]);
    var chain :- RequireX5c(w, input.statement);
    var anchors :- RequireAnchors(w, policy, hex);
    var parts :- TpmParts(input.statement);
    var _ :- CheckPubArea(input, alg, parts.2);
    var _ :- CheckCertInfo(w, input, parts.1, parts.2);
    var _ :- Require(SignatureVerifies(w, alg, chain[0].key, parts.1, parts.0), BadSignature);
    var _ :- Require(!chain[0].ca, CaAsLeaf);
    var _ :- Require(Text.Blank(chain[0].subject), AikSubjectNotEmpty);
    var _ :- Require(HasExtendedKeyUsage(chain[0].raw, AIK_CERTIFICATE_OID), AikUsageMissing);
    var _ :- CheckChain(w, now, chain, anchors);
    var _ :- CheckModel(policy, hex);
    Ok(Outcome(TPM, Basic, true, hex, Some(chain[0].issuer)))
  }

  // ---- android-safetynet -------------------------------------------------------------------

  function SafetyNetResponse(w: World, statement: seq<Cbor.Entry>): Result<ByteString, Error> {
    match Field(statement, "ver")
    case Some(Text(ver)) =>
      if |ver| == 0 then Err(NoSafetyNetVersion)
      else
        (match Field(statement, "response")
         case Some(Bytes(raw)) => if |raw| == 0 then Err(NoSafetyNetResponse) else Ok(raw)
         case _ => Err(NoSafetyNetResponse))
    case _ => Err(NoSafetyNetVersion)
  }

  function VerifySafetyNet(w: World, now: int, input: Input, policy: Policy): Result<Outcome, Error> {
    var hex := ToHex(input.aaguid);
    var raw :- SafetyNetResponse(w, input.statement);
    var _ :- Require(|AnchorsFor(policy, hex)| > 0, NoAnchors);
    var response := w.openSafetyNet(raw);
    if response.None? || |response.value.certificates| == 0 then Err(BadSafetyNetResponse)
    else
      var chain :- ParseDers(w, response.value.certificates, BadSafetyNetResponse);
      var anchors :- ParseDers(w, AnchorsFor(policy, hex), BadAnchor);
      var leaf := chain[0];
      var _ :- Require(SAFETYNET_HOSTNAME in leaf.hosts, SafetyNetHostMismatch);
      var _ :- Require(SignatureVerifies(w, Cose.RS256, leaf.key, response.value.signingInput,
                                         response.value.signature), BadSignature);
      var _ :- Require(response.value.nonce == w.base64(w.Sha256(Ceremony(input))), NonceMismatch);
      var _ :- Require(w.verdictsHold(response.value), SafetyNetVerdicts);
      var _ :- CheckChain(w, now, chain, anchors);
      var _ :- RefuseAllowlist(policy);
      Ok(Outcome(ANDROID_SAFETYNET, Basic, false, hex, Some(leaf.subject)))
  }

  // ---- android-key -------------------------------------------------------------------------

  /** The key description is in order, and was made for this ceremony. */
  function CheckKeyDescription(input: Input, policy: Policy, extension: ByteString): Result<(), Error> {
    match AndroidKey.Parse(extension)
    case Err(e) => Err(BadKeyDescription(e))
    case Ok(description) =>
      var refusal := AndroidKey.VerifyAuthorizations(description, policy.allowSoftwareEnforcedAndroidKey);
      if refusal.Some? then Err(BadKeyDescription(refusal.value))
      else Require(description.challenge == input.clientDataHash, ChallengeMismatch)
  }

  function VerifyAndroidKey(w: World, now: int, input: Input, policy: Policy): Result<Outcome, Error> {
    var hex := ToHex(input.aaguid);
    var alg :- Algorithm(input.statement, [Cose.ES256, Cose.RS256]);
    var chain :- RequireX5c(w, input.statement);
    var anchors :- RequireAnchors(w, policy, hex);
    var signature :- Signature(input.statement);
    var _ :- Require(SignatureVerifies(w, alg, chain[0].key, Ceremony(input), signature), BadSignature);
    var _ :- CheckHoldsCredentialKey(w, input, chain[0]);
    var extension :- Extension(chain[0], ANDROID_KEY_OID);
    var _ :- Require(extension.Some?, NoAndroidExtension);
    var _ :- CheckKeyDescription(input, policy, extension.value);
    var _ :- CheckChain(w, now, chain, anchors);
    var _ :- CheckModel(policy, hex);
    Ok(Outcome(ANDROID_KEY, Basic, true, hex, Some(chain[0].subject)))
  }

  // ---- fido-u2f ----------------------------------------------------------------------------

  /** The uncompressed point, as a U2F authenticator signs over it. */
  function U2fPublicKey(credentialPublicKey: ByteString): Result<ByteString, Error> {
    match Cose.ParseKey(credentialPublicKey, [Cose.ES256])
    case Ok(Ec2(x, y)) => if |x| != 32 || |y| != 32 then Err(NotP256) else Ok([0x04] + x + y)
    case Ok(_) => Err(NotP256)
    case Err(_) => Err(CredentialKeyUnreadable)
  }

  function RpIdHash(authData: ByteString): ByteString {
    if |authData| < 32 then authData else authData[..32]
  }

  function VerifyU2f(w: World, now: int, input: Input, policy: Policy): Result<Outcome, Error> {
    var hex := ToHex(input.aaguid);
    var chain :- RequireX5c(w, input.statement);
    var anchors :- RequireAnchors(w, policy, hex);
    var signature :- Signature(input.statement);
    var _ :- Require(|chain| == 1, U2fChainLength);
    var _ :- Require(chain[0].key.kind == P256Kind, NotP256);
    var _ :- Require(input.credentialAlgorithm == Cose.ES256, NotP256);
    var point :- U2fPublicKey(input.credentialPublicKey);
    var data := [0x00] + RpIdHash(input.authData) + input.clientDataHash + input.credentialId + point;
    var _ :- Require(SignatureVerifies(w, Cose.ES256, chain[0].key, data, signature), BadSignature);
    var _ :- CheckChain(w, now, chain, anchors);
    var _ :- RefuseAllowlist(policy);
    Ok(Outcome(FIDO_U2F, Basic, false, hex, Some(chain[0].subject)))
  }

  // ---- packed ------------------------------------------------------------------------------

  /** The model a certificate names, if it names one. */
  function CertificateAaguid(certificate: Certificate): Result<Option<ByteString>, Error> {
    var extension :- Extension(certificate, FIDO_AAGUID_OID);
    if extension.None? then Ok(None)
    else
      var value := extension.value;
      if |value| != 18 || value[0] != 0x04 || value[1] != 0x10 then Err(AaguidExtensionMalformed)
      else Ok(Some(value[2..]))
  }

  function VerifySelf(w: World, input: Input, policy: Policy, alg: int, signature: ByteString)
    : Result<Outcome, Error>
  {
    var _ :- Require(policy.allowSelfAttestation, SelfNotAccepted);
    var _ :- Require(alg == input.credentialAlgorithm, SelfAlgorithmMismatch);
    var _ :- RefuseAllowlist(policy);
    var key :- CredentialKey(w, input, alg);
    var _ :- Require(SignatureVerifies(w, alg, key, Ceremony(input), signature), BadSignature);
    Ok(Outcome(PACKED, SelfAttestation, false, ToHex(input.aaguid), None))
  }

  function VerifyPacked(w: World, now: int, input: Input, policy: Policy): Result<Outcome, Error> {
    var hex := ToHex(input.aaguid);
    var _ :- Require(Field(input.statement, "alg").Some? && Field(input.statement, "alg").value.Num?, NoAlgorithm);
    var signature :- Signature(input.statement);
    var alg :- Algorithm(input.statement, [Cose.ES256, Cose.EDDSA, Cose.RS256]);
    var x5c :- ReadX5c(w, input.statement);
    if x5c.None? then VerifySelf(w, input, policy, alg, signature)
    else
      ParsedCount(w, input.statement);
      var chain := x5c.value;
      var _ :- Require(|AnchorsFor(policy, hex)| > 0, NoAnchors);
      var _ :- Require(!chain[0].ca, CaAsLeaf);
      var _ :- Require(SignatureVerifies(w, alg, chain[0].key, Ceremony(input), signature), BadSignature);
      var named :- CertificateAaguid(chain[0]);
      var _ :- Require(named.Some? ==> named.value == input.aaguid, AaguidMismatch);
      var anchors :- ParseDers(w, AnchorsFor(policy, hex), BadAnchor);
      var _ :- CheckChain(w, now, chain, anchors);
      var _ :- CheckModel(policy, hex);
      Ok(Outcome(PACKED, Basic, true, hex, Some(chain[0].subject)))
  }

  // ---- The decision ------------------------------------------------------------------------

  function VerifyNone(input: Input, policy: Policy): Result<Outcome, Error> {
    var _ :- Require(|input.statement| == 0, StatementNotEmpty);
    var _ :- RefuseAllowlist(policy);
    Ok(Outcome(NONE, NoAttestation, false, ToHex(input.aaguid), None))
  }

  function AcceptedFormats(policy: Policy): seq<ByteString> {
    if policy.formats.Some? then policy.formats.value else [NONE]
  }

  function Verify(w: World, now: int, input: Input, policy: Policy): Result<Outcome, Error> {
    if input.format !in AcceptedFormats(policy) then Err(FormatNotAccepted)
    else if input.format !in VERIFIABLE_FORMATS then Err(FormatNotVerifiable)
    else if input.format == NONE then VerifyNone(input, policy)
    else if input.format == APPLE then VerifyApple(w, now, input, policy)
    else if input.format == TPM then VerifyTpm(w, now, input, policy)
    else if input.format == ANDROID_SAFETYNET then VerifySafetyNet(w, now, input, policy)
    else if input.format == ANDROID_KEY then VerifyAndroidKey(w, now, input, policy)
    else if input.format == FIDO_U2F then VerifyU2f(w, now, input, policy)
    else VerifyPacked(w, now, input, policy)
  }
}
