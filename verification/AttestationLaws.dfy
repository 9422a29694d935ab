/** What an accepted attestation has established: exactly what its statement shows. */
module AttestationLaws {
  import opened Bytes
  import opened Wrappers
  import opened Chain
  import opened Attestation
  import opened Evidence
  import Cbor
  import Certificates
  import Cose
  import Text

  /** The formats whose chain vouches for the authenticator's model. */
  predicate NamesModel(format: ByteString) {
    format == APPLE || format == TPM || format == ANDROID_KEY || format == PACKED
  }

  /** What a certified statement of this format and chain amounts to. */
  function CertifiedOutcome(format: ByteString, input: Input, chain: seq<Certificate>): Outcome
    requires |chain| > 0
  {
    Outcome(format, Basic, NamesModel(format), ToHex(input.aaguid),
            Some(if format == TPM then chain[0].issuer else chain[0].subject))
  }

  /** Whether an allowlist, if there is one, lists the model. */
  predicate Listed(input: Input, policy: Policy) {
    policy.allowedAaguids.Some? ==> ToHex(input.aaguid) in policy.allowedAaguids.value
  }

  // ---- Format by format ------------------------------------------------------------------------

  lemma FormatsDiffer()
    ensures !NamesModel(FIDO_U2F) && !NamesModel(ANDROID_SAFETYNET) && !NamesModel(NONE)
    ensures TPM != APPLE && TPM != ANDROID_KEY && TPM != PACKED && TPM != FIDO_U2F && TPM != ANDROID_SAFETYNET
  {
    assert |NONE| == 4 && |PACKED| == 6 && |APPLE| == 5 && |TPM| == 3 && |FIDO_U2F| == 8 && |ANDROID_KEY| == 11;
    assert |ANDROID_SAFETYNET| == 17;
  }

  lemma AppleCertified(w: World, now: int, input: Input, policy: Policy) returns (chain: seq<Certificate>)
    requires VerifyApple(w, now, input, policy).Ok?
    ensures PresentsX5c(w, input.statement, chain) && |chain| > 0 && AppleShown(w, input, chain[0])
    ensures Rooted(w, now, input, policy, chain) && Listed(input, policy)
    ensures VerifyApple(w, now, input, policy).value == CertifiedOutcome(APPLE, input, chain)
  {
    hide ReachesAnchor, ReadX5c, ParseDers, ToHex, AnchorsFor, PresentsX5c, Rooted, Ascii;
    hide AppleNonce, CheckHoldsCredentialKey, NonceIs, HoldsCredentialKey, Certificates.FindExtension;
    chain := RequireX5c(w, input.statement).value;
    X5cMeans(w, input.statement, chain);
    RootedMeans(w, now, input, policy, chain);
    NonceMeans(chain[0], w.Sha256(Ceremony(input)));
    KeyMeans(w, input, chain[0]);
    FormatsDiffer();
  }

  lemma AppleDecides(w: World, now: int, input: Input, policy: Policy, chain: seq<Certificate>)
    requires PresentsX5c(w, input.statement, chain) && |chain| > 0 && AppleShown(w, input, chain[0])
    requires Rooted(w, now, input, policy, chain) && Listed(input, policy)
    ensures VerifyApple(w, now, input, policy) == Ok(CertifiedOutcome(APPLE, input, chain))
  {
    hide ReachesAnchor, ReadX5c, ParseDers, ToHex, AnchorsFor, PresentsX5c, Rooted, Ascii;
    hide AppleNonce, CheckHoldsCredentialKey, NonceIs, HoldsCredentialKey, Certificates.FindExtension;
    X5cMeans(w, input.statement, chain);
    RootedMeans(w, now, input, policy, chain);
    NonceMeans(chain[0], w.Sha256(Ceremony(input)));
    KeyMeans(w, input, chain[0]);
    FormatsDiffer();
  }

  /** The checks that the verifier makes of a tpm statement and its leaf. */
  predicate TpmChecks(w: World, input: Input, leaf: Certificate) {
    var alg, parts := Algorithm(input.statement, [Cose.ES256, Cose.RS256]), TpmParts(input.statement);
    && alg.Ok? && parts.Ok?
    && CheckPubArea(input, alg.value, parts.value.2).Ok?
    && CheckCertInfo(w, input, parts.value.1, parts.value.2).Ok?
    && SignatureVerifies(w, alg.value, leaf.key, parts.value.1, parts.value.0)
    && !leaf.ca && Text.Blank(leaf.subject) && HasExtendedKeyUsage(leaf.raw, AIK_CERTIFICATE_OID)
  }

  lemma TpmMeans(w: World, input: Input, leaf: Certificate)
    ensures TpmChecks(w, input, leaf) <==> TpmShown(w, input, leaf)
  {
    hide CheckPubArea, CheckCertInfo, HasExtendedKeyUsage, Extended, AreaShown, CertInfoShown, Ascii;
    UsageMeans(leaf);
    var alg := Entry(input.statement, "alg");
    var sig, cert, area :=
      Entry(input.statement, "sig"), Entry(input.statement, "certInfo"), Entry(input.statement, "pubArea");
    if sig.Some? && sig.value.Bytes? && cert.Some? && cert.value.Bytes? && area.Some? && area.value.Bytes? {
      PartsMean(input.statement, sig.value.bytes, cert.value.bytes, area.value.bytes);
      CertInfoMeans(w, input, cert.value.bytes, area.value.bytes);
      if alg.Some? && alg.value.Num? {
        AreaMeans(input, alg.value.n, area.value.bytes);
      }
    }
  }

  lemma TpmCertified(w: World, now: int, input: Input, policy: Policy) returns (chain: seq<Certificate>)
    requires VerifyTpm(w, now, input, policy).Ok?
    ensures PresentsX5c(w, input.statement, chain) && |chain| > 0 && TpmShown(w, input, chain[0])
    ensures Rooted(w, now, input, policy, chain) && Listed(input, policy)
    ensures VerifyTpm(w, now, input, policy).value == CertifiedOutcome(TPM, input, chain)
  {
    hide ReachesAnchor, ReadX5c, ParseDers, ToHex, AnchorsFor, PresentsX5c, Rooted, Ascii;
    hide CheckPubArea, CheckCertInfo, TpmParts, Algorithm, HasExtendedKeyUsage, Text.Blank, SignatureVerifies, TpmShown;
    chain := RequireX5c(w, input.statement).value;
    X5cMeans(w, input.statement, chain);
    RootedMeans(w, now, input, policy, chain);
    TpmMeans(w, input, chain[0]);
    FormatsDiffer();
  }

  lemma TpmDecides(w: World, now: int, input: Input, policy: Policy, chain: seq<Certificate>)
    requires PresentsX5c(w, input.statement, chain) && |chain| > 0 && TpmShown(w, input, chain[0])
    requires Rooted(w, now, input, policy, chain) && Listed(input, policy)
    ensures VerifyTpm(w, now, input, policy) == Ok(CertifiedOutcome(TPM, input, chain))
  {
    hide ReachesAnchor, ReadX5c, ParseDers, ToHex, AnchorsFor, PresentsX5c, Rooted, Ascii;
    hide CheckPubArea, CheckCertInfo, TpmParts, Algorithm, HasExtendedKeyUsage, Text.Blank, SignatureVerifies, TpmShown;
    X5cMeans(w, input.statement, chain);
    RootedMeans(w, now, input, policy, chain);
    TpmMeans(w, input, chain[0]);
    FormatsDiffer();
  }

  lemma AndroidKeyCertified(w: World, now: int, input: Input, policy: Policy) returns (chain: seq<Certificate>)
    requires VerifyAndroidKey(w, now, input, policy).Ok?
    ensures PresentsX5c(w, input.statement, chain) && |chain| > 0
    ensures AndroidKeyShown(w, input, policy.allowSoftwareEnforcedAndroidKey, chain[0])
    ensures Rooted(w, now, input, policy, chain) && Listed(input, policy)
    ensures VerifyAndroidKey(w, now, input, policy).value == CertifiedOutcome(ANDROID_KEY, input, chain)
  {
    hide ReachesAnchor, ReadX5c, ParseDers, ToHex, AnchorsFor, PresentsX5c, Rooted, Ascii;
    hide Algorithm, Signature, SignatureVerifies, CheckHoldsCredentialKey, CheckKeyDescription, LeafSigned;
    hide DescriptionShown, HoldsCredentialKey, Certificates.FindExtension;
    chain := RequireX5c(w, input.statement).value;
    X5cMeans(w, input.statement, chain);
    RootedMeans(w, now, input, policy, chain);
    SignatureMeans(w, input, [Cose.ES256, Cose.RS256], chain[0]);
    KeyMeans(w, input, chain[0]);
    if Extension(chain[0], ANDROID_KEY_OID).Ok? && Extension(chain[0], ANDROID_KEY_OID).value.Some? {
      DescriptionMeans(input, policy, Extension(chain[0], ANDROID_KEY_OID).value.value);
    }
    FormatsDiffer();
  }

  lemma AndroidKeyDecides(w: World, now: int, input: Input, policy: Policy, chain: seq<Certificate>)
    requires PresentsX5c(w, input.statement, chain) && |chain| > 0
    requires AndroidKeyShown(w, input, policy.allowSoftwareEnforcedAndroidKey, chain[0])
    requires Rooted(w, now, input, policy, chain) && Listed(input, policy)
    ensures VerifyAndroidKey(w, now, input, policy) == Ok(CertifiedOutcome(ANDROID_KEY, input, chain))
  {
    hide ReachesAnchor, ReadX5c, ParseDers, ToHex, AnchorsFor, PresentsX5c, Rooted, Ascii;
    hide Algorithm, Signature, SignatureVerifies, CheckHoldsCredentialKey, CheckKeyDescription, LeafSigned;
    hide DescriptionShown, HoldsCredentialKey, Certificates.FindExtension;
    X5cMeans(w, input.statement, chain);
    RootedMeans(w, now, input, policy, chain);
    SignatureMeans(w, input, [Cose.ES256, Cose.RS256], chain[0]);
    KeyMeans(w, input, chain[0]);
    if Extension(chain[0], ANDROID_KEY_OID).Ok? && Extension(chain[0], ANDROID_KEY_OID).value.Some? {
      DescriptionMeans(input, policy, Extension(chain[0], ANDROID_KEY_OID).value.value);
    }
    FormatsDiffer();
  }

  lemma PackedCertified(w: World, now: int, input: Input, policy: Policy) returns (chain: seq<Certificate>)
    requires VerifyPacked(w, now, input, policy).Ok? && VerifyPacked(w, now, input, policy).value.kind == Basic
    ensures PresentsX5c(w, input.statement, chain) && |chain| > 0 && PackedShown(w, input, chain[0])
    ensures Rooted(w, now, input, policy, chain) && Listed(input, policy)
    ensures VerifyPacked(w, now, input, policy).value == CertifiedOutcome(PACKED, input, chain)
  {
    hide ReachesAnchor, ReadX5c, ParseDers, ToHex, AnchorsFor, PresentsX5c, Rooted, Ascii;
    hide SignatureVerifies, CertificateAaguid, CredentialKey, LeafSigned, NamesNoOther;
    ParsedCount(w, input.statement);
    chain := ReadX5c(w, input.statement).value.value;
    X5cMeans(w, input.statement, chain);
    RootedMeans(w, now, input, policy, chain);
    SignatureMeans(w, input, [Cose.ES256, Cose.EDDSA, Cose.RS256], chain[0]);
    ModelMeans(chain[0], input.aaguid);
    FormatsDiffer();
  }

  lemma PackedDecides(w: World, now: int, input: Input, policy: Policy, chain: seq<Certificate>)
    requires PresentsX5c(w, input.statement, chain) && |chain| > 0 && PackedShown(w, input, chain[0])
    requires Rooted(w, now, input, policy, chain) && Listed(input, policy)
    ensures VerifyPacked(w, now, input, policy) == Ok(CertifiedOutcome(PACKED, input, chain))
  {
    hide ReachesAnchor, ReadX5c, ParseDers, ToHex, AnchorsFor, PresentsX5c, Rooted, Ascii;
    hide SignatureVerifies, CertificateAaguid, CredentialKey, LeafSigned, NamesNoOther;
    X5cMeans(w, input.statement, chain);
    RootedMeans(w, now, input, policy, chain);
    SignatureMeans(w, input, [Cose.ES256, Cose.EDDSA, Cose.RS256], chain[0]);
    ModelMeans(chain[0], input.aaguid);
    FormatsDiffer();
  }

  /** The checks that the verifier makes of a fido-u2f statement and its chain. */
  predicate U2fChecks(w: World, input: Input, chain: seq<Certificate>) {
    && |chain| == 1 && chain[0].key.kind == P256Kind && input.credentialAlgorithm == Cose.ES256
    && Signature(input.statement).Ok? && U2fPublicKey(input.credentialPublicKey).Ok?
    && SignatureVerifies(w, Cose.ES256, chain[0].key,
                         [0x00] + RpIdHash(input.authData) + input.clientDataHash + input.credentialId
                         + U2fPublicKey(input.credentialPublicKey).value,
                         Signature(input.statement).value)
  }

  lemma U2fMeans(w: World, input: Input, chain: seq<Certificate>)
    ensures U2fChecks(w, input, chain) <==> U2fShown(w, input, chain)
  {
    hide Ascii, Cose.ParseKey;
    var material := Cose.ParseKey(input.credentialPublicKey, [Cose.ES256]);
    if material.Ok? && material.value.Ec2? && |material.value.x| == 32 && |material.value.y| == 32 {
      var point := [0x04] + material.value.x + material.value.y;
      PointMeans(input.credentialPublicKey, point);
      assert [0x00] + RpIdHash(input.authData) + input.clientDataHash + input.credentialId + point
             == U2fSigned(input, material.value.x, material.value.y);
    }
  }

  lemma U2fCertified(w: World, now: int, input: Input, policy: Policy) returns (chain: seq<Certificate>)
    requires VerifyU2f(w, now, input, policy).Ok?
    ensures PresentsX5c(w, input.statement, chain) && |chain| > 0 && U2fShown(w, input, chain)
    ensures Rooted(w, now, input, policy, chain) && policy.allowedAaguids.None?
    ensures VerifyU2f(w, now, input, policy).value == CertifiedOutcome(FIDO_U2F, input, chain)
  {
    hide ReachesAnchor, ReadX5c, ParseDers, ToHex, AnchorsFor, PresentsX5c, Rooted, Ascii;
    hide Signature, SignatureVerifies, U2fPublicKey, RpIdHash, U2fShown;
    chain := RequireX5c(w, input.statement).value;
    X5cMeans(w, input.statement, chain);
    RootedMeans(w, now, input, policy, chain);
    U2fMeans(w, input, chain);
    FormatsDiffer();
  }

  lemma U2fDecides(w: World, now: int, input: Input, policy: Policy, chain: seq<Certificate>)
    requires PresentsX5c(w, input.statement, chain) && |chain| > 0 && U2fShown(w, input, chain)
    requires Rooted(w, now, input, policy, chain) && policy.allowedAaguids.None?
    ensures VerifyU2f(w, now, input, policy) == Ok(CertifiedOutcome(FIDO_U2F, input, chain))
  {
    hide ReachesAnchor, ReadX5c, ParseDers, ToHex, AnchorsFor, PresentsX5c, Rooted, Ascii;
    hide Signature, SignatureVerifies, U2fPublicKey, RpIdHash, U2fShown;
    X5cMeans(w, input.statement, chain);
    RootedMeans(w, now, input, policy, chain);
    U2fMeans(w, input, chain);
    FormatsDiffer();
  }

  lemma SafetyNetCertified(w: World, now: int, input: Input, policy: Policy)
      returns (chain: seq<Certificate>, response: SafetyNet)
    requires VerifySafetyNet(w, now, input, policy).Ok?
    ensures HoldsResponse(w, input.statement, response) && ReadAs(w, response.certificates, chain)
    ensures |chain| > 0 && SafetyNetShown(w, input, response, chain[0])
    ensures Rooted(w, now, input, policy, chain) && policy.allowedAaguids.None?
    ensures VerifySafetyNet(w, now, input, policy).value == CertifiedOutcome(ANDROID_SAFETYNET, input, chain)
  {
    hide ReachesAnchor, ToHex, AnchorsFor, SafetyNetResponse, Rooted, HoldsResponse, Ascii, ParseDers;
    response := w.openSafetyNet(SafetyNetResponse(w, input.statement).value).value;
    chain := ParseDers(w, response.certificates, BadSafetyNetResponse).value;
    ResponseMeans(w, input.statement, response);
    DersMean(w, response.certificates, BadSafetyNetResponse, chain);
    RootedMeans(w, now, input, policy, chain);
    FormatsDiffer();
  }

  lemma SafetyNetDecides(
      w: World, now: int, input: Input, policy: Policy, chain: seq<Certificate>, response: SafetyNet)
    requires HoldsResponse(w, input.statement, response) && ReadAs(w, response.certificates, chain)
    requires |chain| > 0 && SafetyNetShown(w, input, response, chain[0])
    requires Rooted(w, now, input, policy, chain) && policy.allowedAaguids.None?
    ensures VerifySafetyNet(w, now, input, policy) == Ok(CertifiedOutcome(ANDROID_SAFETYNET, input, chain))
  {
    hide ReachesAnchor, ToHex, AnchorsFor, SafetyNetResponse, Rooted, HoldsResponse, Ascii, ParseDers;
    ResponseMeans(w, input.statement, response);
    DersMean(w, response.certificates, BadSafetyNetResponse, chain);
    RootedMeans(w, now, input, policy, chain);
    FormatsDiffer();
  }

  // ---- Without certificates --------------------------------------------------------------------

  /** A packed statement without certificates is accepted exactly as a self-attestation that was admitted. */
  lemma SelfDecides(w: World, now: int, input: Input, policy: Policy)
    ensures VerifyPacked(w, now, input, policy).Ok? && VerifyPacked(w, now, input, policy).value.kind != Basic
            <==> SelfShown(w, input) && policy.allowSelfAttestation && policy.allowedAaguids.None?
    ensures VerifyPacked(w, now, input, policy).Ok? && VerifyPacked(w, now, input, policy).value.kind != Basic ==>
              VerifyPacked(w, now, input, policy).value
              == Outcome(PACKED, SelfAttestation, false, ToHex(input.aaguid), None)
  {
    hide ReachesAnchor, ReadX5c, ParseDers, ToHex, AnchorsFor, CertificateAaguid, Cose.ParseKey, Ascii;
    X5cMeans(w, input.statement, []);
  }

  // ---- The decision ----------------------------------------------------------------------------

  /** The formats a policy accepts: those it names, or `none` alone. */
  predicate Asked(input: Input, policy: Policy) {
    if policy.formats.Some? then input.format in policy.formats.value else input.format == Ascii("none")
  }

  /** What the policy asks of the model, in the formats that name one and in those that do not. */
  predicate ModelAllowed(input: Input, policy: Policy) {
    if NamesModel(input.format) then Listed(input, policy) else policy.allowedAaguids.None?
  }

  /**
   * The whole decision on certified statements: the outcome is certified if and only if the format is asked for,
   * the policy allows the model, and the statement presents a chain that it is in order with and that reaches a
   * root; and it is then of that format, model and leaf.
   */
  lemma CertifiedExactly(w: World, now: int, input: Input, policy: Policy, r: Outcome)
    ensures Verify(w, now, input, policy) == Ok(r) && r.kind == Basic
            <==> && Asked(input, policy) && ModelAllowed(input, policy)
                 && exists chain ::
                      && Shown(w, input, policy.allowSoftwareEnforcedAndroidKey, chain)
                      && Rooted(w, now, input, policy, chain) && r == CertifiedOutcome(input.format, input, chain)
  {
    hide Verify, Presents, Rooted, CertifiedOutcome, ModelAllowed, Asked, Ascii;
    hide AppleShown, TpmShown, AndroidKeyShown, PackedShown, U2fShown, SafetyNetShown, HoldsResponse;
    if Verify(w, now, input, policy) == Ok(r) && r.kind == Basic {
      var chain := CertifiedShows(w, now, input, policy);
    }
    if Asked(input, policy) && ModelAllowed(input, policy) {
      forall chain |
        Shown(w, input, policy.allowSoftwareEnforcedAndroidKey, chain) && Rooted(w, now, input, policy, chain)
        ensures Verify(w, now, input, policy) == Ok(CertifiedOutcome(input.format, input, chain))
        ensures CertifiedOutcome(input.format, input, chain).kind == Basic
      {
        ShownCertifies(w, now, input, policy, chain);
      }
    }
  }

  lemma FormatChosen(w: World, now: int, input: Input, policy: Policy)
    ensures Verify(w, now, input, policy).Ok? ==> Asked(input, policy) && input.format in VERIFIABLE_FORMATS
    ensures Asked(input, policy) ==>
      && (input.format == APPLE ==> Verify(w, now, input, policy) == VerifyApple(w, now, input, policy))
      && (input.format == TPM ==> Verify(w, now, input, policy) == VerifyTpm(w, now, input, policy))
      && (input.format == ANDROID_KEY ==> Verify(w, now, input, policy) == VerifyAndroidKey(w, now, input, policy))
      && (input.format == FIDO_U2F ==> Verify(w, now, input, policy) == VerifyU2f(w, now, input, policy))
      && (input.format == PACKED ==> Verify(w, now, input, policy) == VerifyPacked(w, now, input, policy))
      && (input.format == NONE ==> Verify(w, now, input, policy) == VerifyNone(input, policy))
      && (input.format == ANDROID_SAFETYNET ==>
            Verify(w, now, input, policy) == VerifySafetyNet(w, now, input, policy))
  {
    hide VerifyApple, VerifyTpm, VerifySafetyNet, VerifyAndroidKey, VerifyU2f, VerifyPacked, VerifyNone;
    hide Ascii;
    assert |NONE| == 4 && |PACKED| == 6 && |APPLE| == 5 && |TPM| == 3 && |FIDO_U2F| == 8 && |ANDROID_KEY| == 11;
    assert |ANDROID_SAFETYNET| == 17;
    assert VERIFIABLE_FORMATS == [NONE, PACKED, APPLE, TPM, FIDO_U2F, ANDROID_KEY, ANDROID_SAFETYNET];
  }

  lemma CertifiedShows(w: World, now: int, input: Input, policy: Policy) returns (chain: seq<Certificate>)
    requires Verify(w, now, input, policy).Ok? && Verify(w, now, input, policy).value.kind == Basic
    ensures Asked(input, policy) && ModelAllowed(input, policy)
    ensures Shown(w, input, policy.allowSoftwareEnforcedAndroidKey, chain) && Rooted(w, now, input, policy, chain)
    ensures Verify(w, now, input, policy).value == CertifiedOutcome(input.format, input, chain)
  {
    hide Verify, VerifyApple, VerifyTpm, VerifySafetyNet, VerifyAndroidKey, VerifyU2f, VerifyPacked, Rooted, Ascii;
    hide AppleShown, TpmShown, AndroidKeyShown, PackedShown, U2fShown, SafetyNetShown, PresentsX5c, HoldsResponse;
    hide Asked, Listed, ReadAs, CertifiedOutcome, ToHex;
    FormatChosen(w, now, input, policy);
    FormatsDiffer();
    if input.format == APPLE {
      chain := AppleCertified(w, now, input, policy);
    } else if input.format == TPM {
      chain := TpmCertified(w, now, input, policy);
    } else if input.format == ANDROID_SAFETYNET {
      var response: SafetyNet;
      chain, response := SafetyNetCertified(w, now, input, policy);
    } else if input.format == ANDROID_KEY {
      chain := AndroidKeyCertified(w, now, input, policy);
    } else if input.format == FIDO_U2F {
      chain := U2fCertified(w, now, input, policy);
    } else if input.format == PACKED {
      chain := PackedCertified(w, now, input, policy);
    } else {
      assert input.format == NONE;
      NoneIsNotCertified(input, policy);
    }
  }

  lemma NoneIsNotCertified(input: Input, policy: Policy)
    ensures VerifyNone(input, policy).Ok? ==> VerifyNone(input, policy).value.kind == NoAttestation
  {
  }

  lemma ShownCertifies(w: World, now: int, input: Input, policy: Policy, chain: seq<Certificate>)
    requires Asked(input, policy) && ModelAllowed(input, policy)
    requires Shown(w, input, policy.allowSoftwareEnforcedAndroidKey, chain) && Rooted(w, now, input, policy, chain)
    ensures Verify(w, now, input, policy) == Ok(CertifiedOutcome(input.format, input, chain))
    ensures CertifiedOutcome(input.format, input, chain).kind == Basic
  {
    hide Verify, VerifyApple, VerifyTpm, VerifySafetyNet, VerifyAndroidKey, VerifyU2f, VerifyPacked, Rooted, Ascii;
    hide AppleShown, TpmShown, AndroidKeyShown, PackedShown, U2fShown, SafetyNetShown, PresentsX5c, HoldsResponse;
    hide Asked, Listed, ReadAs, ToHex;
    FormatChosen(w, now, input, policy);
    FormatsDiffer();
    if input.format == APPLE {
      AppleDecides(w, now, input, policy, chain);
    } else if input.format == TPM {
      TpmDecides(w, now, input, policy, chain);
    } else if input.format == ANDROID_SAFETYNET {
      var response :| HoldsResponse(w, input.statement, response) && ReadAs(w, response.certificates, chain);
      var shown :| HoldsResponse(w, input.statement, shown) && SafetyNetShown(w, input, shown, chain[0]);
      OneResponse(w, input.statement, response, shown);
      SafetyNetDecides(w, now, input, policy, chain, response);
    } else if input.format == ANDROID_KEY {
      AndroidKeyDecides(w, now, input, policy, chain);
    } else if input.format == FIDO_U2F {
      U2fDecides(w, now, input, policy, chain);
    } else {
      assert input.format == PACKED;
      PackedDecides(w, now, input, policy, chain);
    }
  }

  lemma OneResponse(w: World, statement: seq<Cbor.Entry>, a: SafetyNet, b: SafetyNet)
    requires HoldsResponse(w, statement, a) && HoldsResponse(w, statement, b)
    ensures a == b
  {
  }

  /** Without certificates there is self-attestation, where it is admitted, and none, with an empty statement. */
  lemma UncertifiedExactly(w: World, now: int, input: Input, policy: Policy, r: Outcome)
    ensures Verify(w, now, input, policy) == Ok(r) && r.kind != Basic
            <==> && Asked(input, policy) && policy.allowedAaguids.None?
                 && ((&& input.format == Ascii("packed") && policy.allowSelfAttestation && SelfShown(w, input)
                      && r == Outcome(input.format, SelfAttestation, false, ToHex(input.aaguid), None))
                     || (&& input.format == Ascii("none") && input.statement == []
                         && r == Outcome(input.format, NoAttestation, false, ToHex(input.aaguid), None)))
  {
    hide Verify, VerifyApple, VerifyTpm, VerifySafetyNet, VerifyAndroidKey, VerifyU2f, VerifyPacked, Asked, Ascii;
    hide SelfShown, ToHex;
    FormatChosen(w, now, input, policy);
    FormatsDiffer();
    SelfDecides(w, now, input, policy);
    if Verify(w, now, input, policy).Ok? && input.format != NONE && input.format != PACKED {
      OthersCertify(w, now, input, policy);
    }
  }

  /** Every format but `none` and `packed` certifies whatever it accepts. */
  lemma OthersCertify(w: World, now: int, input: Input, policy: Policy)
    requires Verify(w, now, input, policy).Ok? && input.format != NONE && input.format != PACKED
    ensures Verify(w, now, input, policy).value.kind == Basic
  {
    hide Verify, VerifyApple, VerifyTpm, VerifySafetyNet, VerifyAndroidKey, VerifyU2f, VerifyPacked, Rooted, Ascii;
    hide AppleShown, TpmShown, AndroidKeyShown, PackedShown, U2fShown, SafetyNetShown, PresentsX5c, HoldsResponse;
    hide Asked, Listed, ReadAs, ToHex;
    FormatChosen(w, now, input, policy);
    if input.format == APPLE {
      var _ := AppleCertified(w, now, input, policy);
    } else if input.format == TPM {
      var _ := TpmCertified(w, now, input, policy);
    } else if input.format == ANDROID_SAFETYNET {
      var _, _ := SafetyNetCertified(w, now, input, policy);
    } else if input.format == ANDROID_KEY {
      var _ := AndroidKeyCertified(w, now, input, policy);
    } else {
      assert input.format == FIDO_U2F;
      var _ := U2fCertified(w, now, input, policy);
    }
  }

  /** Self-attestation and no attestation vouch for nothing, and meet no allowlist. */
  lemma UncertifiedVouchesForNothing(w: World, now: int, input: Input, policy: Policy)
    requires Verify(w, now, input, policy).Ok? && Verify(w, now, input, policy).value.kind != Basic
    ensures !Verify(w, now, input, policy).value.aaguidVerified && policy.allowedAaguids.None?
    ensures input.format == NONE || input.format == PACKED
  {
    hide Verify, SelfShown, ToHex;
    UncertifiedExactly(w, now, input, policy, Verify(w, now, input, policy).value);
  }

  /**
   * A certified outcome of any format comes of a chain from which a trust path leads to one of the roots for the
   * model, and its model counts as vouched for exactly in the formats whose certificates speak of one.
   */
  lemma BasicIsCertified(w: World, now: int, input: Input, policy: Policy)
      returns (chain: seq<Certificate>, anchors: seq<Certificate>, path: seq<nat>)
    requires Verify(w, now, input, policy).Ok? && Verify(w, now, input, policy).value.kind == Basic
    ensures Presents(w, input, chain) && ReadAs(w, RootsFor(policy, ToHex(input.aaguid)), anchors)
    ensures TrustPath(w.issuance, now, chain, anchors, path)
    ensures var r := Verify(w, now, input, policy).value;
      && r.format == input.format && r.aaguid == ToHex(input.aaguid)
      && (r.aaguidVerified <==> NamesModel(input.format)) && ModelAllowed(input, policy)
  {
    hide Verify, Presents, ToHex, RootsFor, ReadAs, TrustPath, NamesModel;
    chain := CertifiedShows(w, now, input, policy);
    anchors :| ReadAs(w, RootsFor(policy, ToHex(input.aaguid)), anchors) && Reaches(w.issuance, now, chain, anchors);
    path :| TrustPath(w.issuance, now, chain, anchors, path) && OfFirstIssuers(w.issuance, now, chain, path);
  }

  /** Under an allowlist, whatever is accepted is certified, and its model is vouched for and listed. */
  lemma AllowlistIsEnforced(w: World, now: int, input: Input, policy: Policy)
    requires Verify(w, now, input, policy).Ok? && policy.allowedAaguids.Some?
    ensures var r := Verify(w, now, input, policy).value;
      r.kind == Basic && r.aaguidVerified && ToHex(input.aaguid) in policy.allowedAaguids.value
  {
    hide Verify, Presents, ToHex, ReadAs, TrustPath;
    if Verify(w, now, input, policy).value.kind != Basic {
      UncertifiedVouchesForNothing(w, now, input, policy);
    } else {
      var _, _, _ := BasicIsCertified(w, now, input, policy);
    }
  }

  // ---- One statement, one ceremony -------------------------------------------------------------

  /** No two byte strings have one digest under the same algorithm, nor one base64 form. */
  ghost predicate CollisionFree(w: World) {
    && (forall a, x, y :: w.digest(a, x) == w.digest(a, y) ==> x == y)
    && (forall x, y :: w.base64(x) == w.base64(y) ==> x == y)
  }

  /** The formats whose statement holds a hash of the whole ceremony. */
  predicate HashesCeremony(format: ByteString) {
    format == APPLE || format == TPM || format == ANDROID_SAFETYNET
  }

  /** A statement presents one chain. */
  lemma SameChain(w: World, a: Input, b: Input, c: seq<Certificate>, d: seq<Certificate>)
    requires a.format == b.format && a.statement == b.statement && Presents(w, a, c) && Presents(w, b, d)
    ensures c == d
  {
    hide Ascii;
  }

  /**
   * A statement that names its ceremony is accepted for no other: with hashes that do not collide, an
   * apple, tpm or SafetyNet statement fixes everything that was signed, an android-key one the client data.
   */
  lemma StatementFixesCeremony(w: World, now: int, later: int, a: Input, b: Input, p: Policy, q: Policy)
    requires CollisionFree(w)
    requires a.format == b.format && a.statement == b.statement
    requires Verify(w, now, a, p).Ok? && Verify(w, later, b, q).Ok?
    ensures HashesCeremony(a.format) ==> a.authData + a.clientDataHash == b.authData + b.clientDataHash
    ensures a.format == ANDROID_KEY ==> a.clientDataHash == b.clientDataHash
  {
    hide Verify, PresentsX5c, Rooted, Ascii, HoldsResponse, ReadAs, PackedShown, U2fShown, ModelAllowed, Asked;
    hide CertifiedOutcome, LeafSigned, HoldsCredentialKey, AreaShown, Names, Extended, Verified;
    hide Certificates.FindExtension;
    FormatsDiffer();
    if HashesCeremony(a.format) || a.format == ANDROID_KEY {
      OthersCertify(w, now, a, p);
      OthersCertify(w, later, b, q);
      var c := CertifiedShows(w, now, a, p);
      var d := CertifiedShows(w, later, b, q);
      SameChain(w, a, b, c, d);
      if a.format == ANDROID_SAFETYNET {
        var x :| HoldsResponse(w, a.statement, x) && SafetyNetShown(w, a, x, c[0]);
        var y :| HoldsResponse(w, b.statement, y) && SafetyNetShown(w, b, y, c[0]);
        OneResponse(w, a.statement, x, y);
      }
    }
  }

  /** One certified area, or one certificate, cannot vouch for two different credential keys. */
  lemma TpmStatementFixesKey(w: World, now: int, later: int, a: Input, b: Input, p: Policy, q: Policy)
    requires a.statement == b.statement
    requires VerifyTpm(w, now, a, p).Ok? && VerifyTpm(w, later, b, q).Ok?
    ensures var alg := Entry(a.statement, "alg");
      && alg.Some? && alg.value.Num?
      && var x, y := Cose.ParseKey(a.credentialPublicKey, [alg.value.n]),
                     Cose.ParseKey(b.credentialPublicKey, [alg.value.n]);
      && x.Ok? && y.Ok?
      && (x.value == y.value
          || (x.value.Rsa? && y.value.Rsa? && x.value.n == y.value.n && BigEndian(x.value.e) == BigEndian(y.value.e)))
  {
    hide VerifyTpm, Rooted, PresentsX5c, CertInfoShown, Verified, Extended, Cose.ParseKey, CertifiedOutcome, Ascii;
    var _ := TpmCertified(w, now, a, p);
    var _ := TpmCertified(w, later, b, q);
  }

  /** No signature verifies over two different messages under one key and algorithm. */
  ghost predicate SignsOne(w: World) {
    forall alg, key, x, y, signature ::
      w.verify(alg, key, x, signature) && w.verify(alg, key, y, signature) ==> x == y
  }

  /** The pieces of what is signed can be told apart, where hashes have one length. */
  lemma U2fPieces(a: Input, b: Input, x: ByteString, y: ByteString, u: ByteString, v: ByteString)
    requires U2fSigned(a, x, y) == U2fSigned(b, u, v) && |x| == |y| == |u| == |v| == 32
    requires |a.authData| >= 32 && |b.authData| >= 32 && |a.clientDataHash| == |b.clientDataHash|
    ensures a.authData[..32] == b.authData[..32] && a.clientDataHash == b.clientDataHash
    ensures a.credentialId == b.credentialId && x == u && y == v
  {
    var s, t, h := U2fSigned(a, x, y), U2fSigned(b, u, v), |a.clientDataHash|;
    var n := |s|;
    assert s[1..33] == a.authData[..32] && t[1..33] == b.authData[..32];
    assert s[33..33 + h] == a.clientDataHash && t[33..33 + h] == b.clientDataHash;
    assert s[33 + h..n - 65] == a.credentialId && t[33 + h..n - 65] == b.credentialId;
    assert s[n - 64..n - 32] == x && t[n - 64..n - 32] == u && s[n - 32..] == y && t[n - 32..] == v;
  }

  /**
   * Where no signature serves two messages, the certified statements that are only signed fix theirs as well: a
   * packed or an android-key one its whole ceremony, a fido-u2f one the relying party, the client data, the
   * credential's identifier and its key.
   */
  lemma SignatureFixesCeremony(w: World, now: int, later: int, a: Input, b: Input, p: Policy, q: Policy)
    requires SignsOne(w) && a.format == b.format && a.statement == b.statement
    requires |a.authData| >= 32 && |b.authData| >= 32 && |a.clientDataHash| == |b.clientDataHash|
    requires Verify(w, now, a, p).Ok? && Verify(w, now, a, p).value.kind == Basic
    requires Verify(w, later, b, q).Ok? && Verify(w, later, b, q).value.kind == Basic
    ensures a.format == PACKED || a.format == ANDROID_KEY ==>
              a.authData + a.clientDataHash == b.authData + b.clientDataHash
    ensures a.format == FIDO_U2F ==>
      && a.authData[..32] == b.authData[..32] && a.clientDataHash == b.clientDataHash
      && a.credentialId == b.credentialId
      && Cose.ParseKey(a.credentialPublicKey, [Cose.ES256]).Ok?
      && Cose.ParseKey(a.credentialPublicKey, [Cose.ES256]) == Cose.ParseKey(b.credentialPublicKey, [Cose.ES256])
  {
    hide Verify, PresentsX5c, Rooted, Ascii, AppleShown, TpmShown, HoldsResponse, ModelAllowed, Asked;
    hide CertifiedOutcome, HoldsCredentialKey, DescriptionShown, NamesNoOther, U2fSigned, Cose.ParseKey;
    hide SafetyNetShown, Certificates.FindExtension;
    FormatsDiffer();
    PackedAside();
    var c := CertifiedShows(w, now, a, p);
    var d := CertifiedShows(w, later, b, q);
    SameChain(w, a, b, c, d);
    if a.format == FIDO_U2F {
      var x, y := Cose.ParseKey(a.credentialPublicKey, [Cose.ES256]).value,
                  Cose.ParseKey(b.credentialPublicKey, [Cose.ES256]).value;
      U2fPieces(a, b, x.x, x.y, y.x, y.y);
    }
  }

  lemma PackedAside()
    ensures PACKED != APPLE && PACKED != ANDROID_KEY && PACKED != FIDO_U2F && FIDO_U2F != APPLE
    ensures FIDO_U2F != ANDROID_KEY && ANDROID_KEY != APPLE && PACKED != ANDROID_SAFETYNET
    ensures FIDO_U2F != ANDROID_SAFETYNET && ANDROID_KEY != ANDROID_SAFETYNET
  {
    assert |PACKED| == 6 && |APPLE| == 5 && |TPM| == 3 && |FIDO_U2F| == 8 && |ANDROID_KEY| == 11;
    assert |ANDROID_SAFETYNET| == 17;
  }
}
