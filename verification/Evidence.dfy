/**
 * What an attestation statement must show, format by format, in terms of what it holds: its entries, its
 * certificates, the bytes that are signed or hashed, and the credential's own key.
 */
module Evidence {
  import opened Bytes
  import opened Wrappers
  import opened Chain
  import opened Attestation
  import AndroidKey
  import Asn1
  import Cbor
  import Certificates
  import Cose
  import Der
  import Oid
  import Text
  import Tpm

  // ---- Certificates ----------------------------------------------------------------------------

  function Entry(statement: seq<Cbor.Entry>, name: string): Option<Cbor.Value> {
    Cbor.Lookup(statement, Cbor.Text(Ascii(name)))
  }

  /** `certs` are the certificates that `ders` encode, one for one and in order. */
  predicate ReadAs(w: World, ders: seq<ByteString>, certs: seq<Certificate>) {
    |certs| == |ders| && forall i :: 0 <= i < |ders| ==> w.parse(ders[i]) == Some(certs[i])
  }

  /** The statement's `x5c` holds the chain: up to eight byte strings, certificates in order, the leaf first. */
  predicate PresentsX5c(w: World, statement: seq<Cbor.Entry>, chain: seq<Certificate>) {
    var found := Entry(statement, "x5c");
    && found.Some? && found.value.Arr? && 1 <= |found.value.items| <= 8 && |chain| == |found.value.items|
    && forall i :: 0 <= i < |chain| ==>
         found.value.items[i].Bytes? && w.parse(found.value.items[i].bytes) == Some(chain[i])
  }

  /** The response inside a SafetyNet statement, as its envelope opens. */
  predicate HoldsResponse(w: World, statement: seq<Cbor.Entry>, response: SafetyNet) {
    var ver, raw := Entry(statement, "ver"), Entry(statement, "response");
    && ver.Some? && ver.value.Text? && |ver.value.text| > 0
    && raw.Some? && raw.value.Bytes? && |raw.value.bytes| > 0 && w.openSafetyNet(raw.value.bytes) == Some(response)
  }

  lemma {:induction false} CertificatesInOrder(w: World, entries: seq<Cbor.Value>, chain: seq<Certificate>)
    ensures ParseCertificates(w, entries) == Ok(chain)
            <==> |chain| == |entries|
                 && forall i :: 0 <= i < |chain| ==> entries[i].Bytes? && w.parse(entries[i].bytes) == Some(chain[i])
  {
    if |entries| > 0 && |chain| > 0 {
      CertificatesInOrder(w, entries[1..], chain[1..]);
      assert chain == [chain[0]] + chain[1..];
      if |chain| == |entries| && forall i :: 0 <= i < |chain[1..]| ==>
        entries[1..][i].Bytes? && w.parse(entries[1..][i].bytes) == Some(chain[1..][i])
      {
        forall i | 0 < i < |chain|
          ensures entries[i].Bytes? && w.parse(entries[i].bytes) == Some(chain[i])
        {
          assert entries[i] == entries[1..][i - 1] && chain[i] == chain[1..][i - 1];
        }
      }
    }
  }

  /** The verifier reads the chain that the statement presents, in that order; and none exactly when it has none. */
  lemma X5cMeans(w: World, statement: seq<Cbor.Entry>, chain: seq<Certificate>)
    ensures ReadX5c(w, statement) == Ok(Some(chain)) <==> PresentsX5c(w, statement, chain)
    ensures ReadX5c(w, statement) == Ok(None) <==> Entry(statement, "x5c").None?
  {
    hide ParseCertificates, Ascii;
    var found := Entry(statement, "x5c");
    if found.Some? && found.value.Arr? {
      CertificatesInOrder(w, found.value.items, chain);
    }
  }

  lemma {:induction false} DersMean(w: World, ders: seq<ByteString>, error: Error, certs: seq<Certificate>)
    ensures ParseDers(w, ders, error) == Ok(certs) <==> ReadAs(w, ders, certs)
  {
    if |ders| > 0 && |certs| > 0 {
      DersMean(w, ders[1..], error, certs[1..]);
      assert certs == [certs[0]] + certs[1..];
      if ReadAs(w, ders[1..], certs[1..]) {
        forall i | 0 < i < |ders| ensures w.parse(ders[i]) == Some(certs[i]) {
          assert ders[i] == ders[1..][i - 1] && certs[i] == certs[1..][i - 1];
        }
      }
    }
  }

  // ---- Keys and signatures ---------------------------------------------------------------------

  /** The bytes an authenticator signs, or has hashed. */
  function Signed(input: Input): ByteString {
    input.authData + input.clientDataHash
  }

  /** A signature under a key of the kind that the algorithm is for. */
  predicate Verified(w: World, alg: int, key: PublicKey, data: ByteString, signature: ByteString) {
    && (match key.kind
        case RsaKind => alg == -257
        case Ed25519Kind => alg == -8
        case OtherKind => false
        case _ => alg != -257 && alg != -8)
    && w.verify(alg, key, data, signature)
  }

  /** The statement's `sig`, under its `alg` and the certificate's key, covers the ceremony. */
  predicate LeafSigned(w: World, input: Input, supported: seq<int>, leaf: Certificate) {
    var alg, sig := Entry(input.statement, "alg"), Entry(input.statement, "sig");
    && alg.Some? && alg.value.Num? && alg.value.n in supported
    && sig.Some? && sig.value.Bytes? && |sig.value.bytes| > 0
    && Verified(w, alg.value.n, leaf.key, Signed(input), sig.value.bytes)
  }

  /** The certificate's public key is the credential's. */
  predicate HoldsCredentialKey(w: World, input: Input, leaf: Certificate) {
    var material := Cose.ParseKey(input.credentialPublicKey, [input.credentialAlgorithm]);
    material.Ok? && w.keyOf(material.value).Some? && w.keyOf(material.value).value.spki == leaf.key.spki
  }

  lemma SignatureMeans(w: World, input: Input, supported: seq<int>, leaf: Certificate)
    ensures LeafSigned(w, input, supported, leaf)
            <==> && Algorithm(input.statement, supported).Ok? && Attestation.Signature(input.statement).Ok?
                 && SignatureVerifies(w, Algorithm(input.statement, supported).value, leaf.key, Ceremony(input),
                                      Attestation.Signature(input.statement).value)
  {
    hide Ascii;
  }

  lemma KeyMeans(w: World, input: Input, leaf: Certificate)
    ensures CheckHoldsCredentialKey(w, input, leaf).Ok? <==> HoldsCredentialKey(w, input, leaf)
  {
    hide Cose.ParseKey;
  }

  /** What the certificate holds under this OID, if anything. */
  predicate Extends(leaf: Certificate, oid: seq<nat>, value: Option<ByteString>) {
    Certificates.FindExtension(leaf.raw, oid) == Ok(value)
  }

  // ---- apple -----------------------------------------------------------------------------------

  /** The content of the OCTET STRING at the head of the [1] at the head of the SEQUENCE. */
  predicate NonceIs(extension: ByteString, nonce: ByteString) {
    && Asn1.ReadTlv(extension, 0).Ok? && Asn1.ReadTlv(extension, 0).value.tag == 0x30
    && var outer := Asn1.ReadTlv(extension, 0).value;
    && Asn1.ReadTlv(extension, outer.start).Ok? && Asn1.ReadTlv(extension, outer.start).value.tag == 0xA1
    && var inner := Asn1.ReadTlv(extension, outer.start).value;
    && Asn1.ReadTlv(extension, inner.start).Ok? && Asn1.ReadTlv(extension, inner.start).value.tag == 0x04
    && var octets := Asn1.ReadTlv(extension, inner.start).value;
    extension[octets.start..octets.end] == nonce
  }

  /** The nonce of a well-formed extension is the one it was made for, and no other. */
  lemma NonceOfBuilt(nonce: ByteString, other: ByteString)
    requires |nonce| < 0x1_0000
    ensures NonceIs(Der.Tlv(0x30, Der.Tlv(0xA1, Der.Tlv(0x04, nonce))), other) <==> other == nonce
  {
    hide Asn1.ReadTlv, Der.Tlv, Asn1.Header;
    var octets := Der.Tlv(0x04, nonce);
    var inner := Der.Tlv(0xA1, octets);
    var outer := Der.Tlv(0x30, inner);
    AndroidKey.TlvSize(0x04, nonce);
    AndroidKey.TlvSize(0xA1, octets);
    Asn1.TlvNode(0x04, nonce);
    Asn1.TlvNode(0xA1, octets);
    Asn1.TlvNode(0x30, inner);
    Nested(outer, 0, 0x30, inner);
    var outerAt := Asn1.Root(outer).start;
    Nested(outer, outerAt, 0xA1, octets);
    var innerAt := Asn1.ReadTlv(outer, outerAt).value.start;
    Nested(outer, innerAt, 0x04, nonce);
  }

  /** An element in place is read there, with its content where it says. */
  lemma Nested(b: ByteString, at: nat, tag: Byte, content: ByteString)
    requires tag % 32 != 31 && |content| < Asn1.MAX_CONTENT && Asn1.At(b, at, Der.Tlv(tag, content))
    ensures Asn1.ReadTlv(b, at).Ok?
    ensures var node := Asn1.ReadTlv(b, at).value;
      node.tag == tag && Asn1.At(b, node.start, content) && node.end == node.start + |content|
    ensures Asn1.Whole(Der.Tlv(tag, content))
    ensures Asn1.ReadTlv(b, at).value == Asn1.Shift(Asn1.Root(Der.Tlv(tag, content)), at)
  {
    hide Asn1.ReadTlv, Der.Tlv, Asn1.Header;
    Asn1.TlvNode(tag, content);
    Asn1.WholeInPlace(b, at, Der.Tlv(tag, content));
  }

  predicate AppleShown(w: World, input: Input, leaf: Certificate) {
    && (var extension := Certificates.FindExtension(leaf.raw, APPLE_NONCE_OID);
        && extension.Ok? && extension.value.Some?
        && NonceIs(extension.value.value, w.digest(Tpm.ALG_SHA256, Signed(input))))
    && HoldsCredentialKey(w, input, leaf)
  }

  lemma NonceMeans(certificate: Certificate, nonce: ByteString)
    ensures AppleNonce(certificate) == Ok(nonce)
            <==> var extension := Certificates.FindExtension(certificate.raw, APPLE_NONCE_OID);
                 extension.Ok? && extension.value.Some? && NonceIs(extension.value.value, nonce)
  {
    hide Asn1.ReadTlv, Certificates.FindExtension;
  }

  // ---- tpm -------------------------------------------------------------------------------------

  /** The public area is that of the credential's key. */
  predicate SameKey(public: Tpm.Public, material: Cose.Material) {
    match material
    case Ec2(x, y) => public.EccPublic? && public.curve == Tpm.ECC_NIST_P256 && public.x == x && public.y == y
    case Rsa(n, e) => public.RsaPublic? && public.modulus == n && public.exponent == BigEndian(e)
    case Okp(_) => false
  }

  /** The area's name under one of SHA-256, SHA-384 and SHA-512. */
  predicate Names(w: World, name: ByteString, pubArea: ByteString) {
    || name == U16Bytes(0x000B) + w.digest(0x000B, pubArea)
    || name == U16Bytes(0x000C) + w.digest(0x000C, pubArea)
    || name == U16Bytes(0x000D) + w.digest(0x000D, pubArea)
  }

  /** The OID is one of the elements. */
  predicate AmongOids(chunks: seq<ByteString>, oid: ByteString)
    requires forall i :: 0 <= i < |chunks| ==> Asn1.Whole(chunks[i])
  {
    exists i :: 0 <= i < |chunks| && Asn1.Root(chunks[i]).tag == 0x06 && Asn1.Content(chunks[i]) == oid
  }

  lemma {:induction false} RunHoldsOid(b: ByteString, offset: nat, chunks: seq<ByteString>, oid: ByteString)
    requires forall i :: 0 <= i < |chunks| ==> Asn1.Whole(chunks[i])
    requires Asn1.At(b, offset, Concat(chunks))
    ensures HoldsOid(b, offset, offset + |Concat(chunks)|, oid) <==> AmongOids(chunks, oid)
    decreases |chunks|
  {
    hide Asn1.ReadTlv, Asn1.Whole, Asn1.Root, Asn1.Content;
    if |chunks| > 0 {
      var first, rest := chunks[0], Concat(chunks[1..]);
      PartsInPlace(b, offset, first, rest, []);
      assert first + rest + [] == Concat(chunks);
      Asn1.WholeInPlace(b, offset, first);
      Asn1.WholeEnds(first);
      RunHoldsOid(b, offset + |first|, chunks[1..], oid);
      AmongMore(chunks, oid);
    }
  }

  lemma AmongMore(chunks: seq<ByteString>, oid: ByteString)
    requires |chunks| > 0 && forall i :: 0 <= i < |chunks| ==> Asn1.Whole(chunks[i])
    ensures AmongOids(chunks, oid)
            <==> (Asn1.Root(chunks[0]).tag == 0x06 && Asn1.Content(chunks[0]) == oid) || AmongOids(chunks[1..], oid)
  {
    hide Asn1.Whole, Asn1.Root, Asn1.Content;
    if AmongOids(chunks[1..], oid) {
      var i :| 0 <= i < |chunks[1..]| && Asn1.Root(chunks[1..][i]).tag == 0x06
               && Asn1.Content(chunks[1..][i]) == oid;
      assert chunks[i + 1] == chunks[1..][i];
    }
    if AmongOids(chunks, oid) {
      var i :| 0 <= i < |chunks| && Asn1.Root(chunks[i]).tag == 0x06 && Asn1.Content(chunks[i]) == oid;
      assert i > 0 ==> chunks[1..][i - 1] == chunks[i];
    }
  }

  /** A usage is found in a well-formed extension if and only if it is one of those listed. */
  lemma UsageOfBuilt(chunks: seq<ByteString>, oid: ByteString)
    requires forall i :: 0 <= i < |chunks| ==> Asn1.Whole(chunks[i])
    requires |Concat(chunks)| < Asn1.MAX_CONTENT
    ensures UsageIn(Der.Tlv(0x30, Concat(chunks)), oid) <==> AmongOids(chunks, oid)
  {
    hide Asn1.ReadTlv, Asn1.Whole, Asn1.Root, Asn1.Content, Der.Tlv, Asn1.Header;
    var b := Der.Tlv(0x30, Concat(chunks));
    assert b[0..|b|] == b;
    Nested(b, 0, 0x30, Concat(chunks));
    RunHoldsOid(b, Asn1.ReadTlv(b, 0).value.start, chunks, oid);
  }

  predicate TpmShown(w: World, input: Input, leaf: Certificate) {
    var alg, sig := Entry(input.statement, "alg"), Entry(input.statement, "sig");
    var ver, cert, area :=
      Entry(input.statement, "ver"), Entry(input.statement, "certInfo"), Entry(input.statement, "pubArea");
    && ver == Some(Cbor.Text(Ascii("2.0")))
    && alg.Some? && alg.value.Num? && alg.value.n in [Cose.ES256, Cose.RS256]
    && sig.Some? && sig.value.Bytes? && |sig.value.bytes| > 0
    && cert.Some? && cert.value.Bytes? && area.Some? && area.value.Bytes?
    && AreaShown(input, alg.value.n, area.value.bytes)
    && CertInfoShown(w, input, cert.value.bytes, area.value.bytes)
    && Verified(w, alg.value.n, leaf.key, cert.value.bytes, sig.value.bytes)
    && !leaf.ca && (forall i :: 0 <= i < |leaf.subject| ==> Text.IsWhitespace(leaf.subject[i]))
    && Extended(leaf, Oid.Content(AIK_CERTIFICATE_OID))
  }

  /** The certificate's extended key usages list the OID with this content. */
  predicate Extended(leaf: Certificate, oid: ByteString) {
    var usages := Certificates.FindExtension(leaf.raw, EKU_OID);
    usages.Ok? && usages.value.Some? && UsageIn(usages.value.value, oid)
  }

  lemma UsageMeans(leaf: Certificate)
    ensures HasExtendedKeyUsage(leaf.raw, AIK_CERTIFICATE_OID) <==> Extended(leaf, Oid.Content(AIK_CERTIFICATE_OID))
  {
    hide Certificates.FindExtension, Oid.Content, UsageIn;
  }

  predicate AreaShown(input: Input, alg: int, pubArea: ByteString) {
    var public, material := Tpm.ParsePublic(pubArea), Cose.ParseKey(input.credentialPublicKey, [alg]);
    public.Ok? && material.Ok? && SameKey(public.value, material.value)
  }

  /** The statement hashes the ceremony, and names the area. */
  predicate CertInfoShown(w: World, input: Input, certInfo: ByteString, pubArea: ByteString) {
    var attest := Tpm.ParseAttest(certInfo);
    && attest.Ok? && attest.value.extraData == w.digest(Tpm.ALG_SHA256, Signed(input))
    && Names(w, attest.value.attestedName, pubArea)
  }

  lemma AreaMeans(input: Input, alg: int, pubArea: ByteString)
    ensures CheckPubArea(input, alg, pubArea).Ok? <==> AreaShown(input, alg, pubArea)
  {
    hide Tpm.ParsePublic, Cose.ParseKey;
  }

  lemma CertInfoMeans(w: World, input: Input, certInfo: ByteString, pubArea: ByteString)
    ensures CheckCertInfo(w, input, certInfo, pubArea).Ok? <==> CertInfoShown(w, input, certInfo, pubArea)
  {
    hide Tpm.ParseAttest, Tpm.VerifyAttestedName, U16Bytes;
    var attest := Tpm.ParseAttest(certInfo);
    if attest.Ok? {
      Tpm.AcceptedNames(attest.value.attestedName, pubArea, w.digest);
      assert Tpm.AcceptedNameAlgorithm(0x000B) && Tpm.AcceptedNameAlgorithm(0x000C);
      assert Tpm.AcceptedNameAlgorithm(0x000D);
    }
  }

  lemma PartsMean(statement: seq<Cbor.Entry>, sig: ByteString, certInfo: ByteString, pubArea: ByteString)
    ensures TpmParts(statement) == Ok((sig, certInfo, pubArea))
            <==> && Entry(statement, "ver") == Some(Cbor.Text(Ascii("2.0")))
                 && Entry(statement, "sig") == Some(Cbor.Bytes(sig)) && |sig| > 0
                 && Entry(statement, "certInfo") == Some(Cbor.Bytes(certInfo))
                 && Entry(statement, "pubArea") == Some(Cbor.Bytes(pubArea))
  {
    hide Ascii;
  }

  // ---- android-key -----------------------------------------------------------------------------

  /** The description was made for this ceremony, of a key that the keystore generated and may sign. */
  predicate DescriptionShown(input: Input, software: bool, extension: ByteString) {
    var d := AndroidKey.Parse(extension);
    d.Ok? && d.value.challenge == input.clientDataHash && AndroidKey.InOrder(d.value, software)
  }

  predicate AndroidKeyShown(w: World, input: Input, software: bool, leaf: Certificate) {
    var extension := Certificates.FindExtension(leaf.raw, ANDROID_KEY_OID);
    && LeafSigned(w, input, [Cose.ES256, Cose.RS256], leaf) && HoldsCredentialKey(w, input, leaf)
    && extension.Ok? && extension.value.Some? && DescriptionShown(input, software, extension.value.value)
  }

  lemma DescriptionMeans(input: Input, policy: Policy, extension: ByteString)
    ensures CheckKeyDescription(input, policy, extension).Ok?
            <==> DescriptionShown(input, policy.allowSoftwareEnforcedAndroidKey, extension)
  {
    hide AndroidKey.Parse, AndroidKey.VerifyAuthorizations, AndroidKey.InOrder;
    var d := AndroidKey.Parse(extension);
    if d.Ok? {
      AndroidKey.AcceptedExactly(d.value, policy.allowSoftwareEnforcedAndroidKey);
    }
  }

  // ---- packed ----------------------------------------------------------------------------------

  /** The certificate names no model, or names the credential's. */
  predicate NamesNoOther(leaf: Certificate, aaguid: ByteString) {
    var extension := Certificates.FindExtension(leaf.raw, FIDO_AAGUID_OID);
    extension == Ok(None) || (|aaguid| == 16 && extension == Ok(Some([0x04, 0x10] + aaguid)))
  }

  predicate PackedShown(w: World, input: Input, leaf: Certificate) {
    && LeafSigned(w, input, [Cose.ES256, Cose.EDDSA, Cose.RS256], leaf) && !leaf.ca
    && NamesNoOther(leaf, input.aaguid)
  }

  lemma ModelMeans(leaf: Certificate, aaguid: ByteString)
    ensures CertificateAaguid(leaf) == Ok(None) || CertificateAaguid(leaf) == Ok(Some(aaguid))
            <==> NamesNoOther(leaf, aaguid)
  {
    hide Certificates.FindExtension;
    var extension := Certificates.FindExtension(leaf.raw, FIDO_AAGUID_OID);
    if extension.Ok? && extension.value.Some? {
      var value := extension.value.value;
      assert |value| == 18 ==> value == value[..2] + value[2..];
      assert |value| == 18 && value[0] == 0x04 && value[1] == 0x10 ==> value[..2] == [0x04, 0x10];
      assert ([0x04, 0x10] + aaguid)[2..] == aaguid;
    }
  }

  /** A packed statement without certificates: signed with the credential's own key. */
  predicate SelfShown(w: World, input: Input) {
    var material := Cose.ParseKey(input.credentialPublicKey, [input.credentialAlgorithm]);
    var alg, sig := Entry(input.statement, "alg"), Entry(input.statement, "sig");
    && Entry(input.statement, "x5c").None?
    && alg == Some(Cbor.Num(input.credentialAlgorithm))
    && input.credentialAlgorithm in [Cose.ES256, Cose.EDDSA, Cose.RS256]
    && sig.Some? && sig.value.Bytes? && |sig.value.bytes| > 0
    && material.Ok? && w.keyOf(material.value).Some?
    && Verified(w, input.credentialAlgorithm, w.keyOf(material.value).value, Signed(input), sig.value.bytes)
  }

  // ---- fido-u2f --------------------------------------------------------------------------------

  /** What a fido-u2f authenticator signs for a key with these coordinates. */
  function U2fSigned(input: Input, x: ByteString, y: ByteString): ByteString {
    [0x00] + (if |input.authData| < 32 then input.authData else input.authData[..32]) + input.clientDataHash
    + input.credentialId + [0x04] + x + y
  }

  predicate U2fShown(w: World, input: Input, chain: seq<Certificate>) {
    var material, sig := Cose.ParseKey(input.credentialPublicKey, [Cose.ES256]), Entry(input.statement, "sig");
    && |chain| == 1 && chain[0].key.kind == P256Kind && input.credentialAlgorithm == Cose.ES256
    && sig.Some? && sig.value.Bytes? && |sig.value.bytes| > 0
    && material.Ok? && material.value.Ec2? && |material.value.x| == 32 && |material.value.y| == 32
    && w.verify(Cose.ES256, chain[0].key, U2fSigned(input, material.value.x, material.value.y), sig.value.bytes)
  }

  lemma PointMeans(credentialPublicKey: ByteString, point: ByteString)
    ensures U2fPublicKey(credentialPublicKey) == Ok(point)
            <==> var material := Cose.ParseKey(credentialPublicKey, [Cose.ES256]);
                 && material.Ok? && material.value.Ec2? && |material.value.x| == 32 && |material.value.y| == 32
                 && point == [0x04] + material.value.x + material.value.y
  {
    hide Cose.ParseKey;
  }

  // ---- android-safetynet -----------------------------------------------------------------------

  predicate SafetyNetShown(w: World, input: Input, response: SafetyNet, leaf: Certificate) {
    && "attest.android.com" in leaf.hosts
    && leaf.key.kind == RsaKind && w.verify(-257, leaf.key, response.signingInput, response.signature)
    && response.nonce == w.base64(w.digest(Tpm.ALG_SHA256, Signed(input))) && w.verdictsHold(response)
  }

  lemma ResponseMeans(w: World, statement: seq<Cbor.Entry>, response: SafetyNet)
    ensures HoldsResponse(w, statement, response)
            <==> && SafetyNetResponse(w, statement).Ok?
                 && w.openSafetyNet(SafetyNetResponse(w, statement).value) == Some(response)
  {
    hide Ascii;
  }

  // ---- Any format ------------------------------------------------------------------------------

  /** The chain that a statement of this format presents. */
  ghost predicate Presents(w: World, input: Input, chain: seq<Certificate>) {
    if input.format == ANDROID_SAFETYNET then
      exists response :: HoldsResponse(w, input.statement, response) && ReadAs(w, response.certificates, chain)
    else PresentsX5c(w, input.statement, chain)
  }

  /**
   * The statement presents this chain, and shows whatever else its format asks for; `software` says whether an
   * android-key description may rest on the operating system's list.
   */
  ghost predicate Shown(w: World, input: Input, software: bool, chain: seq<Certificate>) {
    && Presents(w, input, chain) && |chain| > 0
    && if input.format == Ascii("apple") then AppleShown(w, input, chain[0])
       else if input.format == Ascii("tpm") then TpmShown(w, input, chain[0])
       else if input.format == Ascii("android-key") then
         AndroidKeyShown(w, input, software, chain[0])
       else if input.format == Ascii("packed") then PackedShown(w, input, chain[0])
       else if input.format == Ascii("fido-u2f") then U2fShown(w, input, chain)
       else
         && input.format == Ascii("android-safetynet")
         && exists response ::
              HoldsResponse(w, input.statement, response) && SafetyNetShown(w, input, response, chain[0])
  }

  /** The roots for a model: its own where the policy pins some, otherwise the general ones. */
  function RootsFor(policy: Policy, model: string): seq<ByteString> {
    if model in policy.modelAnchors then policy.modelAnchors[model]
    else if policy.trustAnchors.None? then [] else policy.trustAnchors.value
  }

  /** All roots for the model can be read, and a trust path of first issuers leads from the chain to one. */
  ghost predicate Rooted(w: World, now: int, input: Input, policy: Policy, chain: seq<Certificate>) {
    var ders := RootsFor(policy, ToHex(input.aaguid));
    |ders| > 0 && exists anchors :: ReadAs(w, ders, anchors) && Reaches(w.issuance, now, chain, anchors)
  }

  /** The verifier's own question of its roots and its walk is this one. */
  lemma RootedMeans(w: World, now: int, input: Input, policy: Policy, chain: seq<Certificate>)
    ensures Rooted(w, now, input, policy, chain)
            <==> var ders := AnchorsFor(policy, ToHex(input.aaguid));
                 && |ders| > 0 && ParseDers(w, ders, BadAnchor).Ok?
                 && ReachesAnchor(w.issuance, now, chain, ParseDers(w, ders, BadAnchor).value)
  {
    hide ReachesAnchor, ParseDers, Reaches, ToHex, ReadAs;
    var ders := AnchorsFor(policy, ToHex(input.aaguid));
    assert ders == RootsFor(policy, ToHex(input.aaguid));
    forall anchors: seq<Certificate>
      ensures ParseDers(w, ders, BadAnchor) == Ok(anchors) <==> ReadAs(w, ders, anchors)
      ensures ReachesAnchor(w.issuance, now, chain, anchors) <==> Reaches(w.issuance, now, chain, anchors)
    {
      DersMean(w, ders, BadAnchor, anchors);
      ReachingIsFirstPath(w.issuance, now, chain, anchors);
    }
    if ParseDers(w, ders, BadAnchor).Ok? {
      assert ReadAs(w, ders, ParseDers(w, ders, BadAnchor).value);
    }
  }
}
