/** Authenticator data (section 6.1 of Web Authentication Level 3): the parser and the layout it accepts. */
module AuthData {
  import opened Bytes
  import opened Wrappers
  import Cbor
  import CborLaws
  import CborReader

  datatype Error =
    | TooShort
    | BackedUpButNotEligible
    | CredentialTruncated
    | CredentialIdTooLong
    | CredentialIdEmpty
    | CredentialIdOverrun
    | BadPublicKey(reason: Cbor.Error)
    | BadExtensions(extensionReason: Cbor.Error)
    | ExtensionsNotMap
    | TrailingBytes

  datatype Attested = Attested(aaguid: ByteString, credentialId: ByteString, publicKey: ByteString)

  datatype AuthenticatorData = AuthenticatorData(
    rpIdHash: ByteString, rawFlags: Byte, signCount: nat,
    attested: Option<Attested>, extensions: Option<Cbor.Value>)
  {
    predicate UserPresent() { Flag(rawFlags, USER_PRESENT) }
    predicate UserVerified() { Flag(rawFlags, USER_VERIFIED) }
  }

  const USER_PRESENT := 0x01
  const USER_VERIFIED := 0x04
  const BACKUP_ELIGIBLE := 0x08
  const BACKUP_STATE := 0x10
  const ATTESTED_CREDENTIAL := 0x40
  const EXTENSION_DATA := 0x80

  const RP_ID_HASH_BYTES := 32
  const HEADER_BYTES := 37
  const AAGUID_BYTES := 16
  const MAX_CREDENTIAL_ID_BYTES := 1023

  /** Whether the bit of weight `weight` is set. */
  predicate Flag(flags: Byte, weight: nat)
    requires weight > 0
  {
    (flags as nat) / weight % 2 == 1
  }

  /** A section that was read, and the offset after it. */
  datatype Section<T> = Section(value: T, next: nat)

  function ReadAttested(b: ByteString, offset: nat): (r: Result<Section<Attested>, Error>)
    ensures r.Ok? ==> offset < r.value.next <= |b|
  {
    if |b| < offset + AAGUID_BYTES + 2 then Err(CredentialTruncated)
    else
      var idAt := offset + AAGUID_BYTES + 2;
      var idLength := BigEndian(b[idAt - 2..idAt]);
      if idLength > MAX_CREDENTIAL_ID_BYTES then Err(CredentialIdTooLong)
      else if idLength == 0 then Err(CredentialIdEmpty)
      else if idAt + idLength > |b| then Err(CredentialIdOverrun)
      else
        var keyAt := idAt + idLength;
        match Cbor.Decode(b[keyAt..], 0)
        case Err(e) => Err(BadPublicKey(e))
        case Ok(key) =>
          Ok(Section(Attested(b[offset..offset + AAGUID_BYTES], b[idAt..keyAt], b[keyAt..keyAt + key.read]),
                     keyAt + key.read))
  }

  function ReadExtensions(b: ByteString, offset: nat): (r: Result<Section<Cbor.Value>, Error>)
    requires offset <= |b|
    ensures r.Ok? ==> offset < r.value.next <= |b|
  {
    match Cbor.Decode(b[offset..], 0)
    case Err(e) => Err(BadExtensions(e))
    case Ok(p) => if !p.value.Map? then Err(ExtensionsNotMap) else Ok(Section(p.value, offset + p.read))
  }

  /** The optional sections, by flags, from the end of the header on; they must end where the input does. */
  function ReadSections(b: ByteString, flags: Byte): Result<(Option<Attested>, Option<Cbor.Value>), Error>
    requires |b| >= HEADER_BYTES
  {
    var attested :-
      if Flag(flags, ATTESTED_CREDENTIAL) then
        var a :- ReadAttested(b, HEADER_BYTES);
        Ok(Section(Some(a.value), a.next))
      else Ok(Section(None, HEADER_BYTES));
    var extensions :-
      if Flag(flags, EXTENSION_DATA) then
        var x :- ReadExtensions(b, attested.next);
        Ok(Section(Some(x.value), x.next))
      else Ok(Section(None, attested.next));
    if extensions.next != |b| then Err(TrailingBytes) else Ok((attested.value, extensions.value))
  }

  function Parse(b: ByteString): Result<AuthenticatorData, Error> {
    if |b| < HEADER_BYTES then Err(TooShort)
    else
      var flags := b[RP_ID_HASH_BYTES];
      if Flag(flags, BACKUP_STATE) && !Flag(flags, BACKUP_ELIGIBLE) then Err(BackedUpButNotEligible)
      else
        var sections :- ReadSections(b, flags);
        Ok(AuthenticatorData(b[..RP_ID_HASH_BYTES], flags, BigEndian(b[RP_ID_HASH_BYTES + 1..HEADER_BYTES]),
                             sections.0, sections.1))
  }

  // ---- The parser as it runs -------------------------------------------------------------

  method ReadAttestedAt(b: ByteString, start: nat) returns (r: Result<Section<Attested>, Error>)
    ensures r == ReadAttested(b, start)
  {
    hide Cbor.Decode;
    var offset := start;
    if |b| < offset + AAGUID_BYTES + 2 {
      return Err(CredentialTruncated);
    }
    var aaguid := b[offset..offset + AAGUID_BYTES];
    offset := offset + AAGUID_BYTES;
    var length := BigEndian(b[offset..offset + 2]);
    offset := offset + 2;
    if length > MAX_CREDENTIAL_ID_BYTES {
      return Err(CredentialIdTooLong);
    }
    if length == 0 {
      return Err(CredentialIdEmpty);
    }
    if offset + length > |b| {
      return Err(CredentialIdOverrun);
    }
    var credentialId := b[offset..offset + length];
    offset := offset + length;
    var key := CborReader.DecodeCborPrefix(b[offset..]);
    if key.Err? {
      return Err(BadPublicKey(key.error));
    }
    var publicKey := b[offset..offset + key.value.read];
    offset := offset + key.value.read;
    return Ok(Section(Attested(aaguid, credentialId, publicKey), offset));
  }

  /** Section by section, each beginning where the one before it was found to end. */
  method ParseAuthenticatorData(b: ByteString) returns (r: Result<AuthenticatorData, Error>)
    ensures r == Parse(b)
  {
    hide Cbor.Decode, ReadAttested, BigEndian;
    if |b| < HEADER_BYTES {
      return Err(TooShort);
    }
    var flags := b[RP_ID_HASH_BYTES];
    var signCount := BigEndian(b[RP_ID_HASH_BYTES + 1..HEADER_BYTES]);
    if !Flag(flags, BACKUP_ELIGIBLE) && Flag(flags, BACKUP_STATE) {
      return Err(BackedUpButNotEligible);
    }
    var offset := HEADER_BYTES;
    var attested: Option<Attested> := None;
    if Flag(flags, ATTESTED_CREDENTIAL) {
      var section := ReadAttestedAt(b, offset);
      if section.Err? {
        return Err(section.error);
      }
      attested, offset := Some(section.value.value), section.value.next;
    }
    var extensions: Option<Cbor.Value> := None;
    if Flag(flags, EXTENSION_DATA) {
      var decoded := CborReader.DecodeCborPrefix(b[offset..]);
      if decoded.Err? {
        return Err(BadExtensions(decoded.error));
      }
      if !decoded.value.value.Map? {
        return Err(ExtensionsNotMap);
      }
      extensions, offset := Some(decoded.value.value), offset + decoded.value.read;
    }
    if offset != |b| {
      return Err(TrailingBytes);
    }
    return Ok(AuthenticatorData(b[..RP_ID_HASH_BYTES], flags, signCount, attested, extensions));
  }

  // ---- The layout ------------------------------------------------------------------------

  function BuildAttested(a: Attested): ByteString {
    a.aaguid + U16Bytes(|a.credentialId|) + a.credentialId + a.publicKey
  }

  /** The fields one after another; the extension map goes in as the bytes that encode it. */
  function Build(d: AuthenticatorData, extensions: ByteString): ByteString {
    d.rpIdHash + [d.rawFlags] + U32Bytes(d.signCount)
    + (if d.attested.Some? then BuildAttested(d.attested.value) else [])
    + extensions
  }

  predicate ConsistentAttested(a: Attested) {
    && |a.aaguid| == AAGUID_BYTES && 1 <= |a.credentialId| <= MAX_CREDENTIAL_ID_BYTES
    && Cbor.DecodeAll(a.publicKey).Ok?
  }

  /** Fields that agree with the flags and with the bytes given for the extensions. */
  predicate Consistent(d: AuthenticatorData, extensions: ByteString) {
    && |d.rpIdHash| == RP_ID_HASH_BYTES && d.signCount < 0x1_0000_0000
    && (Flag(d.rawFlags, BACKUP_STATE) ==> Flag(d.rawFlags, BACKUP_ELIGIBLE))
    && (Flag(d.rawFlags, ATTESTED_CREDENTIAL) <==> d.attested.Some?)
    && (d.attested.Some? ==> ConsistentAttested(d.attested.value))
    && (Flag(d.rawFlags, EXTENSION_DATA) <==> d.extensions.Some?)
    && (if d.extensions.Some? then Cbor.DecodeAll(extensions) == Ok(d.extensions.value) && d.extensions.value.Map?
        else extensions == [])
  }

  /** A decoded prefix, cut out, is a whole value by itself. */
  lemma PrefixIsWhole(b: ByteString)
    requires Cbor.Decode(b, 0).Ok?
    ensures var p := Cbor.Decode(b, 0).value; Cbor.DecodeAll(b[..p.read]) == Ok(p.value)
  {
    hide Cbor.Decode;
    var p := Cbor.Decode(b, 0).value;
    assert b[..p.read][..p.read] == b[..p.read];
    CborLaws.DecodeLocal(b, b[..p.read], 0);
  }

  lemma U16Unique(b: ByteString, n: nat)
    requires |b| == 2 && BigEndian(b) == n
    ensures b == U16Bytes(n) && n < 0x1_0000
  {
    hide U16Bytes;
    BigEndian2(b);
    BigEndianInjective(b, U16Bytes(n));
  }

  lemma U32Unique(b: ByteString, n: nat)
    requires |b| == 4 && BigEndian(b) == n
    ensures b == U32Bytes(n) && n < 0x1_0000_0000
  {
    hide U32Bytes;
    BigEndian4(b);
    BigEndianInjective(b, U32Bytes(n));
  }

  /** What the credential section was read from is its own build, and it is consistent. */
  lemma AttestedIsBuilt(b: ByteString, offset: nat)
    requires ReadAttested(b, offset).Ok?
    ensures var s := ReadAttested(b, offset).value;
      b[offset..s.next] == BuildAttested(s.value) && ConsistentAttested(s.value)
  {
    hide Cbor.Decode, BigEndian, U16Bytes;
    var s := ReadAttested(b, offset).value;
    var idAt := offset + AAGUID_BYTES + 2;
    var keyAt := idAt + |s.value.credentialId|;
    PrefixIsWhole(b[keyAt..]);
    assert b[keyAt..][..s.next - keyAt] == b[keyAt..s.next];
    U16Unique(b[idAt - 2..idAt], |s.value.credentialId|);
    assert b[offset..s.next] == b[offset..idAt - 2] + b[idAt - 2..idAt] + b[idAt..keyAt] + b[keyAt..s.next];
  }

  /** Conversely, a built credential section is read back, and its key's extent is found by decoding alone. */
  lemma BuiltIsRead(b: ByteString, offset: nat, a: Attested)
    requires ConsistentAttested(a)
    requires offset + |BuildAttested(a)| <= |b| && b[offset..offset + |BuildAttested(a)|] == BuildAttested(a)
    ensures ReadAttested(b, offset) == Ok(Section(a, offset + |BuildAttested(a)|))
  {
    hide Cbor.Decode, BigEndian, U16Bytes;
    var length := U16Bytes(|a.credentialId|);
    assert BuildAttested(a) == a.aaguid + length + (a.credentialId + a.publicKey);
    PartsInPlace(b, offset, a.aaguid, length, a.credentialId + a.publicKey);
    var idAt := offset + AAGUID_BYTES + 2;
    assert a.credentialId + a.publicKey + [] == a.credentialId + a.publicKey;
    PartsInPlace(b, idAt, a.credentialId, a.publicKey, []);
    var keyAt := idAt + |a.credentialId|;
    var end := keyAt + |a.publicKey|;
    assert b[keyAt..] == b[keyAt..end] + b[end..];
    CborLaws.DecodePrefixStops(a.publicKey, b[end..]);
  }

  /** Every accepted input is the concatenation of its parsed fields, and they are consistent. */
  lemma ParsedIsBuilt(b: ByteString) returns (extensions: ByteString)
    requires Parse(b).Ok?
    ensures Consistent(Parse(b).value, extensions) && b == Build(Parse(b).value, extensions)
  {
    hide Cbor.Decode, BigEndian, ReadAttested, U32Bytes, BuildAttested, ConsistentAttested;
    var d := Parse(b).value;
    U32Unique(b[RP_ID_HASH_BYTES + 1..HEADER_BYTES], d.signCount);
    assert b[..HEADER_BYTES] == d.rpIdHash + [d.rawFlags] + U32Bytes(d.signCount);
    var mid := HEADER_BYTES;
    if d.attested.Some? {
      AttestedIsBuilt(b, HEADER_BYTES);
      mid := ReadAttested(b, HEADER_BYTES).value.next;
    }
    extensions := b[mid..];
    if d.extensions.Some? {
      PrefixIsWhole(b[mid..]);
      assert b[mid..][..|b| - mid] == b[mid..];
    }
    assert b == b[..HEADER_BYTES] + b[HEADER_BYTES..mid] + b[mid..];
  }

  /** Every consistent build is accepted, and gives its fields back. */
  lemma BuiltIsParsed(d: AuthenticatorData, extensions: ByteString)
    requires Consistent(d, extensions)
    ensures Parse(Build(d, extensions)) == Ok(d)
  {
    hide Cbor.Decode, BigEndian, ReadAttested, U32Bytes, BuildAttested, ConsistentAttested;
    var b := Build(d, extensions);
    var middle := if d.attested.Some? then BuildAttested(d.attested.value) else [];
    var header := d.rpIdHash + [d.rawFlags] + U32Bytes(d.signCount);
    assert b[0..|b|] == b == header + middle + extensions;
    PartsInPlace(b, 0, header, middle, extensions);
    PartsInPlace(b, 0, d.rpIdHash, [d.rawFlags], U32Bytes(d.signCount));
    assert b[RP_ID_HASH_BYTES] == b[RP_ID_HASH_BYTES..RP_ID_HASH_BYTES + 1][0];
    assert b[..RP_ID_HASH_BYTES] == b[0..RP_ID_HASH_BYTES];
    if d.attested.Some? {
      BuiltIsRead(b, HEADER_BYTES, d.attested.value);
    }
    var mid := HEADER_BYTES + |middle|;
    assert b[mid..] == extensions;
    BuiltSections(b, d, mid);
  }

  lemma BuiltSections(b: ByteString, d: AuthenticatorData, mid: nat)
    requires HEADER_BYTES <= mid <= |b| && Consistent(d, b[mid..])
    requires if d.attested.Some? then ReadAttested(b, HEADER_BYTES) == Ok(Section(d.attested.value, mid))
             else mid == HEADER_BYTES
    ensures ReadSections(b, d.rawFlags) == Ok((d.attested, d.extensions))
  {
    hide Cbor.Decode, ReadAttested, ConsistentAttested;
    if d.extensions.Some? {
      assert b[mid..] + [] == b[mid..];
      CborLaws.DecodePrefixStops(b[mid..], []);
    }
  }

  /** The parser accepts exactly the consistent builds, each as the fields it was built from. */
  lemma AcceptsExactlyBuilt(b: ByteString, d: AuthenticatorData)
    ensures Parse(b) == Ok(d) <==> exists extensions :: Consistent(d, extensions) && b == Build(d, extensions)
  {
    hide Parse, Consistent, Build;
    if Parse(b) == Ok(d) {
      var extensions := ParsedIsBuilt(b);
      assert Consistent(d, extensions) && b == Build(d, extensions);
    }
    forall extensions | Consistent(d, extensions) && b == Build(d, extensions) ensures Parse(b) == Ok(d) {
      BuiltIsParsed(d, extensions);
    }
  }

  /** What the bits of the flags byte say of an accepted input: presence, verification, and the sections there are. */
  lemma FlagsOfParsed(b: ByteString)
    requires Parse(b).Ok?
    ensures |b| >= 37 && Parse(b).value.rawFlags == b[32] && Parse(b).value.rpIdHash == b[..32]
    ensures Parse(b).value.UserPresent() <==> b[32] as bv8 & 0x01 != 0
    ensures Parse(b).value.UserVerified() <==> b[32] as bv8 & 0x04 != 0
    ensures Parse(b).value.attested.Some? <==> b[32] as bv8 & 0x40 != 0
    ensures Parse(b).value.extensions.Some? <==> b[32] as bv8 & 0x80 != 0
    ensures b[32] as bv8 & 0x10 != 0 ==> b[32] as bv8 & 0x08 != 0
  {
    hide Cbor.Decode;
    FlagBits(b[32]);
  }

  lemma FlagBits(flags: Byte)
    ensures Flag(flags, USER_PRESENT) <==> flags as bv8 & 0x01 != 0
    ensures Flag(flags, USER_VERIFIED) <==> flags as bv8 & 0x04 != 0
    ensures Flag(flags, BACKUP_ELIGIBLE) <==> flags as bv8 & 0x08 != 0
    ensures Flag(flags, BACKUP_STATE) <==> flags as bv8 & 0x10 != 0
    ensures Flag(flags, ATTESTED_CREDENTIAL) <==> flags as bv8 & 0x40 != 0
    ensures Flag(flags, EXTENSION_DATA) <==> flags as bv8 & 0x80 != 0
  {
  }
}
