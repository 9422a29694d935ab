/**
 * The packed TPM structures of a `tpm` attestation: public areas and certify statements
 * (sections 12.2.4 and 10.12.8 of the TPM 2.0 Library, Part 2).
 */
module Tpm {
  import opened Bytes
  import opened Wrappers

  datatype Error =
    | Truncated
    | SizedOverrun
    | TrailingBytes
    | UnsupportedKeyType
    | NotTpmGenerated
    | NotCertify
    | NameTooShort
    | Sha1Name
    | UnsupportedNameAlgorithm
    | NameMismatch
    | NotRsaCredential
    | ModulusMismatch
    | ExponentMismatch
    | NotEcCredential
    | UnsupportedCurve
    | XMismatch
    | YMismatch

  const TPM_GENERATED := 0xFF54_4347
  const ST_ATTEST_CERTIFY := 0x8017
  const ALG_RSA := 0x0001
  const ALG_SHA1 := 0x0004
  const ALG_SHA256 := 0x000B
  const ALG_SHA384 := 0x000C
  const ALG_SHA512 := 0x000D
  const ALG_NULL := 0x0010
  const ALG_ECC := 0x0023
  const ECC_NIST_P256 := 0x0003
  const DEFAULT_EXPONENT := 65537
  const CLOCK_INFO_BYTES := 17
  const FIRMWARE_VERSION_BYTES := 8

  // ---- Packed fields ---------------------------------------------------------------------

  /** A field of known width, or one led by its two-byte size. */
  datatype Field = Fixed(width: nat) | Sized

  /** The value of a field at the front of `b`. */
  function ReadField(b: ByteString, field: Field): (r: Result<ByteString, Error>)
    ensures r.Ok? ==> Extent(field, r.value) <= |b| && (field.Fixed? ==> |r.value| == field.width)
  {
    match field
    case Fixed(width) => if |b| < width then Err(Truncated) else Ok(b[..width])
    case Sized =>
      if |b| < 2 then Err(Truncated)
      else
        var size := BigEndian(b[..2]);
        if size > |b| - 2 then Err(SizedOverrun) else Ok(b[2..2 + size])
  }

  /** The bytes a field's value takes up. */
  function Extent(field: Field, value: ByteString): nat {
    if field.Sized? then 2 + |value| else |value|
  }

  function ReadFields(b: ByteString, layout: seq<Field>): (r: Result<seq<ByteString>, Error>)
    ensures r.Ok? ==> |r.value| == |layout| && Extents(layout, r.value) <= |b|
  {
    if |layout| == 0 then Ok([])
    else
      var first :- ReadField(b, layout[0]);
      var rest :- ReadFields(b[Extent(layout[0], first)..], layout[1..]);
      Ok([first] + rest)
  }

  function Extents(layout: seq<Field>, values: seq<ByteString>): nat
    requires |layout| == |values|
  {
    if |layout| == 0 then 0 else Extent(layout[0], values[0]) + Extents(layout[1..], values[1..])
  }

  predicate FieldFits(field: Field, value: ByteString) {
    match field
    case Fixed(width) => |value| == width
    case Sized => |value| < 0x1_0000
  }

  predicate Fits(layout: seq<Field>, values: seq<ByteString>) {
    |layout| == |values| && forall i :: 0 <= i < |layout| ==> FieldFits(layout[i], values[i])
  }

  function PrintField(field: Field, value: ByteString): ByteString {
    if field.Sized? then U16Bytes(|value|) + value else value
  }

  function Print(layout: seq<Field>, values: seq<ByteString>): ByteString
    requires |layout| == |values|
  {
    if |layout| == 0 then [] else PrintField(layout[0], values[0]) + Print(layout[1..], values[1..])
  }

  lemma FieldReadIsPrinted(b: ByteString, field: Field)
    requires ReadField(b, field).Ok?
    ensures var v := ReadField(b, field).value;
      FieldFits(field, v) && b == PrintField(field, v) + b[Extent(field, v)..]
  {
    hide U16Bytes;
    if field.Sized? {
      BigEndian2(b[..2]);
      var v := ReadField(b, field).value;
      BigEndianInjective(b[..2], U16Bytes(|v|));
    }
  }

  lemma FieldPrintedIsRead(field: Field, value: ByteString, rest: ByteString)
    requires FieldFits(field, value)
    ensures ReadField(PrintField(field, value) + rest, field) == Ok(value)
    ensures |PrintField(field, value)| == Extent(field, value)
  {
    hide U16Bytes;
    var b := PrintField(field, value) + rest;
    if field.Sized? {
      assert b[..2] == U16Bytes(|value|);
      assert b[2..2 + |value|] == value;
    } else {
      assert b[..|value|] == value;
    }
  }

  /** Whatever was read is the print of what it gave, and then the rest. */
  lemma {:induction false} ReadIsPrinted(b: ByteString, layout: seq<Field>)
    requires ReadFields(b, layout).Ok?
    ensures var values := ReadFields(b, layout).value;
      && Fits(layout, values) && Extents(layout, values) <= |b|
      && b == Print(layout, values) + b[Extents(layout, values)..]
    decreases |layout|
  {
    hide ReadField, FieldFits, PrintField, Extent;
    if |layout| > 0 {
      var first := ReadField(b, layout[0]).value;
      var tail := b[Extent(layout[0], first)..];
      FieldReadIsPrinted(b, layout[0]);
      ReadIsPrinted(tail, layout[1..]);
      var rest := ReadFields(tail, layout[1..]).value;
      assert ([first] + rest)[1..] == rest;
      assert b[Extent(layout[0], first) + Extents(layout[1..], rest)..] == tail[Extents(layout[1..], rest)..];
    }
  }

  /** What fits its layout is read back from its print, whatever follows. */
  lemma {:induction false} PrintedIsRead(layout: seq<Field>, values: seq<ByteString>, rest: ByteString)
    requires Fits(layout, values)
    ensures ReadFields(Print(layout, values) + rest, layout) == Ok(values)
    ensures |Print(layout, values)| == Extents(layout, values)
    decreases |layout|
  {
    hide ReadField, FieldFits, PrintField, Extent;
    if |layout| > 0 {
      var head, tail := PrintField(layout[0], values[0]), Print(layout[1..], values[1..]);
      FieldPrintedIsRead(layout[0], values[0], tail + rest);
      assert Print(layout, values) + rest == head + (tail + rest);
      PrintedIsRead(layout[1..], values[1..], rest);
      assert (head + (tail + rest))[|head|..] == tail + rest;
      assert [values[0]] + values[1..] == values;
    }
  }

  // ---- Public areas ----------------------------------------------------------------------

  const AREA_HEAD := [Fixed(2), Fixed(2), Fixed(4), Sized]
  const RSA_BODY := [Fixed(2), Fixed(2), Fixed(2), Fixed(4), Sized]
  const ECC_BODY := [Fixed(2), Fixed(2), Fixed(2), Fixed(2), Sized, Sized]

  /** The key a TPM describes. A zero RSA exponent has been read as the default one. */
  datatype Public =
    | RsaPublic(nameAlg: nat, modulus: ByteString, exponent: nat)
    | EccPublic(nameAlg: nat, curve: nat, x: ByteString, y: ByteString)

  function ExponentOf(raw: nat): nat {
    if raw == 0 then DEFAULT_EXPONENT else raw
  }

  function ParsePublic(b: ByteString): Result<Public, Error> {
    var head :- ReadFields(b, AREA_HEAD);
    var keyType, nameAlg := BigEndian(head[0]), BigEndian(head[1]);
    var left := b[Extents(AREA_HEAD, head)..];
    if keyType == ALG_RSA then RsaBody(left, nameAlg)
    else if keyType == ALG_ECC then EccBody(left, nameAlg)
    else Err(UnsupportedKeyType)
  }

  function RsaBody(b: ByteString, nameAlg: nat): Result<Public, Error> {
    var body :- ReadFields(b, RSA_BODY);
    if Extents(RSA_BODY, body) != |b| then Err(TrailingBytes)
    else Ok(RsaPublic(nameAlg, body[4], ExponentOf(BigEndian(body[3]))))
  }

  function EccBody(b: ByteString, nameAlg: nat): Result<Public, Error> {
    var body :- ReadFields(b, ECC_BODY);
    if Extents(ECC_BODY, body) != |b| then Err(TrailingBytes)
    else Ok(EccPublic(nameAlg, BigEndian(body[2]), body[4], body[5]))
  }

  /** What a public area holds, field by field. */
  datatype Area = Area(head: seq<ByteString>, body: seq<ByteString>)

  function BodyLayout(area: Area): seq<Field>
    requires |area.head| == 4
  {
    if BigEndian(area.head[0]) == ALG_RSA then RSA_BODY else ECC_BODY
  }

  predicate AreaFits(area: Area) {
    && Fits(AREA_HEAD, area.head)
    && (BigEndian(area.head[0]) == ALG_RSA || BigEndian(area.head[0]) == ALG_ECC)
    && Fits(BodyLayout(area), area.body)
  }

  function PrintArea(area: Area): ByteString
    requires AreaFits(area)
  {
    Print(AREA_HEAD, area.head) + Print(BodyLayout(area), area.body)
  }

  /** What the parser keeps of a public area; an RSA exponent of zero stands for 65537. */
  function View(area: Area): Public
    requires AreaFits(area)
  {
    if BigEndian(area.head[0]) == ALG_RSA then
      var exponent := BigEndian(area.body[3]);
      RsaPublic(BigEndian(area.head[1]), area.body[4], if exponent > 0 then exponent else 65537)
    else
      EccPublic(BigEndian(area.head[1]), BigEndian(area.body[2]), area.body[4], area.body[5])
  }

  /** The parser accepts exactly the printed areas, each as its view. */
  lemma ParsesExactlyAreas(b: ByteString, p: Public)
    ensures ParsePublic(b) == Ok(p) <==> exists area :: AreaFits(area) && b == PrintArea(area) && p == View(area)
  {
    hide ReadFields, Print, Extents, FieldFits, BigEndian;
    if ParsePublic(b) == Ok(p) {
      var area := ParsedArea(b);
    }
    forall area | AreaFits(area) && b == PrintArea(area) && p == View(area) ensures ParsePublic(b) == Ok(p) {
      PrintedAreaIsParsed(area);
    }
  }

  lemma ParsedArea(b: ByteString) returns (area: Area)
    requires ParsePublic(b).Ok?
    ensures AreaFits(area) && b == PrintArea(area) && ParsePublic(b).value == View(area)
  {
    hide ReadFields, Print, Extents, FieldFits, BigEndian;
    ReadIsPrinted(b, AREA_HEAD);
    var head := ReadFields(b, AREA_HEAD).value;
    var left := b[Extents(AREA_HEAD, head)..];
    area := Area(head, []);
    var layout := BodyLayout(area);
    ReadIsPrinted(left, layout);
    area := Area(head, ReadFields(left, layout).value);
    assert left[|left|..] == [];
  }

  lemma PrintedAreaIsParsed(area: Area)
    requires AreaFits(area)
    ensures ParsePublic(PrintArea(area)) == Ok(View(area))
  {
    hide ReadFields, Print, Extents, FieldFits, BigEndian;
    var layout := BodyLayout(area);
    var head, body := Print(AREA_HEAD, area.head), Print(layout, area.body);
    PrintedIsRead(AREA_HEAD, area.head, body);
    PrintedIsRead(layout, area.body, []);
    assert body + [] == body;
    assert (head + body)[|head|..] == body;
  }

  // ---- Certify statements ----------------------------------------------------------------

  const ATTEST_HEAD := [Fixed(4), Fixed(2)]
  const ATTEST_BODY := [Sized, Sized, Fixed(CLOCK_INFO_BYTES), Fixed(FIRMWARE_VERSION_BYTES), Sized]

  datatype Attest = Attest(extraData: ByteString, attestedName: ByteString)

  function ParseAttest(b: ByteString): Result<Attest, Error> {
    var head :- ReadFields(b, ATTEST_HEAD);
    if BigEndian(head[0]) != TPM_GENERATED then Err(NotTpmGenerated)
    else if BigEndian(head[1]) != ST_ATTEST_CERTIFY then Err(NotCertify)
    else
      var body :- ReadFields(b[Extents(ATTEST_HEAD, head)..], ATTEST_BODY);
      Ok(Attest(body[1], body[4]))
  }

  /** The fields of a certify statement, with whatever follows the attested name. */
  function PrintAttest(body: seq<ByteString>, rest: ByteString): ByteString
    requires Fits(ATTEST_BODY, body)
  {
    U32Bytes(TPM_GENERATED) + U16Bytes(ST_ATTEST_CERTIFY) + Print(ATTEST_BODY, body) + rest
  }

  /** A statement is accepted exactly when it is a certify statement, and then by its two kept fields. */
  lemma ParsesExactlyAttests(b: ByteString, a: Attest)
    ensures ParseAttest(b) == Ok(a) <==>
            exists body, rest ::
              Fits(ATTEST_BODY, body) && b == PrintAttest(body, rest) && a == Attest(body[1], body[4])
  {
    hide ReadFields, Print, Extents, FieldFits, BigEndian, U32Bytes, U16Bytes;
    if ParseAttest(b) == Ok(a) {
      var body, rest := ParsedAttest(b);
    }
    forall body, rest | Fits(ATTEST_BODY, body) && b == PrintAttest(body, rest) && a == Attest(body[1], body[4])
      ensures ParseAttest(b) == Ok(a) {
      PrintedAttestIsParsed(body, rest);
    }
  }

  lemma AttestHeadPrint(head: seq<ByteString>)
    requires |head| == 2
    ensures Print(ATTEST_HEAD, head) == head[0] + head[1]
    ensures Fits(ATTEST_HEAD, head) <==> |head[0]| == 4 && |head[1]| == 2
  {
    hide U16Bytes;
    var last := ATTEST_HEAD[1..];
    assert Print(last[1..], head[1..][1..]) == [];
    assert Print(last, head[1..]) == head[1];
  }

  lemma ParsedAttest(b: ByteString) returns (body: seq<ByteString>, rest: ByteString)
    requires ParseAttest(b).Ok?
    ensures Fits(ATTEST_BODY, body) && b == PrintAttest(body, rest)
    ensures ParseAttest(b).value == Attest(body[1], body[4])
  {
    hide ReadFields, Print, Extents, FieldFits, BigEndian, U32Bytes, U16Bytes;
    ReadIsPrinted(b, ATTEST_HEAD);
    var head := ReadFields(b, ATTEST_HEAD).value;
    AttestHeadPrint(head);
    BigEndianInjective(head[0], U32Bytes(TPM_GENERATED));
    BigEndianInjective(head[1], U16Bytes(ST_ATTEST_CERTIFY));
    var left := b[Extents(ATTEST_HEAD, head)..];
    ReadIsPrinted(left, ATTEST_BODY);
    body := ReadFields(left, ATTEST_BODY).value;
    rest := left[Extents(ATTEST_BODY, body)..];
  }

  lemma PrintedAttestIsParsed(body: seq<ByteString>, rest: ByteString)
    requires Fits(ATTEST_BODY, body)
    ensures ParseAttest(PrintAttest(body, rest)) == Ok(Attest(body[1], body[4]))
  {
    hide ReadFields, Print, Extents, FieldFits, BigEndian, U32Bytes, U16Bytes;
    var head := [U32Bytes(TPM_GENERATED), U16Bytes(ST_ATTEST_CERTIFY)];
    AttestHeadPrint(head);
    var start, middle := Print(ATTEST_HEAD, head), Print(ATTEST_BODY, body);
    assert PrintAttest(body, rest) == start + (middle + rest);
    PrintedIsRead(ATTEST_HEAD, head, middle + rest);
    PrintedIsRead(ATTEST_BODY, body, rest);
    assert (start + (middle + rest))[|start|..] == middle + rest;
  }

  // ---- The parsers as they run -----------------------------------------------------------

  class Reader {
    const bytes: ByteString
    var offset: nat

    constructor (bytes: ByteString)
      ensures this.bytes == bytes && Valid() && Rest() == bytes
    {
      this.bytes := bytes;
      offset := 0;
    }

    ghost predicate Valid()
      reads this
    {
      offset <= |bytes|
    }

    function Rest(): ByteString
      requires Valid()
      reads this
    {
      bytes[offset..]
    }

    function Remaining(): nat
      requires Valid()
      reads this
    {
      |bytes| - offset
    }

    /** The slice of known length that comes next. */
    method Slice(length: nat) returns (r: Result<ByteString, Error>)
      requires Valid()
      modifies this
      ensures Valid()
      ensures r == ReadField(bytes[old(offset)..], Fixed(length))
      ensures offset == old(offset) + if r.Ok? then length else 0
    {
      if |bytes| - offset < length {
        return Err(Truncated);
      }
      var out := bytes[offset..offset + length];
      assert out == bytes[offset..][..length];
      offset := offset + length;
      r := Ok(out);
    }

    method Unsigned(width: nat) returns (r: Result<nat, Error>)
      requires Valid()
      modifies this
      ensures Valid()
      ensures r == match ReadField(bytes[old(offset)..], Fixed(width))
                   case Ok(v) => Ok(BigEndian(v))
                   case Err(e) => Err(e)
      ensures offset == old(offset) + if r.Ok? then width else 0
    {
      var digits := Slice(width);
      r := if digits.Ok? then Ok(BigEndian(digits.value)) else Err(digits.error);
    }

    /** A two-byte size followed by that many bytes. */
    method SizedBytes() returns (r: Result<ByteString, Error>)
      requires Valid()
      modifies this
      ensures Valid()
      ensures r == ReadField(bytes[old(offset)..], Sized)
      ensures r.Ok? ==> offset == old(offset) + 2 + |r.value|
    {
      ghost var start := bytes[offset..];
      var length := Unsigned(2);
      if length.Err? {
        return Err(length.error);
      }
      if length.value > |bytes| - offset {
        return Err(SizedOverrun);
      }
      assert bytes[offset..][..length.value] == start[2..2 + length.value];
      r := Slice(length.value);
    }
  }

  /** The fields of `layout` have been read from `start` up to `at`, giving `done`. */
  predicate OnTrail(b: ByteString, start: nat, layout: seq<Field>, done: seq<ByteString>, at: nat) {
    && |done| <= |layout| && start <= at <= |b|
    && match ReadFields(b[at..], layout[|done|..])
       case Ok(values) =>
         && ReadFields(b[start..], layout) == Ok(done + values)
         && start + Extents(layout, done + values) == at + Extents(layout[|done|..], values)
       case Err(e) => ReadFields(b[start..], layout) == Err(e)
  }

  lemma TrailStarts(b: ByteString, start: nat, layout: seq<Field>)
    requires start <= |b|
    ensures OnTrail(b, start, layout, [], start)
  {
    hide ReadFields, Extents;
    assert layout[0..] == layout;
    if ReadFields(b[start..], layout).Ok? {
      assert [] + ReadFields(b[start..], layout).value == ReadFields(b[start..], layout).value;
    }
  }

  lemma TrailGoesOn(b: ByteString, start: nat, layout: seq<Field>, done: seq<ByteString>, at: nat, field: Field)
      returns (given: seq<ByteString>)
    requires OnTrail(b, start, layout, done, at) && |done| < |layout| && layout[|done|] == field
    ensures match ReadField(b[at..], field)
            case Err(e) => ReadFields(b[start..], layout) == Err(e)
            case Ok(v) => given == done + [v] && OnTrail(b, start, layout, given, at + Extent(field, v))
  {
    hide ReadField, Extent;
    var left := layout[|done|..];
    assert left[0] == field && left[1..] == layout[|done| + 1..];
    given := done;
    if ReadField(b[at..], field).Ok? {
      var v := ReadField(b[at..], field).value;
      given := done + [v];
      assert b[at..][Extent(field, v)..] == b[at + Extent(field, v)..];
      var rest := ReadFields(b[at + Extent(field, v)..], left[1..]);
      if rest.Ok? {
        assert done + ([v] + rest.value) == given + rest.value;
        assert ([v] + rest.value)[1..] == rest.value;
      }
    }
  }

  lemma TrailEnds(b: ByteString, start: nat, layout: seq<Field>, done: seq<ByteString>, at: nat)
    requires OnTrail(b, start, layout, done, at) && |done| == |layout|
    ensures ReadFields(b[start..], layout) == Ok(done) && start + Extents(layout, done) == at
  {
    assert done + [] == done;
  }

  method ReadRsaBody(reader: Reader, nameAlg: nat) returns (r: Result<Public, Error>)
    requires reader.Valid()
    modifies reader
    ensures r == RsaBody(old(reader.Rest()), nameAlg)
  {
    hide ReadField, OnTrail, BigEndian, ReadFields, Extents;
    ghost var start := reader.offset;
    ghost var done: seq<ByteString>, at: nat := [], start;
    TrailStarts(reader.bytes, start, RSA_BODY);
    at := reader.offset;
    var symmetric := reader.Unsigned(2);
    done := TrailGoesOn(reader.bytes, start, RSA_BODY, done, at, Fixed(2));
    if symmetric.Err? {
      return Err(symmetric.error);
    }
    at := reader.offset;
    var scheme := reader.Unsigned(2);
    done := TrailGoesOn(reader.bytes, start, RSA_BODY, done, at, Fixed(2));
    if scheme.Err? {
      return Err(scheme.error);
    }
    at := reader.offset;
    var keyBits := reader.Unsigned(2);
    done := TrailGoesOn(reader.bytes, start, RSA_BODY, done, at, Fixed(2));
    if keyBits.Err? {
      return Err(keyBits.error);
    }
    at := reader.offset;
    var rawExponent := reader.Unsigned(4);
    done := TrailGoesOn(reader.bytes, start, RSA_BODY, done, at, Fixed(4));
    if rawExponent.Err? {
      return Err(rawExponent.error);
    }
    at := reader.offset;
    var modulus := reader.SizedBytes();
    done := TrailGoesOn(reader.bytes, start, RSA_BODY, done, at, Sized);
    if modulus.Err? {
      return Err(modulus.error);
    }
    TrailEnds(reader.bytes, start, RSA_BODY, done, reader.offset);
    if reader.Remaining() != 0 {
      return Err(TrailingBytes);
    }
    return Ok(RsaPublic(nameAlg, modulus.value, ExponentOf(rawExponent.value)));
  }

  method ReadEccBody(reader: Reader, nameAlg: nat) returns (r: Result<Public, Error>)
    requires reader.Valid()
    modifies reader
    ensures r == EccBody(old(reader.Rest()), nameAlg)
  {
    hide ReadField, OnTrail, BigEndian, ReadFields, Extents;
    ghost var start := reader.offset;
    ghost var done: seq<ByteString>, at: nat := [], start;
    TrailStarts(reader.bytes, start, ECC_BODY);
    at := reader.offset;
    var symmetric := reader.Unsigned(2);
    done := TrailGoesOn(reader.bytes, start, ECC_BODY, done, at, Fixed(2));
    if symmetric.Err? {
      return Err(symmetric.error);
    }
    at := reader.offset;
    var scheme := reader.Unsigned(2);
    done := TrailGoesOn(reader.bytes, start, ECC_BODY, done, at, Fixed(2));
    if scheme.Err? {
      return Err(scheme.error);
    }
    at := reader.offset;
    var curve := reader.Unsigned(2);
    done := TrailGoesOn(reader.bytes, start, ECC_BODY, done, at, Fixed(2));
    if curve.Err? {
      return Err(curve.error);
    }
    at := reader.offset;
    var kdf := reader.Unsigned(2);
    done := TrailGoesOn(reader.bytes, start, ECC_BODY, done, at, Fixed(2));
    if kdf.Err? {
      return Err(kdf.error);
    }
    at := reader.offset;
    var x := reader.SizedBytes();
    done := TrailGoesOn(reader.bytes, start, ECC_BODY, done, at, Sized);
    if x.Err? {
      return Err(x.error);
    }
    at := reader.offset;
    var y := reader.SizedBytes();
    done := TrailGoesOn(reader.bytes, start, ECC_BODY, done, at, Sized);
    if y.Err? {
      return Err(y.error);
    }
    TrailEnds(reader.bytes, start, ECC_BODY, done, reader.offset);
    if reader.Remaining() != 0 {
      return Err(TrailingBytes);
    }
    return Ok(EccPublic(nameAlg, curve.value, x.value, y.value));
  }

  method ParseTpmPublic(b: ByteString) returns (r: Result<Public, Error>)
    ensures r == ParsePublic(b)
  {
    hide ReadField, OnTrail, BigEndian, ReadFields, Extents;
    var reader := new Reader(b);
    ghost var start := reader.offset;
    ghost var done: seq<ByteString>, at: nat := [], start;
    assert b[0..] == b;
    TrailStarts(reader.bytes, start, AREA_HEAD);
    at := reader.offset;
    var keyType := reader.Unsigned(2);
    done := TrailGoesOn(reader.bytes, start, AREA_HEAD, done, at, Fixed(2));
    if keyType.Err? {
      return Err(keyType.error);
    }
    at := reader.offset;
    var nameAlg := reader.Unsigned(2);
    done := TrailGoesOn(reader.bytes, start, AREA_HEAD, done, at, Fixed(2));
    if nameAlg.Err? {
      return Err(nameAlg.error);
    }
    at := reader.offset;
    var attributes := reader.Unsigned(4);
    done := TrailGoesOn(reader.bytes, start, AREA_HEAD, done, at, Fixed(4));
    if attributes.Err? {
      return Err(attributes.error);
    }
    at := reader.offset;
    var authPolicy := reader.SizedBytes();
    done := TrailGoesOn(reader.bytes, start, AREA_HEAD, done, at, Sized);
    if authPolicy.Err? {
      return Err(authPolicy.error);
    }
    TrailEnds(reader.bytes, start, AREA_HEAD, done, reader.offset);
    if keyType.value == ALG_RSA {
      r := ReadRsaBody(reader, nameAlg.value);
    } else if keyType.value == ALG_ECC {
      r := ReadEccBody(reader, nameAlg.value);
    } else {
      r := Err(UnsupportedKeyType);
    }
  }

  method ParseTpmAttest(b: ByteString) returns (r: Result<Attest, Error>)
    ensures r == ParseAttest(b)
  {
    hide ReadField, OnTrail, BigEndian, ReadFields, Extents;
    var reader := new Reader(b);
    ghost var start := reader.offset;
    ghost var done: seq<ByteString>, at: nat := [], start;
    assert b[0..] == b;
    TrailStarts(reader.bytes, start, ATTEST_HEAD);
    at := reader.offset;
    var magic := reader.Unsigned(4);
    done := TrailGoesOn(reader.bytes, start, ATTEST_HEAD, done, at, Fixed(4));
    if magic.Err? {
      return Err(magic.error);
    }
    at := reader.offset;
    var kind := reader.Unsigned(2);
    done := TrailGoesOn(reader.bytes, start, ATTEST_HEAD, done, at, Fixed(2));
    if kind.Err? {
      return Err(kind.error);
    }
    TrailEnds(reader.bytes, start, ATTEST_HEAD, done, reader.offset);
    if magic.value != TPM_GENERATED {
      return Err(NotTpmGenerated);
    }
    if kind.value != ST_ATTEST_CERTIFY {
      return Err(NotCertify);
    }
    start, done := reader.offset, [];
    TrailStarts(reader.bytes, start, ATTEST_BODY);
    at := reader.offset;
    var qualifiedSigner := reader.SizedBytes();
    done := TrailGoesOn(reader.bytes, start, ATTEST_BODY, done, at, Sized);
    if qualifiedSigner.Err? {
      return Err(qualifiedSigner.error);
    }
    at := reader.offset;
    var extraData := reader.SizedBytes();
    done := TrailGoesOn(reader.bytes, start, ATTEST_BODY, done, at, Sized);
    if extraData.Err? {
      return Err(extraData.error);
    }
    at := reader.offset;
    var clockInfo := reader.Slice(CLOCK_INFO_BYTES);
    done := TrailGoesOn(reader.bytes, start, ATTEST_BODY, done, at, Fixed(CLOCK_INFO_BYTES));
    if clockInfo.Err? {
      return Err(clockInfo.error);
    }
    at := reader.offset;
    var firmwareVersion := reader.Slice(FIRMWARE_VERSION_BYTES);
    done := TrailGoesOn(reader.bytes, start, ATTEST_BODY, done, at, Fixed(FIRMWARE_VERSION_BYTES));
    if firmwareVersion.Err? {
      return Err(firmwareVersion.error);
    }
    at := reader.offset;
    var attestedName := reader.SizedBytes();
    done := TrailGoesOn(reader.bytes, start, ATTEST_BODY, done, at, Sized);
    if attestedName.Err? {
      return Err(attestedName.error);
    }
    TrailEnds(reader.bytes, start, ATTEST_BODY, done, reader.offset);
    return Ok(Attest(extraData.value, attestedName.value));
  }

  // ---- Structures written out ------------------------------------------------------------

  /** The body of a public area for an elliptic-curve key: no symmetric scheme, signing scheme or KDF. */
  function EccValues(x: ByteString, y: ByteString): seq<ByteString> {
    [U16Bytes(ALG_NULL), U16Bytes(ALG_NULL), U16Bytes(ECC_NIST_P256), U16Bytes(ALG_NULL), x, y]
  }

  function HeadValues(attributes: nat): seq<ByteString> {
    [U16Bytes(ALG_ECC), U16Bytes(ALG_SHA256), U32Bytes(attributes), []]
  }

  /** A public area for a P-256 key. */
  function BuildPublic(x: ByteString, y: ByteString): ByteString {
    Print(AREA_HEAD, HeadValues(0x0005_0472)) + Print(ECC_BODY, EccValues(x, y))
  }

  /** A built public area gives its coordinates back if and only if both fit their two-byte sizes. */
  lemma PublicReadBack(x: ByteString, y: ByteString)
    ensures ParsePublic(BuildPublic(x, y)) == Ok(EccPublic(ALG_SHA256, ECC_NIST_P256, x, y))
            <==> |x| < 0x1_0000 && |y| < 0x1_0000
  {
    hide ReadFields, Print, Extents, BigEndian, U16Bytes, U32Bytes;
    var area := Area(HeadValues(0x0005_0472), EccValues(x, y));
    var p := EccPublic(ALG_SHA256, ECC_NIST_P256, x, y);
    if ParsePublic(BuildPublic(x, y)) == Ok(p) {
      var parsed := ParsedArea(BuildPublic(x, y));
      assert FieldFits(ECC_BODY[4], parsed.body[4]) && FieldFits(ECC_BODY[5], parsed.body[5]);
    }
    if |x| < 0x1_0000 && |y| < 0x1_0000 {
      assert AreaFits(area);
      PrintedAreaIsParsed(area);
    }
  }

  /** What a TPM calls a public area: its name algorithm, and the digest of the area under it. */
  function NameOf(algorithm: nat, digest: (nat, ByteString) -> ByteString, pubArea: ByteString): ByteString {
    U16Bytes(algorithm) + digest(algorithm, pubArea)
  }

  function CertInfoValues(extraData: ByteString, name: ByteString): seq<ByteString> {
    [[0, 0], extraData, seq(CLOCK_INFO_BYTES, _ => 0), seq(FIRMWARE_VERSION_BYTES, _ => 0), name]
  }

  /** A statement that certifies `pubArea` for the ceremony `attToBeSigned`; the qualified name is empty. */
  function BuildCertInfo(pubArea: ByteString, attToBeSigned: ByteString, digest: (nat, ByteString) -> ByteString)
    : ByteString
  {
    U32Bytes(TPM_GENERATED) + U16Bytes(ST_ATTEST_CERTIFY)
    + Print(ATTEST_BODY, CertInfoValues(digest(ALG_SHA256, attToBeSigned), NameOf(ALG_SHA256, digest, pubArea)))
    + U16Bytes(0)
  }

  /** A built statement gives back the hash of its ceremony and the name of its area. */
  lemma CertInfoReadBack(pubArea: ByteString, attToBeSigned: ByteString, digest: (nat, ByteString) -> ByteString)
    requires forall b :: |digest(ALG_SHA256, b)| == 32
    ensures ParseAttest(BuildCertInfo(pubArea, attToBeSigned, digest))
            == Ok(Attest(digest(ALG_SHA256, attToBeSigned), NameOf(ALG_SHA256, digest, pubArea)))
  {
    hide ReadFields, Print, Extents, BigEndian, U16Bytes, U32Bytes;
    var body := CertInfoValues(digest(ALG_SHA256, attToBeSigned), NameOf(ALG_SHA256, digest, pubArea));
    assert Fits(ATTEST_BODY, body);
    assert BuildCertInfo(pubArea, attToBeSigned, digest) == PrintAttest(body, U16Bytes(0));
    PrintedAttestIsParsed(body, U16Bytes(0));
  }

  // ---- Binding checks: None is acceptance --------------------------------------------------

  predicate AcceptedNameAlgorithm(algorithm: nat) {
    algorithm == ALG_SHA256 || algorithm == ALG_SHA384 || algorithm == ALG_SHA512
  }

  function VerifyAttestedName(
      name: ByteString, pubArea: ByteString, digest: (nat, ByteString) -> ByteString): Option<Error>
  {
    if |name| < 2 then Some(NameTooShort)
    else
      var algorithm := (name[0] as nat) * 256 + name[1];
      if algorithm == ALG_SHA1 then Some(Sha1Name)
      else if !AcceptedNameAlgorithm(algorithm) then Some(UnsupportedNameAlgorithm)
      else if name[2..] != digest(algorithm, pubArea) then Some(NameMismatch)
      else None
  }

  /** The accepted names of an area are exactly the ones the TPM would give it under an accepted algorithm. */
  lemma AcceptedNames(name: ByteString, pubArea: ByteString, digest: (nat, ByteString) -> ByteString)
    ensures VerifyAttestedName(name, pubArea, digest).None?
            <==> exists a :: AcceptedNameAlgorithm(a) && name == NameOf(a, digest, pubArea)
  {
    if |name| >= 2 {
      var algorithm := (name[0] as nat) * 256 + name[1];
      BigEndian2(name[..2]);
      if VerifyAttestedName(name, pubArea, digest).None? {
        BigEndianInjective(name[..2], U16Bytes(algorithm));
        assert name == name[..2] + name[2..] == NameOf(algorithm, digest, pubArea);
      }
    }
    forall a | AcceptedNameAlgorithm(a) && name == NameOf(a, digest, pubArea)
      ensures VerifyAttestedName(name, pubArea, digest).None? {
      assert name[..2] == U16Bytes(a) && name[2..] == digest(a, pubArea);
      BigEndian2(name[..2]);
    }
  }

  /** With collision-free digests, a name is accepted for at most one area. */
  lemma NameFixesArea(name: ByteString, p: ByteString, q: ByteString, digest: (nat, ByteString) -> ByteString)
    requires forall a, x, y :: digest(a, x) == digest(a, y) ==> x == y
    requires VerifyAttestedName(name, p, digest).None? && VerifyAttestedName(name, q, digest).None?
    ensures p == q
  {
  }

  /** A credential's key as it is compared with a public area. */
  datatype CredentialKey = RsaCredential(n: ByteString, e: nat) | EcCredential(x: ByteString, y: ByteString)

  function VerifyPublicKeyMatches(pub: Public, credential: CredentialKey): Option<Error> {
    match pub
    case RsaPublic(_, modulus, exponent) =>
      if !credential.RsaCredential? then Some(NotRsaCredential)
      else if modulus != credential.n then Some(ModulusMismatch)
      else if exponent != credential.e then Some(ExponentMismatch)
      else None
    case EccPublic(_, curve, x, y) =>
      if !credential.EcCredential? then Some(NotEcCredential)
      else if curve != ECC_NIST_P256 then Some(UnsupportedCurve)
      else if x != credential.x then Some(XMismatch)
      else if y != credential.y then Some(YMismatch)
      else None
  }

  /** A public area matches a credential's key if and only if it holds that key, on P-256 where it is a curve's. */
  lemma MatchesExactly(pub: Public, credential: CredentialKey)
    ensures VerifyPublicKeyMatches(pub, credential).None?
            <==> match credential
                 case RsaCredential(n, e) => pub.RsaPublic? && pub.modulus == n && pub.exponent == e
                 case EcCredential(x, y) => pub.EccPublic? && pub.curve == 0x0003 && pub.x == x && pub.y == y
  {
  }

  /** One area matches one credential key at most: a certified area cannot vouch for a second key. */
  lemma AreaFixesKey(pubArea: ByteString, a: CredentialKey, b: CredentialKey)
    requires ParsePublic(pubArea).Ok?
    requires VerifyPublicKeyMatches(ParsePublic(pubArea).value, a).None?
    requires VerifyPublicKeyMatches(ParsePublic(pubArea).value, b).None?
    ensures a == b
  {
  }
}
