/**
 * ECDSA signatures: the strict decoder from DER `SEQUENCE { INTEGER r, INTEGER s }` to the
 * fixed-width `r || s`, and the printer that goes back.
 */
module DerSignature {
  import opened Bytes
  import opened Wrappers
  import opened Der
  import Buffers

  datatype Error =
    | BadLength(reason: LengthError)
    | NotSequence
    | LengthMismatch
    | NotInteger
    | EmptyInteger
    | IntegerOverrun
    | Negative
    | Zero
    | NonMinimalInteger
    | TooLarge
    | TrailingData

  const SEQUENCE: Byte := 0x30
  const INTEGER: Byte := 0x02

  /** A field element and the offset after the INTEGER it was read from. */
  datatype Element = Element(value: ByteString, next: nat)

  /** `count` zero bytes. */
  function Zeros(count: nat): (z: ByteString)
    ensures |z| == count
  {
    seq(count, _ => 0)
  }

  function PadTo(digits: ByteString, size: nat): (v: ByteString)
    requires |digits| <= size
    ensures |v| == size
  {
    Zeros(size - |digits|) + digits
  }

  /** The field element that an INTEGER's non-empty content denotes. */
  function FieldElement(content: ByteString, size: nat): (r: Result<ByteString, Error>)
    requires |content| > 0
    ensures r.Ok? ==> |r.value| == size
  {
    if content[0] >= 0x80 then Err(Negative)
    else if content[0] == 0 && |content| == 1 then Err(Zero)
    else if content[0] == 0 && content[1] < 0x80 then Err(NonMinimalInteger)
    else
      var digits := if content[0] == 0 then content[1..] else content;
      if |digits| > size then Err(TooLarge) else Ok(PadTo(digits, size))
  }

  function Length2(b: ByteString, offset: nat): (r: Result<Length, Error>)
    ensures r.Ok? ==> offset < r.value.next <= |b|
  {
    match ReadLength(b, offset, 2)
    case Ok(l) => Ok(l)
    case Err(e) => Err(BadLength(e))
  }

  function ReadInteger(b: ByteString, offset: nat, size: nat): (r: Result<Element, Error>)
    ensures r.Ok? ==> offset < r.value.next <= |b| && |r.value.value| == size
  {
    if offset >= |b| || b[offset] != INTEGER then Err(NotInteger)
    else
      var l :- Length2(b, offset + 1);
      if l.length == 0 then Err(EmptyInteger)
      else if l.next + l.length > |b| then Err(IntegerOverrun)
      else
        var value :- FieldElement(b[l.next..l.next + l.length], size);
        Ok(Element(value, l.next + l.length))
  }

  function DerToRaw(der: ByteString, size: nat): (r: Result<ByteString, Error>)
    ensures r.Ok? ==> |r.value| == 2 * size
  {
    if |der| == 0 || der[0] != SEQUENCE then Err(NotSequence)
    else
      var l :- Length2(der, 1);
      if l.next + l.length != |der| then Err(LengthMismatch)
      else
        var r :- ReadInteger(der, l.next, size);
        var s :- ReadInteger(der, r.next, size);
        if s.next != |der| then Err(TrailingData) else Ok(r.value + s.value)
  }

  // ---- The decoder as it runs ------------------------------------------------------------

  method ReadIntegerAt(b: ByteString, offset: nat, size: nat) returns (r: Result<Element, Error>)
    ensures r == ReadInteger(b, offset, size)
  {
    if offset >= |b| || b[offset] != INTEGER {
      return Err(NotInteger);
    }
    var read := ReadLengthAt(b, offset + 1, 2);
    if read.Err? {
      return Err(BadLength(read.error));
    }
    var length, next := read.value.length, read.value.next;
    if length == 0 {
      return Err(EmptyInteger);
    }
    if next + length > |b| {
      return Err(IntegerOverrun);
    }
    var digits := b[next..next + length];
    var first := digits[0];
    if first >= 0x80 {
      return Err(Negative);
    }
    if first == 0 {
      if length == 1 {
        return Err(Zero);
      }
      if digits[1] < 0x80 {
        return Err(NonMinimalInteger);
      }
      digits := digits[1..];
    }
    if |digits| > size {
      return Err(TooLarge);
    }
    var value := new Byte[size](_ => 0);
    assert value[..size - |digits|] == Zeros(size - |digits|);
    Buffers.SetAt(value, digits, size - |digits|);
    assert value[..] == PadTo(digits, size);
    return Ok(Element(value[..], next + length));
  }

  method DerToRawSignature(der: ByteString, fieldSize: nat) returns (r: Result<ByteString, Error>)
    ensures r == DerToRaw(der, fieldSize)
  {
    hide ReadInteger, ReadLength;
    if |der| == 0 || der[0] != SEQUENCE {
      return Err(NotSequence);
    }
    var read := ReadLengthAt(der, 1, 2);
    if read.Err? {
      return Err(BadLength(read.error));
    }
    if read.value.next + read.value.length != |der| {
      return Err(LengthMismatch);
    }
    var x := ReadIntegerAt(der, read.value.next, fieldSize);
    if x.Err? {
      return Err(x.error);
    }
    var y := ReadIntegerAt(der, x.value.next, fieldSize);
    if y.Err? {
      return Err(y.error);
    }
    if y.value.next != |der| {
      return Err(TrailingData);
    }
    var raw := new Byte[fieldSize * 2](_ => 0);
    Buffers.SetAt(raw, x.value.value, 0);
    Buffers.SetAt(raw, y.value.value, fieldSize);
    assert raw[..] == x.value.value + y.value.value;
    return Ok(raw[..]);
  }

  // ---- The printer -----------------------------------------------------------------------

  /** The bytes without leading zeros, the last byte always kept. */
  function StripZeros(value: ByteString): (d: ByteString)
    ensures |d| <= |value|
  {
    if |value| > 1 && value[0] == 0 then StripZeros(value[1..]) else value
  }

  /** The content of a positive INTEGER: no leading zeros but the one that clears the sign. */
  function SignedDigits(value: ByteString): (d: ByteString)
    ensures |d| <= |value| + 1
  {
    var d := StripZeros(value);
    if |d| > 0 && d[0] >= 0x80 then [0] + d else d
  }

  /** The printer's INTEGER, whose length is always a single byte. */
  function ShortInteger(value: ByteString): ByteString {
    [INTEGER, |SignedDigits(value)| % 256] + SignedDigits(value)
  }

  function Halves(raw: ByteString): (ByteString, ByteString) {
    (raw[..|raw| / 2], raw[|raw| / 2..])
  }

  function RawToDer(raw: ByteString): ByteString {
    var (r, s) := Halves(raw);
    var body := ShortInteger(r) + ShortInteger(s);
    (if |body| < 0x80 then [SEQUENCE, |body|] else [SEQUENCE, 0x81, |body| % 256]) + body
  }

  /** The loop that skips leading zeros, and the byte that clears the sign. */
  method PrintInteger(value: ByteString) returns (out: ByteString)
    ensures out == ShortInteger(value)
  {
    var start := 0;
    while start < |value| - 1 && value[start] == 0
      invariant 0 <= start <= |value|
      invariant StripZeros(value[start..]) == StripZeros(value)
    {
      start := start + 1;
    }
    var digits := value[start..];
    if |digits| > 0 && digits[0] >= 0x80 {
      digits := [0] + digits;
    }
    out := [INTEGER, |digits| % 256] + digits;
  }

  method RawToDerSignature(raw: ByteString) returns (der: ByteString)
    ensures der == RawToDer(raw)
  {
    var half := |raw| / 2;
    var r := PrintInteger(raw[..half]);
    var s := PrintInteger(raw[half..]);
    var body := r + s;
    var header: ByteString := if |body| < 0x80 then [SEQUENCE, |body|] else [SEQUENCE, 0x81, |body| % 256];
    der := header + body;
  }

  // ---- One encoding for each signature ---------------------------------------------------

  predicate NonZero(value: ByteString) {
    exists i :: 0 <= i < |value| && value[i] != 0
  }

  /** The DER encoding of a signature, with lengths as long as they need to be. */
  function Canonical(raw: ByteString): ByteString {
    var (r, s) := Halves(raw);
    Tlv(SEQUENCE, Tlv(INTEGER, SignedDigits(r)) + Tlv(INTEGER, SignedDigits(s)))
  }

  lemma {:induction false} StripPadded(digits: ByteString, size: nat)
    requires 0 < |digits| <= size && digits[0] != 0
    ensures StripZeros(PadTo(digits, size)) == digits
    decreases size
  {
    var v := PadTo(digits, size);
    if size > |digits| {
      assert v[1..] == PadTo(digits, size - 1);
      StripPadded(digits, size - 1);
    } else {
      assert v == digits;
    }
  }

  lemma {:induction false} PadStripped(value: ByteString)
    requires NonZero(value)
    ensures var d := StripZeros(value); |d| > 0 && d[0] != 0 && PadTo(d, |value|) == value
  {
    var d := StripZeros(value);
    if |value| > 1 && value[0] == 0 {
      var i :| 0 <= i < |value| && value[i] != 0;
      assert value[1..][i - 1] != 0;
      PadStripped(value[1..]);
      assert PadTo(d, |value|) == [0] + PadTo(d, |value| - 1);
    } else {
      assert PadTo(d, |value|) == value;
    }
  }

  /** Content is accepted exactly when it is what the printer writes for a non-zero element. */
  lemma FieldElementIffPrinted(content: ByteString, size: nat, v: ByteString)
    requires |content| > 0
    ensures FieldElement(content, size) == Ok(v) <==> |v| == size && NonZero(v) && content == SignedDigits(v)
  {
    if FieldElement(content, size) == Ok(v) {
      var digits := if content[0] == 0 then content[1..] else content;
      StripPadded(digits, size);
      assert v[size - |digits|] == digits[0] != 0;
      assert content[0] == 0 ==> content == [0] + digits;
    }
    if |v| == size && NonZero(v) && content == SignedDigits(v) {
      PadStripped(v);
      assert content[0] == 0 ==> content[1..] == StripZeros(v);
    }
  }

  /** An accepted INTEGER occupies exactly its canonical encoding. */
  lemma IntegerCanonical(b: ByteString, offset: nat, size: nat)
    requires ReadInteger(b, offset, size).Ok?
    ensures var e := ReadInteger(b, offset, size).value;
      && NonZero(e.value) && |SignedDigits(e.value)| < 0x1_0000
      && b[offset..e.next] == Tlv(INTEGER, SignedDigits(e.value))
  {
    hide FieldElement;
    var l := Length2(b, offset + 1).value;
    var content := b[l.next..l.next + l.length];
    FieldElementIffPrinted(content, size, ReadInteger(b, offset, size).value.value);
    LengthCanonical(b, offset + 1, 2);
    Pow256Small();
    assert b[offset..l.next + l.length] == [b[offset]] + b[offset + 1..l.next] + content;
  }

  lemma IntegerRead(b: ByteString, offset: nat, v: ByteString)
    requires NonZero(v) && |SignedDigits(v)| < 0x1_0000
    requires var n := |Tlv(INTEGER, SignedDigits(v))|;
      offset + n <= |b| && b[offset..offset + n] == Tlv(INTEGER, SignedDigits(v))
    ensures ReadInteger(b, offset, |v|) == Ok(Element(v, offset + |Tlv(INTEGER, SignedDigits(v))|))
  {
    hide FieldElement, EncodeLength, SignedDigits;
    var content := SignedDigits(v);
    var e := EncodeLength(|content|);
    PartsInPlace(b, offset, [INTEGER], e, content);
    assert b[offset] == b[offset..offset + 1][0];
    SignedNonEmpty(v);
    Pow256Small();
    LengthRead(b, offset + 1, 2, |content|);
    FieldElementIffPrinted(content, |v|, v);
  }

  lemma SignedNonEmpty(v: ByteString)
    requires |v| > 0
    ensures |SignedDigits(v)| > 0
    decreases |v|
  {
    if |v| > 1 && v[0] == 0 {
      SignedNonEmpty(v[1..]);
    }
  }

  /** The two INTEGERs that a canonical signature holds. */
  function Body(raw: ByteString): ByteString {
    var (r, s) := Halves(raw);
    Tlv(INTEGER, SignedDigits(r)) + Tlv(INTEGER, SignedDigits(s))
  }

  lemma AcceptedIsCanonical(der: ByteString, size: nat)
    requires DerToRaw(der, size).Ok?
    ensures var raw := DerToRaw(der, size).value; var (r, s) := Halves(raw);
      |raw| == 2 * size && NonZero(r) && NonZero(s) && |Body(raw)| < 0x1_0000 && der == Canonical(raw)
  {
    hide ReadInteger, Tlv, SignedDigits;
    var l := Length2(der, 1).value;
    var r := ReadInteger(der, l.next, size).value;
    var s := ReadInteger(der, r.next, size).value;
    IntegerCanonical(der, l.next, size);
    IntegerCanonical(der, r.next, size);
    LengthCanonical(der, 1, 2);
    Pow256Small();
    var raw := r.value + s.value;
    assert raw[..size] == r.value && raw[size..] == s.value;
    assert der[l.next..] == der[l.next..r.next] + der[r.next..] == Body(raw);
    Assemble(der, l, raw);
  }

  lemma Assemble(der: ByteString, l: Length, raw: ByteString)
    requires 1 < l.next && l.next + l.length == |der| && der[0] == SEQUENCE
    requires der[1..l.next] == EncodeLength(l.length) && der[l.next..] == Body(raw)
    ensures der == Canonical(raw)
  {
    hide EncodeLength, SignedDigits;
    assert der == [der[0]] + der[1..l.next] + der[l.next..];
  }

  lemma CanonicalIsAccepted(raw: ByteString, size: nat)
    requires |raw| == 2 * size && NonZero(Halves(raw).0) && NonZero(Halves(raw).1)
    requires |Body(raw)| < 0x1_0000
    ensures DerToRaw(Canonical(raw), size) == Ok(raw)
  {
    hide ReadInteger, EncodeLength, SignedDigits;
    var der := Canonical(raw);
    var (r, s) := Halves(raw);
    var e := EncodeLength(|Body(raw)|);
    var first, second := Tlv(INTEGER, SignedDigits(r)), Tlv(INTEGER, SignedDigits(s));
    assert der == [SEQUENCE] + e + first + second;
    assert der[1..1 + |e|] == e;
    Pow256Small();
    LengthRead(der, 1, 2, |Body(raw)|);
    var at := 1 + |e|;
    assert der[at..at + |first|] == first;
    assert der[at + |first|..at + |first| + |second|] == second;
    IntegerRead(der, at, r);
    IntegerRead(der, at + |first|, s);
    assert r + s == raw;
  }

  /**
   * The decoder accepts one encoding of each signature and nothing else: it yields `raw` from
   * `der` exactly when `der` is the canonical encoding of `raw`, both halves are non-zero and
   * the lengths fit two bytes.
   */
  lemma DecodesExactlyCanonical(der: ByteString, size: nat, raw: ByteString)
    ensures DerToRaw(der, size) == Ok(raw)
      <==> && |raw| == 2 * size && NonZero(Halves(raw).0) && NonZero(Halves(raw).1)
           && |Body(raw)| < 0x1_0000 && der == Canonical(raw)
  {
    if DerToRaw(der, size) == Ok(raw) {
      AcceptedIsCanonical(der, size);
    } else if && |raw| == 2 * size && NonZero(Halves(raw).0) && NonZero(Halves(raw).1)
              && |Body(raw)| < 0x1_0000 && der == Canonical(raw) {
      CanonicalIsAccepted(raw, size);
    }
  }

  /** No two accepted encodings decode to the same signature. */
  lemma DecodingInjective(der1: ByteString, der2: ByteString, size: nat)
    requires DerToRaw(der1, size).Ok? && DerToRaw(der1, size) == DerToRaw(der2, size)
    ensures der1 == der2
  {
    AcceptedIsCanonical(der1, size);
    AcceptedIsCanonical(der2, size);
  }

  // ---- When the printer writes that encoding ---------------------------------------------

  /** Whether the one-byte lengths the printer writes can hold what it has to write. */
  predicate FitsShortForm(raw: ByteString) {
    var (r, s) := Halves(raw);
    && |SignedDigits(r)| < 0x80 && |SignedDigits(s)| < 0x80
    && |SignedDigits(r)| + |SignedDigits(s)| + 4 < 0x100
  }

  lemma PrinterIsCanonicalIffShort(raw: ByteString)
    ensures RawToDer(raw) == Canonical(raw) <==> FitsShortForm(raw)
  {
    hide SignedDigits, Digits, Shift8, Halves;
    var (r, s) := Halves(raw);
    var x, y := SignedDigits(r), SignedDigits(s);
    var short := ShortInteger(r) + ShortInteger(s);
    LongFormLength(|x|);
    LongFormLength(|y|);
    LongFormLength(|Body(raw)|);
    if FitsShortForm(raw) {
      assert ShortInteger(r) == Tlv(INTEGER, x) && ShortInteger(s) == Tlv(INTEGER, y);
      if |short| >= 0x80 {
        OneDigit(|short|);
      }
    } else {
      assert |Canonical(raw)| == 1 + |EncodeLength(|Body(raw)|)| + |Body(raw)|;
      assert |Body(raw)| >= |short|;
    }
  }

  lemma LongFormLength(n: nat)
    ensures |EncodeLength(n)| == 1 <==> n < 0x80
    ensures n >= 0x100 && n < TWO_32 ==> |EncodeLength(n)| >= 3
  {
    if n >= 0x100 && n < TWO_32 {
      DigitsDenote(n);
      BigEndianBound(Digits(n));
      Pow256Small();
    }
  }

  lemma OneDigit(n: Byte)
    requires n > 0
    ensures Digits(n) == [n]
  {
  }

  /**
   * Decoding what was printed gives the signature back if and only if neither half is zero and
   * the printer's one-byte lengths suffice.
   */
  lemma PrintThenDecode(raw: ByteString, size: nat)
    requires |raw| == 2 * size
    ensures DerToRaw(RawToDer(raw), size) == Ok(raw)
      <==> NonZero(Halves(raw).0) && NonZero(Halves(raw).1) && FitsShortForm(raw)
  {
    DecodesExactlyCanonical(RawToDer(raw), size, raw);
    PrinterIsCanonicalIffShort(raw);
    if FitsShortForm(raw) {
      ShortBody(raw);
    }
  }

  lemma ShortBody(raw: ByteString)
    requires FitsShortForm(raw)
    ensures |Body(raw)| < 0x100
  {
  }

  /**
   * Printing undoes decoding exactly where the printer's one-byte lengths suffice, as they always do for fields
   * up to 124 bytes.
   */
  lemma DecodeThenPrint(der: ByteString, size: nat)
    requires DerToRaw(der, size).Ok?
    ensures RawToDer(DerToRaw(der, size).value) == der <==> FitsShortForm(DerToRaw(der, size).value)
    ensures size <= 124 ==> FitsShortForm(DerToRaw(der, size).value)
  {
    AcceptedIsCanonical(der, size);
    PrinterIsCanonicalIffShort(DerToRaw(der, size).value);
  }

  /** At 125 bytes they need not: here is a signature that printing loses. */
  lemma LargeFieldIsLost()
    ensures var raw := seq(250, _ => 0xFF);
      DerToRaw(RawToDer(raw), 125).Err? || DerToRaw(RawToDer(raw), 125).value != raw
  {
    var raw: ByteString := seq(250, _ => 0xFF);
    assert Halves(raw).0[0] == 0xFF && Halves(raw).1[0] == 0xFF;
    PrintThenDecode(raw, 125);
  }
}
