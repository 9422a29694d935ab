/**
 * Definite DER lengths and elements (sections 8.1.3, 8.3 and 10.1 of ITU-T X.690): the strict
 * length reader that both DER walks share, and the printers it is checked against.
 */
module Der {
  import opened Bytes
  import opened Wrappers

  datatype LengthError = TruncatedLength | Indefinite | ReservedForm | Implausible | NonMinimalLength

  /** A length and the offset of the first byte after it. */
  datatype Length = Length(length: nat, next: nat)

  const TWO_32 := 0x1_0000_0000

  /** Reads the length at `offset`, written in at most `maxCount` bytes after its first. */
  function ReadLength(b: ByteString, offset: nat, maxCount: nat): (r: Result<Length, LengthError>)
    ensures r.Ok? ==> offset < r.value.next <= |b|
  {
    if offset >= |b| then Err(TruncatedLength)
    else
      var first := b[offset];
      if first < 0x80 then Ok(Length(first, offset + 1))
      else if first == 0x80 then Err(Indefinite)
      else if first == 0xFF then Err(ReservedForm)
      else
        var count := first - 0x80;
        if count > maxCount then Err(Implausible)
        else if offset + 1 + count > |b| then Err(TruncatedLength)
        else
          var length := BigEndian(b[offset + 1..offset + 1 + count]);
          if length < 0x80 then Err(NonMinimalLength)
          else if b[offset + 1] == 0 then Err(NonMinimalLength)
          else Ok(Length(length, offset + 1 + count))
  }

  /** The loop that accumulates a long-form length. */
  method ReadLengthAt(b: ByteString, offset: nat, maxCount: nat) returns (r: Result<Length, LengthError>)
    ensures r == ReadLength(b, offset, maxCount)
  {
    if offset >= |b| {
      return Err(TruncatedLength);
    }
    var first := b[offset];
    if first < 0x80 {
      return Ok(Length(first, offset + 1));
    }
    if first == 0x80 {
      return Err(Indefinite);
    }
    if first == 0xFF {
      return Err(ReservedForm);
    }
    var count := first - 0x80;
    if count > maxCount {
      return Err(Implausible);
    }
    if offset + 1 + count > |b| {
      return Err(TruncatedLength);
    }
    var length: nat := 0;
    for i := 0 to count
      invariant length == BigEndian(b[offset + 1..offset + 1 + i])
    {
      length := length * 256 + b[offset + 1 + i];
      assert b[offset + 1..offset + 1 + i + 1][..i] == b[offset + 1..offset + 1 + i];
    }
    if length < 0x80 {
      return Err(NonMinimalLength);
    }
    if b[offset + 1] == 0 {
      return Err(NonMinimalLength);
    }
    return Ok(Length(length, offset + 1 + count));
  }

  // ---- Printers --------------------------------------------------------------------------

  /** An unsigned 32-bit shift right by eight. */
  function Shift8(value: nat): (r: nat)
    ensures r < 0x100_0000
    ensures value < TWO_32 ==> r == value / 256
    ensures r <= value / 256
  {
    var low := value % TWO_32;
    assert low <= value;
    low / 256
  }

  /** Base-256 digits, most significant first; a value is cut to 32 bits after its last digit. */
  function Digits(value: nat): (d: ByteString)
    ensures |d| <= if value == 0 then 0 else if value < 0x100 then 1 else if value < 0x1_0000 then 2
                   else if value < 0x100_0000 then 3 else 4
    ensures value > 0 ==> |d| > 0
  {
    if value == 0 then [] else Digits(Shift8(value)) + [value % 256]
  }

  /** The digits of a 32-bit value denote it, without a leading zero. */
  lemma {:induction false} DigitsDenote(value: nat)
    requires value < TWO_32
    ensures BigEndian(Digits(value)) == value
    ensures value > 0 ==> Digits(value)[0] != 0
  {
    hide Shift8;
    if value > 0 {
      var high := Digits(value / 256);
      DigitsDenote(value / 256);
      assert Digits(value) == high + [value % 256];
      assert (high + [value % 256])[..|high|] == high;
    }
  }

  function EncodeLength(length: nat): (b: ByteString)
    ensures |b| >= 1
  {
    if length < 0x80 then [length] else [0x80 + |Digits(length)|] + Digits(length)
  }

  function Tlv(tag: Byte, content: ByteString): ByteString {
    [tag] + EncodeLength(|content|) + content
  }

  lemma FourDigitsBound(d: ByteString)
    requires |d| <= 4
    ensures BigEndian(d) < TWO_32
  {
    Pow256Small();
    BigEndianBound(d);
  }

  lemma DigitsStep(high: nat, low: Byte)
    requires 0 < high * 256 + low < TWO_32
    ensures Digits(high * 256 + low) == Digits(high) + [low]
  {
    hide Shift8;
    var value := high * 256 + low;
    assert value / 256 == high && value % 256 == low;
  }

  /** Any digits without a leading zero are the ones the printer writes for their value. */
  lemma {:induction false} DigitsUnique(d: ByteString)
    requires |d| <= 4 && (|d| > 0 ==> d[0] != 0)
    ensures Digits(BigEndian(d)) == d
    decreases |d|
  {
    hide Shift8;
    if |d| > 0 {
      var high := d[..|d| - 1];
      DigitsUnique(high);
      Positive(d);
      FourDigitsBound(d);
      DigitsStep(BigEndian(high), d[|d| - 1]);
      assert d == high + [d[|d| - 1]];
    }
  }

  lemma Pow256Small()
    ensures Pow256(0) == 1 && Pow256(1) == 0x100 && Pow256(2) == 0x1_0000 && Pow256(3) == 0x100_0000
    ensures Pow256(4) == TWO_32
  {
    assert Pow256(3) == 256 * Pow256(2) && Pow256(2) == 256 * Pow256(1);
  }

  lemma {:induction false} Positive(d: ByteString)
    requires |d| > 0 && d[0] != 0
    ensures BigEndian(d) > 0
  {
    if |d| > 1 {
      Positive(d[..|d| - 1]);
    }
  }

  // ---- Reading and printing lengths undo each other --------------------------------------

  /** An accepted length is written in the one way the printer writes it, and is small. */
  lemma LengthCanonical(b: ByteString, offset: nat, maxCount: nat)
    requires maxCount <= 3 && ReadLength(b, offset, maxCount).Ok?
    ensures var l := ReadLength(b, offset, maxCount).value;
      b[offset..l.next] == EncodeLength(l.length) && l.length < Pow256(maxCount) + 0x80
    ensures maxCount > 0 ==> ReadLength(b, offset, maxCount).value.length < Pow256(maxCount)
  {
    Pow256Small();
    var l := ReadLength(b, offset, maxCount).value;
    if b[offset] >= 0x80 {
      var digits := b[offset + 1..l.next];
      DigitsUnique(digits);
      BigEndianBound(digits);
      assert b[offset..l.next] == [b[offset]] + digits;
    }
  }

  /** A printed length is accepted exactly when it fits the reader's bound. */
  lemma LengthRead(b: ByteString, offset: nat, maxCount: nat, length: nat)
    requires 0 < maxCount <= 3 && length < Pow256(maxCount)
    requires offset + |EncodeLength(length)| <= |b|
    requires b[offset..offset + |EncodeLength(length)|] == EncodeLength(length)
    ensures ReadLength(b, offset, maxCount) == Ok(Length(length, offset + |EncodeLength(length)|))
  {
    hide Digits, Shift8, BigEndian, Pow256;
    Pow256Small();
    DigitsDenote(length);
    var e, d := EncodeLength(length), Digits(length);
    var at := b[offset..offset + |e|];
    assert b[offset] == at[0];
    if length >= 0x80 {
      assert |d| <= maxCount;
      assert b[offset + 1..offset + |e|] == at[1..] == d;
      assert b[offset + 1] == at[1] == d[0];
    }
  }
}
