/** Well-formed UTF-8, as a fatal decoder accepts it (table 3-7 of the Unicode Standard). */
module Utf8 {
  import opened Bytes

  predicate Continuation(b: Byte) {
    0x80 <= b <= 0xBF
  }

  /** The length of the well-formed sequence that begins `b`, or 0 when there is none. */
  function LeadLength(b: ByteString): (n: nat)
    ensures n <= |b|
  {
    if |b| >= 1 && b[0] <= 0x7F then 1
    else if |b| >= 2 && 0xC2 <= b[0] <= 0xDF && Continuation(b[1]) then 2
    else if |b| >= 3 && 0xE0 <= b[0] <= 0xEF && Continuation(b[1]) && Continuation(b[2])
            && (b[0] == 0xE0 ==> b[1] >= 0xA0) && (b[0] == 0xED ==> b[1] <= 0x9F) then 3
    else if |b| >= 4 && 0xF0 <= b[0] <= 0xF4 && Continuation(b[1]) && Continuation(b[2]) && Continuation(b[3])
            && (b[0] == 0xF0 ==> b[1] >= 0x90) && (b[0] == 0xF4 ==> b[1] <= 0x8F) then 4
    else 0
  }

  predicate Valid(b: ByteString)
    decreases |b|
  {
    |b| == 0 || (LeadLength(b) > 0 && Valid(b[LeadLength(b)..]))
  }

  /** U+FEFF, which the decoder drops when it comes first. */
  const BOM: ByteString := [0xEF, 0xBB, 0xBF]

  predicate StartsWithBom(b: ByteString) {
    |b| >= 3 && b[..3] == BOM
  }

  /** The text that valid bytes decode to, kept as UTF-8. */
  function Decoded(b: ByteString): (t: ByteString)
    ensures t == b <==> !StartsWithBom(b)
    ensures StartsWithBom(b) ==> b == BOM + t
  {
    if StartsWithBom(b) then b[3..] else b
  }

  lemma DecodedIsValid(b: ByteString)
    requires Valid(b)
    ensures Valid(Decoded(b))
  {
    if StartsWithBom(b) {
      assert b[0] == b[..3][0] && b[1] == b[..3][1] && b[2] == b[..3][2];
      assert LeadLength(b) == 3;
    }
  }
}
