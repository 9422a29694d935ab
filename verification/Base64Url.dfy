/** Unpadded base64url (section 5 of RFC 4648), as the browser client reads and writes it. */
module Base64Url {
  import opened Bytes
  import opened Wrappers

  type Sextet = n: int | 0 <= n < 64

  datatype Error = NotBase64Url

  const CHUNK := 0x8000

  // ---- Characters ------------------------------------------------------------------------

  function CharOf(n: Sextet): char {
    if n < 26 then 'A' + n as char
    else if n < 52 then 'a' + (n - 26) as char
    else if n < 62 then '0' + (n - 52) as char
    else if n == 62 then '-'
    else '_'
  }

  function ValueOf(c: char): Option<Sextet> {
    if 'A' <= c <= 'Z' then Some((c - 'A') as int)
    else if 'a' <= c <= 'z' then Some((c - 'a') as int + 26)
    else if '0' <= c <= '9' then Some((c - '0') as int + 52)
    else if c == '-' then Some(62)
    else if c == '_' then Some(63)
    else None
  }

  lemma CharsMatchValues(n: Sextet, c: char)
    ensures ValueOf(CharOf(n)) == Some(n)
    ensures ValueOf(c).Some? ==> CharOf(ValueOf(c).value) == c
  {
  }

  // ---- Groups of six bits ------------------------------------------------------------------

  /** The high and low parts of a sextet or byte, put together in the other width. */
  function Six0(x: Byte): Sextet { (x as int) / 4 }

  function Six1(x: Byte, y: Byte): Sextet { (x as int) % 4 * 16 + (y as int) / 16 }

  function Six2(y: Byte, z: Byte): Sextet { (y as int) % 16 * 4 + (z as int) / 64 }

  function Six3(z: Byte): Sextet { (z as int) % 64 }

  function Eight0(a: Sextet, b: Sextet): Byte { (a as int) * 4 + (b as int) / 16 }

  function Eight1(b: Sextet, c: Sextet): Byte { (b as int) % 16 * 16 + (c as int) / 4 }

  function Eight2(c: Sextet, d: Sextet): Byte { (c as int) % 4 * 64 + (d as int) }

  lemma EightsOfSixes(x: Byte, y: Byte, z: Byte)
    ensures Eight0(Six0(x), Six1(x, y)) == x
    ensures Eight1(Six1(x, y), Six2(y, z)) == y
    ensures Eight2(Six2(y, z), Six3(z)) == z
  {
  }

  lemma SixesOfEights(a: Sextet, b: Sextet, c: Sextet, d: Sextet)
    ensures Six0(Eight0(a, b)) == a
    ensures Six1(Eight0(a, b), Eight1(b, c)) == b
    ensures Six2(Eight1(b, c), Eight2(c, d)) == c
    ensures Six3(Eight2(c, d)) == d
  {
  }

  /** Bits past the last whole byte survive only if they are zero. */
  lemma LastSixes(a: Sextet, b: Sextet, c: Sextet)
    ensures Six1(Eight0(a, b), 0) == b <==> b % 16 == 0
    ensures Six2(Eight1(b, c), 0) == c <==> c % 4 == 0
  {
  }

  function Split(b: ByteString): seq<Sextet> {
    if |b| == 0 then []
    else if |b| == 1 then [Six0(b[0]), Six1(b[0], 0)]
    else if |b| == 2 then [Six0(b[0]), Six1(b[0], b[1]), Six2(b[1], 0)]
    else [Six0(b[0]), Six1(b[0], b[1]), Six2(b[1], b[2]), Six3(b[2])] + Split(b[3..])
  }

  /** The bytes of a run of sextets; bits left over at the end are dropped. */
  function Join(s: seq<Sextet>): ByteString {
    if |s| < 2 then []
    else if |s| == 2 then [Eight0(s[0], s[1])]
    else if |s| == 3 then [Eight0(s[0], s[1]), Eight1(s[1], s[2])]
    else [Eight0(s[0], s[1]), Eight1(s[1], s[2]), Eight2(s[2], s[3])] + Join(s[4..])
  }

  /** The bits that `Join` drops are all zero. */
  predicate TrailingBitsClear(s: seq<Sextet>) {
    && (|s| % 4 == 2 ==> s[|s| - 1] % 16 == 0)
    && (|s| % 4 == 3 ==> s[|s| - 1] % 4 == 0)
  }

  lemma {:induction false} JoinUndoesSplit(b: ByteString)
    ensures Join(Split(b)) == b
    ensures |Split(b)| % 4 != 1
    decreases |b|
  {
    hide Six0, Six1, Six2, Six3, Eight0, Eight1, Eight2;
    if |b| == 1 {
      EightsOfSixes(b[0], 0, 0);
    } else if |b| == 2 {
      EightsOfSixes(b[0], b[1], 0);
    } else if |b| >= 3 {
      JoinUndoesSplit(b[3..]);
      EightsOfSixes(b[0], b[1], b[2]);
      assert Split(b)[4..] == Split(b[3..]);
      assert b == [b[0], b[1], b[2]] + b[3..];
    }
  }

  lemma TwoSextets(a: Sextet, b: Sextet)
    ensures Split(Join([a, b])) == [a, b] <==> b % 16 == 0
  {
    hide Six0, Six1, Six2, Six3, Eight0, Eight1, Eight2;
    SixesOfEights(a, b, 0, 0);
    LastSixes(a, b, 0);
    assert Split(Join([a, b])) == [Six0(Eight0(a, b)), Six1(Eight0(a, b), 0)];
  }

  lemma ThreeSextets(a: Sextet, b: Sextet, c: Sextet)
    ensures Split(Join([a, b, c])) == [a, b, c] <==> c % 4 == 0
  {
    hide Six0, Six1, Six2, Six3, Eight0, Eight1, Eight2;
    var x, y := Eight0(a, b), Eight1(b, c);
    SixesOfEights(a, b, c, 0);
    LastSixes(a, b, c);
    assert Split(Join([a, b, c])) == [Six0(x), Six1(x, y), Six2(y, 0)];
  }

  lemma NoSextets()
    ensures Split(Join([])) == []
  {
  }

  lemma ShortSplitUndoesJoin(s: seq<Sextet>)
    requires |s| < 4 && |s| != 1
    ensures Split(Join(s)) == s <==> TrailingBitsClear(s)
  {
    hide Split, Join, Six0, Six1, Six2, Six3, Eight0, Eight1, Eight2;
    if |s| == 0 {
      NoSextets();
    } else if |s| == 2 {
      TwoSextets(s[0], s[1]);
      assert s == [s[0], s[1]];
    } else {
      ThreeSextets(s[0], s[1], s[2]);
      assert s == [s[0], s[1], s[2]];
    }
  }

  lemma {:induction false} SplitUndoesJoin(s: seq<Sextet>)
    requires |s| % 4 != 1
    ensures Split(Join(s)) == s <==> TrailingBitsClear(s)
    decreases |s|
  {
    hide Six0, Six1, Six2, Six3, Eight0, Eight1, Eight2, Split, Join, TrailingBitsClear;
    if |s| < 4 {
      ShortSplitUndoesJoin(s);
    } else {
      var rest := s[4..];
      SplitUndoesJoin(rest);
      JoinStep(s);
      SplitStep(Eight0(s[0], s[1]), Eight1(s[1], s[2]), Eight2(s[2], s[3]), Join(rest));
      SixesOfEights(s[0], s[1], s[2], s[3]);
      FourAndRest(s);
      SameHeads([s[0], s[1], s[2], s[3]], Split(Join(rest)), rest);
      TrailingBitsOfRest(s);
    }
  }

  lemma SameHeads(head: seq<Sextet>, a: seq<Sextet>, b: seq<Sextet>)
    ensures head + a == head + b <==> a == b
  {
    assert (head + a)[|head|..] == a && (head + b)[|head|..] == b;
  }

  lemma SplitStep(x: Byte, y: Byte, z: Byte, rest: ByteString)
    ensures Split([x, y, z] + rest) == [Six0(x), Six1(x, y), Six2(y, z), Six3(z)] + Split(rest)
  {
    hide Six0, Six1, Six2, Six3;
    assert ([x, y, z] + rest)[3..] == rest;
  }

  lemma JoinStep(s: seq<Sextet>)
    requires |s| >= 4
    ensures Join(s) == [Eight0(s[0], s[1]), Eight1(s[1], s[2]), Eight2(s[2], s[3])] + Join(s[4..])
  {
  }

  lemma FourAndRest(s: seq<Sextet>)
    requires |s| >= 4
    ensures s == [s[0], s[1], s[2], s[3]] + s[4..]
  {
  }

  lemma TrailingBitsOfRest(s: seq<Sextet>)
    requires |s| >= 4
    ensures TrailingBitsClear(s) <==> TrailingBitsClear(s[4..])
  {
    assert |s[4..]| % 4 == |s| % 4;
  }

  // ---- Text ------------------------------------------------------------------------------

  function Spell(s: seq<Sextet>): string {
    if |s| == 0 then "" else [CharOf(s[0])] + Spell(s[1..])
  }

  /** The sextets of a text; None when a character is outside the alphabet. */
  function Sextets(text: string): Option<seq<Sextet>> {
    if |text| == 0 then Some([])
    else
      var rest := Sextets(text[1..]);
      if ValueOf(text[0]).None? || rest.None? then None else Some([ValueOf(text[0]).value] + rest.value)
  }

  lemma {:induction false} SextetsOfSpelling(s: seq<Sextet>)
    ensures Sextets(Spell(s)) == Some(s)
  {
    hide CharOf, ValueOf;
    if |s| > 0 {
      CharsMatchValues(s[0], CharOf(s[0]));
      assert Spell(s)[1..] == Spell(s[1..]);
      SextetsOfSpelling(s[1..]);
      assert [s[0]] + s[1..] == s;
    }
  }

  lemma {:induction false} SpellingOfSextets(text: string)
    requires Sextets(text).Some?
    ensures Spell(Sextets(text).value) == text && |Sextets(text).value| == |text|
  {
    if |text| > 0 {
      CharsMatchValues(0, text[0]);
      SpellingOfSextets(text[1..]);
      assert Sextets(text).value[1..] == Sextets(text[1..]).value;
    }
  }

  function Encode(b: ByteString): string {
    Spell(Split(b))
  }

  function Decode(text: string): Result<ByteString, Error> {
    if Sextets(text).None? || |text| % 4 == 1 then Err(NotBase64Url) else Ok(Join(Sextets(text).value))
  }

  /** Whatever is encoded is decoded to itself. */
  lemma DecodeUndoesEncode(b: ByteString)
    ensures Decode(Encode(b)) == Ok(b)
  {
    hide Split, Join, Spell, Sextets;
    JoinUndoesSplit(b);
    SextetsOfSpelling(Split(b));
    SpellingOfSextets(Encode(b));
  }

  /** An accepted text is the encoding of its bytes if and only if the bits after them are zero. */
  lemma EncodeUndoesDecode(text: string)
    requires Decode(text).Ok?
    ensures Encode(Decode(text).value) == text <==> TrailingBitsClear(Sextets(text).value)
  {
    hide Split, Join, Spell, Sextets, TrailingBitsClear;
    var s := Sextets(text).value;
    SpellingOfSextets(text);
    SplitUndoesJoin(s);
    if Encode(Decode(text).value) == text {
      SextetsOfSpelling(Split(Join(s)));
    }
  }

  lemma SpelledTwo(a: Sextet, b: Sextet)
    ensures Sextets([CharOf(a), CharOf(b)]) == Some([a, b])
  {
    hide CharOf, ValueOf;
    assert Spell([a, b][1..][1..]) == "" && Spell([a, b][1..]) == [CharOf(b)];
    assert Spell([a, b]) == [CharOf(a), CharOf(b)];
    SextetsOfSpelling([a, b]);
  }

  /** So some bytes have a second accepted spelling. */
  lemma SecondSpelling()
    ensures Decode("AB") == Decode("AA") == Ok([0])
  {
    SpelledTwo(0, 1);
    SpelledTwo(0, 0);
    assert [CharOf(0), CharOf(1)] == "AB" && [CharOf(0), CharOf(0)] == "AA";
  }

  // ---- The loops -------------------------------------------------------------------------

  /** Chunk by chunk, the bytes become one binary text, which is then encoded as a whole. */
  method ToBase64Url(bytes: ByteString) returns (text: string)
    ensures text == Encode(bytes)
  {
    var binary: ByteString := [];
    var i := 0;
    while i < |bytes|
      invariant binary == bytes[..if i < |bytes| then i else |bytes|]
      invariant 0 <= i
    {
      var end := if i + CHUNK < |bytes| then i + CHUNK else |bytes|;
      binary := binary + bytes[i..end];
      i := i + CHUNK;
    }
    assert binary == bytes;
    text := Encode(binary);
  }

  /** The validated text is decoded, and the result copied byte by byte into a new buffer. */
  method FromBase64Url(value: string) returns (r: Result<array<Byte>, Error>)
    ensures r.Ok? <==> Decode(value).Ok?
    ensures r.Ok? ==> fresh(r.value) && r.value[..] == Decode(value).value
    ensures r.Err? ==> r.error == Decode(value).error
  {
    var sextets := Sextets(value);
    if sextets.None? || |value| % 4 == 1 {
      return Err(NotBase64Url);
    }
    var binary := Join(sextets.value);
    var bytes := new Byte[|binary|](_ => 0);
    for i := 0 to |binary|
      invariant bytes[..i] == binary[..i]
    {
      bytes[i] := binary[i];
    }
    assert bytes[..] == bytes[..|binary|] && binary[..|binary|] == binary;
    return Ok(bytes);
  }
}
