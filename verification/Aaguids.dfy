/** The ways an AAGUID is spelled in a metadata BLOB, and the sixteen bytes that each spelling is read as. */
module Aaguids {
  import opened Bytes
  import opened Wrappers
  import opened Attestation
  import opened Mds

  function DigitValue(c: char): Option<nat> {
    if '0' <= c <= '9' then Some((c - '0') as nat)
    else if 'a' <= c <= 'f' then Some((c - 'a') as nat + 10)
    else if 'A' <= c <= 'F' then Some((c - 'A') as nat + 10)
    else None
  }

  /** `at` lists where the text has something other than a hyphen, from left to right. */
  predicate Marks(text: string, at: seq<nat>) {
    && (forall k :: 0 <= k < |at| ==> at[k] < |text| && text[at[k]] != '-')
    && (forall j, k :: 0 <= j < k < |at| ==> at[j] < at[k])
    && forall i :: 0 <= i < |text| && text[i] != '-' ==> i in at
  }

  /** Hyphens aside, the text is two hexadecimal digits of either case for each byte, high digit first. */
  predicate SpellsAt(text: string, model: ByteString, at: seq<nat>) {
    && Marks(text, at) && |at| == 2 * |model|
    && forall k :: 0 <= k < |model| ==>
         && DigitValue(text[at[2 * k]]) == Some(model[k] / 16)
         && DigitValue(text[at[2 * k + 1]]) == Some(model[k] % 16)
  }

  ghost predicate Spells(text: string, model: ByteString) {
    exists at :: SpellsAt(text, model, at)
  }

  // ---- Hyphens ---------------------------------------------------------------------------------

  lemma StrippedStep(text: string)
    requires |text| > 0
    ensures Stripped(text) == (if text[0] == '-' then "" else [Lower(text[0])]) + Stripped(text[1..])
  {
  }

  /** What stripping leaves, position by position. */
  lemma {:induction false} StrippedMarks(text: string) returns (at: seq<nat>)
    ensures Marks(text, at) && |Stripped(text)| == |at|
    ensures forall k :: 0 <= k < |at| ==> Stripped(text)[k] == Lower(text[at[k]])
  {
    if |text| == 0 {
      at := [];
    } else {
      hide Stripped, Marks, MarksRest, Lower;
      var tail := text[1..];
      var rest := StrippedMarks(tail);
      var moved := MovedMarks(text, tail, rest);
      StrippedStep(text);
      if text[0] == '-' {
        NoFirstMark(text, moved);
        at := moved;
      } else {
        FirstMark(text, moved);
        at := [0] + moved;
      }
      MarksInText(text, at);
    }
  }

  lemma MarksInText(text: string, at: seq<nat>)
    requires Marks(text, at)
    ensures forall k :: 0 <= k < |at| ==> at[k] < |text|
  {
  }

  /** The list, but for what it says of the first character. */
  predicate MarksRest(text: string, at: seq<nat>) {
    && (forall k :: 0 <= k < |at| ==> 0 < at[k] < |text| && text[at[k]] != '-')
    && (forall j, k :: 0 <= j < k < |at| ==> at[j] < at[k])
    && forall i :: 0 < i < |text| && text[i] != '-' ==> i in at
  }

  /** The list of a text's tail, moved up by one. */
  lemma MovedMarks(text: string, tail: string, rest: seq<nat>) returns (moved: seq<nat>)
    requires |text| == |tail| + 1 && forall i :: 0 <= i < |tail| ==> text[i + 1] == tail[i]
    requires Marks(tail, rest)
    ensures MarksRest(text, moved) && |moved| == |rest|
    ensures forall k :: 0 <= k < |rest| ==> rest[k] < |tail| && text[moved[k]] == tail[rest[k]]
  {
    moved := seq(|rest|, k requires 0 <= k < |rest| => rest[k] + 1);
    forall k | 0 <= k < |rest| ensures 0 < moved[k] < |text| && text[moved[k]] == tail[rest[k]] != '-' {
      assert moved[k] == rest[k] + 1;
    }
    forall i | 0 < i < |text| && text[i] != '-' ensures i in moved {
      assert tail[i - 1] == text[i - 1 + 1];
      var k := MarkOf(tail, rest, i - 1);
      assert moved[k] == i;
    }
  }

  lemma MarkOf(text: string, at: seq<nat>, i: nat) returns (k: nat)
    requires Marks(text, at) && i < |text| && text[i] != '-'
    ensures k < |at| && at[k] == i
  {
    k :| 0 <= k < |at| && at[k] == i;
  }

  lemma NoFirstMark(text: string, moved: seq<nat>)
    requires |text| > 0 && text[0] == '-' && MarksRest(text, moved)
    ensures Marks(text, moved)
  {
  }

  lemma FirstMark(text: string, moved: seq<nat>)
    requires |text| > 0 && text[0] != '-' && MarksRest(text, moved)
    ensures Marks(text, [0] + moved)
  {
    var at := [0] + moved;
    assert at[0] == 0;
    forall i | 0 <= i < |text| && text[i] != '-' ensures i in at {
      if i > 0 {
        var k :| 0 <= k < |moved| && moved[k] == i;
        assert at[k + 1] == i;
      }
    }
  }

  /** A text has one such list. */
  lemma {:induction false} MarksAgree(text: string, p: seq<nat>, q: seq<nat>, k: nat)
    requires Marks(text, p) && Marks(text, q) && k < |p| && k < |q|
    ensures p[k] == q[k]
    decreases k
  {
    if p[k] < q[k] {
      var j :| 0 <= j < |q| && q[j] == p[k];
      MarksAgree(text, p, q, j);
    } else if q[k] < p[k] {
      var j :| 0 <= j < |p| && p[j] == q[k];
      MarksAgree(text, p, q, j);
    }
  }

  lemma MarksCount(text: string, p: seq<nat>, q: seq<nat>)
    requires Marks(text, p) && Marks(text, q)
    requires forall k :: 0 <= k < |p| && k < |q| ==> p[k] == q[k]
    ensures |p| >= |q|
  {
    if |q| > 0 {
      var k := MarkOf(text, p, q[|q| - 1]);
    }
  }

  lemma MarksAreOne(text: string, p: seq<nat>, q: seq<nat>)
    requires Marks(text, p) && Marks(text, q)
    ensures p == q
  {
    forall k | 0 <= k < |p| && k < |q| ensures p[k] == q[k] {
      MarksAgree(text, p, q, k);
    }
    MarksCount(text, p, q);
    MarksCount(text, q, p);
  }

  // ---- Digits ----------------------------------------------------------------------------------

  lemma DigitsAreValues(c: char, v: nat)
    requires v < 16
    ensures HEX_DIGITS[v] == Lower(c) <==> DigitValue(c) == Some(v)
    ensures Lower(c) in HEX_DIGITS <==> DigitValue(c).Some?
  {
    assert HEX_DIGITS == ['0', '1', '2', '3', '4', '5', '6', '7', '8', '9', 'a', 'b', 'c', 'd', 'e', 'f'];
    if '0' <= c <= '9' {
      assert HEX_DIGITS[(c - '0') as nat] == c;
    } else if 'a' <= c <= 'f' {
      assert HEX_DIGITS[(c - 'a') as nat + 10] == c;
    } else if 'A' <= c <= 'F' {
      assert HEX_DIGITS[(c - 'A') as nat + 10] == Lower(c);
    }
  }

  /** The hexadecimal form of a byte string, digit by digit. */
  lemma {:induction false} HexDigits(b: ByteString, k: nat)
    ensures |ToHex(b)| == 2 * |b|
    ensures k < |b| ==> ToHex(b)[2 * k] == HEX_DIGITS[b[k] / 16] && ToHex(b)[2 * k + 1] == HEX_DIGITS[b[k] % 16]
  {
    if |b| > 0 {
      HexDigits(b[1..], if k > 0 then k - 1 else 0);
      assert ToHex(b)[2..] == ToHex(b[1..]);
    }
  }

  /** The lowercase form is a spelling, and of one byte string only. */
  lemma HexSpells(b: ByteString)
    ensures Spells(ToHex(b), b)
  {
    hide ToHex, DigitValue;
    var hex := ToHex(b);
    HexIsAccepted(b);
    var at: seq<nat> := seq(|hex|, k requires 0 <= k < |hex| => k);
    assert '-' !in HEX_DIGITS by { HyphenIsNoDigit(); }
    forall i | 0 <= i < |hex| ensures i in at && hex[i] != '-' {
      assert at[i] == i && hex[i] in HEX_DIGITS;
    }
    assert Marks(hex, at);
    forall k | 0 <= k < |b|
      ensures DigitValue(hex[2 * k]) == Some(b[k] / 16) && DigitValue(hex[2 * k + 1]) == Some(b[k] % 16)
    {
      HexDigits(b, k);
      LowerDigit(b[k] / 16);
      LowerDigit(b[k] % 16);
    }
    assert SpellsAt(hex, b, at);
  }

  lemma HyphenIsNoDigit()
    ensures '-' !in HEX_DIGITS
  {
    assert HEX_DIGITS == ['0', '1', '2', '3', '4', '5', '6', '7', '8', '9', 'a', 'b', 'c', 'd', 'e', 'f'];
  }

  lemma LowerDigit(v: nat)
    requires v < 16
    ensures DigitValue(HEX_DIGITS[v]) == Some(v)
  {
    assert HEX_DIGITS == ['0', '1', '2', '3', '4', '5', '6', '7', '8', '9', 'a', 'b', 'c', 'd', 'e', 'f'];
  }

  lemma SamePairs(s: string, t: string, n: nat)
    requires |s| == |t| == 2 * n
    requires forall k :: 0 <= k < n ==> s[2 * k] == t[2 * k] && s[2 * k + 1] == t[2 * k + 1]
    ensures s == t
  {
    forall i | 0 <= i < |s| ensures s[i] == t[i] {
      var k := i / 2;
      assert s[2 * k] == t[2 * k] && s[2 * k + 1] == t[2 * k + 1];
    }
  }

  /** Digits taken two by two denote the bytes whose hexadecimal form they are. */
  lemma StrippedIsHex(text: string, model: ByteString, at: seq<nat>)
    requires Marks(text, at) && |Stripped(text)| == |at|
    requires forall k :: 0 <= k < |at| ==> Stripped(text)[k] == Lower(text[at[k]])
    ensures Stripped(text) == ToHex(model) <==> SpellsAt(text, model, at)
  {
    hide Stripped, ToHex, DigitValue, Lower;
    var hex := Stripped(text);
    HexDigits(model, 0);
    if |at| == 2 * |model| {
      forall k | 0 <= k < |model|
        ensures hex[2 * k] == ToHex(model)[2 * k] <==> DigitValue(text[at[2 * k]]) == Some(model[k] / 16)
        ensures hex[2 * k + 1] == ToHex(model)[2 * k + 1] <==> DigitValue(text[at[2 * k + 1]]) == Some(model[k] % 16)
      {
        HexDigits(model, k);
        DigitsAreValues(text[at[2 * k]], model[k] / 16);
        DigitsAreValues(text[at[2 * k + 1]], model[k] % 16);
      }
      if SpellsAt(text, model, at) {
        SamePairs(hex, ToHex(model), |model|);
      }
    }
  }

  // ---- What an entry's AAGUID is read as ---------------------------------------------------------

  /** A text is read as a model if and only if it spells it. */
  lemma ReadAsSpelled(text: string, model: ByteString)
    requires |model| == 16
    ensures NormaliseAaguid(Str(text)) == Some(ToHex(model)) <==> Spells(text, model)
  {
    hide Stripped, ToHex, SpellsAt;
    var at := StrippedMarks(text);
    StrippedIsHex(text, model, at);
    if Spells(text, model) {
      var other :| SpellsAt(text, model, other);
      SpelledMarks(text, model, other);
      MarksAreOne(text, at, other);
      HexIsAccepted(model);
    }
  }

  lemma SpelledMarks(text: string, model: ByteString, at: seq<nat>)
    requires SpellsAt(text, model, at)
    ensures Marks(text, at)
  {
  }

  lemma HexIsAccepted(model: ByteString)
    ensures |ToHex(model)| == 2 * |model| && forall i :: 0 <= i < |ToHex(model)| ==> ToHex(model)[i] in HEX_DIGITS
  {
    HexDigits(model, 0);
    forall i | 0 <= i < |ToHex(model)| ensures ToHex(model)[i] in HEX_DIGITS {
      HexDigits(model, i / 2);
      assert i == 2 * (i / 2) || i == 2 * (i / 2) + 1;
    }
  }

  /** Anything else is read as no model at all: not text, or text that spells no sixteen bytes. */
  lemma ReadAsNothing(value: Json)
    ensures NormaliseAaguid(value).None?
            <==> !(value.Str? && exists model :: |model| == 16 && Spells(value.text, model))
  {
    hide Stripped, ToHex, Spells;
    if NormaliseAaguid(value).Some? {
      var model := FromHex(NormaliseAaguid(value).value);
      ReadAsSpelled(value.text, model);
    }
    if value.Str? && exists model :: |model| == 16 && Spells(value.text, model) {
      var model :| |model| == 16 && Spells(value.text, model);
      ReadAsSpelled(value.text, model);
    }
  }

  /** A text spells one model at most. */
  lemma SpellsOne(text: string, a: ByteString, b: ByteString)
    requires Spells(text, a) && Spells(text, b)
    ensures a == b
  {
    var p :| SpellsAt(text, a, p);
    var q :| SpellsAt(text, b, q);
    MarksAreOne(text, p, q);
    forall k | 0 <= k < |a| ensures a[k] == b[k] {
      assert DigitValue(text[p[2 * k]]) == Some(b[k] / 16);
    }
  }

  lemma {:induction false} FromHex(hex: string) returns (b: ByteString)
    requires |hex| % 2 == 0 && forall i :: 0 <= i < |hex| ==> hex[i] in HEX_DIGITS
    ensures |b| == |hex| / 2 && ToHex(b) == hex
  {
    if |hex| == 0 {
      b := [];
    } else {
      hide ToHex;
      var first := ByteOf(hex[0], hex[1]);
      var tail := hex[2..];
      var rest := FromHex(tail);
      b := [first] + rest;
      HexOfMore(first, rest);
      assert hex == [hex[0], hex[1]] + tail;
    }
  }

  lemma HexOfMore(first: Byte, rest: ByteString)
    ensures ToHex([first] + rest) == [HEX_DIGITS[first / 16], HEX_DIGITS[first % 16]] + ToHex(rest)
  {
    assert ([first] + rest)[1..] == rest;
  }

  lemma ByteOf(high: char, low: char) returns (b: Byte)
    requires high in HEX_DIGITS && low in HEX_DIGITS
    ensures HEX_DIGITS[b / 16] == high && HEX_DIGITS[b % 16] == low
  {
    var i :| 0 <= i < 16 && HEX_DIGITS[i] == high;
    var k :| 0 <= k < 16 && HEX_DIGITS[k] == low;
    b := i * 16 + k;
    assert b / 16 == i && b % 16 == k;
  }

  /** The hexadecimal spelling of a model tells it from every other. */
  lemma HexInjective(a: ByteString, b: ByteString)
    requires ToHex(a) == ToHex(b)
    ensures a == b
  {
    hide ToHex;
    HexSpells(a);
    HexSpells(b);
    SpellsOne(ToHex(a), a, b);
  }

  /** However an entry spells its AAGUID, what it is read as names the one model of sixteen bytes. */
  lemma NormalisedNamesOneModel(value: Json) returns (model: ByteString)
    requires NormaliseAaguid(value).Some?
    ensures |model| == 16 && ToHex(model) == NormaliseAaguid(value).value
    ensures forall other :: ToHex(other) == ToHex(model) ==> other == model
  {
    hide ToHex;
    model := FromHex(NormaliseAaguid(value).value);
    forall other | ToHex(other) == ToHex(model) ensures other == model {
      HexInjective(other, model);
    }
  }

  /** The lowercase hex of sixteen bytes is read as itself. */
  lemma HexReadAsItself(model: ByteString)
    requires |model| == 16
    ensures NormaliseAaguid(Str(ToHex(model))) == Some(ToHex(model))
  {
    hide NormaliseAaguid, ToHex, Spells;
    HexSpells(model);
    ReadAsSpelled(ToHex(model), model);
  }

  lemma Joined(first: string, x: string, y: string)
    ensures first + (x + y) == (first + x) + y
  {
  }

  lemma {:induction false} StrippedJoins(a: string, b: string)
    ensures Stripped(a + b) == Stripped(a) + Stripped(b)
  {
    if |a| == 0 {
      assert a + b == b;
    } else {
      hide Stripped, Lower;
      var tail, all := a[1..], a + b;
      StrippedJoins(tail, b);
      StrippedStep(a);
      StrippedStep(all);
      assert all[1..] == tail + b && all[0] == a[0];
      Joined(if a[0] == '-' then "" else [Lower(a[0])], Stripped(tail), Stripped(b));
    }
  }

  /** Neither a hyphen anywhere nor the case of a letter makes a difference. */
  lemma HyphensAndCaseAside(a: string, c: char, b: string)
    ensures NormaliseAaguid(Str(a + "-" + b)) == NormaliseAaguid(Str(a + b))
    ensures 'A' <= c <= 'Z' ==> NormaliseAaguid(Str(a + [c] + b)) == NormaliseAaguid(Str(a + [c - 'A' + 'a'] + b))
  {
    StrippedJoins(a, b);
    StrippedJoins(a, "-");
    StrippedJoins(a + "-", b);
    StrippedJoins(a, [c]);
    StrippedJoins(a + [c], b);
    assert [c][1..] == "" && "-"[1..] == "";
    assert Stripped(a) + Stripped("-") == Stripped(a);
    if 'A' <= c <= 'Z' {
      var d := c - 'A' + 'a';
      StrippedJoins(a, [d]);
      StrippedJoins(a + [d], b);
      assert [d][1..] == "";
    }
  }
}
