/** The independent CBOR printer, and what it takes for the decoder to undo it. */
module CborEncoder {
  import opened Bytes
  import opened Wrappers
  import opened Cbor
  import opened CborLaws
  import Utf8

  const TWO_32 := 0x1_0000_0000

  /** A head: the argument's shortest form, of which only the low thirty-two bits are written. */
  function Head(major: nat, argument: nat): (h: ByteString)
    requires major < 8
    ensures 1 <= |h| <= 5
  {
    if argument < 24 then [major * 32 + argument]
    else if argument < 0x100 then [major * 32 + 24, argument]
    else if argument < 0x1_0000 then [major * 32 + 25] + U16Bytes(argument)
    else [major * 32 + 26] + U32Bytes(argument)
  }

  /** What can be handed to the printer at all: no bigints, real strings, real maps. */
  predicate Encodable(v: Value)
    decreases v, 1
  {
    match v
    case Big(_) => false
    case Text(t) => Utf8.Valid(t)
    case Arr(items) => AllEncodable(items)
    case Map(entries) => EntriesEncodable(entries) && DistinctKeys(entries)
    case _ => true
  }

  predicate AllEncodable(items: seq<Value>)
    decreases items, 0
  {
    forall i :: 0 <= i < |items| ==> Encodable(items[i])
  }

  predicate EntriesEncodable(entries: seq<Entry>)
    decreases entries, 0
  {
    forall i :: 0 <= i < |entries| ==> EntryEncodable(entries[i])
  }

  predicate EntryEncodable(e: Entry)
    decreases e, 0
  {
    (e.key.Num? || e.key.Text?) && Encodable(e.key) && Encodable(e.value)
  }

  function Encode(v: Value): (b: ByteString)
    requires Encodable(v)
    ensures |b| >= 1
    decreases v, 1
  {
    match v
    case Num(n) => if n >= 0 then Head(0, n) else Head(1, -1 - n)
    case Bytes(b) => Head(2, |b|) + b
    case Text(t) => Head(3, |t|) + t
    case Arr(items) => Head(4, |items|) + EncodeAll(items)
    case Map(entries) => Head(5, |entries|) + EncodeEntries(entries)
    case Bool(b) => if b then [0xF5] else [0xF4]
    case Null => [0xF6]
  }

  function EncodeAll(items: seq<Value>): (b: ByteString)
    requires AllEncodable(items)
    ensures |b| >= |items|
    decreases items, 0
  {
    if |items| == 0 then [] else Encode(items[0]) + EncodeAll(items[1..])
  }

  function EncodeEntries(entries: seq<Entry>): (b: ByteString)
    requires EntriesEncodable(entries)
    ensures |b| >= 2 * |entries|
    decreases entries, 0
  {
    if |entries| == 0 then [] else EncodeEntry(entries[0]) + EncodeEntries(entries[1..])
  }

  function EncodeEntry(e: Entry): (b: ByteString)
    requires EntryEncodable(e)
    ensures |b| >= 2
    decreases e, 0
  {
    Encode(e.key) + Encode(e.value)
  }

  // ---- The values that survive the trip --------------------------------------------------

  /**
   * The condition under which printing and decoding give a value back `depth` levels down:
   * integers and counts fit thirty-two bits, no text begins with the mark the decoder drops,
   * and nesting stays within the bound.
   */
  predicate Representable(v: Value, depth: nat)
    decreases v, 1
  {
    && depth <= MAX_DEPTH
    && match v
       case Num(n) => -TWO_32 <= n < TWO_32
       case Big(_) => false
       case Bytes(b) => |b| < TWO_32
       case Text(t) => |t| < TWO_32 && !Utf8.StartsWithBom(t)
       case Arr(items) => |items| < TWO_32 && AllRepresentable(items, depth + 1)
       case Map(entries) => |entries| < TWO_32 && EntriesRepresentable(entries, depth + 1)
       case _ => true
  }

  predicate AllRepresentable(items: seq<Value>, depth: nat)
    decreases items, 0
  {
    forall i :: 0 <= i < |items| ==> Representable(items[i], depth)
  }

  predicate EntriesRepresentable(entries: seq<Entry>, depth: nat)
    decreases entries, 0
  {
    forall i :: 0 <= i < |entries| ==> EntryRepresentable(entries[i], depth)
  }

  predicate EntryRepresentable(e: Entry, depth: nat)
    decreases e, 0
  {
    Representable(e.key, depth) && Representable(e.value, depth)
  }

  // ---- Heads -----------------------------------------------------------------------------

  lemma ArgumentRead(argument: nat, rest: ByteString)
    requires argument >= 24
    ensures var h := Head(0, argument);
      ReadArgument(h[1..] + rest, h[0]) == Ok(Parsed(Small(argument % TWO_32), |h| - 1))
  {
    var tail := Head(0, argument)[1..];
    var b := tail + rest;
    assert b[..|tail|] == tail;
    if argument < 0x100 {
      assert tail == [argument];
      BigEndian1(tail);
    } else if argument < 0x1_0000 {
      assert tail == U16Bytes(argument);
    } else {
      assert tail == U32Bytes(argument);
    }
  }

  /** A printed head is read back as its major type and its argument modulo 2^32. */
  lemma HeadRead(major: nat, argument: nat, rest: ByteString)
    requires major < 6
    ensures ReadFront(Head(major, argument) + rest)
            == ReadSized(rest, major, Small(argument % TWO_32), |Head(major, argument)|)
  {
    hide ReadSized, Unsigned;
    var h := Head(major, argument);
    var b := h + rest;
    assert b[1..] == h[1..] + rest && b[|h|..] == rest;
    assert b[0] / 32 == major && h[1..] == Head(0, argument)[1..];
    if argument >= 24 {
      ArgumentRead(argument, rest);
      assert b[0] % 32 == Head(0, argument)[0];
    }
  }

  // ---- Decoding undoes printing ----------------------------------------------------------

  lemma SizedLeaf(b: ByteString, major: nat, argument: nat, payload: ByteString, rest: ByteString, depth: nat)
    requires major < 4 && depth <= MAX_DEPTH
    requires b == Head(major, argument) + payload + rest
    ensures Decode(b, depth)
            == match ReadSized(payload + rest, major, Small(argument % TWO_32), |Head(major, argument)|)
               case Ok(f) => if f.value.Leaf? then Ok(Parsed(f.value.value, f.read)) else Decode(b, depth)
               case Err(e) => Err(e)
  {
    hide ReadFront, ReadSized, DecodeItems, DecodeEntries, Head;
    assert b == Head(major, argument) + (payload + rest);
    HeadRead(major, argument, payload + rest);
  }

  lemma ScalarRoundTrip(v: Value, depth: nat, rest: ByteString)
    requires Encodable(v) && !v.Arr? && !v.Map? && depth <= MAX_DEPTH
    ensures Decode(Encode(v) + rest, depth) == Ok(Parsed(v, |Encode(v)|)) <==> Representable(v, depth)
  {
    match v {
      case Num(n) => NumRoundTrip(n, depth, rest);
      case Bytes(b) => StringRoundTrip(v, 2, b, depth, rest);
      case Text(t) => StringRoundTrip(v, 3, t, depth, rest);
      case Bool(b) =>
      case Null =>
    }
  }

  lemma NumRoundTrip(n: int, depth: nat, rest: ByteString)
    requires depth <= MAX_DEPTH
    ensures var b := Encode(Num(n));
      Decode(b + rest, depth) == Ok(Parsed(Num(n), |b|)) <==> -TWO_32 <= n < TWO_32
  {
    hide Decode, Head;
    var major, argument := if n >= 0 then 0 else 1, if n >= 0 then n else -1 - n;
    assert Encode(Num(n)) + rest == Head(major, argument) + [] + rest;
    SizedLeaf(Encode(Num(n)) + rest, major, argument, [], rest, depth);
  }

  lemma StringRoundTrip(v: Value, major: nat, s: ByteString, depth: nat, rest: ByteString)
    requires depth <= MAX_DEPTH
    requires (major == 2 && v == Bytes(s)) || (major == 3 && v == Text(s) && Utf8.Valid(s))
    ensures var b := Encode(v);
      Decode(b + rest, depth) == Ok(Parsed(v, |b|))
      <==> |s| < TWO_32 && (major == 3 ==> !Utf8.StartsWithBom(s))
  {
    hide Decode, Head, Utf8.Valid, Utf8.StartsWithBom;
    assert Encode(v) + rest == Head(major, |s|) + s + rest;
    SizedLeaf(Encode(v) + rest, major, |s|, s, rest, depth);
    if |s| < TWO_32 {
      assert (s + rest)[..|s|] == s;
    }
  }

  /** A printed array or map head announces as many children as were printed, modulo 2^32. */
  lemma CompositeFront(major: nat, count: nat, tail: ByteString)
    requires (major == 4 || major == 5) && count <= |tail|
    ensures var n := count % TWO_32; var b := Head(major, count) + tail; var h := |Head(major, count)|;
      && ReadFront(b) == Ok(Parsed(if major == 4 then ArrayOf(n) else MapOf(n), h))
      && b[h..] == tail
  {
    hide ReadFront, Head;
    HeadRead(major, count, tail);
  }

  lemma {:induction false} Survives(v: Value, depth: nat, rest: ByteString)
    requires Encodable(v) && Representable(v, depth)
    ensures Decode(Encode(v) + rest, depth) == Ok(Parsed(v, |Encode(v)|))
    decreases v, 1
  {
    hide ReadFront, DecodeItems, DecodeEntries, AllRepresentable, EntriesRepresentable, EncodeAll, EncodeEntries, Head;
    match v {
      case Arr(items) =>
        var tail := EncodeAll(items) + rest;
        CompositeFront(4, |items|, tail);
        assert Head(4, |items|) + tail == Encode(v) + rest;
        ItemsSurvive(items, depth + 1, rest);
      case Map(entries) =>
        var tail := EncodeEntries(entries) + rest;
        CompositeFront(5, |entries|, tail);
        assert Head(5, |entries|) + tail == Encode(v) + rest;
        assert [] + entries == entries;
        EntriesSurvive(entries, [], depth + 1, rest);
      case _ => ScalarRoundTrip(v, depth, rest);
    }
  }

  lemma {:induction false} ItemsSurvive(items: seq<Value>, depth: nat, rest: ByteString)
    requires AllEncodable(items) && AllRepresentable(items, depth)
    ensures DecodeItems(EncodeAll(items) + rest, |items|, depth) == Ok(Parsed(items, |EncodeAll(items)|))
    decreases items, 0
  {
    hide Decode, DecodeItems, Encode;
    if |items| == 0 {
      NothingLeft(EncodeAll(items) + rest, [], depth);
    } else {
      var b := EncodeAll(items) + rest;
      var first := Encode(items[0]);
      var tail := EncodeAll(items[1..]) + rest;
      assert b == first + tail && b[|first|..] == tail;
      Survives(items[0], depth, tail);
      ItemsSurvive(items[1..], depth, rest);
      assert [items[0]] + items[1..] == items;
      ItemBuilds(b, |items|, depth, Parsed(items[0], |first|), Parsed(items[1..], |EncodeAll(items[1..])|));
    }
  }

  /** The printed pairs begin with the first key, then the first value, then the rest. */
  lemma EntriesSplit(entries: seq<Entry>, rest: ByteString)
    requires |entries| > 0 && EntriesEncodable(entries)
    ensures EntryEncodable(entries[0])
    ensures var key, value := Encode(entries[0].key), Encode(entries[0].value);
      var b := EncodeEntries(entries) + rest; var tail := EncodeEntries(entries[1..]) + rest;
      b == key + (value + tail) && b[|key|..] == value + tail && b[|key| + |value|..] == tail
  {
    hide Encode;
    Regroup(Encode(entries[0].key), Encode(entries[0].value), EncodeEntries(entries[1..]), rest);
  }

  lemma NextIsNew(seen: seq<Entry>, entries: seq<Entry>)
    requires |entries| > 0 && DistinctKeys(seen + entries)
    ensures !HasKey(seen, entries[0].key) && (seen + [entries[0]]) + entries[1..] == seen + entries
  {
    assert (seen + entries)[|seen|] == entries[0];
    assert forall i :: 0 <= i < |seen| ==> (seen + entries)[i] == seen[i];
  }

  lemma {:induction false} EntriesSurvive(entries: seq<Entry>, seen: seq<Entry>, depth: nat, rest: ByteString)
    requires EntriesEncodable(entries) && EntriesRepresentable(entries, depth) && DistinctKeys(seen + entries)
    ensures DecodeEntries(EncodeEntries(entries) + rest, |entries|, seen, depth)
            == Ok(Parsed(entries, |EncodeEntries(entries)|))
    decreases entries, 0
  {
    hide Decode, DecodeEntries, Encode, HasKey, DistinctKeys, Encodable, EntryRepresentable;
    if |entries| == 0 {
      NothingLeft(EncodeEntries(entries) + rest, seen, depth);
    } else {
      var e := entries[0];
      var b := EncodeEntries(entries) + rest;
      var key, value := Encode(e.key), Encode(e.value);
      var tail := EncodeEntries(entries[1..]) + rest;
      EntriesSplit(entries, rest);
      EntrySurvives(e, depth, tail);
      NextIsNew(seen, entries);
      EntriesSurvive(entries[1..], seen + [e], depth, rest);
      assert [e] + entries[1..] == entries;
      EntryBuilds(b, |entries|, seen, depth, Parsed(e.key, |key|), Parsed(e.value, |value|),
                  Parsed(entries[1..], |EncodeEntries(entries[1..])|));
    }
  }

  lemma {:induction false} EntrySurvives(e: Entry, depth: nat, tail: ByteString)
    requires EntryEncodable(e) && EntryRepresentable(e, depth)
    ensures Decode(Encode(e.key) + (Encode(e.value) + tail), depth) == Ok(Parsed(e.key, |Encode(e.key)|))
    ensures Decode(Encode(e.value) + tail, depth) == Ok(Parsed(e.value, |Encode(e.value)|))
    decreases e, 0
  {
    Survives(e.key, depth, Encode(e.value) + tail);
    Survives(e.value, depth, tail);
  }

  // ---- Only representable values survive -------------------------------------------------

  lemma {:induction false} SurvivorIsRepresentable(v: Value, depth: nat, rest: ByteString)
    requires Encodable(v)
    requires Decode(Encode(v) + rest, depth).Ok? && Decode(Encode(v) + rest, depth).value.value == v
    ensures Representable(v, depth)
    decreases v, 1
  {
    hide ReadFront, DecodeItems, DecodeEntries, AllRepresentable, EntriesRepresentable, EncodeAll, EncodeEntries, Head;
    match v {
      case Arr(items) =>
        var tail := EncodeAll(items) + rest;
        CompositeFront(4, |items|, tail);
        assert Head(4, |items|) + tail == Encode(v) + rest;
        var p := ArrayRead(Encode(v) + rest, depth);
        ItemsSurvivors(items, depth + 1, rest);
      case Map(entries) =>
        var tail := EncodeEntries(entries) + rest;
        CompositeFront(5, |entries|, tail);
        assert Head(5, |entries|) + tail == Encode(v) + rest;
        var p := MapRead(Encode(v) + rest, depth);
        EntriesSurvivors(entries, [], depth + 1, rest);
      case _ =>
        ScalarSurvivor(v, depth, rest);
    }
  }

  /** A scalar that decodes to itself was read to exactly its end. */
  lemma ScalarSurvivor(v: Value, depth: nat, rest: ByteString)
    requires Encodable(v) && !v.Arr? && !v.Map?
    requires Decode(Encode(v) + rest, depth).Ok? && Decode(Encode(v) + rest, depth).value.value == v
    ensures Representable(v, depth)
  {
    hide ReadFront, DecodeItems, DecodeEntries, Head, Utf8.Valid, Utf8.StartsWithBom;
    match v {
      case Num(n) =>
        var major, argument := if n >= 0 then 0 else 1, if n >= 0 then n else -1 - n;
        assert Encode(v) + rest == Head(major, argument) + [] + rest;
        SizedLeaf(Encode(v) + rest, major, argument, [], rest, depth);
      case Bytes(b) =>
        assert Encode(v) + rest == Head(2, |b|) + b + rest;
        SizedLeaf(Encode(v) + rest, 2, |b|, b, rest, depth);
      case Text(t) =>
        assert Encode(v) + rest == Head(3, |t|) + t + rest;
        SizedLeaf(Encode(v) + rest, 3, |t|, t, rest, depth);
        if |t| < TWO_32 {
          assert (t + rest)[..|t|] == t;
        }
      case Bool(b) =>
      case Null =>
    }
  }

  lemma {:induction false} ItemsSurvivors(items: seq<Value>, depth: nat, rest: ByteString)
    requires AllEncodable(items)
    requires var r := DecodeItems(EncodeAll(items) + rest, |items|, depth); r.Ok? && r.value.value == items
    ensures AllRepresentable(items, depth)
    decreases items, 0
  {
    hide Decode, DecodeItems, Encode;
    if |items| > 0 {
      var b := EncodeAll(items) + rest;
      var tail := EncodeAll(items[1..]) + rest;
      assert b == Encode(items[0]) + tail && b[|Encode(items[0])|..] == tail;
      var first, others := ItemRead(b, |items|, depth);
      assert first.value == ([first.value] + others.value)[0] == items[0];
      assert others.value == ([first.value] + others.value)[1..] == items[1..];
      SurvivorIsRepresentable(items[0], depth, tail);
      Survives(items[0], depth, tail);
      ItemsSurvivors(items[1..], depth, rest);
    }
  }

  lemma {:induction false} EntriesSurvivors(entries: seq<Entry>, seen: seq<Entry>, depth: nat, rest: ByteString)
    requires EntriesEncodable(entries)
    requires var r := DecodeEntries(EncodeEntries(entries) + rest, |entries|, seen, depth);
      r.Ok? && r.value.value == entries
    ensures EntriesRepresentable(entries, depth)
    decreases entries, 0
  {
    hide Decode, DecodeEntries, Encode, HasKey;
    if |entries| > 0 {
      var e := entries[0];
      var b := EncodeEntries(entries) + rest;
      var tail := EncodeEntries(entries[1..]) + rest;
      var others := EntriesHead(entries, seen, depth, rest);
      assert others.value == ([e] + others.value)[1..] == entries[1..];
      EntriesSurvivors(entries[1..], seen + [e], depth, rest);
    }
  }

  /** When printed pairs decode to themselves, the first pair is representable and the others follow. */
  lemma {:induction false} EntriesHead(entries: seq<Entry>, seen: seq<Entry>, depth: nat, rest: ByteString)
      returns (others: Parsed<seq<Entry>>)
    requires |entries| > 0 && EntriesEncodable(entries)
    requires var r := DecodeEntries(EncodeEntries(entries) + rest, |entries|, seen, depth);
      r.Ok? && r.value.value == entries
    ensures var e := entries[0]; var tail := EncodeEntries(entries[1..]) + rest;
      && EntryRepresentable(e, depth)
      && DecodeEntries(tail, |entries| - 1, seen + [e], depth) == Ok(others)
      && [e] + others.value == entries
    decreases entries[0], 3
  {
    hide Decode, DecodeEntries, Encode, HasKey;
    var e := entries[0];
    var b := EncodeEntries(entries) + rest;
    var tail := EncodeEntries(entries[1..]) + rest;
    var keyBytes, valueBytes := Encode(e.key), Encode(e.value);
    EntriesSplit(entries, rest);
    var key, value, others' := EntryRead(b, |entries|, seen, depth);
    others := others';
    assert Entry(key.value, value.value) == ([Entry(key.value, value.value)] + others.value)[0] == e;
    SurvivorIsRepresentable(e.key, depth, valueBytes + tail);
    Survives(e.key, depth, valueBytes + tail);
    SurvivorIsRepresentable(e.value, depth, tail);
    Survives(e.value, depth, tail);
  }

  /** A byte string too long for its head is read back, if at all, as a shorter one. */
  lemma LongBytesAreCut(s: ByteString, depth: nat, rest: ByteString)
    requires |s| >= TWO_32 && Decode(Encode(Bytes(s)) + rest, depth).Ok?
    ensures var v := Decode(Encode(Bytes(s)) + rest, depth).value.value; v.Bytes? && |v.bytes| < TWO_32
  {
    hide ReadFront, DecodeItems, DecodeEntries, Head;
    assert Encode(Bytes(s)) + rest == Head(2, |s|) + s + rest;
    SizedLeaf(Encode(Bytes(s)) + rest, 2, |s|, s, rest, depth);
  }

  /** Among printed pairs, the first such byte string is found under its key, and found cut. */
  lemma {:induction false} LongEntryIsCut(
      entries: seq<Entry>, seen: seq<Entry>, depth: nat, rest: ByteString, p: nat)
    requires EntriesEncodable(entries) && p < |entries|
    requires entries[p].value.Bytes? && |entries[p].value.bytes| >= TWO_32 && Representable(entries[p].key, depth)
    requires forall i :: 0 <= i < p ==> EntryRepresentable(entries[i], depth) && entries[i].key != entries[p].key
    requires DecodeEntries(EncodeEntries(entries) + rest, |entries|, seen, depth).Ok?
    ensures var got := Lookup(
        DecodeEntries(EncodeEntries(entries) + rest, |entries|, seen, depth).value.value, entries[p].key);
      got.Some? && got.value.Bytes? && |got.value.bytes| < TWO_32
    decreases p
  {
    hide Decode, DecodeEntries, Encode, HasKey;
    var e, b := entries[0], EncodeEntries(entries) + rest;
    var tail := EncodeEntries(entries[1..]) + rest;
    EntriesSplit(entries, rest);
    var key, value, others := EntryRead(b, |entries|, seen, depth);
    Survives(e.key, depth, Encode(e.value) + tail);
    var read := [Entry(key.value, value.value)] + others.value;
    assert read[1..] == others.value;
    if p == 0 {
      LongBytesAreCut(e.value.bytes, depth, tail);
    } else {
      Survives(e.value, depth, tail);
      LongEntryIsCut(entries[1..], seen + [e], depth, rest, p - 1);
    }
  }

  /**
   * Whatever follows it, a printed value decodes to itself and to exactly its own length if and
   * only if it is representable.
   */
  lemma RoundTrip(v: Value, depth: nat, rest: ByteString)
    requires Encodable(v)
    ensures Decode(Encode(v) + rest, depth) == Ok(Parsed(v, |Encode(v)|)) <==> Representable(v, depth)
  {
    if Representable(v, depth) {
      Survives(v, depth, rest);
    } else if Decode(Encode(v) + rest, depth) == Ok(Parsed(v, |Encode(v)|)) {
      SurvivorIsRepresentable(v, depth, rest);
    }
  }

  /** A lone U+FEFF is a string that does not survive. */
  lemma BomIsLost()
    ensures Encodable(Text(Utf8.BOM)) && Decode(Encode(Text(Utf8.BOM)), 0) == Ok(Parsed(Text([]), 4))
  {
    var t := Utf8.BOM;
    assert t == [0xEF, 0xBB, 0xBF] && t[..3] == t && t[3..] == [];
    assert Utf8.LeadLength(t) == 3;
    assert Encode(Text(t)) == Head(3, 3) + t + [];
    SizedLeaf(Encode(Text(t)), 3, 3, t, [], 0);
    assert t + [] == t;
  }

  /** Printing is injective on the values that survive, so equal encodings mean equal values. */
  lemma EncodeInjective(v: Value, w: Value)
    requires Encodable(v) && Encodable(w) && Representable(v, 0) && Representable(w, 0)
    requires Encode(v) == Encode(w)
    ensures v == w
  {
    Survives(v, 0, []);
    Survives(w, 0, []);
  }
}
