/** What the decoder promises of every input it accepts. */
module CborLaws {
  import opened Bytes
  import opened Wrappers
  import opened Cbor
  import Utf8

  // ---- Locality: nothing past the bytes used is looked at -------------------------------

  /** The two inputs begin with the same `n` bytes. */
  predicate Agree(b: ByteString, c: ByteString, n: nat) {
    n <= |b| && n <= |c| && b[..n] == c[..n]
  }

  lemma AgreeParts(b: ByteString, c: ByteString, n: nat, k: nat)
    requires Agree(b, c, n) && k <= n
    ensures Agree(b, c, k) && Agree(b[k..], c[k..], n - k)
  {
    assert b[..k] == b[..n][..k] && c[..k] == c[..n][..k];
    assert b[k..][..n - k] == b[..n][k..] && c[k..][..n - k] == c[..n][k..];
  }

  lemma ReadArgumentLocal(b: ByteString, c: ByteString, additional: nat)
    requires ReadArgument(b, additional).Ok?
    requires Agree(b, c, ReadArgument(b, additional).value.read)
    ensures ReadArgument(c, additional) == ReadArgument(b, additional)
  {
  }

  /** How many bytes an announced front still needs: one a child, two a pair. */
  function Announced(f: Front): nat {
    match f
    case Leaf(_) => 0
    case ArrayOf(count) => count
    case MapOf(count) => count
  }

  lemma ReadSizedLocal(b: ByteString, c: ByteString, major: nat, arg: Argument, used: nat)
    requires ReadSized(b, major, arg, used).Ok?
    requires var f := ReadSized(b, major, arg, used).value;
      Agree(b, c, f.read - used) && f.read - used + Announced(f.value) <= |c|
    ensures ReadSized(c, major, arg, used) == ReadSized(b, major, arg, used)
  {
  }

  lemma ReadFrontLocal(b: ByteString, c: ByteString)
    requires ReadFront(b).Ok?
    requires var f := ReadFront(b).value; Agree(b, c, f.read) && f.read + Announced(f.value) <= |c|
    ensures ReadFront(c) == ReadFront(b)
  {
    var f := ReadFront(b).value;
    AgreeParts(b, c, f.read, 1);
    assert b[0] == b[..f.read][0] && c[0] == c[..f.read][0];
    if b[0] / 32 < 6 {
      var arg := ReadArgument(b[1..], b[0] % 32).value;
      AgreeParts(b[1..], c[1..], f.read - 1, arg.read);
      ReadArgumentLocal(b[1..], c[1..], b[0] % 32);
      AgreeParts(b, c, f.read, 1 + arg.read);
      ReadSizedLocal(b[1 + arg.read..], c[1 + arg.read..], b[0] / 32, arg.value, 1 + arg.read);
    }
  }

  /**
   * If decoding `b` uses n bytes, any input that shares those n bytes decodes to the same
   * value and also uses n: whatever follows them is irrelevant, present or not.
   */
  lemma {:induction false} DecodeLocal(b: ByteString, c: ByteString, depth: nat)
    requires Decode(b, depth).Ok?
    requires Agree(b, c, Decode(b, depth).value.read)
    ensures Decode(c, depth) == Decode(b, depth)
    decreases MAX_DEPTH + 1 - depth, 0
  {
    hide ReadFront, DecodeItems, DecodeEntries;
    var n := Decode(b, depth).value.read;
    var f := ReadFront(b).value;
    AgreeParts(b, c, n, f.read);
    match f.value {
      case Leaf(_) => ReadFrontLocal(b, c);
      case ArrayOf(count) =>
        var _ := ArrayRead(b, depth);
        ReadFrontLocal(b, c);
        ItemsLocal(b[f.read..], c[f.read..], count, depth + 1);
      case MapOf(count) =>
        var _ := MapRead(b, depth);
        ReadFrontLocal(b, c);
        EntriesLocal(b[f.read..], c[f.read..], count, [], depth + 1);
    }
  }

  lemma {:induction false} ItemsLocal(b: ByteString, c: ByteString, count: nat, depth: nat)
    requires DecodeItems(b, count, depth).Ok?
    requires Agree(b, c, DecodeItems(b, count, depth).value.read)
    ensures DecodeItems(c, count, depth) == DecodeItems(b, count, depth)
    decreases MAX_DEPTH + 1 - depth, 1, count
  {
    hide Decode, DecodeItems;
    NothingLeft(b, [], depth);
    NothingLeft(c, [], depth);
    if count > 0 {
      var first, rest := ItemRead(b, count, depth);
      AgreeParts(b, c, first.read + rest.read, first.read);
      DecodeLocal(b, c, depth);
      ItemsLocal(b[first.read..], c[first.read..], count - 1, depth);
      ItemBuilds(c, count, depth, first, rest);
    }
  }

  lemma {:induction false} EntriesLocal(
      b: ByteString, c: ByteString, count: nat, seen: seq<Entry>, depth: nat)
    requires DecodeEntries(b, count, seen, depth).Ok?
    requires Agree(b, c, DecodeEntries(b, count, seen, depth).value.read)
    ensures DecodeEntries(c, count, seen, depth) == DecodeEntries(b, count, seen, depth)
    decreases MAX_DEPTH + 1 - depth, 1, count
  {
    hide Decode, DecodeEntries, HasKey;
    NothingLeft(b, seen, depth);
    NothingLeft(c, seen, depth);
    if count > 0 {
      var key, value, rest := EntryRead(b, count, seen, depth);
      var n, m := key.read + value.read + rest.read, key.read + value.read;
      AgreeParts(b, c, n, key.read);
      DecodeLocal(b, c, depth);
      AgreeParts(b[key.read..], c[key.read..], n - key.read, value.read);
      DecodeLocal(b[key.read..], c[key.read..], depth);
      AgreeParts(b, c, n, m);
      EntriesLocal(b[m..], c[m..], count - 1, seen + [Entry(key.value, value.value)], depth);
      EntryBuilds(c, count, seen, depth, key, value, rest);
    }
  }

  /** The accepted encodings are prefix-free: no whole value is a proper prefix of another. */
  lemma PrefixFree(b: ByteString, c: ByteString)
    requires DecodeAll(b).Ok? && DecodeAll(c).Ok? && b <= c
    ensures b == c
  {
    assert c[..|b|] == b[..|b|] == b;
    DecodeLocal(b, c, 0);
  }

  /** Whatever is appended to a whole value, the prefix decoder still stops at its end. */
  lemma DecodePrefixStops(b: ByteString, rest: ByteString)
    requires DecodeAll(b).Ok?
    ensures Decode(b + rest, 0) == Ok(Parsed(DecodeAll(b).value, |b|))
  {
    assert (b + rest)[..|b|] == b == b[..|b|];
    DecodeLocal(b, b + rest, 0);
  }

  // ---- Cost: at most one value a byte ----------------------------------------------------

  /** How many values `v` is made of, itself and map keys included. */
  function Size(v: Value): nat
    decreases v, 1
  {
    match v
    case Arr(items) => 1 + ItemsSize(items)
    case Map(entries) => 1 + EntriesSize(entries)
    case _ => 1
  }

  function ItemsSize(items: seq<Value>): nat
    decreases items, 0
  {
    if |items| == 0 then 0 else Size(items[0]) + ItemsSize(items[1..])
  }

  function EntriesSize(entries: seq<Entry>): nat
    decreases entries, 0
  {
    if |entries| == 0 then 0 else EntrySize(entries[0]) + EntriesSize(entries[1..])
  }

  function EntrySize(e: Entry): nat
    decreases e, 0
  {
    Size(e.key) + Size(e.value)
  }

  lemma LeafSize(b: ByteString)
    requires ReadFront(b).Ok? && ReadFront(b).value.value.Leaf?
    ensures Size(ReadFront(b).value.value.value) == 1
  {
  }

  /** A short input cannot build a large value. */
  lemma {:induction false} DecodeCost(b: ByteString, depth: nat)
    requires Decode(b, depth).Ok?
    ensures var p := Decode(b, depth).value; Size(p.value) <= p.read <= |b|
    decreases MAX_DEPTH + 1 - depth, 0
  {
    hide ReadFront, DecodeItems, DecodeEntries;
    var f := ReadFront(b).value;
    match f.value {
      case Leaf(_) => LeafSize(b);
      case ArrayOf(count) => ItemsCost(b[f.read..], count, depth + 1);
      case MapOf(count) => EntriesCost(b[f.read..], count, [], depth + 1);
    }
  }

  lemma {:induction false} ItemsCost(b: ByteString, count: nat, depth: nat)
    requires DecodeItems(b, count, depth).Ok?
    ensures var p := DecodeItems(b, count, depth).value; ItemsSize(p.value) <= p.read
    decreases MAX_DEPTH + 1 - depth, 1, count
  {
    hide Decode;
    if count > 0 {
      var first, rest := ItemRead(b, count, depth);
      DecodeCost(b, depth);
      ItemsCost(b[first.read..], count - 1, depth);
      assert ([first.value] + rest.value)[1..] == rest.value;
    }
  }

  lemma {:induction false} EntriesCost(b: ByteString, count: nat, seen: seq<Entry>, depth: nat)
    requires DecodeEntries(b, count, seen, depth).Ok?
    ensures var p := DecodeEntries(b, count, seen, depth).value; EntriesSize(p.value) <= p.read
    decreases MAX_DEPTH + 1 - depth, 1, count
  {
    hide Decode, DecodeEntries, HasKey;
    NothingLeft(b, seen, depth);
    if count > 0 {
      var key, value, rest := EntryRead(b, count, seen, depth);
      var entry := Entry(key.value, value.value);
      DecodeCost(b, depth);
      DecodeCost(b[key.read..], depth);
      EntriesCost(b[key.read + value.read..], count - 1, seen + [entry], depth);
      assert ([entry] + rest.value)[1..] == rest.value;
    }
  }

  // ---- Shape: bounded nesting, unambiguous maps, valid text ------------------------------

  predicate DistinctKeys(entries: seq<Entry>) {
    forall i, j :: 0 <= i < j < |entries| ==> entries[i].key != entries[j].key
  }

  lemma AppendKeepsDistinct(seen: seq<Entry>, e: Entry)
    requires DistinctKeys(seen) && !HasKey(seen, e.key)
    ensures DistinctKeys(seen + [e])
  {
  }

  predicate AllItems(items: seq<Value>, depth: nat)
    decreases items, 0
  {
    forall i :: 0 <= i < |items| ==> WellFormed(items[i], depth)
  }

  predicate AllEntries(entries: seq<Entry>, depth: nat)
    decreases entries, 0
  {
    forall i :: 0 <= i < |entries| ==> EntryWellFormed(entries[i], depth)
  }

  predicate EntryWellFormed(e: Entry, depth: nat)
    decreases e, 0
  {
    (e.key.Num? || e.key.Text?) && WellFormed(e.key, depth) && WellFormed(e.value, depth)
  }

  /** A value as the decoder is meant to build it, `depth` levels down. */
  predicate WellFormed(v: Value, depth: nat)
    decreases v, 1
  {
    && depth <= MAX_DEPTH
    && match v
       case Num(n) => -MAX_SAFE <= n <= MAX_SAFE
       case Big(n) => -0x1_0000_0000_0000_0000 <= n <= 0xFFFF_FFFF_FFFF_FFFF && !(-MAX_SAFE <= n <= MAX_SAFE)
       case Text(t) => Utf8.Valid(t)
       case Arr(items) => AllItems(items, depth + 1)
       case Map(entries) => AllEntries(entries, depth + 1) && DistinctKeys(entries)
       case _ => true
  }

  lemma UnsignedBelow(b: ByteString, width: nat)
    requires Unsigned(b, width).Ok?
    ensures Unsigned(b, width).value.value < Pow256(width)
  {
    BigEndianBound(b[..width]);
  }

  lemma ArgumentBelow(b: ByteString, additional: nat)
    requires ReadArgument(b, additional).Ok?
    ensures ReadArgument(b, additional).value.value.n <= 0xFFFF_FFFF_FFFF_FFFF
  {
    if additional == 24 {
      UnsignedBelow(b, 1);
    } else if additional == 25 {
      UnsignedBelow(b, 2);
    } else if additional == 26 {
      UnsignedBelow(b, 4);
      assert Pow256(4) == 256 * (256 * Pow256(2));
    } else if additional == 27 {
      UnsignedBelow(b, 8);
      assert Pow256(4) == 256 * (256 * Pow256(2));
      assert Pow256(6) == 256 * (256 * Pow256(4));
      assert Pow256(8) == 256 * (256 * Pow256(6));
    }
  }

  lemma LeafWellFormed(b: ByteString, depth: nat)
    requires depth <= MAX_DEPTH && ReadFront(b).Ok? && ReadFront(b).value.value.Leaf?
    ensures WellFormed(ReadFront(b).value.value.value, depth)
  {
    if b[0] / 32 < 6 {
      var arg := ReadArgument(b[1..], b[0] % 32).value;
      ArgumentBelow(b[1..], b[0] % 32);
      if b[0] / 32 == 3 {
        Utf8.DecodedIsValid(b[1 + arg.read..][..arg.value.n]);
      }
    }
  }

  /** Whatever is accepted nests at most sixteen deep, repeats no map key and holds only valid text. */
  lemma {:induction false} DecodeWellFormed(b: ByteString, depth: nat)
    requires Decode(b, depth).Ok?
    ensures WellFormed(Decode(b, depth).value.value, depth)
    decreases MAX_DEPTH + 1 - depth, 0
  {
    hide ReadFront, DecodeItems, DecodeEntries, AllItems, AllEntries;
    var f := ReadFront(b).value;
    match f.value {
      case Leaf(_) => LeafWellFormed(b, depth);
      case ArrayOf(count) => ItemsWellFormed(b[f.read..], count, depth + 1);
      case MapOf(count) =>
        var p := MapRead(b, depth);
        EntriesWellFormed(b[f.read..], count, [], depth + 1);
        assert [] + p.value == p.value;
    }
  }

  lemma {:induction false} ItemsWellFormed(b: ByteString, count: nat, depth: nat)
    requires DecodeItems(b, count, depth).Ok?
    ensures AllItems(DecodeItems(b, count, depth).value.value, depth)
    decreases MAX_DEPTH + 1 - depth, 1, count
  {
    hide Decode, WellFormed;
    if count > 0 {
      var first, rest := ItemRead(b, count, depth);
      DecodeWellFormed(b, depth);
      ItemsWellFormed(b[first.read..], count - 1, depth);
    }
  }

  lemma {:induction false} EntriesWellFormed(b: ByteString, count: nat, seen: seq<Entry>, depth: nat)
    requires DecodeEntries(b, count, seen, depth).Ok?
    requires DistinctKeys(seen)
    ensures var entries := DecodeEntries(b, count, seen, depth).value.value;
      AllEntries(entries, depth) && DistinctKeys(seen + entries)
    decreases MAX_DEPTH + 1 - depth, 1, count
  {
    hide Decode, DecodeEntries, WellFormed, HasKey;
    NothingLeft(b, seen, depth);
    if count == 0 {
      assert seen + [] == seen;
    } else {
      var key, value, rest := EntryRead(b, count, seen, depth);
      var entry := Entry(key.value, value.value);
      DecodeWellFormed(b, depth);
      DecodeWellFormed(b[key.read..], depth);
      assert EntryWellFormed(entry, depth);
      AppendKeepsDistinct(seen, entry);
      EntriesWellFormed(b[key.read + value.read..], count - 1, seen + [entry], depth);
      assert (seen + [entry]) + rest.value == seen + ([entry] + rest.value);
    }
  }

  // ---- Numbers in every width ----------------------------------------------------------------

  /** An integer is a number while it is exact in JavaScript, and a bigint beyond. */
  predicate Denotes(v: Value, n: int) {
    if -0x1F_FFFF_FFFF_FFFF <= n <= 0x1F_FFFF_FFFF_FFFF then v == Num(n) else v == Big(n)
  }

  /**
   * An integer in each of its longer widths, needed or not: the one, two, four or eight bytes after the head, most
   * significant first; of major type 1, counted down from -1.
   */
  lemma IntegersRead(major: nat, digits: ByteString, rest: ByteString, depth: nat)
    requires major < 2 && |digits| in {1, 2, 4, 8} && depth <= MAX_DEPTH
    ensures var info := if |digits| == 1 then 24 else if |digits| == 2 then 25 else if |digits| == 4 then 26 else 27;
      var r := Decode([major * 32 + info] + digits + rest, depth);
      var n := BigEndian(digits);
      r.Ok? && r.value.read == 1 + |digits| && Denotes(r.value.value, if major == 0 then n else -1 - n)
  {
    hide DecodeItems, DecodeEntries, BigEndian;
    var info := if |digits| == 1 then 24 else if |digits| == 2 then 25 else if |digits| == 4 then 26 else 27;
    var b := [major * 32 + info] + digits + rest;
    assert b[1..] == digits + rest && (digits + rest)[..|digits|] == digits;
    assert b[0] / 32 == major && b[0] % 32 == info;
    assert ReadArgument(b[1..], info).Ok?;
  }

  lemma ShortIntegerRead(major: nat, n: nat, rest: ByteString, depth: nat)
    requires major < 2 && n < 24 && depth <= MAX_DEPTH
    ensures Decode([major * 32 + n] + rest, depth) == Ok(Parsed(Num(if major == 0 then n else -1 - n), 1))
  {
    hide DecodeItems, DecodeEntries;
    var b := [major * 32 + n] + rest;
    assert b[0] / 32 == major && b[0] % 32 == n;
  }

  /**
   * The initial bytes that are turned away, each with its own error, whatever follows: indefinite lengths, the
   * reserved forms, tags, undefined and every simple value but false, true and null.
   */
  lemma InitialBytes(b: ByteString, depth: nat)
    requires |b| > 0 && depth <= MAX_DEPTH
    ensures b[0] < 0xC0 && b[0] % 32 == 31 ==> Decode(b, depth) == Err(IndefiniteLength)
    ensures b[0] < 0xC0 && 28 <= b[0] % 32 <= 30 ==> Decode(b, depth) == Err(ReservedInfo)
    ensures 0xC0 <= b[0] <= 0xDF ==> Decode(b, depth) == Err(UnsupportedMajor)
    ensures b[0] == 0xF4 ==> Decode(b, depth) == Ok(Parsed(Bool(false), 1))
    ensures b[0] == 0xF5 ==> Decode(b, depth) == Ok(Parsed(Bool(true), 1))
    ensures b[0] == 0xF6 ==> Decode(b, depth) == Ok(Parsed(Null, 1))
    ensures b[0] == 0xF7 ==> Decode(b, depth) == Err(UndefinedValue)
    ensures 0xE0 <= b[0] < 0xF4 || b[0] > 0xF7 ==> Decode(b, depth) == Err(UnsupportedSimple)
  {
    hide DecodeItems, DecodeEntries, ReadSized;
  }
}
