/**
 * The definite-length CBOR subset of RFC 8949 section 3 that WebAuthn uses: the bounded
 * decoder, stated first as functions on the bytes that remain.
 */
module Cbor {
  import opened Bytes
  import opened Wrappers
  import Utf8

  /** What a decoded value can be. Text is kept as its UTF-8 bytes; `Big` is a bigint. */
  datatype Value =
    | Num(n: int)
    | Big(big: int)
    | Bytes(bytes: ByteString)
    | Text(text: ByteString)
    | Bool(b: bool)
    | Null
    | Arr(items: seq<Value>)
    | Map(entries: seq<Entry>)

  /** One pair of a map, in insertion order. */
  datatype Entry = Entry(key: Value, value: Value)

  datatype Error =
    | Truncated
    | IndefiniteLength
    | ReservedInfo
    | InvalidLength
    | LengthExceedsInput
    | InvalidUtf8
    | TooDeep
    | InvalidMapKey
    | DuplicateKey
    | UndefinedValue
    | UnsupportedSimple
    | UnsupportedMajor

  /** The argument of a head: a number, or a bigint when it came from eight bytes. */
  datatype Argument = Small(n: nat) | Wide(n: nat)

  /** A result together with the number of bytes it used. */
  datatype Parsed<+T> = Parsed(value: T, read: nat)

  const MAX_DEPTH := 16
  const MAX_SAFE := 0x1F_FFFF_FFFF_FFFF

  /** The `width` bytes that begin `b`, read big-endian. */
  function Unsigned(b: ByteString, width: nat): Result<Parsed<nat>, Error> {
    if |b| < width then Err(Truncated) else Ok(Parsed(BigEndian(b[..width]), width))
  }

  function ReadArgument(b: ByteString, additional: nat): Result<Parsed<Argument>, Error>
  {
    if additional < 24 then Ok(Parsed(Small(additional), 0))
    else if additional == 24 then var p :- Unsigned(b, 1); Ok(Parsed(Small(p.value), 1))
    else if additional == 25 then var p :- Unsigned(b, 2); Ok(Parsed(Small(p.value), 2))
    else if additional == 26 then var p :- Unsigned(b, 4); Ok(Parsed(Small(p.value), 4))
    else if additional == 27 then var p :- Unsigned(b, 8); Ok(Parsed(Wide(p.value), 8))
    else if additional == 31 then Err(IndefiniteLength)
    else Err(ReservedInfo)
  }

  function AsLength(a: Argument, available: nat): (r: Result<nat, Error>)
    ensures r.Ok? <==> a.n <= MAX_SAFE && a.n <= available
    ensures r.Ok? ==> r.value == a.n
  {
    if a.n > MAX_SAFE then Err(InvalidLength)
    else if a.n > available then Err(LengthExceedsInput)
    else Ok(a.n)
  }

  /** An unsigned or negative integer: a number while it is safe, a bigint beyond. */
  function IntegerValue(n: int): Value {
    if -MAX_SAFE <= n <= MAX_SAFE then Num(n) else Big(n)
  }

  predicate HasKey(entries: seq<Entry>, key: Value) {
    exists i :: 0 <= i < |entries| && entries[i].key == key
  }

  /** What the initial byte and its argument announce: a whole value, or children to come. */
  datatype Front = Leaf(value: Value) | ArrayOf(count: nat) | MapOf(count: nat)

  function ReadSimple(additional: nat): Result<Parsed<Front>, Error> {
    if additional == 20 then Ok(Parsed(Leaf(Bool(false)), 1))
    else if additional == 21 then Ok(Parsed(Leaf(Bool(true)), 1))
    else if additional == 22 then Ok(Parsed(Leaf(Null), 1))
    else if additional == 23 then Err(UndefinedValue)
    else Err(UnsupportedSimple)
  }

  /** The front of a value of major type below six whose argument took `used - 1` bytes. */
  function ReadSized(rest: ByteString, major: nat, arg: Argument, used: nat): Result<Parsed<Front>, Error> {
    if major == 0 then Ok(Parsed(Leaf(IntegerValue(arg.n)), used))
    else if major == 1 then Ok(Parsed(Leaf(IntegerValue(-1 - arg.n)), used))
    else
      var length :- AsLength(arg, |rest|);
      if major == 2 then Ok(Parsed(Leaf(Bytes(rest[..length])), used + length))
      else if major == 3 then
        if Utf8.Valid(rest[..length]) then Ok(Parsed(Leaf(Text(Utf8.Decoded(rest[..length]))), used + length))
        else Err(InvalidUtf8)
      else if major == 4 then Ok(Parsed(ArrayOf(length), used))
      else Ok(Parsed(MapOf(length), used))
  }

  function ReadFront(b: ByteString): (r: Result<Parsed<Front>, Error>)
    ensures r.Ok? ==> 1 <= r.value.read <= |b|
  {
    if |b| < 1 then Err(Truncated)
    else
      var major, additional := b[0] / 32, b[0] % 32;
      if major == 7 then ReadSimple(additional)
      else if major == 6 then Err(UnsupportedMajor)
      else
        var arg :- ReadArgument(b[1..], additional);
        ReadSized(b[1 + arg.read..], major, arg.value, 1 + arg.read)
  }

  /** One value from the front of `b`, `depth` levels down. */
  function Decode(b: ByteString, depth: nat): (r: Result<Parsed<Value>, Error>)
    ensures r.Ok? ==> 1 <= r.value.read <= |b|
    decreases MAX_DEPTH + 1 - depth, 0
  {
    if depth > MAX_DEPTH then Err(TooDeep)
    else
      var front :- ReadFront(b);
      match front.value
      case Leaf(v) => Ok(Parsed(v, front.read))
      case ArrayOf(count) =>
        var p :- DecodeItems(b[front.read..], count, depth + 1);
        Ok(Parsed(Arr(p.value), front.read + p.read))
      case MapOf(count) =>
        var p :- DecodeEntries(b[front.read..], count, [], depth + 1);
        Ok(Parsed(Map(p.value), front.read + p.read))
  }

  /** `count` values in a row. */
  function DecodeItems(b: ByteString, count: nat, depth: nat): (r: Result<Parsed<seq<Value>>, Error>)
    ensures r.Ok? ==> count <= r.value.read <= |b| && |r.value.value| == count
    decreases MAX_DEPTH + 1 - depth, 1, count
  {
    if count == 0 then Ok(Parsed([], 0))
    else
      var first :- Decode(b, depth);
      var rest :- DecodeItems(b[first.read..], count - 1, depth);
      Ok(Parsed([first.value] + rest.value, first.read + rest.read))
  }

  /** `count` further pairs of a map that already holds `seen`. */
  function DecodeEntries(b: ByteString, count: nat, seen: seq<Entry>, depth: nat)
    : (r: Result<Parsed<seq<Entry>>, Error>)
    ensures r.Ok? ==> 2 * count <= r.value.read <= |b| && |r.value.value| == count
    decreases MAX_DEPTH + 1 - depth, 1, count
  {
    if count == 0 then Ok(Parsed([], 0))
    else
      var key :- Decode(b, depth);
      if !key.value.Num? && !key.value.Text? then Err(InvalidMapKey)
      else if HasKey(seen, key.value) then Err(DuplicateKey)
      else
        var value :- Decode(b[key.read..], depth);
        var entry := Entry(key.value, value.value);
        var used := key.read + value.read;
        var rest :- DecodeEntries(b[used..], count - 1, seen + [entry], depth);
        Ok(Parsed([entry] + rest.value, used + rest.read))
  }

  // ---- How an accepted composite was read ------------------------------------------------

  lemma ArrayRead(b: ByteString, depth: nat) returns (p: Parsed<seq<Value>>)
    requires depth <= MAX_DEPTH && ReadFront(b).Ok? && ReadFront(b).value.value.ArrayOf?
    requires Decode(b, depth).Ok?
    ensures var f := ReadFront(b).value;
      && DecodeItems(b[f.read..], f.value.count, depth + 1) == Ok(p)
      && Decode(b, depth) == Ok(Parsed(Arr(p.value), f.read + p.read))
  {
    hide ReadFront, DecodeItems, DecodeEntries;
    var f := ReadFront(b).value;
    p := DecodeItems(b[f.read..], f.value.count, depth + 1).value;
  }

  lemma MapRead(b: ByteString, depth: nat) returns (p: Parsed<seq<Entry>>)
    requires depth <= MAX_DEPTH && ReadFront(b).Ok? && ReadFront(b).value.value.MapOf?
    requires Decode(b, depth).Ok?
    ensures var f := ReadFront(b).value;
      && DecodeEntries(b[f.read..], f.value.count, [], depth + 1) == Ok(p)
      && Decode(b, depth) == Ok(Parsed(Map(p.value), f.read + p.read))
  {
    hide ReadFront, DecodeItems, DecodeEntries;
    var f := ReadFront(b).value;
    p := DecodeEntries(b[f.read..], f.value.count, [], depth + 1).value;
  }

  lemma ItemRead(b: ByteString, count: nat, depth: nat)
      returns (first: Parsed<Value>, rest: Parsed<seq<Value>>)
    requires count > 0 && DecodeItems(b, count, depth).Ok?
    ensures Decode(b, depth) == Ok(first)
    ensures first.read <= |b| && DecodeItems(b[first.read..], count - 1, depth) == Ok(rest)
    ensures DecodeItems(b, count, depth) == Ok(Parsed([first.value] + rest.value, first.read + rest.read))
  {
    hide Decode;
    first := Decode(b, depth).value;
    rest := DecodeItems(b[first.read..], count - 1, depth).value;
  }

  lemma EntryRead(b: ByteString, count: nat, seen: seq<Entry>, depth: nat)
      returns (key: Parsed<Value>, value: Parsed<Value>, rest: Parsed<seq<Entry>>)
    requires count > 0 && DecodeEntries(b, count, seen, depth).Ok?
    ensures Decode(b, depth) == Ok(key) && (key.value.Num? || key.value.Text?) && !HasKey(seen, key.value)
    ensures key.read <= |b| && Decode(b[key.read..], depth) == Ok(value)
    ensures key.read + value.read <= |b|
    ensures var entry := Entry(key.value, value.value);
      && DecodeEntries(b[key.read + value.read..], count - 1, seen + [entry], depth) == Ok(rest)
      && DecodeEntries(b, count, seen, depth)
         == Ok(Parsed([entry] + rest.value, key.read + value.read + rest.read))
  {
    hide Decode, HasKey;
    key := Decode(b, depth).value;
    value := Decode(b[key.read..], depth).value;
    rest := DecodeEntries(b[key.read + value.read..], count - 1,
                          seen + [Entry(key.value, value.value)], depth).value;
  }

  // ---- What makes a composite accepted ---------------------------------------------------

  lemma NothingLeft(b: ByteString, seen: seq<Entry>, depth: nat)
    ensures DecodeItems(b, 0, depth) == Ok(Parsed([], 0))
    ensures DecodeEntries(b, 0, seen, depth) == Ok(Parsed([], 0))
  {
  }

  lemma ItemBuilds(b: ByteString, count: nat, depth: nat, first: Parsed<Value>, rest: Parsed<seq<Value>>)
    requires count > 0 && Decode(b, depth) == Ok(first)
    requires first.read <= |b| && DecodeItems(b[first.read..], count - 1, depth) == Ok(rest)
    ensures DecodeItems(b, count, depth) == Ok(Parsed([first.value] + rest.value, first.read + rest.read))
  {
    hide Decode;
  }

  lemma EntryBuilds(b: ByteString, count: nat, seen: seq<Entry>, depth: nat,
                    key: Parsed<Value>, value: Parsed<Value>, rest: Parsed<seq<Entry>>)
    requires count > 0 && Decode(b, depth) == Ok(key)
    requires (key.value.Num? || key.value.Text?) && !HasKey(seen, key.value)
    requires key.read <= |b| && Decode(b[key.read..], depth) == Ok(value) && key.read + value.read <= |b|
    requires DecodeEntries(b[key.read + value.read..], count - 1, seen + [Entry(key.value, value.value)], depth)
             == Ok(rest)
    ensures DecodeEntries(b, count, seen, depth)
            == Ok(Parsed([Entry(key.value, value.value)] + rest.value, key.read + value.read + rest.read))
  {
    hide Decode, HasKey;
  }

  /** A single value that uses the whole input; `None` in the error marks trailing bytes. */
  function DecodeAll(b: ByteString): Result<Value, Option<Error>> {
    match Decode(b, 0)
    case Err(e) => Err(Some(e))
    case Ok(p) => if p.read == |b| then Ok(p.value) else Err(None)
  }

  /** What a decoded map holds under a key. */
  function Lookup(entries: seq<Entry>, key: Value): Option<Value> {
    if |entries| == 0 then None
    else if entries[0].key == key then Some(entries[0].value)
    else Lookup(entries[1..], key)
  }
}
