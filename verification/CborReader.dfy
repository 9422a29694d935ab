/** The decoder as it runs: a cursor over the input, and loops that fill arrays and maps. */
module CborReader {
  import opened Bytes
  import opened Wrappers
  import opened Cbor
  import Utf8

  /** The value part of a parse, for a caller that keeps the position itself. */
  function Outcome<T>(r: Result<Parsed<T>, Error>): Result<T, Error> {
    match r
    case Ok(p) => Ok(p.value)
    case Err(e) => Err(e)
  }

  function Used<T>(r: Result<Parsed<T>, Error>): nat {
    if r.Ok? then r.value.read else 0
  }

  class Reader {
    const bytes: ByteString
    var offset: nat

    constructor (bytes: ByteString)
      ensures this.bytes == bytes && offset == 0 && Valid()
    {
      this.bytes := bytes;
      offset := 0;
    }

    ghost predicate Valid()
      reads this
    {
      offset <= |bytes|
    }

    function Rest(): ByteString
      requires Valid()
      reads this
    {
      bytes[offset..]
    }

    /** Reads `width` bytes as one big-endian number, or refuses without moving. */
    method ReadUnsigned(width: nat) returns (r: Result<nat, Error>)
      requires Valid()
      modifies this
      ensures Valid()
      ensures r == Outcome(Unsigned(old(Rest()), width))
      ensures offset == old(offset) + Used(Unsigned(old(Rest()), width))
    {
      if |bytes| - offset < width {
        return Err(Truncated);
      }
      var value := BigEndian(bytes[offset..offset + width]);
      assert bytes[offset..offset + width] == Rest()[..width];
      offset := offset + width;
      r := Ok(value);
    }

    method Slice(length: nat) returns (r: Result<ByteString, Error>)
      requires Valid()
      modifies this
      ensures Valid()
      ensures r == if length <= |old(Rest())| then Ok(old(Rest())[..length]) else Err(Truncated)
      ensures offset == old(offset) + if length <= |old(Rest())| then length else 0
    {
      if |bytes| - offset < length {
        return Err(Truncated);
      }
      var out := bytes[offset..offset + length];
      assert out == Rest()[..length];
      offset := offset + length;
      r := Ok(out);
    }
  }

  method ReadArgumentAt(reader: Reader, additional: nat) returns (r: Result<Argument, Error>)
    requires reader.Valid()
    modifies reader
    ensures reader.Valid()
    ensures r == Outcome(ReadArgument(old(reader.Rest()), additional))
    ensures reader.offset == old(reader.offset) + Used(ReadArgument(old(reader.Rest()), additional))
  {
    if additional < 24 {
      return Ok(Small(additional));
    }
    var width: nat := 0;
    match additional {
      case 24 => width := 1;
      case 25 => width := 2;
      case 26 => width := 4;
      case 27 => width := 8;
      case 31 => return Err(IndefiniteLength);
      case _ => return Err(ReservedInfo);
    }
    var n := reader.ReadUnsigned(width);
    match n {
      case Err(e) => r := Err(e);
      case Ok(value) => r := Ok(if width == 8 then Wide(value) else Small(value));
    }
  }

  /**
   * One value from the cursor on. The outcome, value or error, is the specification's for the
   * bytes that were left, and an accepted value moves the cursor by exactly what it used.
   */
  method DecodeValue(reader: Reader, depth: nat) returns (r: Result<Value, Error>)
    requires reader.Valid()
    modifies reader
    ensures reader.Valid()
    ensures r == Outcome(Decode(old(reader.Rest()), depth))
    ensures r.Ok? ==> reader.offset == old(reader.offset) + Used(Decode(old(reader.Rest()), depth))
    decreases MAX_DEPTH + 1 - depth, 0
  {
    hide ReadFront, DecodeItems, DecodeEntries;
    if depth > MAX_DEPTH {
      return Err(TooDeep);
    }
    var front := ReadFrontAt(reader);
    match front {
      case Err(e) => r := Err(e);
      case Ok(Leaf(v)) => r := Ok(v);
      case Ok(ArrayOf(count)) =>
        var items := DecodeArray(reader, count, depth + 1);
        match items {
          case Err(e) => r := Err(e);
          case Ok(values) => r := Ok(Arr(values));
        }
      case Ok(MapOf(count)) =>
        var entries := DecodeMap(reader, count, depth + 1);
        match entries {
          case Err(e) => r := Err(e);
          case Ok(pairs) => r := Ok(Map(pairs));
        }
    }
  }

  method SimpleFront(additional: nat) returns (r: Result<Front, Error>)
    ensures r == Outcome(ReadSimple(additional))
    ensures r.Ok? ==> Used(ReadSimple(additional)) == 1
  {
    match additional {
      case 20 => return Ok(Leaf(Bool(false)));
      case 21 => return Ok(Leaf(Bool(true)));
      case 22 => return Ok(Leaf(Null));
      case 23 => return Err(UndefinedValue);
      case _ => return Err(UnsupportedSimple);
    }
  }

  method ReadFrontAt(reader: Reader) returns (r: Result<Front, Error>)
    requires reader.Valid()
    modifies reader
    ensures reader.Valid()
    ensures r == Outcome(ReadFront(old(reader.Rest())))
    ensures r.Ok? ==> reader.offset == old(reader.offset) + Used(ReadFront(old(reader.Rest())))
  {
    hide BigEndian, ReadArgument, ReadSized, ReadSimple;
    ghost var b := reader.Rest();
    var initial := reader.ReadUnsigned(1);
    if initial.Err? {
      return Err(initial.error);
    }
    BigEndian1(b[..1]);
    var major, additional := initial.value / 32, initial.value % 32;
    assert major == b[0] / 32 && additional == b[0] % 32;
    if major == 7 {
      r := SimpleFront(additional);
      return;
    }
    if major == 6 {
      return Err(UnsupportedMajor);
    }
    assert reader.Rest() == b[1..];
    var argument := ReadArgumentAt(reader, additional);
    if argument.Err? {
      return Err(argument.error);
    }
    ghost var used := Used(ReadArgument(b[1..], additional));
    assert reader.Rest() == b[1 + used..];
    r := ReadSizedAt(reader, major, argument.value, 1 + used);
  }

  /** What follows an argument; `used` bytes have been read for it. */
  method ReadSizedAt(reader: Reader, major: nat, arg: Argument, ghost used: nat) returns (r: Result<Front, Error>)
    requires reader.Valid() && major < 6
    modifies reader
    ensures reader.Valid()
    ensures r == Outcome(ReadSized(old(reader.Rest()), major, arg, used))
    ensures r.Ok? ==>
              reader.offset + used == old(reader.offset) + Used(ReadSized(old(reader.Rest()), major, arg, used))
  {
    if major == 0 {
      return Ok(Leaf(IntegerValue(arg.n)));
    }
    if major == 1 {
      return Ok(Leaf(IntegerValue(-1 - arg.n)));
    }
    var length := AsLength(arg, |reader.bytes| - reader.offset);
    if length.Err? {
      return Err(length.error);
    }
    if major == 4 {
      return Ok(ArrayOf(length.value));
    }
    if major == 5 {
      return Ok(MapOf(length.value));
    }
    var payload := reader.Slice(length.value);
    if major == 2 {
      return Ok(Leaf(Bytes(payload.value)));
    }
    if !Utf8.Valid(payload.value) {
      return Err(InvalidUtf8);
    }
    return Ok(Leaf(Text(Utf8.Decoded(payload.value))));
  }

  /** What a loop holding `done` will return once the parse of what is left is known. */
  function Continue<T>(done: seq<T>, left: Result<Parsed<seq<T>>, Error>): Result<seq<T>, Error> {
    match left
    case Ok(p) => Ok(done + p.value)
    case Err(e) => Err(e)
  }

  /** Pushing the next item leaves the loop's eventual outcome unchanged. */
  lemma ItemStep(done: seq<Value>, b: ByteString, count: nat, depth: nat)
    requires count > 0
    ensures match Decode(b, depth)
      case Err(e) => DecodeItems(b, count, depth) == Err(e)
      case Ok(first) =>
        var now, next := DecodeItems(b, count, depth), DecodeItems(b[first.read..], count - 1, depth);
        && Continue(done, now) == Continue(done + [first.value], next)
        && (now.Ok? ==> next.Ok? && now.value.read == first.read + next.value.read)
  {
    hide Decode;
    if Decode(b, depth).Ok? {
      var first := Decode(b, depth).value;
      var next := DecodeItems(b[first.read..], count - 1, depth);
      if next.Ok? {
        assert done + ([first.value] + next.value.value) == (done + [first.value]) + next.value.value;
      }
    }
  }

  /** Adding the next pair leaves the loop's eventual outcome unchanged. */
  lemma EntryStep(done: seq<Entry>, b: ByteString, count: nat, depth: nat)
    requires count > 0
    ensures match Decode(b, depth)
      case Err(e) => DecodeEntries(b, count, done, depth) == Err(e)
      case Ok(key) =>
        var now := DecodeEntries(b, count, done, depth);
        if !key.value.Num? && !key.value.Text? then now == Err(InvalidMapKey)
        else if HasKey(done, key.value) then now == Err(DuplicateKey)
        else match Decode(b[key.read..], depth)
          case Err(e) => now == Err(e)
          case Ok(value) =>
            var grown := done + [Entry(key.value, value.value)];
            var used := key.read + value.read;
            var next := DecodeEntries(b[used..], count - 1, grown, depth);
            && Continue(done, now) == Continue(grown, next)
            && (now.Ok? ==> next.Ok? && now.value.read == used + next.value.read)
  {
    hide Decode, HasKey;
    if Decode(b, depth).Ok? {
      var key := Decode(b, depth).value;
      if (key.value.Num? || key.value.Text?) && !HasKey(done, key.value) && Decode(b[key.read..], depth).Ok? {
        var value := Decode(b[key.read..], depth).value;
        var e := Entry(key.value, value.value);
        var next := DecodeEntries(b[key.read + value.read..], count - 1, done + [e], depth);
        if next.Ok? {
          assert done + ([e] + next.value.value) == (done + [e]) + next.value.value;
        }
      }
    }
  }

  /** The loop that pushes `count` decoded items. */
  method DecodeArray(reader: Reader, count: nat, depth: nat) returns (r: Result<seq<Value>, Error>)
    requires reader.Valid()
    modifies reader
    ensures reader.Valid()
    ensures r == Outcome(DecodeItems(old(reader.Rest()), count, depth))
    ensures r.Ok? ==> reader.offset == old(reader.offset) + Used(DecodeItems(old(reader.Rest()), count, depth))
    decreases MAX_DEPTH + 1 - depth, 1
  {
    hide Decode, DecodeItems;
    var items: seq<Value> := [];
    ghost var all := DecodeItems(reader.Rest(), count, depth);
    ghost var left := all;
    assert left.Ok? ==> items + left.value.value == left.value.value;
    for i := 0 to count
      invariant reader.Valid()
      invariant left == DecodeItems(reader.Rest(), count - i, depth)
      invariant Outcome(all) == Continue(items, left)
      invariant all.Ok? ==> old(reader.offset) + all.value.read == reader.offset + left.value.read
    {
      ghost var rest := reader.Rest();
      ItemStep(items, rest, count - i, depth);
      var item := DecodeValue(reader, depth);
      if item.Err? {
        return Err(item.error);
      }
      assert reader.Rest() == rest[Decode(rest, depth).value.read..];
      left := DecodeItems(reader.Rest(), count - i - 1, depth);
      items := items + [item.value];
    }
    NothingLeft(reader.Rest(), [], depth);
    assert items + [] == items;
    r := Ok(items);
  }

  /** The loop that fills a map, refusing keys that are not integers or text and keys seen before. */
  method DecodeMap(reader: Reader, count: nat, depth: nat) returns (r: Result<seq<Entry>, Error>)
    requires reader.Valid()
    modifies reader
    ensures reader.Valid()
    ensures r == Outcome(DecodeEntries(old(reader.Rest()), count, [], depth))
    ensures r.Ok? ==>
      reader.offset == old(reader.offset) + Used(DecodeEntries(old(reader.Rest()), count, [], depth))
    decreases MAX_DEPTH + 1 - depth, 1
  {
    hide Decode, DecodeEntries, HasKey;
    var entries: seq<Entry> := [];
    ghost var all := DecodeEntries(reader.Rest(), count, [], depth);
    ghost var left := all;
    assert left.Ok? ==> entries + left.value.value == left.value.value;
    for i := 0 to count
      invariant reader.Valid()
      invariant left == DecodeEntries(reader.Rest(), count - i, entries, depth)
      invariant Outcome(all) == Continue(entries, left)
      invariant all.Ok? ==> old(reader.offset) + all.value.read == reader.offset + left.value.read
    {
      ghost var rest := reader.Rest();
      EntryStep(entries, rest, count - i, depth);
      var key := DecodeValue(reader, depth);
      if key.Err? {
        return Err(key.error);
      }
      if !key.value.Num? && !key.value.Text? {
        return Err(InvalidMapKey);
      }
      if HasKey(entries, key.value) {
        return Err(DuplicateKey);
      }
      ghost var k := Decode(rest, depth).value.read;
      assert reader.Rest() == rest[k..];
      var value := DecodeValue(reader, depth);
      if value.Err? {
        return Err(value.error);
      }
      assert reader.Rest() == rest[k + Decode(rest[k..], depth).value.read..];
      entries := entries + [Entry(key.value, value.value)];
      left := DecodeEntries(reader.Rest(), count - i - 1, entries, depth);
    }
    NothingLeft(reader.Rest(), entries, depth);
    assert entries + [] == entries;
    r := Ok(entries);
  }

  /** Decodes one value and requires it to be the whole input. */
  method DecodeCbor(bytes: ByteString) returns (r: Result<Value, Option<Error>>)
    ensures r == DecodeAll(bytes)
  {
    var reader := new Reader(bytes);
    assert reader.Rest() == bytes;
    var value := DecodeValue(reader, 0);
    match value {
      case Err(e) => r := Err(Some(e));
      case Ok(v) => r := if reader.offset == |bytes| then Ok(v) else Err(None);
    }
  }

  /** The value that the bytes begin with, and where it ends; whatever follows is left alone. */
  method DecodeCborPrefix(bytes: ByteString) returns (r: Result<Parsed<Value>, Error>)
    ensures r == Decode(bytes, 0)
  {
    var reader := new Reader(bytes);
    assert reader.Rest() == bytes;
    var value := DecodeValue(reader, 0);
    match value {
      case Err(e) => r := Err(e);
      case Ok(v) => r := Ok(Parsed(v, reader.offset));
    }
  }
}
