/**
 * Strict DER tag-length-value reading, with tag numbers up to three groups and lengths up to
 * three bytes (sections 8.1.2 and 8.1.3 of ITU-T X.690).
 */
module Asn1 {
  import opened Bytes
  import opened Wrappers
  import opened Der
  import Base128

  datatype Error =
    | TruncatedHeader
    | TruncatedTag
    | TagTooLarge
    | NonMinimalTag
    | BadLength(reason: LengthError)
    | Overrun
    | TooDeep
    | ChildOverrun
    | InvalidOid
    | NotCertificate
    | NotTbsCertificate
    | BadExtensions
    | NotExtension
    | NoExtensionOid
    | NoExtensionValue
    | UnexpectedField

  /** One tag-length-value triple, with absolute offsets into the buffer it was read from. */
  datatype Node = Node(tag: Byte, number: nat, start: nat, end: nat)

  /** A tag number and the offset after it. */
  datatype TagNumber = TagNumber(number: nat, next: nat)

  const MAX_DEPTH := 12
  const LENGTH_BYTES := 3
  const MAX_CONTENT := 0x100_0000
  const MAX_TAG_NUMBER := 0x20_0000

  /** Groups of a high tag number from `cursor` on, `seen` of them already folded into `number`. */
  function ReadTagNumber(b: ByteString, cursor: nat, seen: nat, number: nat): (r: Result<TagNumber, Error>)
    ensures r.Ok? ==> cursor < r.value.next <= |b|
    decreases |b| - cursor
  {
    if cursor >= |b| then Err(TruncatedTag)
    else if seen >= 3 then Err(TagTooLarge)
    else if seen == 0 && b[cursor] % 128 == 0 then Err(NonMinimalTag)
    else
      var grown := number * 128 + b[cursor] % 128;
      if b[cursor] < 128 then Ok(TagNumber(grown, cursor + 1))
      else ReadTagNumber(b, cursor + 1, seen + 1, grown)
  }

  /** The tag number at `offset`, in its single-byte or its multi-byte form. */
  function ReadTag(b: ByteString, offset: nat): (r: Result<TagNumber, Error>)
    requires offset < |b|
    ensures r.Ok? ==> offset < r.value.next <= |b|
  {
    if b[offset] % 32 != 31 then Ok(TagNumber(b[offset] % 32, offset + 1))
    else
      var t :- ReadTagNumber(b, offset + 1, 0, 0);
      if t.number < 31 then Err(NonMinimalTag) else Ok(t)
  }

  function ReadTlv(b: ByteString, offset: nat): (r: Result<Node, Error>)
    ensures r.Ok? ==> offset < r.value.start <= r.value.end <= |b|
  {
    if offset + 2 > |b| then Err(TruncatedHeader)
    else
      var t :- ReadTag(b, offset);
      if t.next >= |b| then Err(TruncatedHeader)
      else
        match ReadLength(b, t.next, LENGTH_BYTES)
        case Err(e) => Err(BadLength(e))
        case Ok(l) =>
          if l.next + l.length > |b| then Err(Overrun)
          else Ok(Node(b[offset], t.number, l.next, l.next + l.length))
  }

  /** The nodes that follow one another from `offset` up to `end`. */
  function ReadRun(b: ByteString, offset: nat, end: nat): (r: Result<seq<Node>, Error>)
    decreases end - offset
  {
    if offset >= end then Ok([])
    else
      var node :- ReadTlv(b, offset);
      if node.end > end then Err(ChildOverrun)
      else
        var rest :- ReadRun(b, node.end, end);
        Ok([node] + rest)
  }

  function Children(b: ByteString, parent: Node, depth: nat): Result<seq<Node>, Error> {
    if depth > MAX_DEPTH then Err(TooDeep) else ReadRun(b, parent.start, parent.end)
  }

  // ---- The reader as it runs -------------------------------------------------------------

  /** The loop over the groups of a high tag number. */
  method ReadTagNumberAt(b: ByteString, offset: nat) returns (r: Result<TagNumber, Error>)
    ensures r == ReadTagNumber(b, offset, 0, 0)
  {
    var cursor: nat, number: nat, seen: nat := offset, 0, 0;
    while true
      invariant seen <= 3
      invariant ReadTagNumber(b, cursor, seen, number) == ReadTagNumber(b, offset, 0, 0)
      decreases 3 - seen
    {
      if cursor >= |b| {
        return Err(TruncatedTag);
      }
      if seen >= 3 {
        return Err(TagTooLarge);
      }
      var byte: nat := b[cursor];
      cursor := cursor + 1;
      if seen == 0 && byte % 128 == 0 {
        return Err(NonMinimalTag);
      }
      number := number * 128 + byte % 128;
      if byte < 128 {
        return Ok(TagNumber(number, cursor));
      }
      seen := seen + 1;
    }
  }

  method ReadTlvAt(b: ByteString, offset: nat) returns (r: Result<Node, Error>)
    ensures r == ReadTlv(b, offset)
  {
    hide ReadTagNumber, ReadLength;
    if offset + 2 > |b| {
      return Err(TruncatedHeader);
    }
    var tag := b[offset];
    var cursor := offset + 1;
    var number: nat := tag % 32;
    if number == 31 {
      var high := ReadTagNumberAt(b, cursor);
      if high.Err? {
        return Err(high.error);
      }
      number, cursor := high.value.number, high.value.next;
      if number < 31 {
        return Err(NonMinimalTag);
      }
    }
    if cursor >= |b| {
      return Err(TruncatedHeader);
    }
    var length := ReadLengthAt(b, cursor, LENGTH_BYTES);
    if length.Err? {
      return Err(BadLength(length.error));
    }
    var end := length.value.next + length.value.length;
    if end > |b| {
      return Err(Overrun);
    }
    return Ok(Node(tag, number, length.value.next, end));
  }

  function Prepend(done: seq<Node>, left: Result<seq<Node>, Error>): Result<seq<Node>, Error> {
    match left
    case Ok(nodes) => Ok(done + nodes)
    case Err(e) => Err(e)
  }

  lemma PrependNothing(left: Result<seq<Node>, Error>, done: seq<Node>)
    ensures Prepend([], left) == left && Prepend(done, Ok([])) == Ok(done)
  {
    if left.Ok? {
      assert [] + left.value == left.value;
    }
    assert done + [] == done;
  }

  /** One more node read from a run that goes on. */
  lemma RunGoesOn(b: ByteString, offset: nat, end: nat, done: seq<Node>)
    requires offset < end && ReadTlv(b, offset).Ok? && ReadTlv(b, offset).value.end <= end
    ensures var node := ReadTlv(b, offset).value;
      Prepend(done, ReadRun(b, offset, end)) == Prepend(done + [node], ReadRun(b, node.end, end))
  {
    hide ReadTlv;
    var node := ReadTlv(b, offset).value;
    var rest := ReadRun(b, node.end, end);
    if rest.Ok? {
      assert done + ([node] + rest.value) == (done + [node]) + rest.value;
    }
  }

  lemma RunStops(b: ByteString, offset: nat, end: nat)
    ensures offset >= end ==> ReadRun(b, offset, end) == Ok([])
    ensures offset < end && ReadTlv(b, offset).Err? ==> ReadRun(b, offset, end) == Err(ReadTlv(b, offset).error)
    ensures offset < end && ReadTlv(b, offset).Ok? && ReadTlv(b, offset).value.end > end ==>
              ReadRun(b, offset, end) == Err(ChildOverrun)
  {
    hide ReadTlv;
  }

  /** The loop that collects the immediate children of a constructed node. */
  method ChildrenOf(b: ByteString, parent: Node, depth: nat) returns (r: Result<seq<Node>, Error>)
    ensures r == Children(b, parent, depth)
  {
    hide ReadTlv, ReadRun;
    if depth > MAX_DEPTH {
      return Err(TooDeep);
    }
    var out: seq<Node> := [];
    var offset := parent.start;
    PrependNothing(ReadRun(b, parent.start, parent.end), out);
    while offset < parent.end
      invariant Prepend(out, ReadRun(b, offset, parent.end)) == ReadRun(b, parent.start, parent.end)
      decreases parent.end - offset
    {
      RunStops(b, offset, parent.end);
      var node := ReadTlvAt(b, offset);
      if node.Err? {
        return Err(node.error);
      }
      if node.value.end > parent.end {
        return Err(ChildOverrun);
      }
      RunGoesOn(b, offset, parent.end, out);
      out := out + [node.value];
      offset := node.value.end;
    }
    RunStops(b, offset, parent.end);
    PrependNothing(Ok([]), out);
    return Ok(out);
  }

  // ---- The one header of each node -------------------------------------------------------

  /** The identifier bytes of a tag: one byte, or a leading byte and continued groups. */
  function Identifier(tag: Byte, number: nat): ByteString {
    if tag % 32 == 31 then [tag] + Base128.Encoded(number) else [tag]
  }

  function Header(tag: Byte, number: nat, length: nat): ByteString {
    Identifier(tag, number) + EncodeLength(length)
  }

  /** An element printed with the shortest header its tag and length admit. */
  function Print(tag: Byte, number: nat, content: ByteString): ByteString {
    Header(tag, number, |content|) + content
  }

  /** What a tag byte, its number and a content length must satisfy to be read back. */
  predicate Printable(tag: Byte, number: nat, length: nat) {
    && length < MAX_CONTENT
    && (if tag % 32 == 31 then 31 <= number < MAX_TAG_NUMBER else number == tag % 32)
  }

  /** Groups read at `cursor` fold to the number they denote and end where they end. */
  lemma {:induction false} TagNumberRead(
      b: ByteString, cursor: nat, groups: ByteString, seen: nat, number: nat)
    requires 0 < |groups| && seen + |groups| <= 3
    requires forall i :: 0 <= i < |groups| ==> groups[i] < 128
    requires seen == 0 ==> groups[0] != 0
    requires cursor + |groups| <= |b| && b[cursor..cursor + |groups|] == Base128.Continued(groups)
    ensures ReadTagNumber(b, cursor, seen, number)
            == Ok(TagNumber(Base128.Fold(number, groups), cursor + |groups|))
    decreases |groups|
  {
    var at := b[cursor..cursor + |groups|];
    assert b[cursor] == at[0];
    if |groups| > 1 {
      assert b[cursor + 1..cursor + |groups|] == at[1..] == Base128.Continued(groups[1..]);
      TagNumberRead(b, cursor + 1, groups[1..], seen + 1, number * 128 + groups[0]);
    }
  }

  /** Conversely, the groups that were read, and that they were few and not led by zero. */
  lemma {:induction false} TagGroups(b: ByteString, cursor: nat, seen: nat, number: nat)
      returns (groups: ByteString)
    requires ReadTagNumber(b, cursor, seen, number).Ok?
    ensures forall i :: 0 <= i < |groups| ==> groups[i] < 128
    ensures 0 < |groups| && seen + |groups| <= 3 && (seen == 0 ==> groups[0] != 0)
    ensures var t := ReadTagNumber(b, cursor, seen, number).value;
      && t == TagNumber(Base128.Fold(number, groups), cursor + |groups|)
      && b[cursor..t.next] == Base128.Continued(groups)
    decreases |b| - cursor
  {
    var group := b[cursor] % 128;
    if b[cursor] < 128 {
      groups := [group];
    } else {
      var rest := TagGroups(b, cursor + 1, seen + 1, number * 128 + group);
      groups := [group] + rest;
      assert groups[1..] == rest;
    }
  }

  lemma TagCanonical(b: ByteString, offset: nat)
    requires offset < |b| && ReadTag(b, offset).Ok?
    ensures var t := ReadTag(b, offset).value;
      && b[offset..t.next] == Identifier(b[offset], t.number)
      && Printable(b[offset], t.number, 0)
  {
    var t := ReadTag(b, offset).value;
    if b[offset] % 32 == 31 {
      var groups := TagGroups(b, offset + 1, 0, 0);
      Base128.GroupsUnique(groups);
      assert b[offset..t.next] == [b[offset]] + b[offset + 1..t.next];
    }
  }

  /** A node is read only from the one header that its tag, number and length have. */
  lemma HeaderCanonical(b: ByteString, offset: nat)
    requires ReadTlv(b, offset).Ok?
    ensures var n := ReadTlv(b, offset).value;
      && Printable(n.tag, n.number, n.end - n.start)
      && b[offset..n.start] == Header(n.tag, n.number, n.end - n.start)
      && b[offset..n.end] == Print(n.tag, n.number, b[n.start..n.end])
  {
    hide ReadTag, ReadLength, Identifier, EncodeLength;
    var n := ReadTlv(b, offset).value;
    var t := ReadTag(b, offset).value;
    TagCanonical(b, offset);
    LengthCanonical(b, t.next, LENGTH_BYTES);
    Pow256Small();
    assert b[offset..n.start] == b[offset..t.next] + b[t.next..n.start];
    assert b[offset..n.end] == b[offset..n.start] + b[n.start..n.end];
  }

  lemma TagRead(b: ByteString, offset: nat, tag: Byte, number: nat)
    requires Printable(tag, number, 0)
    requires var id := Identifier(tag, number); offset + |id| <= |b| && b[offset..offset + |id|] == id
    ensures ReadTag(b, offset) == Ok(TagNumber(number, offset + |Identifier(tag, number)|))
  {
    hide ReadTagNumber;
    var id := Identifier(tag, number);
    assert b[offset] == b[offset..offset + |id|][0] == tag;
    if tag % 32 == 31 {
      var groups := Base128.Groups(number);
      Base128.GroupsAreSmall(number);
      Base128.GroupsCount(number);
      Base128.GroupsDenote(number);
      assert b[offset + 1..offset + |id|] == id[1..] == Base128.Continued(groups);
      TagNumberRead(b, offset + 1, groups, 0, 0);
    }
  }

  /** A printed element is read back wherever it lies, whatever surrounds it. */
  lemma PrintedRead(b: ByteString, offset: nat, tag: Byte, number: nat, content: ByteString)
    requires Printable(tag, number, |content|)
    requires var p := Print(tag, number, content); offset + |p| <= |b| && b[offset..offset + |p|] == p
    ensures var h := |Header(tag, number, |content|)|;
      && ReadTlv(b, offset) == Ok(Node(tag, number, offset + h, offset + h + |content|))
      && b[offset + h..offset + h + |content|] == content
  {
    hide ReadTag, ReadLength, EncodeLength;
    var id, len := Identifier(tag, number), EncodeLength(|content|);
    PartsInPlace(b, offset, id, len, content);
    assert b[offset] == b[offset..offset + |id|][0] == tag;
    TagRead(b, offset, tag, number);
    Pow256Small();
    LengthRead(b, offset + |id|, LENGTH_BYTES, |content|);
  }

  lemma PrintLength(tag: Byte, number: nat, content: ByteString)
    ensures |Print(tag, number, content)| == |Header(tag, number, |content|)| + |content|
  {
  }

  /** Printing, then reading, gives the element back if and only if it is printable. */
  lemma ReadUndoesPrint(tag: Byte, number: nat, content: ByteString)
    ensures var p := Print(tag, number, content);
      ReadTlv(p, 0) == Ok(Node(tag, number, |p| - |content|, |p|)) <==> Printable(tag, number, |content|)
  {
    hide ReadTlv, Print, Header, Printable;
    var p := Print(tag, number, content);
    if ReadTlv(p, 0).Ok? {
      HeaderCanonical(p, 0);
    }
    PrintLength(tag, number, content);
    if Printable(tag, number, |content|) {
      assert p[0..|p|] == p;
      PrintedRead(p, 0, tag, number, content);
    }
  }

  /** The low-tag builder is the printer, for tags whose number fits the first byte. */
  lemma TlvIsPrint(tag: Byte, content: ByteString)
    requires tag % 32 != 31
    ensures Tlv(tag, content) == Print(tag, tag % 32, content)
  {
  }

  /** The constructed context-specific builder for tag numbers of 31 and more. */
  function HighContext(number: nat, content: ByteString): ByteString
    requires number >= 31
  {
    [0xBF] + Base128.Encoded(number) + EncodeLength(|content|) + content
  }

  lemma HighContextIsPrint(number: nat, content: ByteString)
    requires number >= 31
    ensures HighContext(number, content) == Print(0xBF, number, content)
  {
  }

  // ---- Whole elements, and runs of them --------------------------------------------------

  /** `chunk` is one element and nothing more. */
  predicate Whole(chunk: ByteString) {
    ReadTlv(chunk, 0).Ok? && ReadTlv(chunk, 0).value.end == |chunk|
  }

  function Root(chunk: ByteString): Node
    requires Whole(chunk)
  {
    ReadTlv(chunk, 0).value
  }

  function Content(chunk: ByteString): ByteString
    requires Whole(chunk)
  {
    chunk[Root(chunk).start..]
  }

  function Shift(node: Node, delta: nat): Node {
    node.(start := node.start + delta, end := node.end + delta)
  }

  lemma TlvWhole(tag: Byte, content: ByteString)
    requires tag % 32 != 31 && |content| < MAX_CONTENT
    ensures Whole(Tlv(tag, content))
    ensures Root(Tlv(tag, content)).tag == tag && Content(Tlv(tag, content)) == content
  {
    hide ReadTlv, Header;
    var p := Tlv(tag, content);
    TlvIsPrint(tag, content);
    ReadUndoesPrint(tag, tag % 32, content);
    assert p[|p| - |content|..] == content;
  }

  lemma HighContextWhole(number: nat, content: ByteString)
    requires 31 <= number < MAX_TAG_NUMBER && |content| < MAX_CONTENT
    ensures Whole(HighContext(number, content))
    ensures Root(HighContext(number, content)).tag == 0xBF && Root(HighContext(number, content)).number == number
    ensures Content(HighContext(number, content)) == content
  {
    hide ReadTlv, Header;
    var p := HighContext(number, content);
    HighContextIsPrint(number, content);
    ReadUndoesPrint(0xBF, number, content);
    assert p[|p| - |content|..] == content;
  }

  /** A whole element is read the same way inside any buffer that contains it. */
  lemma WholeInPlace(b: ByteString, offset: nat, chunk: ByteString)
    requires Whole(chunk) && offset + |chunk| <= |b| && b[offset..offset + |chunk|] == chunk
    ensures ReadTlv(b, offset) == Ok(Shift(Root(chunk), offset))
    ensures b[offset + Root(chunk).start..offset + |chunk|] == Content(chunk)
  {
    hide ReadTlv, Header;
    var n := Root(chunk);
    HeaderCanonical(chunk, 0);
    assert chunk[0..|chunk|] == chunk && chunk[n.start..n.end] == Content(chunk);
    assert |chunk[0..n.start]| == n.start;
    PrintedRead(b, offset, n.tag, n.number, Content(chunk));
  }

  /** The roots of `chunks` laid one after another from `offset` on. */
  function Roots(chunks: seq<ByteString>, offset: nat): (nodes: seq<Node>)
    requires forall i :: 0 <= i < |chunks| ==> Whole(chunks[i])
    ensures |nodes| == |chunks|
  {
    if |chunks| == 0 then []
    else [Shift(Root(chunks[0]), offset)] + Roots(chunks[1..], offset + |chunks[0]|)
  }

  /** A run of whole elements is read as exactly those elements, each in its place. */
  lemma {:induction false} RunOfWholes(b: ByteString, offset: nat, chunks: seq<ByteString>)
    requires forall i :: 0 <= i < |chunks| ==> Whole(chunks[i])
    requires var n := |Concat(chunks)|; offset + n <= |b| && b[offset..offset + n] == Concat(chunks)
    ensures ReadRun(b, offset, offset + |Concat(chunks)|) == Ok(Roots(chunks, offset))
    decreases |chunks|
  {
    hide ReadTlv, Whole;
    if |chunks| > 0 {
      var first, rest := chunks[0], Concat(chunks[1..]);
      PartsInPlace(b, offset, first, rest, []);
      assert first + rest + [] == Concat(chunks);
      WholeInPlace(b, offset, first);
      assert Root(first).end == |first| by { WholeEnds(first); }
      RunOfWholes(b, offset + |first|, chunks[1..]);
    }
  }

  lemma WholeEnds(chunk: ByteString)
    requires Whole(chunk)
    ensures 0 < Root(chunk).start <= Root(chunk).end == |chunk|
  {
  }

  /** `chunk` lies in `b` at `offset`. */
  predicate At(b: ByteString, offset: nat, chunk: ByteString) {
    offset + |chunk| <= |b| && b[offset..offset + |chunk|] == chunk
  }

  /** Where the i-th of consecutive chunks lies, and the root that is read there. */
  lemma {:induction false} RootAt(b: ByteString, chunks: seq<ByteString>, offset: nat, i: nat) returns (place: nat)
    requires forall k :: 0 <= k < |chunks| ==> Whole(chunks[k])
    requires i < |chunks| && At(b, offset, Concat(chunks))
    ensures At(b, place, chunks[i]) && Roots(chunks, offset)[i] == Shift(Root(chunks[i]), place)
    decreases i
  {
    hide Whole;
    assert chunks[0] + Concat(chunks[1..]) + [] == Concat(chunks);
    PartsInPlace(b, offset, chunks[0], Concat(chunks[1..]), []);
    if i == 0 {
      place := offset;
    } else {
      place := RootAt(b, chunks[1..], offset + |chunks[0]|, i - 1);
    }
  }

  /** A constructed element in place: its content, and the children that are read from it. */
  lemma Nested(b: ByteString, offset: nat, tag: Byte, chunks: seq<ByteString>)
    requires tag % 32 != 31 && |Concat(chunks)| < MAX_CONTENT
    requires forall i :: 0 <= i < |chunks| ==> Whole(chunks[i])
    requires At(b, offset, Tlv(tag, Concat(chunks)))
    ensures Whole(Tlv(tag, Concat(chunks)))
    ensures var node := Shift(Root(Tlv(tag, Concat(chunks))), offset);
      && ReadTlv(b, offset) == Ok(node) && node.tag == tag && node.number == tag % 32
      && At(b, node.start, Concat(chunks)) && node.end == node.start + |Concat(chunks)|
      && ReadRun(b, node.start, node.end) == Ok(Roots(chunks, node.start))
  {
    hide ReadTlv, ReadRun, Tlv;
    var chunk := Tlv(tag, Concat(chunks));
    TlvNode(tag, Concat(chunks));
    WholeInPlace(b, offset, chunk);
    var node := Shift(Root(chunk), offset);
    RunOfWholes(b, node.start, chunks);
  }

  lemma TlvNode(tag: Byte, content: ByteString)
    requires tag % 32 != 31 && |content| < MAX_CONTENT
    ensures var chunk := Tlv(tag, content);
      && Whole(chunk)
      && Root(chunk) == Node(tag, tag % 32, |chunk| - |content|, |chunk|) && Content(chunk) == content
  {
    hide ReadTlv, Header;
    TlvWhole(tag, content);
    TlvIsPrint(tag, content);
    ReadUndoesPrint(tag, tag % 32, content);
  }

  /** The pieces of the buffer that the nodes occupy, headers included. */
  function Pieces(b: ByteString, nodes: seq<Node>): seq<ByteString>
    requires forall i :: 0 <= i < |nodes| ==> nodes[i].start <= nodes[i].end <= |b|
  {
    if |nodes| == 0 then []
    else [Print(nodes[0].tag, nodes[0].number, b[nodes[0].start..nodes[0].end])] + Pieces(b, nodes[1..])
  }

  /** The children of a node tile it: printed again, side by side, they are its content, byte for byte. */
  lemma {:induction false} ChildrenTile(b: ByteString, offset: nat, end: nat)
    requires offset <= end && ReadRun(b, offset, end).Ok?
    ensures var nodes := ReadRun(b, offset, end).value;
      && (forall i :: 0 <= i < |nodes| ==> offset < nodes[i].start <= nodes[i].end <= |b| && nodes[i].end <= end)
      && (offset < end ==> end <= |b|)
      && (end <= |b| ==> Concat(Pieces(b, nodes)) == b[offset..end])
    decreases end - offset
  {
    hide ReadTlv, Print;
    if offset < end {
      var node := ReadTlv(b, offset).value;
      HeaderCanonical(b, offset);
      ChildrenTile(b, node.end, end);
      var nodes, rest := ReadRun(b, offset, end).value, ReadRun(b, node.end, end).value;
      assert nodes[1..] == rest;
      assert b[offset..end] == b[offset..node.end] + b[node.end..end];
    }
  }
}
