/** Android Keystore key descriptions: the parser, the builder it undoes, and the checks on what it reads. */
module AndroidKey {
  import opened Bytes
  import opened Wrappers
  import opened Der
  import opened Asn1
  import Base128

  datatype Error =
    | Malformed(reason: Asn1.Error)
    | NotInteger
    | EmptyInteger
    | IntegerTooLarge
    | NegativeInteger
    | NotSequence
    | NotContextTagged
    | PurposeNotSet
    | OriginEmpty
    | TooFewFields
    | ChallengeNotOctets
    | AllApplications
    | NoOrigin
    | WrongOrigin
    | NoSigningPurpose

  /** The fields of an authorization list that are consulted. */
  datatype AuthorizationList = AuthorizationList(
    purposes: Option<seq<nat>>, allApplications: bool, origin: Option<nat>)

  datatype KeyDescription = KeyDescription(
    challenge: ByteString, software: AuthorizationList, tee: AuthorizationList)

  const TAG_PURPOSE := 1
  const TAG_ALL_APPLICATIONS := 600
  const TAG_ORIGIN := 702
  const TAG_INTEGER: Byte := 0x02
  const TAG_OCTET_STRING: Byte := 0x04
  const TAG_NULL: Byte := 0x05
  const TAG_ENUMERATED: Byte := 0x0A
  const TAG_SEQUENCE: Byte := 0x30
  const TAG_SET: Byte := 0x31
  const ORIGIN_GENERATED := 0
  const PURPOSE_SIGN := 2

  const NOTHING := AuthorizationList(None, false, None)

  // ---- The parser ------------------------------------------------------------------------

  /** A small non-negative INTEGER's content. */
  function SmallInteger(content: ByteString): Result<nat, Error> {
    if |content| == 0 then Err(EmptyInteger)
    else if |content| > 4 then Err(IntegerTooLarge)
    else if content[0] >= 0x80 then Err(NegativeInteger)
    else Ok(BigEndian(content))
  }

  function ReadInteger(b: ByteString, node: Node): Result<nat, Error>
    requires node.start <= node.end <= |b|
  {
    if node.tag != TAG_INTEGER then Err(NotInteger) else SmallInteger(b[node.start..node.end])
  }

  predicate InBuffer(b: ByteString, nodes: seq<Node>) {
    forall i :: 0 <= i < |nodes| ==> nodes[i].start <= nodes[i].end <= |b|
  }

  function ReadIntegers(b: ByteString, nodes: seq<Node>): Result<seq<nat>, Error>
    requires InBuffer(b, nodes)
  {
    if |nodes| == 0 then Ok([])
    else
      var first :- ReadInteger(b, nodes[0]);
      var rest :- ReadIntegers(b, nodes[1..]);
      Ok([first] + rest)
  }

  /** The children of a node, known to lie in the buffer. */
  function ChildrenIn(b: ByteString, node: Node, depth: nat): (r: Result<seq<Node>, Error>)
    ensures r.Ok? ==> InBuffer(b, r.value)
  {
    match Children(b, node, depth)
    case Err(e) => Err(Malformed(e))
    case Ok(nodes) => ReadInBuffer(b, node.start, node.end); Ok(nodes)
  }

  lemma {:induction false} ReadInBuffer(b: ByteString, offset: nat, end: nat)
    requires ReadRun(b, offset, end).Ok?
    ensures InBuffer(b, ReadRun(b, offset, end).value)
    decreases end - offset
  {
    hide ReadTlv;
    if offset < end {
      ReadInBuffer(b, ReadTlv(b, offset).value.end, end);
    }
  }

  /** One field of an authorization list, taken into what the fields before it said. */
  function ReadField(b: ByteString, field: Node, list: AuthorizationList): Result<AuthorizationList, Error> {
    if field.tag / 64 != 2 then Err(NotContextTagged)
    else if field.number == TAG_ALL_APPLICATIONS then Ok(list.(allApplications := true))
    else if field.number == TAG_PURPOSE then
      var inner :- ChildrenIn(b, field, 7);
      if |inner| == 0 || inner[0].tag != TAG_SET then Err(PurposeNotSet)
      else
        var entries :- ChildrenIn(b, inner[0], 8);
        var purposes :- ReadIntegers(b, entries);
        Ok(list.(purposes := Some(purposes)))
    else if field.number == TAG_ORIGIN then
      var inner :- ChildrenIn(b, field, 7);
      if |inner| == 0 then Err(OriginEmpty)
      else
        var origin :- ReadInteger(b, inner[0]);
        Ok(list.(origin := Some(origin)))
    else Ok(list)
  }

  function ReadFields(b: ByteString, fields: seq<Node>, list: AuthorizationList): Result<AuthorizationList, Error>
    decreases |fields|
  {
    if |fields| == 0 then Ok(list)
    else
      var grown :- ReadField(b, fields[0], list);
      ReadFields(b, fields[1..], grown)
  }

  function ReadList(b: ByteString, node: Node): Result<AuthorizationList, Error> {
    if node.tag != TAG_SEQUENCE then Err(NotSequence)
    else
      var fields :- ChildrenIn(b, node, 6);
      ReadFields(b, fields, NOTHING)
  }

  function Parse(extension: ByteString): Result<KeyDescription, Error> {
    match ReadTlv(extension, 0)
    case Err(e) => Err(Malformed(e))
    case Ok(root) =>
      if root.tag != TAG_SEQUENCE then Err(NotSequence)
      else
        var fields :- ChildrenIn(extension, root, 5);
        if |fields| < 8 then Err(TooFewFields)
        else if fields[4].tag != TAG_OCTET_STRING then Err(ChallengeNotOctets)
        else
          var software :- ReadList(extension, fields[6]);
          var tee :- ReadList(extension, fields[7]);
          Ok(KeyDescription(extension[fields[4].start..fields[4].end], software, tee))
  }

  // ---- The parser's loops ----------------------------------------------------------------

  method ReadSmallInteger(content: ByteString) returns (r: Result<nat, Error>)
    ensures r == SmallInteger(content)
  {
    if |content| == 0 {
      return Err(EmptyInteger);
    }
    if |content| > 4 {
      return Err(IntegerTooLarge);
    }
    if content[0] >= 0x80 {
      return Err(NegativeInteger);
    }
    var value: nat := 0;
    for i := 0 to |content|
      invariant value == BigEndian(content[..i])
    {
      value := value * 256 + content[i];
      assert content[..i + 1][..i] == content[..i];
    }
    assert content[..|content|] == content;
    r := Ok(value);
  }

  /** The loop that locates fields by tag, the last of a kind deciding. */
  method ReadAuthorizationList(b: ByteString, node: Node) returns (r: Result<AuthorizationList, Error>)
    ensures r == ReadList(b, node)
  {
    hide ReadField, ReadRun;
    if node.tag != TAG_SEQUENCE {
      return Err(NotSequence);
    }
    var children := ChildrenOf(b, node, 6);
    if children.Err? {
      return Err(Malformed(children.error));
    }
    var fields := children.value;
    var list := NOTHING;
    for i := 0 to |fields|
      invariant ReadFields(b, fields[i..], list) == ReadFields(b, fields, NOTHING)
    {
      assert fields[i..][1..] == fields[i + 1..];
      var grown := ReadField(b, fields[i], list);
      if grown.Err? {
        return Err(grown.error);
      }
      list := grown.value;
    }
    r := Ok(list);
  }

  // ---- The builder -----------------------------------------------------------------------

  /** Minimal digits of a positive INTEGER: zeros that carry no sign information are dropped. */
  function DropZeros(digits: ByteString): ByteString {
    if |digits| > 1 && digits[0] == 0 && digits[1] < 0x80 then DropZeros(digits[1..]) else digits
  }

  function IntegerContent(value: nat): ByteString {
    var d := DropZeros(if value == 0 then [0] else Digits(value));
    if |d| > 0 && d[0] >= 0x80 then [0] + d else d
  }

  function Integer(value: nat): ByteString {
    Tlv(TAG_INTEGER, IntegerContent(value))
  }

  function Integers(values: seq<nat>): (chunks: seq<ByteString>)
    ensures |chunks| == |values|
    ensures forall i :: 0 <= i < |chunks| ==> chunks[i] == Integer(values[i])
  {
    seq(|values|, i requires 0 <= i < |values| => Integer(values[i]))
  }

  function PurposeField(purposes: seq<nat>): ByteString {
    Tlv(0xA0 + TAG_PURPOSE, Tlv(TAG_SET, Concat(Integers(purposes))))
  }

  /** The fields of a list, ascending by tag as Keystore writes them. */
  function ListFields(list: AuthorizationList): seq<ByteString> {
    (if list.purposes.Some? then [PurposeField(list.purposes.value)] else [])
    + (if list.allApplications then [HighContext(TAG_ALL_APPLICATIONS, Tlv(TAG_NULL, []))] else [])
    + (if list.origin.Some? then [HighContext(TAG_ORIGIN, Integer(list.origin.value))] else [])
  }

  function BuildList(list: AuthorizationList): ByteString {
    Tlv(TAG_SEQUENCE, Concat(ListFields(list)))
  }

  function DescriptionFields(d: KeyDescription): seq<ByteString> {
    [Integer(200), Tlv(TAG_ENUMERATED, [1]), Integer(41), Tlv(TAG_ENUMERATED, [1]),
     Tlv(TAG_OCTET_STRING, d.challenge), Tlv(TAG_OCTET_STRING, []), BuildList(d.software), BuildList(d.tee)]
  }

  function Build(d: KeyDescription): ByteString {
    Tlv(TAG_SEQUENCE, Concat(DescriptionFields(d)))
  }

  // ---- Parsing undoes building -----------------------------------------------------------

  const INTEGER_BOUND := 0x8000_0000

  predicate SmallList(list: AuthorizationList) {
    && (list.purposes.Some? ==> forall i :: 0 <= i < |list.purposes.value| ==> list.purposes.value[i] < INTEGER_BOUND)
    && (list.origin.Some? ==> list.origin.value < INTEGER_BOUND)
  }

  lemma IntegerContentRead(value: nat)
    ensures SmallInteger(IntegerContent(value)) == Ok(value) <==> value < INTEGER_BOUND
    ensures |IntegerContent(value)| <= 5
  {
    hide Digits, BigEndian;
    var content := IntegerContent(value);
    if value < INTEGER_BOUND {
      IntegerContentDenotes(value);
    }
    if SmallInteger(content).Ok? {
      SmallIntegerBound(content);
    }
    if value > 0 {
      DropZerosShortens(Digits(value));
    }
  }

  lemma {:induction false} DropZerosShortens(d: ByteString)
    ensures |DropZeros(d)| <= |d|
    decreases |d|
  {
    if |d| > 1 {
      DropZerosShortens(d[1..]);
    }
  }

  lemma SmallIntegerBound(content: ByteString)
    requires 0 < |content| <= 4 && content[0] < 0x80
    ensures BigEndian(content) < INTEGER_BOUND
  {
    if |content| < 4 {
      BigEndianBound(content);
      Pow256Small();
    } else {
      BigEndian4(content);
    }
  }

  lemma IntegerContentDenotes(value: nat)
    requires value < INTEGER_BOUND
    ensures SmallInteger(IntegerContent(value)) == Ok(value)
  {
    hide Digits;
    if value == 0 {
      assert IntegerContent(0) == [0];
      BigEndian1([0]);
    } else {
      var d := Digits(value);
      DigitsDenote(value);
      assert DropZeros(d) == d;
      if |d| == 4 {
        BigEndian4(d);
      }
      if d[0] >= 0x80 {
        BigEndianAppend([0], d);
        BigEndian1([0]);
      }
    }
  }

  lemma IntegerWhole(value: nat)
    ensures Whole(Integer(value)) && Root(Integer(value)).tag == TAG_INTEGER
    ensures Content(Integer(value)) == IntegerContent(value)
  {
    hide IntegerContent, Whole, Root, Content;
    IntegerContentRead(value);
    TlvWhole(TAG_INTEGER, IntegerContent(value));
  }

  predicate AllWhole(chunks: seq<ByteString>) {
    forall i :: 0 <= i < |chunks| ==> Whole(chunks[i])
  }

  /** A built integer, wherever it lies, is read back as its value. */
  lemma IntegerInPlace(b: ByteString, offset: nat, value: nat)
    requires value < INTEGER_BOUND && At(b, offset, Integer(value))
    ensures Whole(Integer(value))
    ensures var node := Shift(Root(Integer(value)), offset);
      && node.start <= node.end == offset + |Integer(value)| <= |b|
      && ReadInteger(b, node) == Ok(value)
  {
    hide Whole, Root, Content, Integer, SmallInteger, IntegerContent, ReadTlv;
    IntegerWhole(value);
    IntegerContentRead(value);
    WholeEnds(Integer(value));
    WholeInPlace(b, offset, Integer(value));
  }

  lemma IntegersStep(b: ByteString, nodes: seq<Node>, values: seq<nat>)
    requires 0 < |nodes| && 0 < |values| && InBuffer(b, nodes)
    requires ReadInteger(b, nodes[0]) == Ok(values[0]) && ReadIntegers(b, nodes[1..]) == Ok(values[1..])
    ensures ReadIntegers(b, nodes) == Ok(values)
  {
    hide ReadInteger;
    assert [values[0]] + values[1..] == values;
  }

  /** Built integers, side by side in the buffer, are read back as their values. */
  lemma {:induction false} IntegersRead(b: ByteString, offset: nat, values: seq<nat>)
    requires forall i :: 0 <= i < |values| ==> values[i] < INTEGER_BOUND
    requires At(b, offset, Concat(Integers(values)))
    ensures AllWhole(Integers(values)) && InBuffer(b, Roots(Integers(values), offset))
    ensures ReadIntegers(b, Roots(Integers(values), offset)) == Ok(values)
    decreases |values|
  {
    hide Whole, Root, Content, Integer, ReadInteger, ReadTlv;
    var chunks := Integers(values);
    forall i | 0 <= i < |values| ensures Whole(chunks[i]) {
      IntegerWhole(values[i]);
    }
    if |values| > 0 {
      var rest := Integers(values[1..]);
      assert chunks[1..] == rest;
      assert chunks[0] + Concat(rest) + [] == Concat(chunks);
      PartsInPlace(b, offset, chunks[0], Concat(rest), []);
      IntegerInPlace(b, offset, values[0]);
      IntegersRead(b, offset + |chunks[0]|, values[1..]);
      var nodes := Roots(chunks, offset);
      assert nodes[0] == Shift(Root(chunks[0]), offset);
      assert nodes[1..] == Roots(rest, offset + |chunks[0]|);
      IntegersStep(b, nodes, values);
    }
  }

  lemma SingleRoot(chunk: ByteString, offset: nat)
    requires Whole(chunk)
    ensures Concat([chunk]) == chunk && Roots([chunk], offset) == [Shift(Root(chunk), offset)]
  {
    hide Whole, Root;
    var none: seq<ByteString> := [chunk][1..];
    assert Roots(none, offset + |chunk|) == [] && Concat(none) == [];
  }

  /** An element that wraps exactly one other under a high context tag. */
  lemma HighNested(b: ByteString, offset: nat, number: nat, inner: ByteString)
    requires 31 <= number < MAX_TAG_NUMBER && Whole(inner) && |inner| < MAX_CONTENT
    requires At(b, offset, HighContext(number, inner))
    ensures Whole(HighContext(number, inner))
    ensures var node := Shift(Root(HighContext(number, inner)), offset);
      && node.tag == 0xBF && node.number == number && At(b, node.start, inner)
      && ReadRun(b, node.start, node.end) == Ok([Shift(Root(inner), node.start)])
  {
    hide ReadTlv, ReadRun, HighContext;
    var chunk := HighContext(number, inner);
    HighContextWhole(number, inner);
    WholeEnds(chunk);
    WholeInPlace(b, offset, chunk);
    var node := Shift(Root(chunk), offset);
    SingleRoot(inner, node.start);
    RunOfWholes(b, node.start, [inner]);
  }

  lemma PurposeFieldRead(b: ByteString, offset: nat, purposes: seq<nat>, list: AuthorizationList)
    requires forall i :: 0 <= i < |purposes| ==> purposes[i] < INTEGER_BOUND
    requires At(b, offset, PurposeField(purposes)) && |PurposeField(purposes)| < MAX_CONTENT
    ensures Whole(PurposeField(purposes))
    ensures ReadField(b, Shift(Root(PurposeField(purposes)), offset), list)
            == Ok(list.(purposes := Some(purposes)))
  {
    hide Whole, Root, Integer, ReadIntegers, ReadTlv, ReadRun, EncodeLength;
    var chunks := Integers(purposes);
    var inner := Tlv(TAG_SET, Concat(chunks));
    forall i | 0 <= i < |chunks| ensures Whole(chunks[i]) {
      IntegerWhole(purposes[i]);
    }
    TlvWhole(TAG_SET, Concat(chunks));
    SingleRoot(inner, 0);
    Nested(b, offset, 0xA0 + TAG_PURPOSE, [inner]);
    var node := Shift(Root(PurposeField(purposes)), offset);
    SingleRoot(inner, node.start);
    Nested(b, node.start, TAG_SET, chunks);
    var set1 := Shift(Root(inner), node.start);
    IntegersRead(b, set1.start, purposes);
    PurposeStep(b, node, set1, Roots(chunks, set1.start), purposes, list);
  }

  lemma PurposeStep(b: ByteString, field: Node, inner: Node, entries: seq<Node>, purposes: seq<nat>,
                    list: AuthorizationList)
    requires field.tag / 64 == 2 && field.number == TAG_PURPOSE
    requires ReadRun(b, field.start, field.end) == Ok([inner]) && inner.tag == TAG_SET
    requires ReadRun(b, inner.start, inner.end) == Ok(entries)
    requires InBuffer(b, entries) && ReadIntegers(b, entries) == Ok(purposes)
    ensures ReadField(b, field, list) == Ok(list.(purposes := Some(purposes)))
  {
    hide ReadRun, ReadIntegers;
  }

  lemma AllApplicationsRead(b: ByteString, offset: nat, list: AuthorizationList)
    requires var chunk := HighContext(TAG_ALL_APPLICATIONS, Tlv(TAG_NULL, [])); At(b, offset, chunk)
    ensures var chunk := HighContext(TAG_ALL_APPLICATIONS, Tlv(TAG_NULL, []));
      && Whole(chunk) && ReadField(b, Shift(Root(chunk), offset), list) == Ok(list.(allApplications := true))
  {
    hide Whole, Root, ReadTlv, HighContext, EncodeLength, Content;
    var inner := Tlv(TAG_NULL, []);
    assert |inner| <= 6 by { EncodeLengthShort(0); }
    HighContextWhole(TAG_ALL_APPLICATIONS, inner);
  }

  lemma EncodeLengthShort(n: nat)
    requires n < 128
    ensures |EncodeLength(n)| == 1
  {
  }

  lemma OriginRead(b: ByteString, offset: nat, origin: nat, list: AuthorizationList)
    requires origin < INTEGER_BOUND && At(b, offset, HighContext(TAG_ORIGIN, Integer(origin)))
    requires |HighContext(TAG_ORIGIN, Integer(origin))| < MAX_CONTENT
    ensures var chunk := HighContext(TAG_ORIGIN, Integer(origin));
      && Whole(chunk) && ReadField(b, Shift(Root(chunk), offset), list) == Ok(list.(origin := Some(origin)))
  {
    hide Whole, Root, ReadTlv, ReadRun, Integer, ReadInteger, EncodeLength;
    IntegerWhole(origin);
    HighNested(b, offset, TAG_ORIGIN, Integer(origin));
    var node := Shift(Root(HighContext(TAG_ORIGIN, Integer(origin))), offset);
    IntegerInPlace(b, node.start, origin);
  }

  /** One field read, then the others from where it ended. */
  lemma FieldThen(b: ByteString, offset: nat, chunk: ByteString, others: seq<ByteString>,
                  list: AuthorizationList, grown: AuthorizationList)
    requires Whole(chunk) && AllWhole(others)
    requires At(b, offset, Concat([chunk] + others))
    requires ReadField(b, Shift(Root(chunk), offset), list) == Ok(grown)
    ensures At(b, offset, chunk) && At(b, offset + |chunk|, Concat(others))
    ensures ReadFields(b, Roots([chunk] + others, offset), list)
            == ReadFields(b, Roots(others, offset + |chunk|), grown)
  {
    hide Whole, Root, ReadField;
    var chunks := [chunk] + others;
    ChunkThen(b, offset, chunk, others);
    assert chunks[1..] == others;
    var nodes := Roots(chunks, offset);
    assert nodes[0] == Shift(Root(chunk), offset) && nodes[1..] == Roots(others, offset + |chunk|);
  }

  lemma ChunkThen(b: ByteString, offset: nat, chunk: ByteString, others: seq<ByteString>)
    requires At(b, offset, Concat([chunk] + others))
    ensures At(b, offset, chunk) && At(b, offset + |chunk|, Concat(others))
  {
    assert ([chunk] + others)[1..] == others;
    assert chunk + Concat(others) + [] == Concat([chunk] + others);
    PartsInPlace(b, offset, chunk, Concat(others), []);
  }

  lemma ConcatSize(first: seq<ByteString>, chunk: ByteString, last: seq<ByteString>)
    ensures |chunk| <= |Concat(first + [chunk] + last)|
  {
    ConcatAppend(first + [chunk], last);
    ConcatAppend(first, [chunk]);
    assert [chunk][0] == chunk;
  }

  function PurposePart(list: AuthorizationList): seq<ByteString> {
    if list.purposes.Some? then [PurposeField(list.purposes.value)] else []
  }

  function ApplicationsPart(list: AuthorizationList): seq<ByteString> {
    if list.allApplications then [HighContext(TAG_ALL_APPLICATIONS, Tlv(TAG_NULL, []))] else []
  }

  function OriginPart(list: AuthorizationList): seq<ByteString> {
    if list.origin.Some? then [HighContext(TAG_ORIGIN, Integer(list.origin.value))] else []
  }

  lemma OriginPartRead(b: ByteString, offset: nat, list: AuthorizationList, before: AuthorizationList)
    requires SmallList(list) && At(b, offset, Concat(OriginPart(list))) && |Concat(OriginPart(list))| < MAX_CONTENT
    ensures AllWhole(OriginPart(list))
    ensures ReadFields(b, Roots(OriginPart(list), offset), before)
            == Ok(if list.origin.Some? then before.(origin := list.origin) else before)
  {
    hide Whole, Root, ReadField, HighContext;
    if list.origin.Some? {
      var chunk := HighContext(TAG_ORIGIN, Integer(list.origin.value));
      ConcatSize([], chunk, []);
      assert [] + [chunk] + [] == OriginPart(list) == [chunk] + [];
      ChunkThen(b, offset, chunk, []);
      OriginRead(b, offset, list.origin.value, before);
      FieldThen(b, offset, chunk, [], before, before.(origin := list.origin));
    }
  }

  lemma ApplicationsPartRead(b: ByteString, offset: nat, list: AuthorizationList, before: AuthorizationList)
    requires SmallList(list)
    requires At(b, offset, Concat(ApplicationsPart(list) + OriginPart(list)))
    requires |Concat(ApplicationsPart(list) + OriginPart(list))| < MAX_CONTENT
    ensures AllWhole(ApplicationsPart(list) + OriginPart(list))
    ensures ReadFields(b, Roots(ApplicationsPart(list) + OriginPart(list), offset), before)
            == Ok(AuthorizationList(before.purposes, before.allApplications || list.allApplications,
                                    if list.origin.Some? then list.origin else before.origin))
  {
    hide Whole, Root, ReadField, HighContext, OriginPart;
    var others := OriginPart(list);
    if list.allApplications {
      var chunk := HighContext(TAG_ALL_APPLICATIONS, Tlv(TAG_NULL, []));
      ChunkThen(b, offset, chunk, others);
      assert Concat([chunk] + others) == chunk + Concat(others) by { assert ([chunk] + others)[1..] == others; }
      AllApplicationsRead(b, offset, before);
      var grown := before.(allApplications := true);
      OriginPartRead(b, offset + |chunk|, list, grown);
      FieldThen(b, offset, chunk, others, before, grown);
    } else {
      assert ApplicationsPart(list) + others == others;
      OriginPartRead(b, offset, list, before);
    }
  }

  /** A built authorization list, wherever it lies, is read back field for field. */
  lemma ListFieldsRead(b: ByteString, offset: nat, list: AuthorizationList)
    requires SmallList(list)
    requires At(b, offset, Concat(ListFields(list))) && |Concat(ListFields(list))| < MAX_CONTENT
    ensures AllWhole(ListFields(list))
    ensures ReadFields(b, Roots(ListFields(list), offset), NOTHING) == Ok(list)
  {
    hide Whole, Root, ReadField, HighContext, PurposeField, OriginPart, ApplicationsPart;
    var others := ApplicationsPart(list) + OriginPart(list);
    assert ListFields(list) == PurposePart(list) + others by { ListParts(list); }
    if list.purposes.Some? {
      var chunk := PurposeField(list.purposes.value);
      ChunkThen(b, offset, chunk, others);
      assert Concat([chunk] + others) == chunk + Concat(others) by { assert ([chunk] + others)[1..] == others; }
      PurposeFieldRead(b, offset, list.purposes.value, NOTHING);
      var grown := NOTHING.(purposes := list.purposes);
      ApplicationsPartRead(b, offset + |chunk|, list, grown);
      FieldThen(b, offset, chunk, others, NOTHING, grown);
    } else {
      assert PurposePart(list) + others == others;
      ApplicationsPartRead(b, offset, list, NOTHING);
    }
  }

  lemma ListParts(list: AuthorizationList)
    ensures ListFields(list) == PurposePart(list) + (ApplicationsPart(list) + OriginPart(list))
  {
    hide HighContext, PurposeField;
  }

  lemma ListRead(b: ByteString, offset: nat, list: AuthorizationList)
    requires SmallList(list)
    requires At(b, offset, BuildList(list)) && |BuildList(list)| < MAX_CONTENT
    ensures Whole(BuildList(list))
    ensures ReadList(b, Shift(Root(BuildList(list)), offset)) == Ok(list)
  {
    hide Whole, Root, ReadTlv, ReadFields, ReadField, ReadRun, EncodeLength, ListFields;
    var chunks := ListFields(list);
    var node := ListHeader(b, offset, list);
    ListFieldsRead(b, node.start, list);
    RunOfWholes(b, node.start, chunks);
  }

  lemma ListHeader(b: ByteString, offset: nat, list: AuthorizationList) returns (node: Node)
    requires At(b, offset, BuildList(list)) && |BuildList(list)| < MAX_CONTENT
    ensures Whole(BuildList(list)) && node == Shift(Root(BuildList(list)), offset)
    ensures node.tag == TAG_SEQUENCE && node.end == node.start + |Concat(ListFields(list))|
    ensures At(b, node.start, Concat(ListFields(list)))
  {
    hide ReadTlv, EncodeLength, ListFields;
    TlvNode(TAG_SEQUENCE, Concat(ListFields(list)));
    WholeInPlace(b, offset, BuildList(list));
    node := Shift(Root(BuildList(list)), offset);
  }

  // ---- Whole descriptions ----------------------------------------------------------------

  /** What the parser returns never holds an integer of 2^31 or more. */
  lemma {:induction false} IntegersAreSmall(b: ByteString, nodes: seq<Node>)
    requires InBuffer(b, nodes) && ReadIntegers(b, nodes).Ok?
    ensures forall i :: 0 <= i < |ReadIntegers(b, nodes).value| ==> ReadIntegers(b, nodes).value[i] < INTEGER_BOUND
  {
    hide SmallInteger;
    if |nodes| > 0 {
      IntegersAreSmall(b, nodes[1..]);
      IntegerIsSmall(b, nodes[0]);
    }
  }

  lemma IntegerIsSmall(b: ByteString, node: Node)
    requires node.start <= node.end <= |b| && ReadInteger(b, node).Ok?
    ensures ReadInteger(b, node).value < INTEGER_BOUND
  {
    SmallIntegerBound(b[node.start..node.end]);
  }

  lemma FieldIsSmall(b: ByteString, field: Node, list: AuthorizationList)
    requires SmallList(list) && ReadField(b, field, list).Ok?
    ensures SmallList(ReadField(b, field, list).value)
  {
    hide ReadIntegers, ReadInteger, ReadRun;
    if field.number == TAG_PURPOSE {
      var inner := ChildrenIn(b, field, 7).value;
      IntegersAreSmall(b, ChildrenIn(b, inner[0], 8).value);
    } else if field.number == TAG_ORIGIN {
      IntegerIsSmall(b, ChildrenIn(b, field, 7).value[0]);
    }
  }

  lemma {:induction false} FieldsAreSmall(b: ByteString, fields: seq<Node>, list: AuthorizationList)
    requires SmallList(list) && ReadFields(b, fields, list).Ok?
    ensures SmallList(ReadFields(b, fields, list).value)
    decreases |fields|
  {
    hide ReadField, SmallList;
    if |fields| > 0 {
      FieldIsSmall(b, fields[0], list);
      FieldsAreSmall(b, fields[1..], ReadField(b, fields[0], list).value);
    }
  }

  lemma ParsedIsSmall(extension: ByteString)
    requires Parse(extension).Ok?
    ensures SmallList(Parse(extension).value.software) && SmallList(Parse(extension).value.tee)
  {
    hide ReadTlv, ReadRun, ReadFields;
    var fields := ChildrenIn(extension, ReadTlv(extension, 0).value, 5).value;
    FieldsAreSmall(extension, ChildrenIn(extension, fields[6], 6).value, NOTHING);
    FieldsAreSmall(extension, ChildrenIn(extension, fields[7], 6).value, NOTHING);
  }

  lemma ChunkFits(chunks: seq<ByteString>, i: nat)
    requires i < |chunks|
    ensures |chunks[i]| <= |Concat(chunks)|
  {
    ConcatSize(chunks[..i], chunks[i], chunks[i + 1..]);
    assert chunks[..i] + [chunks[i]] + chunks[i + 1..] == chunks;
  }

  lemma FieldsWhole(d: KeyDescription)
    requires |Concat(DescriptionFields(d))| < MAX_CONTENT
    ensures AllWhole(DescriptionFields(d))
    ensures Root(DescriptionFields(d)[4]).tag == TAG_OCTET_STRING && Content(DescriptionFields(d)[4]) == d.challenge
  {
    hide Whole, Root, Content, ListFields, IntegerContent, EncodeLength;
    var chunks := DescriptionFields(d);
    forall i | 0 <= i < 8 ensures |chunks[i]| < MAX_CONTENT {
      ChunkFits(chunks, i);
    }
    assert chunks[4] == Tlv(TAG_OCTET_STRING, d.challenge);
    IntegerWhole(200);
    IntegerWhole(41);
    TlvWhole(TAG_ENUMERATED, [1]);
    TlvWhole(TAG_OCTET_STRING, d.challenge);
    TlvWhole(TAG_OCTET_STRING, []);
    assert chunks[6] == BuildList(d.software) && chunks[7] == BuildList(d.tee);
    TlvWhole(TAG_SEQUENCE, Concat(ListFields(d.software)));
    TlvWhole(TAG_SEQUENCE, Concat(ListFields(d.tee)));
  }

  lemma SmallDescriptionRead(d: KeyDescription)
    requires |Concat(DescriptionFields(d))| < MAX_CONTENT && SmallList(d.software) && SmallList(d.tee)
    ensures Parse(Build(d)) == Ok(d)
  {
    hide Whole, Root, Content, ReadTlv, ReadRun, ReadList, Tlv, Integer, BuildList, SmallList;
    var b, chunks := Build(d), DescriptionFields(d);
    FieldsWhole(d);
    assert b[0..|b|] == b;
    Nested(b, 0, TAG_SEQUENCE, chunks);
    var root := Shift(Root(b), 0);
    var fields := Roots(chunks, root.start);
    var p4 := RootAt(b, chunks, root.start, 4);
    var p6 := RootAt(b, chunks, root.start, 6);
    var p7 := RootAt(b, chunks, root.start, 7);
    WholeInPlace(b, p4, chunks[4]);
    WholeEnds(chunks[4]);
    ChunkFits(chunks, 6);
    ChunkFits(chunks, 7);
    ListRead(b, p6, d.software);
    ListRead(b, p7, d.tee);
    RunInBuffer(b, root);
    ParseStep(b, root, fields, d);
  }

  lemma RunInBuffer(b: ByteString, node: Node)
    requires ReadRun(b, node.start, node.end).Ok?
    ensures InBuffer(b, ReadRun(b, node.start, node.end).value)
  {
    ReadInBuffer(b, node.start, node.end);
  }

  lemma ParseStep(b: ByteString, root: Node, fields: seq<Node>, d: KeyDescription)
    requires ReadTlv(b, 0) == Ok(root) && root.tag == TAG_SEQUENCE
    requires ReadRun(b, root.start, root.end) == Ok(fields) && |fields| == 8 && InBuffer(b, fields)
    requires fields[4].tag == TAG_OCTET_STRING && b[fields[4].start..fields[4].end] == d.challenge
    requires ReadList(b, fields[6]) == Ok(d.software) && ReadList(b, fields[7]) == Ok(d.tee)
    ensures Parse(b) == Ok(d)
  {
    hide ReadTlv, ReadRun, ReadList;
  }

  // ---- Oversize descriptions -------------------------------------------------------------

  /** What is parsed is smaller than the buffer it lies in, however that is cut: purposes are counted by bytes. */
  predicate Few(list: AuthorizationList, n: nat) {
    list.purposes.Some? ==> |list.purposes.value| <= n
  }

  lemma {:induction false} RunCount(b: ByteString, offset: nat, end: nat)
    requires ReadRun(b, offset, end).Ok?
    ensures |ReadRun(b, offset, end).value| <= if offset < end then end - offset else 0
    decreases end - offset
  {
    hide ReadTlv;
    if offset < end {
      RunCount(b, ReadTlv(b, offset).value.end, end);
    }
  }

  lemma {:induction false} IntegersCount(b: ByteString, nodes: seq<Node>)
    requires InBuffer(b, nodes) && ReadIntegers(b, nodes).Ok?
    ensures |ReadIntegers(b, nodes).value| == |nodes|
  {
    if |nodes| > 0 {
      IntegersCount(b, nodes[1..]);
    }
  }

  lemma FieldIsFew(b: ByteString, field: Node, list: AuthorizationList, n: nat)
    requires Few(list, n) && ReadField(b, field, list).Ok? && field.start <= field.end <= field.start + n
    ensures Few(ReadField(b, field, list).value, n)
  {
    hide ReadIntegers, ReadInteger, ReadRun;
    if field.number == TAG_PURPOSE {
      var inner := ChildrenIn(b, field, 7).value;
      ChildrenTile(b, field.start, field.end);
      RunCount(b, inner[0].start, inner[0].end);
      IntegersCount(b, ChildrenIn(b, inner[0], 8).value);
    }
  }

  lemma {:induction false} FieldsAreFew(b: ByteString, fields: seq<Node>, list: AuthorizationList, n: nat)
    requires Few(list, n) && ReadFields(b, fields, list).Ok?
    requires forall i :: 0 <= i < |fields| ==> fields[i].start <= fields[i].end <= fields[i].start + n
    ensures Few(ReadFields(b, fields, list).value, n)
    decreases |fields|
  {
    hide ReadField, Few;
    if |fields| > 0 {
      FieldIsFew(b, fields[0], list, n);
      FieldsAreFew(b, fields[1..], ReadField(b, fields[0], list).value, n);
    }
  }

  lemma ListIsFew(b: ByteString, node: Node, n: nat)
    requires ReadList(b, node).Ok? && node.start <= node.end <= node.start + n
    ensures Few(ReadList(b, node).value, n)
  {
    hide ReadRun, ReadFields;
    ChildrenTile(b, node.start, node.end);
    FieldsAreFew(b, ChildrenIn(b, node, 6).value, NOTHING, n);
  }

  lemma ParsedIsFew(extension: ByteString)
    requires Parse(extension).Ok?
    ensures var d := Parse(extension).value;
      |d.challenge| < MAX_CONTENT && Few(d.software, MAX_CONTENT) && Few(d.tee, MAX_CONTENT)
  {
    hide ReadTlv, ReadRun, ReadList, Header;
    var root := ReadTlv(extension, 0).value;
    HeaderCanonical(extension, 0);
    ChildrenTile(extension, root.start, root.end);
    var fields := ChildrenIn(extension, root, 5).value;
    ListIsFew(extension, fields[6], MAX_CONTENT);
    ListIsFew(extension, fields[7], MAX_CONTENT);
  }

  lemma TlvSize(tag: Byte, content: ByteString)
    ensures |Tlv(tag, content)| <= |content| + 6
  {
  }

  lemma HighContextSize(number: nat, content: ByteString)
    requires 31 <= number < 0x4000
    ensures |HighContext(number, content)| <= |content| + 8
  {
    Base128.GroupsCount(number);
    Base128.GroupsAreSmall(number);
  }

  lemma IntegerSize(value: nat)
    ensures |Integer(value)| <= 11
  {
    hide IntegerContent;
    IntegerContentRead(value);
    TlvSize(TAG_INTEGER, IntegerContent(value));
  }

  lemma {:induction false} IntegersSize(values: seq<nat>)
    ensures |Concat(Integers(values))| <= 11 * |values|
  {
    hide Integer;
    if |values| > 0 {
      IntegerSize(values[0]);
      assert Integers(values)[1..] == Integers(values[1..]);
      IntegersSize(values[1..]);
    }
  }

  lemma ListSize(list: AuthorizationList, n: nat)
    requires Few(list, n)
    ensures |BuildList(list)| <= 11 * n + 60
  {
    hide Integer, Tlv, HighContext, PurposeField, ApplicationsPart, OriginPart, ListFields;
    var others := ApplicationsPart(list) + OriginPart(list);
    assert ListFields(list) == PurposePart(list) + others by { ListParts(list); }
    ConcatParts(PurposePart(list), others);
    ConcatParts(ApplicationsPart(list), OriginPart(list));
    PurposePartSize(list, n);
    OtherPartsSize(list);
    TlvSize(TAG_SEQUENCE, Concat(ListFields(list)));
  }

  lemma {:induction false} ConcatParts(a: seq<ByteString>, b: seq<ByteString>)
    ensures |Concat(a + b)| == |Concat(a)| + |Concat(b)|
  {
    if |a| > 0 {
      assert (a + b)[1..] == a[1..] + b;
      ConcatParts(a[1..], b);
    } else {
      assert a + b == b;
    }
  }

  lemma PurposePartSize(list: AuthorizationList, n: nat)
    requires Few(list, n)
    ensures |Concat(PurposePart(list))| <= 11 * n + 12
  {
    hide Integer, Tlv;
    if list.purposes.Some? {
      var integers := Concat(Integers(list.purposes.value));
      IntegersSize(list.purposes.value);
      TlvSize(TAG_SET, integers);
      TlvSize(0xA0 + TAG_PURPOSE, Tlv(TAG_SET, integers));
      ConcatOne(PurposeField(list.purposes.value));
    }
  }

  lemma OtherPartsSize(list: AuthorizationList)
    ensures |Concat(ApplicationsPart(list))| <= 14 && |Concat(OriginPart(list))| <= 19
  {
    hide Integer, Tlv, HighContext;
    if list.allApplications {
      TlvSize(TAG_NULL, []);
      HighContextSize(TAG_ALL_APPLICATIONS, Tlv(TAG_NULL, []));
      ConcatOne(HighContext(TAG_ALL_APPLICATIONS, Tlv(TAG_NULL, [])));
    }
    if list.origin.Some? {
      IntegerSize(list.origin.value);
      HighContextSize(TAG_ORIGIN, Integer(list.origin.value));
      ConcatOne(HighContext(TAG_ORIGIN, Integer(list.origin.value)));
    }
  }

  lemma ConcatOne(chunk: ByteString)
    ensures Concat([chunk]) == chunk
  {
    assert Concat([chunk][1..]) == [];
  }

  /** Whatever is parsed to itself was built with a length that 32 bits hold. */
  lemma DescriptionSize(d: KeyDescription)
    requires |d.challenge| < MAX_CONTENT && Few(d.software, MAX_CONTENT) && Few(d.tee, MAX_CONTENT)
    ensures |Concat(DescriptionFields(d))| < TWO_32
  {
    hide Integer, Tlv, BuildList, Few;
    var chunks := DescriptionFields(d);
    IntegerSize(200);
    IntegerSize(41);
    TlvSize(TAG_ENUMERATED, [1]);
    TlvSize(TAG_OCTET_STRING, d.challenge);
    TlvSize(TAG_OCTET_STRING, []);
    ListSize(d.software, MAX_CONTENT);
    ListSize(d.tee, MAX_CONTENT);
    ConcatAtMost(chunks, 12 * MAX_CONTENT);
  }

  lemma {:induction false} ConcatAtMost(chunks: seq<ByteString>, size: nat)
    requires forall i :: 0 <= i < |chunks| ==> |chunks[i]| <= size
    ensures |Concat(chunks)| <= size * |chunks|
  {
    if |chunks| > 0 {
      ConcatAtMost(chunks[1..], size);
    }
  }

  /** A length of four bytes is refused by the reader, whatever it is the length of. */
  lemma LongTlvRefused(tag: Byte, content: ByteString)
    requires tag % 32 != 31 && MAX_CONTENT <= |content| < TWO_32
    ensures ReadTlv(Tlv(tag, content), 0).Err?
  {
    hide BigEndian, Pow256;
    var digits := Digits(|content|);
    DigitsDenote(|content|);
    BigEndianBound(digits);
    Pow256Small();
    assert |digits| == 4;
    assert Tlv(tag, content)[1] == 0x84;
  }

  /**
   * Parsing a built key description gives it back if and only if its content is under 2^24 bytes and its
   * integers fit four signed bytes.
   */
  lemma ParseUndoesBuild(d: KeyDescription)
    ensures Parse(Build(d)) == Ok(d)
            <==> |Concat(DescriptionFields(d))| < MAX_CONTENT && SmallList(d.software) && SmallList(d.tee)
  {
    hide SmallList, Parse, DescriptionFields, Few, ReadTlv, Tlv;
    if Parse(Build(d)) == Ok(d) {
      ParsedIsSmall(Build(d));
      ParsedIsFew(Build(d));
      DescriptionSize(d);
      if |Concat(DescriptionFields(d))| >= MAX_CONTENT {
        LongTlvRefused(TAG_SEQUENCE, Concat(DescriptionFields(d)));
        ParsedIsRead(Build(d));
      }
    }
    if |Concat(DescriptionFields(d))| < MAX_CONTENT && SmallList(d.software) && SmallList(d.tee) {
      SmallDescriptionRead(d);
    }
  }

  lemma ParsedIsRead(extension: ByteString)
    requires Parse(extension).Ok?
    ensures ReadTlv(extension, 0).Ok?
  {
    hide ReadTlv, ReadRun, ReadList;
  }

  // ---- The checks on a parsed description ------------------------------------------------

  /** The check that a key is scoped, generated in the keystore and able to sign: None is acceptance. */
  function VerifyAuthorizations(d: KeyDescription, useSoftware: bool): Option<Error> {
    var origin := if useSoftware && d.tee.origin.None? then d.software.origin else d.tee.origin;
    var purposes := if useSoftware && d.tee.purposes.None? then d.software.purposes else d.tee.purposes;
    if d.software.allApplications || d.tee.allApplications then Some(AllApplications)
    else if origin.None? then Some(NoOrigin)
    else if origin.value != ORIGIN_GENERATED then Some(WrongOrigin)
    else if purposes.None? || PURPOSE_SIGN !in purposes.value then Some(NoSigningPurpose)
    else None
  }

  /** What one of the two lists says of a field, the software list being asked only where the other is silent. */
  function Told<T>(tee: Option<T>, software: Option<T>, useSoftware: bool): Option<T> {
    match (tee, useSoftware)
    case (Some(_), _) => tee
    case (None, true) => software
    case (None, false) => None
  }

  /**
   * The key is scoped to one application in both lists, was generated in the keystore and may sign: as the
   * hardware's list says, or the software's where that is admitted and the hardware's is silent.
   */
  predicate InOrder(d: KeyDescription, useSoftware: bool) {
    && !d.tee.allApplications && !d.software.allApplications
    && Told(d.tee.origin, d.software.origin, useSoftware) == Some(0)
    && Told(d.tee.purposes, d.software.purposes, useSoftware).Some?
    && 2 in Told(d.tee.purposes, d.software.purposes, useSoftware).value
  }

  /** A description is accepted if and only if it is in order. */
  lemma AcceptedExactly(d: KeyDescription, useSoftware: bool)
    ensures VerifyAuthorizations(d, useSoftware).None? <==> InOrder(d, useSoftware)
  {
  }

  /** Opting into the software list only widens what is accepted. */
  lemma SoftwareModeIsLooser(d: KeyDescription)
    ensures VerifyAuthorizations(d, false).None? ==> VerifyAuthorizations(d, true).None?
  {
  }

  /** By default the operating system's word about origin and purpose has no say at all. */
  lemma SoftwareWordIgnored(d: KeyDescription, purposes: Option<seq<nat>>, origin: Option<nat>)
    ensures VerifyAuthorizations(d, false)
            == VerifyAuthorizations(d.(software := d.software.(purposes := purposes, origin := origin)), false)
  {
  }
}
