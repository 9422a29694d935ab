/** Finding one X.509 extension by its OID (section 4.1 of RFC 5280), and the certificates it is found in. */
module Certificates {
  import opened Bytes
  import opened Wrappers
  import opened Der
  import opened Asn1
  import Oid

  const TAG_BOOLEAN: Byte := 0x01
  const TAG_OCTET_STRING: Byte := 0x04
  const TAG_OID: Byte := 0x06
  const TAG_SEQUENCE: Byte := 0x30
  const TAG_EXTENSIONS: Byte := 0xA3

  /** The first node with `tag`, at index `from` or later. */
  function FirstTagged(nodes: seq<Node>, tag: Byte, from: nat): (i: Option<nat>)
    ensures i.Some? ==> from <= i.value < |nodes| && nodes[i.value].tag == tag
    ensures i.Some? ==> forall k :: from <= k < i.value ==> nodes[k].tag != tag
    ensures i.None? ==> forall k :: from <= k < |nodes| ==> nodes[k].tag != tag
    decreases |nodes| - from
  {
    if from >= |nodes| then None
    else if nodes[from].tag == tag then Some(from)
    else FirstTagged(nodes, tag, from + 1)
  }

  /** The first child of `parent`, which must be a SEQUENCE. */
  function FirstSequence(b: ByteString, parent: Node, depth: nat, error: Asn1.Error): Result<Node, Asn1.Error> {
    var nodes :- Children(b, parent, depth);
    if |nodes| == 0 || nodes[0].tag != TAG_SEQUENCE then Err(error) else Ok(nodes[0])
  }

  /** The value carried by an extension whose OID matched. */
  function ExtensionValue(b: ByteString, fields: seq<Node>): Result<ByteString, Asn1.Error>
    requires forall i :: 0 <= i < |fields| ==> fields[i].start <= fields[i].end <= |b|
  {
    match FirstTagged(fields, TAG_OCTET_STRING, 1)
    case None => Err(NoExtensionValue)
    case Some(i) =>
      if i != 1 && fields[1].tag != TAG_BOOLEAN then Err(UnexpectedField)
      else Ok(b[fields[i].start..fields[i].end])
  }

  function SearchExtensions(b: ByteString, extensions: seq<Node>, target: ByteString)
    : Result<Option<ByteString>, Asn1.Error>
    decreases |extensions|
  {
    if |extensions| == 0 then Ok(None)
    else if extensions[0].tag != TAG_SEQUENCE then Err(NotExtension)
    else
      var fields :- Children(b, extensions[0], 5);
      if |fields| == 0 || fields[0].tag != TAG_OID then Err(NoExtensionOid)
      else
        InBounds(b, extensions[0].start, extensions[0].end);
        if b[fields[0].start..fields[0].end] != target then SearchExtensions(b, extensions[1..], target)
        else
          var value :- ExtensionValue(b, fields);
          Ok(Some(value))
  }

  lemma {:induction false} InBounds(b: ByteString, offset: nat, end: nat)
    requires ReadRun(b, offset, end).Ok?
    ensures var nodes := ReadRun(b, offset, end).value;
      forall i :: 0 <= i < |nodes| ==> nodes[i].start <= nodes[i].end <= |b|
    decreases end - offset
  {
    hide ReadTlv;
    if offset < end {
      InBounds(b, ReadTlv(b, offset).value.end, end);
    }
  }

  function FindInFields(b: ByteString, fields: seq<Node>, target: ByteString)
    : Result<Option<ByteString>, Asn1.Error>
  {
    match FirstTagged(fields, TAG_EXTENSIONS, 0)
    case None => Ok(None)
    case Some(i) =>
      var list :- FirstSequence(b, fields[i], 3, BadExtensions);
      var extensions :- Children(b, list, 4);
      SearchExtensions(b, extensions, target)
  }

  function FindIn(b: ByteString, target: ByteString): Result<Option<ByteString>, Asn1.Error> {
    var cert :- ReadTlv(b, 0);
    if cert.tag != TAG_SEQUENCE then Err(NotCertificate)
    else
      var tbs :- FirstSequence(b, cert, 1, NotTbsCertificate);
      var fields :- Children(b, tbs, 2);
      FindInFields(b, fields, target)
  }

  /** The value of the first extension with this OID, or `None`. */
  function FindExtension(b: ByteString, oid: Oid.Oid): Result<Option<ByteString>, Asn1.Error> {
    match Oid.Encode(oid)
    case Err(_) => Err(InvalidOid)
    case Ok(target) => FindIn(b, target)
  }

  /** The walk as it runs, with its loop over the extensions. */
  method FindExtensionIn(certificate: ByteString, oid: Oid.Oid)
      returns (r: Result<Option<ByteString>, Asn1.Error>)
    ensures r == FindExtension(certificate, oid)
  {
    hide ReadTlv, ReadRun, SearchExtensions;
    var target := Oid.EncodeOid(oid);
    if target.Err? {
      return Err(InvalidOid);
    }
    var cert := ReadTlvAt(certificate, 0);
    if cert.Err? {
      return Err(cert.error);
    }
    if cert.value.tag != TAG_SEQUENCE {
      return Err(NotCertificate);
    }
    var top := ChildrenOf(certificate, cert.value, 1);
    if top.Err? {
      return Err(top.error);
    }
    if |top.value| == 0 || top.value[0].tag != TAG_SEQUENCE {
      return Err(NotTbsCertificate);
    }
    var fields := ChildrenOf(certificate, top.value[0], 2);
    if fields.Err? {
      return Err(fields.error);
    }
    var holder := FirstTagged(fields.value, TAG_EXTENSIONS, 0);
    if holder.None? {
      return Ok(None);
    }
    var held := ChildrenOf(certificate, fields.value[holder.value], 3);
    if held.Err? {
      return Err(held.error);
    }
    if |held.value| == 0 || held.value[0].tag != TAG_SEQUENCE {
      return Err(BadExtensions);
    }
    var extensions := ChildrenOf(certificate, held.value[0], 4);
    if extensions.Err? {
      return Err(extensions.error);
    }
    r := SearchLoop(certificate, extensions.value, target.value);
  }

  method SearchLoop(b: ByteString, extensions: seq<Node>, target: ByteString)
      returns (r: Result<Option<ByteString>, Asn1.Error>)
    ensures r == SearchExtensions(b, extensions, target)
  {
    hide ReadRun;
    for i := 0 to |extensions|
      invariant SearchExtensions(b, extensions[i..], target) == SearchExtensions(b, extensions, target)
    {
      assert extensions[i..][1..] == extensions[i + 1..];
      var extension := extensions[i];
      if extension.tag != TAG_SEQUENCE {
        return Err(NotExtension);
      }
      var fields := ChildrenOf(b, extension, 5);
      if fields.Err? {
        return Err(fields.error);
      }
      if |fields.value| == 0 || fields.value[0].tag != TAG_OID {
        return Err(NoExtensionOid);
      }
      InBounds(b, extension.start, extension.end);
      if b[fields.value[0].start..fields.value[0].end] == target {
        var valueField := FirstTagged(fields.value, TAG_OCTET_STRING, 1);
        if valueField.None? {
          return Err(NoExtensionValue);
        }
        var middle := fields.value[1];
        if valueField.value != 1 && middle.tag != TAG_BOOLEAN {
          return Err(UnexpectedField);
        }
        var value := fields.value[valueField.value];
        return Ok(Some(b[value.start..value.end]));
      }
    }
    return Ok(None);
  }

  // ---- Built certificates ----------------------------------------------------------------

  datatype Extension = Extension(oid: Oid.Oid, critical: bool, value: ByteString)

  /** An extension's fields: its OID, `critical` when set, and the OCTET STRING with its value. */
  function ExtensionFields(e: Extension): seq<ByteString>
    requires Oid.WellFormed(e.oid)
  {
    [Tlv(TAG_OID, Oid.Content(e.oid))]
    + (if e.critical then [Tlv(TAG_BOOLEAN, [0xFF])] else [])
    + [Tlv(TAG_OCTET_STRING, e.value)]
  }

  function ExtensionBytes(e: Extension): ByteString
    requires Oid.WellFormed(e.oid)
  {
    Tlv(TAG_SEQUENCE, Concat(ExtensionFields(e)))
  }

  function ExtensionList(extensions: seq<Extension>): (l: seq<ByteString>)
    requires forall i :: 0 <= i < |extensions| ==> Oid.WellFormed(extensions[i].oid)
    ensures |l| == |extensions|
    ensures forall i :: 0 <= i < |l| ==> l[i] == ExtensionBytes(extensions[i])
  {
    seq(|extensions|, i requires 0 <= i < |extensions| => ExtensionBytes(extensions[i]))
  }

  /** `extensions [3]`, EXPLICIT. */
  function ExtensionsField(extensions: seq<Extension>): ByteString
    requires forall i :: 0 <= i < |extensions| ==> Oid.WellFormed(extensions[i].oid)
  {
    Tlv(TAG_EXTENSIONS, Tlv(TAG_SEQUENCE, Concat(ExtensionList(extensions))))
  }

  /** A certificate around any other fields of its TBSCertificate and whatever follows that. */
  function Certificate(fields: seq<ByteString>, tail: seq<ByteString>): ByteString {
    Tlv(TAG_SEQUENCE, Concat([Tlv(TAG_SEQUENCE, Concat(fields))] + tail))
  }

  /** The value of the first extension with this OID, looked up by OID rather than by bytes. */
  function Lookup(extensions: seq<Extension>, oid: Oid.Oid): Option<ByteString> {
    if |extensions| == 0 then None
    else if extensions[0].oid == oid then Some(extensions[0].value)
    else Lookup(extensions[1..], oid)
  }

  // ---- The walk on a built certificate ---------------------------------------------------

  predicate AllWhole(chunks: seq<ByteString>) {
    forall i :: 0 <= i < |chunks| ==> Whole(chunks[i])
  }

  predicate AllWellFormed(extensions: seq<Extension>) {
    forall i :: 0 <= i < |extensions| ==> Oid.WellFormed(extensions[i].oid)
  }

  lemma TlvLonger(tag: Byte, content: ByteString)
    ensures |Tlv(tag, content)| > |content|
  {
  }

  /** Every part of a concatenation is at most as long as the whole. */
  lemma {:induction false} PartShorter(chunks: seq<ByteString>, i: nat)
    requires i < |chunks|
    ensures |chunks[i]| <= |Concat(chunks)|
  {
    if i > 0 {
      PartShorter(chunks[1..], i - 1);
    }
  }

  lemma ExtensionShape(e: Extension)
    requires Oid.WellFormed(e.oid) && |ExtensionBytes(e)| < MAX_CONTENT
    ensures var f := ExtensionFields(e);
      && |Concat(f)| < MAX_CONTENT && AllWhole(f)
      && Root(f[0]).tag == TAG_OID && Content(f[0]) == Oid.Content(e.oid)
      && Content(f[|f| - 1]) == e.value && Root(f[|f| - 1]).tag == TAG_OCTET_STRING
      && (e.critical ==> |f| == 3 && Root(f[1]).tag == TAG_BOOLEAN) && (!e.critical ==> |f| == 2)
  {
    hide Tlv, ReadTlv, Whole, Root, Asn1.Content, Oid.Content, Concat;
    var f := ExtensionFields(e);
    TlvLonger(TAG_SEQUENCE, Concat(f));
    assert f[0] == Tlv(TAG_OID, Oid.Content(e.oid)) && f[|f| - 1] == Tlv(TAG_OCTET_STRING, e.value);
    PartShorter(f, 0);
    PartShorter(f, |f| - 1);
    TlvLonger(TAG_OID, Oid.Content(e.oid));
    TlvLonger(TAG_OCTET_STRING, e.value);
    TlvWhole(TAG_OID, Oid.Content(e.oid));
    TlvWhole(TAG_OCTET_STRING, e.value);
    if e.critical {
      TlvWhole(TAG_BOOLEAN, [0xFF]);
      assert f[1] == Tlv(TAG_BOOLEAN, [0xFF]);
    }
  }

  /** A built extension in place: where its OID lies, and the value it yields. */
  lemma ExtensionRead(b: ByteString, offset: nat, e: Extension)
    requires Oid.WellFormed(e.oid) && |ExtensionBytes(e)| < MAX_CONTENT && At(b, offset, ExtensionBytes(e))
    ensures Whole(ExtensionBytes(e))
    ensures var node := Shift(Root(ExtensionBytes(e)), offset);
      && node.tag == TAG_SEQUENCE && Children(b, node, 5).Ok?
      && var fields := Children(b, node, 5).value;
      && |fields| > 0 && fields[0].tag == TAG_OID
      && (forall i :: 0 <= i < |fields| ==> fields[i].start <= fields[i].end <= |b|)
      && b[fields[0].start..fields[0].end] == Oid.Content(e.oid)
      && ExtensionValue(b, fields) == Ok(e.value)
  {
    hide Tlv, ReadTlv, ReadRun, Whole, Root, Asn1.Content, Oid.Content, Concat, ExtensionFields;
    var f := ExtensionFields(e);
    ExtensionShape(e);
    Nested(b, offset, TAG_SEQUENCE, f);
    var node := Shift(Root(ExtensionBytes(e)), offset);
    var fields := Roots(f, node.start);
    InBounds(b, node.start, node.end);
    FieldContent(b, f, node.start, 0);
    FieldContent(b, f, node.start, |f| - 1);
    if e.critical {
      FieldContent(b, f, node.start, 1);
      assert FirstTagged(fields, TAG_OCTET_STRING, 1) == FirstTagged(fields, TAG_OCTET_STRING, 2);
    }
  }

  lemma FieldContent(b: ByteString, chunks: seq<ByteString>, offset: nat, i: nat)
    requires AllWhole(chunks) && i < |chunks| && At(b, offset, Concat(chunks))
    ensures var n := Roots(chunks, offset)[i];
      n.start <= n.end <= |b| && n.tag == Root(chunks[i]).tag && n.number == Root(chunks[i]).number
      && b[n.start..n.end] == Asn1.Content(chunks[i])
  {
    hide ReadTlv;
    var place := RootAt(b, chunks, offset, i);
    WholeInPlace(b, place, chunks[i]);
  }

  /** Searching the built list by bytes is looking the OID up in the list. */
  lemma {:induction false} SearchIsLookup(b: ByteString, offset: nat, extensions: seq<Extension>, oid: Oid.Oid)
    requires AllWellFormed(extensions) && Oid.WellFormed(oid)
    requires |Concat(ExtensionList(extensions))| < MAX_CONTENT
    requires At(b, offset, Concat(ExtensionList(extensions)))
    ensures AllWhole(ExtensionList(extensions))
    ensures SearchExtensions(b, Roots(ExtensionList(extensions), offset), Oid.Content(oid))
            == Ok(Lookup(extensions, oid))
    decreases |extensions|
  {
    hide ReadTlv, ReadRun, Whole, Root, Oid.Content, ExtensionBytes, ExtensionValue;
    var list := ExtensionList(extensions);
    if |extensions| > 0 {
      var e := extensions[0];
      var rest := ExtensionList(extensions[1..]);
      assert list[1..] == rest;
      assert list[0] + Concat(rest) + [] == Concat(list);
      PartsInPlace(b, offset, list[0], Concat(rest), []);
      ExtensionRead(b, offset, e);
      SearchIsLookup(b, offset + |list[0]|, extensions[1..], oid);
      assert Roots(list, offset)[1..] == Roots(rest, offset + |list[0]|);
      if Oid.Content(e.oid) == Oid.Content(oid) {
        Oid.EncodeInjective(e.oid, oid);
      }
    }
  }

  /** Down to the fields of the TBSCertificate: where they begin, and that they are read. */
  lemma WalkToFields(fields: seq<ByteString>, tail: seq<ByteString>) returns (at: nat)
    requires AllWhole(fields) && AllWhole(tail) && |Certificate(fields, tail)| < MAX_CONTENT
    ensures var b := Certificate(fields, tail);
      && At(b, at, Concat(fields))
      && forall target :: FindIn(b, target) == FindInFields(b, Roots(fields, at), target)
  {
    hide ReadTlv, ReadRun, Whole, Root, Tlv, Concat, FindInFields;
    var b := Certificate(fields, tail);
    var tbs := Tlv(TAG_SEQUENCE, Concat(fields));
    var top := [tbs] + tail;
    TlvLonger(TAG_SEQUENCE, Concat(top));
    PartShorter(top, 0);
    TlvLonger(TAG_SEQUENCE, Concat(fields));
    TlvWhole(TAG_SEQUENCE, Concat(fields));
    assert b[0..|b|] == b;
    Nested(b, 0, TAG_SEQUENCE, top);
    var cert := Shift(Root(b), 0);
    var place := RootAt(b, top, cert.start, 0);
    Nested(b, place, TAG_SEQUENCE, fields);
    at := Shift(Root(tbs), place).start;
  }

  /** The extensions field holds one SEQUENCE, which holds the extensions. */
  lemma HolderRead(b: ByteString, place: nat, extensions: seq<Extension>) returns (at: nat)
    requires AllWellFormed(extensions) && |ExtensionsField(extensions)| < MAX_CONTENT
    requires At(b, place, ExtensionsField(extensions))
    ensures var list := ExtensionList(extensions);
      && AllWhole(list) && At(b, at, Concat(list)) && |Concat(list)| < MAX_CONTENT
      && Whole(ExtensionsField(extensions))
      && var holder := Shift(Root(ExtensionsField(extensions)), place);
      && holder.tag == TAG_EXTENSIONS
      && FirstSequence(b, holder, 3, BadExtensions).Ok?
      && Children(b, FirstSequence(b, holder, 3, BadExtensions).value, 4) == Ok(Roots(list, at))
  {
    hide ReadTlv, ReadRun, Whole, Root, Tlv, ExtensionBytes;
    var list := ExtensionList(extensions);
    var inner := Tlv(TAG_SEQUENCE, Concat(list));
    assert Concat([inner]) == inner + Concat([inner][1..]) == inner;
    TlvLonger(TAG_EXTENSIONS, inner);
    TlvLonger(TAG_SEQUENCE, Concat(list));
    TlvWhole(TAG_SEQUENCE, Concat(list));
    ListWhole(extensions);
    Nested(b, place, TAG_EXTENSIONS, [inner]);
    var holder := Shift(Root(ExtensionsField(extensions)), place);
    var innerPlace := RootAt(b, [inner], holder.start, 0);
    Nested(b, innerPlace, TAG_SEQUENCE, list);
    at := Shift(Root(inner), innerPlace).start;
  }

  lemma ListWhole(extensions: seq<Extension>)
    requires AllWellFormed(extensions) && |Concat(ExtensionList(extensions))| < MAX_CONTENT
    ensures AllWhole(ExtensionList(extensions))
  {
    hide Whole, Tlv, ExtensionBytes;
    var list := ExtensionList(extensions);
    forall i | 0 <= i < |list| ensures Whole(list[i]) {
      PartShorter(list, i);
      var e := extensions[i];
      assert ExtensionBytes(e)[0..|ExtensionBytes(e)|] == ExtensionBytes(e);
      ExtensionRead(ExtensionBytes(e), 0, e);
    }
  }

  /** The holder found among the fields is the first one that carries its tag. */
  lemma FirstHolder(fields: seq<ByteString>, at: nat, i: nat, from: nat)
    requires AllWhole(fields) && from <= i < |fields| && Root(fields[i]).tag == TAG_EXTENSIONS
    requires forall k :: from <= k < i ==> Root(fields[k]).tag != TAG_EXTENSIONS
    ensures FirstTagged(Roots(fields, at), TAG_EXTENSIONS, from) == Some(i)
  {
    hide Whole, Root;
    RootTags(fields, at);
  }

  lemma {:induction false} RootTags(chunks: seq<ByteString>, at: nat)
    requires AllWhole(chunks)
    ensures forall k :: 0 <= k < |chunks| ==> Roots(chunks, at)[k].tag == Root(chunks[k]).tag
    decreases |chunks|
  {
    hide Whole, Root;
    if |chunks| > 0 {
      RootTags(chunks[1..], at + |chunks[0]|);
    }
  }

  /**
   * On any certificate whose fields before `extensions [3]` carry other tags, the walk yields the
   * value of the first extension with the given OID, or `None` when no extension has it.
   */
  lemma FindsFirst(before: seq<ByteString>, extensions: seq<Extension>, after: seq<ByteString>,
                   tail: seq<ByteString>, oid: Oid.Oid)
    requires AllWhole(before) && AllWhole(after) && AllWhole(tail)
    requires forall i :: 0 <= i < |before| ==> Root(before[i]).tag != TAG_EXTENSIONS
    requires AllWellFormed(extensions) && Oid.WellFormed(oid)
    requires |Certificate(before + [ExtensionsField(extensions)] + after, tail)| < MAX_CONTENT
    ensures FindExtension(Certificate(before + [ExtensionsField(extensions)] + after, tail), oid)
            == Ok(Lookup(extensions, oid))
  {
    hide ReadTlv, ReadRun, Whole, Root, Tlv, Concat, Oid.Content, SearchExtensions, Lookup, FindIn;
    var field := ExtensionsField(extensions);
    var fields := before + [field] + after;
    var b := Certificate(fields, tail);
    FieldShorter(fields, tail, |before|);
    FieldWhole(extensions);
    var at := WalkToFields(fields, tail);
    FirstHolder(fields, at, |before|, 0);
    var place := RootAt(b, fields, at, |before|);
    var start := HolderRead(b, place, extensions);
    SearchIsLookup(b, start, extensions, oid);
    EncodeOk(oid);
  }

  /** A certificate none of whose fields is `extensions [3]` has no extensions, which is not an error. */
  lemma FindsNothing(fields: seq<ByteString>, tail: seq<ByteString>, oid: Oid.Oid)
    requires AllWhole(fields) && AllWhole(tail) && Oid.WellFormed(oid)
    requires forall i :: 0 <= i < |fields| ==> Root(fields[i]).tag != TAG_EXTENSIONS
    requires |Certificate(fields, tail)| < MAX_CONTENT
    ensures FindExtension(Certificate(fields, tail), oid) == Ok(None)
  {
    hide ReadTlv, ReadRun, Whole, Root, Tlv, Concat, Oid.Content, FindIn;
    var at := WalkToFields(fields, tail);
    RootTags(fields, at);
    EncodeOk(oid);
  }

  lemma FieldShorter(fields: seq<ByteString>, tail: seq<ByteString>, i: nat)
    requires i < |fields| && |Certificate(fields, tail)| < MAX_CONTENT
    ensures |fields[i]| < MAX_CONTENT
  {
    hide Tlv, Concat;
    var tbs := Tlv(TAG_SEQUENCE, Concat(fields));
    TlvLonger(TAG_SEQUENCE, Concat([tbs] + tail));
    PartShorter([tbs] + tail, 0);
    TlvLonger(TAG_SEQUENCE, Concat(fields));
    PartShorter(fields, i);
  }

  lemma FieldWhole(extensions: seq<Extension>)
    requires AllWellFormed(extensions) && |ExtensionsField(extensions)| < MAX_CONTENT
    ensures Whole(ExtensionsField(extensions)) && Root(ExtensionsField(extensions)).tag == TAG_EXTENSIONS
  {
    hide Whole, Root, ExtensionBytes;
    var inner := Tlv(TAG_SEQUENCE, Concat(ExtensionList(extensions)));
    TlvLonger(TAG_EXTENSIONS, inner);
    TlvWhole(TAG_EXTENSIONS, inner);
  }

  lemma EncodeOk(oid: Oid.Oid)
    requires Oid.WellFormed(oid)
    ensures Oid.Encode(oid) == Ok(Oid.Content(oid))
  {
    hide Oid.Content;
  }
}
