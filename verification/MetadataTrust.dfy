/** What acceptance means under a policy compiled from a metadata BLOB. */
module MetadataTrust {
  import opened Bytes
  import opened Wrappers
  import opened Attestation
  import opened Chain
  import Aaguids
  import AttestationLaws
  import Evidence
  import Mds

  /** The entry vouches for the model and lists the root; nothing in its history disqualifies it. */
  predicate VouchesWith(entry: Mds.Entry, options: Mds.Options, model: string, root: ByteString) {
    && Mds.Qualifies(entry, options) && entry.aaguid == Some(model) && root in entry.roots
    && forall i :: 0 <= i < |entry.reports| ==> entry.reports[i].status !in Mds.DISQUALIFYING_STATUSES
  }

  /**
   * Under any policy compiled from a BLOB, an accepted attestation of any format has its model vouched for,
   * and its chain ends, at most six certificates up, at a root that an entry for that same model lists.
   */
  lemma AcceptedUnderMetadata(w: World, now: int, input: Input, entries: seq<Mds.Entry>, options: Mds.Options)
      returns (chain: seq<Certificate>, path: seq<nat>, root: ByteString, entry: Mds.Entry)
    requires Verify(w, now, input, Mds.ToPolicy(entries, options)).Ok?
    ensures Verify(w, now, input, Mds.ToPolicy(entries, options)).value.aaguidVerified
    ensures entry in entries && VouchesWith(entry, options, ToHex(input.aaguid), root)
    ensures Evidence.Presents(w, input, chain)
    ensures w.parse(root).Some?
    ensures TrustPath(w.issuance, now, chain, [w.parse(root).value], path)
  {
    hide Verify, Evidence.Presents, Mds.Qualifies, Mds.Gather, ToHex, TrustPath, Evidence.ReadAs;
    var policy, model := Mds.ToPolicy(entries, options), ToHex(input.aaguid);
    AttestationLaws.AllowlistIsEnforced(w, now, input, policy);
    var anchors: seq<Certificate>;
    chain, anchors, path := AttestationLaws.BasicIsCertified(w, now, input, policy);
    var a := AnchorOf(w.issuance, now, chain, anchors, path);
    var ders := Evidence.RootsFor(policy, model);
    AnchorRead(w, ders, anchors, a);
    root := ders[a];
    Mds.PolicyPairs(entries, options, model, root);
    entry := ListingEntry(entries, options, model, root);
  }

  lemma AnchorRead(w: World, ders: seq<ByteString>, anchors: seq<Certificate>, a: nat)
    requires Evidence.ReadAs(w, ders, anchors) && a < |anchors|
    ensures a < |ders| && w.parse(ders[a]) == Some(anchors[a])
  {
  }

  // ---- Entries as the BLOB holds them ----------------------------------------------------------

  /** The text an entry has for its AAGUID: its own, or that of its metadata statement. */
  function AaguidText(raw: Mds.RawEntry): Mds.Json
    requires raw.RawEntry?
  {
    match raw.own
    case Absent => raw.stated
    case _ => raw.own
  }

  function AcceptedStatuses(options: Mds.Options): seq<string> {
    if options.acceptedStatuses.Some? then options.acceptedStatuses.value else Mds.DEFAULT_ACCEPTED_STATUSES
  }

  /**
   * An entry speaks for the model: it spells its AAGUID, which the options admit, lists some root, has an accepted
   * status for its current report, and a disqualifying one for none, dated or not and in whatever order.
   */
  ghost predicate SpeaksFor(raw: Mds.RawEntry, rank: string -> int, options: Mds.Options, model: ByteString) {
    && raw.RawEntry? && |model| == 16
    && AaguidText(raw).Str? && Aaguids.Spells(AaguidText(raw).text, model)
    && (options.aaguids.Some? ==> ToHex(model) in options.aaguids.value)
    && |raw.roots| > 0
    && (forall i :: 0 <= i < |raw.reports| && raw.reports[i].RawReport? && raw.reports[i].status.Str? ==>
          raw.reports[i].status.text !in Mds.DISQUALIFYING_STATUSES)
    && exists i: nat :: Mds.CurrentAt(raw.reports, rank, i)
                        && raw.reports[i].status.text in AcceptedStatuses(options)
  }

  /** The entry lists the root, in the base64 form that decodes to it. */
  predicate ListsRoot(raw: Mds.RawEntry, decode: string -> Option<ByteString>, root: ByteString) {
    && raw.RawEntry?
    && exists k :: 0 <= k < |raw.roots| && raw.roots[k].Str? && decode(raw.roots[k].text) == Some(root)
  }

  /** A BLOB's entries are read if and only if all their roots are text in canonical base64. */
  lemma {:induction false} EntriesReadable(
      raws: seq<Mds.RawEntry>, decode: string -> Option<ByteString>, rank: string -> int)
    ensures Mds.ReadEntries(raws, decode, rank).Ok?
            <==> forall i, k :: 0 <= i < |raws| && raws[i].RawEntry? && 0 <= k < |raws[i].roots| ==>
                   raws[i].roots[k].Str? && decode(raws[i].roots[k].text).Some?
  {
    if |raws| > 0 {
      hide Mds.ReadRoots, Mds.NormaliseAaguid, Mds.StatusReports;
      EntriesReadable(raws[1..], decode, rank);
      if raws[0].RawEntry? {
        Mds.RootsRead(raws[0].roots, decode);
      }
      assert raws == [raws[0]] + raws[1..];
    }
  }

  /** Read, an entry qualifies for a model exactly when it speaks for it. */
  lemma QualifiesAsRead(raw: Mds.RawEntry, decode: string -> Option<ByteString>, rank: string -> int,
                        options: Mds.Options, model: ByteString, entry: Mds.Entry)
    requires Mds.ReadEntry(raw, decode, rank) == Ok(Some(entry))
    ensures Mds.Qualifies(entry, options) && entry.aaguid == Some(ToHex(model))
            <==> SpeaksFor(raw, rank, options, model)
    ensures forall root :: root in entry.roots <==> ListsRoot(raw, decode, root)
  {
    hide Mds.ReadRoots, Mds.StatusReports, Mds.NormaliseAaguid, Mds.Disqualified, Mds.CurrentAt, Aaguids.Spells, ToHex;
    Mds.DisqualifiedAsRead(raw, decode, rank);
    Mds.RootsRead(raw.roots, decode);
    ModelAsRead(raw, model);
    StatusAsRead(raw.reports, rank, AcceptedStatuses(options));
    forall root ensures root in entry.roots <==> ListsRoot(raw, decode, root) {
      if root in entry.roots {
        var k :| 0 <= k < |entry.roots| && entry.roots[k] == root;
        assert raw.roots[k].Str? && decode(raw.roots[k].text) == Some(root);
      }
      if ListsRoot(raw, decode, root) {
        var k :| 0 <= k < |raw.roots| && raw.roots[k].Str? && decode(raw.roots[k].text) == Some(root);
        assert entry.roots[k] == root;
      }
    }
  }

  lemma ModelAsRead(raw: Mds.RawEntry, model: ByteString)
    requires raw.RawEntry?
    ensures Mds.NormaliseAaguid(if raw.own.Absent? then raw.stated else raw.own) == Some(ToHex(model))
            <==> |model| == 16 && AaguidText(raw).Str? && Aaguids.Spells(AaguidText(raw).text, model)
  {
    hide Mds.Stripped, ToHex, Aaguids.Spells;
    var text := AaguidText(raw);
    if |model| == 16 && text.Str? {
      Aaguids.ReadAsSpelled(text.text, model);
    } else {
      Aaguids.HexDigits(model, 0);
    }
  }

  lemma StatusAsRead(reports: seq<Mds.RawReport>, rank: string -> int, accepted: seq<string>)
    ensures (|Mds.StatusReports(rank, reports)| > 0 && Mds.StatusReports(rank, reports)[0].status in accepted)
            <==> exists i: nat :: Mds.CurrentAt(reports, rank, i) && reports[i].status.text in accepted
  {
    hide Mds.StatusReports;
    if |Mds.StatusReports(rank, reports)| > 0 {
      Mds.CurrentStatus(reports, rank, Mds.StatusReports(rank, reports)[0].status);
    }
    forall i: nat | Mds.CurrentAt(reports, rank, i) && reports[i].status.text in accepted
      ensures |Mds.StatusReports(rank, reports)| > 0 && Mds.StatusReports(rank, reports)[0].status in accepted
    {
      Mds.CurrentStatus(reports, rank, reports[i].status.text);
    }
  }

  /**
   * From the BLOB to the decision: under a policy compiled from whatever entries a BLOB holds, an accepted
   * attestation of any format rests on one of those entries, which speaks for its model and lists the root that
   * the trust path from its chain ends at.
   */
  lemma AcceptedUnderBlob(w: World, now: int, input: Input, raws: seq<Mds.RawEntry>,
                          decode: string -> Option<ByteString>, rank: string -> int, options: Mds.Options)
      returns (chain: seq<Certificate>, path: seq<nat>, root: ByteString, raw: Mds.RawEntry)
    requires Mds.ReadEntries(raws, decode, rank).Ok?
    requires Verify(w, now, input, Mds.ToPolicy(Mds.ReadEntries(raws, decode, rank).value, options)).Ok?
    ensures raw in raws && SpeaksFor(raw, rank, options, input.aaguid) && ListsRoot(raw, decode, root)
    ensures Evidence.Presents(w, input, chain)
    ensures w.parse(root).Some?
    ensures TrustPath(w.issuance, now, chain, [w.parse(root).value], path)
  {
    hide *;
    var entries, model := Mds.ReadEntries(raws, decode, rank).value, ToHex(input.aaguid);
    var entry: Mds.Entry;
    chain, path, root, entry := AcceptedUnderMetadata(w, now, input, entries, options);
    VouchesMeans(entry, options, model, root);
    Mds.EntriesRead(raws, decode, rank, entry);
    var i :| 0 <= i < |raws| && Mds.ReadEntry(raws[i], decode, rank) == Ok(Some(entry));
    raw := raws[i];
    QualifiesAsRead(raw, decode, rank, options, input.aaguid, entry);
  }

  lemma VouchesMeans(entry: Mds.Entry, options: Mds.Options, model: string, root: ByteString)
    requires VouchesWith(entry, options, model, root)
    ensures Mds.Qualifies(entry, options) && entry.aaguid == Some(model) && root in entry.roots
  {
  }

  /** Some entry of the BLOB speaks for the model. */
  ghost predicate Spoken(raws: seq<Mds.RawEntry>, rank: string -> int, options: Mds.Options, model: ByteString) {
    exists i :: 0 <= i < |raws| && SpeaksFor(raws[i], rank, options, model)
  }

  /** The root is listed by some entry that speaks for the model. */
  ghost predicate ListedFor(raws: seq<Mds.RawEntry>, decode: string -> Option<ByteString>, rank: string -> int,
                            options: Mds.Options, model: ByteString, root: ByteString) {
    exists i :: 0 <= i < |raws| && SpeaksFor(raws[i], rank, options, model) && ListsRoot(raws[i], decode, root)
  }

  /** Where a qualifying entry was read from. */
  lemma RawOf(raws: seq<Mds.RawEntry>, decode: string -> Option<ByteString>, rank: string -> int,
              options: Mds.Options, model: ByteString, root: ByteString, e: nat) returns (i: nat)
    requires Mds.ReadEntries(raws, decode, rank).Ok? && e < |Mds.ReadEntries(raws, decode, rank).value|
    requires var entry := Mds.ReadEntries(raws, decode, rank).value[e];
      Mds.Qualifies(entry, options) && entry.aaguid == Some(ToHex(model))
    ensures i < |raws| && SpeaksFor(raws[i], rank, options, model)
    ensures root in Mds.ReadEntries(raws, decode, rank).value[e].roots <==> ListsRoot(raws[i], decode, root)
  {
    hide *;
    var entry := Mds.ReadEntries(raws, decode, rank).value[e];
    Mds.EntriesRead(raws, decode, rank, entry);
    i :| 0 <= i < |raws| && Mds.ReadEntry(raws[i], decode, rank) == Ok(Some(entry));
    QualifiesAsRead(raws[i], decode, rank, options, model, entry);
  }

  /** What an entry that speaks for the model is read as. */
  lemma EntryOf(raws: seq<Mds.RawEntry>, decode: string -> Option<ByteString>, rank: string -> int,
                options: Mds.Options, model: ByteString, root: ByteString, i: nat) returns (e: nat)
    requires Mds.ReadEntries(raws, decode, rank).Ok?
    requires i < |raws| && SpeaksFor(raws[i], rank, options, model)
    ensures e < |Mds.ReadEntries(raws, decode, rank).value|
    ensures var entry := Mds.ReadEntries(raws, decode, rank).value[e];
      && Mds.Qualifies(entry, options) && entry.aaguid == Some(ToHex(model))
      && (root in entry.roots <==> ListsRoot(raws[i], decode, root))
  {
    hide *;
    SpeakerIsEntry(raws[i], rank, options, model);
    EveryEntryRead(raws, decode, rank, i);
    var entry := Mds.ReadEntry(raws[i], decode, rank).value.value;
    Mds.EntriesRead(raws, decode, rank, entry);
    e :| 0 <= e < |Mds.ReadEntries(raws, decode, rank).value|
         && Mds.ReadEntries(raws, decode, rank).value[e] == entry;
    QualifiesAsRead(raws[i], decode, rank, options, model, entry);
  }

  lemma ListedAsRead(raws: seq<Mds.RawEntry>, decode: string -> Option<ByteString>, rank: string -> int,
                     options: Mds.Options, model: ByteString, root: ByteString)
    requires Mds.ReadEntries(raws, decode, rank).Ok?
    ensures Mds.Vouched(Mds.ReadEntries(raws, decode, rank).value, options, ToHex(model))
            <==> Spoken(raws, rank, options, model)
    ensures Mds.Lists(Mds.ReadEntries(raws, decode, rank).value, options, ToHex(model), root)
            <==> ListedFor(raws, decode, rank, options, model, root)
  {
    hide Mds.ReadEntries, Mds.Qualifies, SpeaksFor, ListsRoot, ToHex;
    var entries := Mds.ReadEntries(raws, decode, rank).value;
    forall e | 0 <= e < |entries| && Mds.Qualifies(entries[e], options) && entries[e].aaguid == Some(ToHex(model))
      ensures exists i :: 0 <= i < |raws| && SpeaksFor(raws[i], rank, options, model)
                          && (root in entries[e].roots <==> ListsRoot(raws[i], decode, root))
    {
      var i := RawOf(raws, decode, rank, options, model, root, e);
    }
    forall i | 0 <= i < |raws| && SpeaksFor(raws[i], rank, options, model)
      ensures exists e :: 0 <= e < |entries| && Mds.Qualifies(entries[e], options)
                          && entries[e].aaguid == Some(ToHex(model))
                          && (root in entries[e].roots <==> ListsRoot(raws[i], decode, root))
    {
      var e := EntryOf(raws, decode, rank, options, model, root, i);
    }
  }

  lemma SpeakerIsEntry(raw: Mds.RawEntry, rank: string -> int, options: Mds.Options, model: ByteString)
    requires SpeaksFor(raw, rank, options, model)
    ensures raw.RawEntry?
  {
  }

  lemma {:induction false} EveryEntryRead(
      raws: seq<Mds.RawEntry>, decode: string -> Option<ByteString>, rank: string -> int, i: nat)
    requires Mds.ReadEntries(raws, decode, rank).Ok? && i < |raws| && raws[i].RawEntry?
    ensures Mds.ReadEntry(raws[i], decode, rank).Ok? && Mds.ReadEntry(raws[i], decode, rank).value.Some?
  {
    hide Mds.ReadRoots, Mds.StatusReports, Mds.NormaliseAaguid;
    if i > 0 {
      EveryEntryRead(raws[1..], decode, rank, i - 1);
    }
  }

  /**
   * The whole decision, from the BLOB on: an attestation is accepted if and only if its format is asked for and
   * names a model, some entry speaks for that model, every root that such entries list is a certificate, and the
   * statement is in order with a chain from which a trust path leads to one of them.
   */
  lemma AcceptedFromBlob(w: World, now: int, input: Input, raws: seq<Mds.RawEntry>,
                         decode: string -> Option<ByteString>, rank: string -> int, options: Mds.Options)
    requires Mds.ReadEntries(raws, decode, rank).Ok?
    ensures var policy := Mds.ToPolicy(Mds.ReadEntries(raws, decode, rank).value, options);
      Verify(w, now, input, policy).Ok?
      <==> && AttestationLaws.NamesModel(input.format) && input.format in FormatsOf(options)
           && Spoken(raws, rank, options, input.aaguid)
           && (forall root :: ListedFor(raws, decode, rank, options, input.aaguid, root) ==> w.parse(root).Some?)
           && exists chain, root ::
                && Evidence.Shown(w, input, false, chain)
                && ListedFor(raws, decode, rank, options, input.aaguid, root) && w.parse(root).Some?
                && Reaches(w.issuance, now, chain, [w.parse(root).value])
  {
    hide Verify, Mds.ToPolicy, Mds.ReadEntries, Evidence.Shown, Spoken, ListedFor, Reaches, ToHex, Mds.Vouched;
    hide Mds.Lists, AttestationLaws.NamesModel;
    var entries, model := Mds.ReadEntries(raws, decode, rank).value, ToHex(input.aaguid);
    AcceptedExactly(w, now, input, entries, options);
    forall root: ByteString
      ensures Mds.Lists(entries, options, model, root) <==> ListedFor(raws, decode, rank, options, input.aaguid, root)
    {
      ListedAsRead(raws, decode, rank, options, input.aaguid, root);
    }
    ListedAsRead(raws, decode, rank, options, input.aaguid, []);
  }

  /** The anchor that a path ends at, taken alone, still ends it. */
  lemma AnchorOf(x: Issuance, now: int, chain: seq<Certificate>, anchors: seq<Certificate>, path: seq<nat>)
      returns (a: nat)
    requires TrustPath(x, now, chain, anchors, path)
    ensures a < |anchors| && TrustPath(x, now, chain, [anchors[a]], path)
  {
    hide Above, Issued;
    var last := chain[path[|path| - 1]];
    a :| 0 <= a < |anchors| && Issued(x, now, last, anchors[a]);
    assert Issued(x, now, last, [anchors[a]][0]);
  }

  lemma ListingEntry(entries: seq<Mds.Entry>, options: Mds.Options, model: string, root: ByteString)
      returns (entry: Mds.Entry)
    requires Mds.Lists(entries, options, model, root)
    ensures entry in entries && VouchesWith(entry, options, model, root)
  {
    var i :| 0 <= i < |entries| && Mds.Qualifies(entries[i], options) && entries[i].aaguid == Some(model)
             && root in entries[i].roots;
    entry := entries[i];
  }

  /** A trust path of first issuers leads from the chain to a root that some qualifying entry lists for the model. */
  ghost predicate ReachesListed(w: World, now: int, chain: seq<Certificate>, entries: seq<Mds.Entry>,
                                options: Mds.Options, model: string)
  {
    exists root :: Mds.Lists(entries, options, model, root) && w.parse(root).Some?
                   && Reaches(w.issuance, now, chain, [w.parse(root).value])
  }

  /** Every root listed for the model can be read. */
  ghost predicate ListedReadable(w: World, entries: seq<Mds.Entry>, options: Mds.Options, model: string) {
    forall root :: Mds.Lists(entries, options, model, root) ==> w.parse(root).Some?
  }

  /** A policy compiled from a BLOB leads a chain to a root exactly where some listed root is reached. */
  lemma RootedUnderMetadata(w: World, now: int, input: Input, entries: seq<Mds.Entry>, options: Mds.Options,
                            chain: seq<Certificate>)
    requires Mds.Vouched(entries, options, ToHex(input.aaguid))
    ensures Evidence.Rooted(w, now, input, Mds.ToPolicy(entries, options), chain)
            <==> ListedReadable(w, entries, options, ToHex(input.aaguid))
                 && ReachesListed(w, now, chain, entries, options, ToHex(input.aaguid))
  {
    hide Mds.Gather, Mds.Lists, Mds.Vouched, ToHex, Reaches, Evidence.ReadAs;
    var policy, model := Mds.ToPolicy(entries, options), ToHex(input.aaguid);
    var ders := Evidence.RootsFor(policy, model);
    forall root ensures root in ders <==> Mds.Lists(entries, options, model, root) {
      Mds.PolicyPairs(entries, options, model, root);
    }
    SomeListed(entries, options, model, ders);
    if ListedReadable(w, entries, options, model) {
      var anchors := AllRead(w, ders);
      ReachedSingly(w, now, chain, ders, anchors);
      forall others | Evidence.ReadAs(w, ders, others) ensures others == anchors {
        OneReading(w, ders, anchors, others);
      }
    } else {
      forall anchors ensures !Evidence.ReadAs(w, ders, anchors) {
        if Evidence.ReadAs(w, ders, anchors) {
          AllReadable(w, ders, anchors);
        }
      }
    }
  }

  lemma SomeListed(entries: seq<Mds.Entry>, options: Mds.Options, model: string, ders: seq<ByteString>)
    requires Mds.Vouched(entries, options, model)
    requires forall root :: root in ders <==> Mds.Lists(entries, options, model, root)
    ensures |ders| > 0
  {
    var i :| 0 <= i < |entries| && Mds.Qualifies(entries[i], options) && entries[i].aaguid == Some(model);
    assert Mds.Lists(entries, options, model, entries[i].roots[0]);
  }

  lemma AllRead(w: World, ders: seq<ByteString>) returns (certs: seq<Certificate>)
    requires forall d :: d in ders ==> w.parse(d).Some?
    ensures Evidence.ReadAs(w, ders, certs)
  {
    certs := seq(|ders|, i requires 0 <= i < |ders| => w.parse(ders[i]).value);
  }

  lemma AllReadable(w: World, ders: seq<ByteString>, certs: seq<Certificate>)
    requires Evidence.ReadAs(w, ders, certs)
    ensures forall d :: d in ders ==> w.parse(d).Some?
  {
  }

  lemma OneReading(w: World, ders: seq<ByteString>, a: seq<Certificate>, b: seq<Certificate>)
    requires Evidence.ReadAs(w, ders, a) && Evidence.ReadAs(w, ders, b)
    ensures a == b
  {
    assert forall i :: 0 <= i < |ders| ==> w.parse(ders[i]) == Some(a[i]) && w.parse(ders[i]) == Some(b[i]);
  }

  /** Some of the roots are reached if and only if one of them, taken alone, is. */
  lemma ReachedSingly(w: World, now: int, chain: seq<Certificate>, ders: seq<ByteString>, anchors: seq<Certificate>)
    requires Evidence.ReadAs(w, ders, anchors)
    ensures Reaches(w.issuance, now, chain, anchors)
            <==> exists root :: root in ders && w.parse(root).Some?
                                && Reaches(w.issuance, now, chain, [w.parse(root).value])
  {
    hide ReachesAnchor, Reaches;
    OneAnchorSuffices(w.issuance, now, chain, anchors);
    ReachingIsFirstPath(w.issuance, now, chain, anchors);
    forall a | 0 <= a < |anchors|
      ensures ReachesAnchor(w.issuance, now, chain, [anchors[a]]) <==> Reaches(w.issuance, now, chain, [anchors[a]])
    {
      ReachingIsFirstPath(w.issuance, now, chain, [anchors[a]]);
    }
    if ReachesAnchor(w.issuance, now, chain, anchors) {
      var a :| 0 <= a < |anchors| && ReachesAnchor(w.issuance, now, chain, [anchors[a]]);
      assert ders[a] in ders && w.parse(ders[a]) == Some(anchors[a]);
    }
    forall root | root in ders && w.parse(root).Some? && Reaches(w.issuance, now, chain, [w.parse(root).value])
      ensures ReachesAnchor(w.issuance, now, chain, anchors)
    {
      var a :| 0 <= a < |ders| && ders[a] == root;
      assert w.parse(ders[a]) == Some(anchors[a]);
    }
  }

  /** A policy compiled from a BLOB admits neither self-attestation nor what only the operating system says. */
  lemma StrictPolicy(entries: seq<Mds.Entry>, options: Mds.Options)
    ensures !Mds.ToPolicy(entries, options).allowSelfAttestation
    ensures !Mds.ToPolicy(entries, options).allowSoftwareEnforcedAndroidKey
    ensures Mds.ToPolicy(entries, options).formats == Some(FormatsOf(options))
  {
    hide Mds.Gather;
  }

  /** Nothing that vouches for no model is accepted under a policy compiled from a BLOB. */
  lemma OnlyNamedModels(w: World, now: int, input: Input, entries: seq<Mds.Entry>, options: Mds.Options)
    requires Verify(w, now, input, Mds.ToPolicy(entries, options)).Ok?
    ensures AttestationLaws.NamesModel(input.format)
    ensures Verify(w, now, input, Mds.ToPolicy(entries, options)).value.kind == Basic
  {
    hide Verify, Mds.Gather, AttestationLaws.NamesModel, Evidence.Presents, TrustPath, Evidence.ReadAs;
    var policy := Mds.ToPolicy(entries, options);
    AttestationLaws.AllowlistIsEnforced(w, now, input, policy);
    var _, _, _ := AttestationLaws.BasicIsCertified(w, now, input, policy);
  }

  /** The formats accepted under a policy compiled from a BLOB. */
  function FormatsOf(options: Mds.Options): seq<ByteString> {
    if options.formats.Some? then options.formats.value else Mds.DEFAULT_FORMATS
  }

  /**
   * The whole decision under a policy compiled from a BLOB: an attestation is accepted if and only if its format
   * is asked for and names a model, some qualifying entry is for that model, every root listed for it can be
   * read, and the statement is in order with a chain that reaches one of them. Self-attestation, no attestation,
   * fido-u2f and SafetyNet are refused whatever the options ask for.
   */
  lemma AcceptedExactly(w: World, now: int, input: Input, entries: seq<Mds.Entry>, options: Mds.Options)
    ensures var policy, model := Mds.ToPolicy(entries, options), ToHex(input.aaguid);
      Verify(w, now, input, policy).Ok?
      <==> AttestationLaws.NamesModel(input.format) && input.format in FormatsOf(options)
           && Mds.Vouched(entries, options, model) && ListedReadable(w, entries, options, model)
           && exists chain :: Evidence.Shown(w, input, false, chain)
                              && ReachesListed(w, now, chain, entries, options, model)
  {
    hide Verify, Mds.Gather, AttestationLaws.NamesModel, Evidence.Shown, Evidence.Rooted;
    hide ListedReadable, ReachesListed, Mds.Vouched, ToHex;
    var policy, model := Mds.ToPolicy(entries, options), ToHex(input.aaguid);
    StrictPolicy(entries, options);
    Mds.PolicyPairs(entries, options, model, []);
    if Verify(w, now, input, policy).Ok? {
      OnlyNamedModels(w, now, input, entries, options);
      AttestationLaws.CertifiedExactly(w, now, input, policy, Verify(w, now, input, policy).value);
      assert Mds.Vouched(entries, options, model);
      var chain :| Evidence.Shown(w, input, false, chain) && Evidence.Rooted(w, now, input, policy, chain);
      RootedUnderMetadata(w, now, input, entries, options, chain);
    }
    if && AttestationLaws.NamesModel(input.format) && input.format in FormatsOf(options)
       && Mds.Vouched(entries, options, model) && ListedReadable(w, entries, options, model) {
      forall chain | Evidence.Shown(w, input, false, chain) && ReachesListed(w, now, chain, entries, options, model)
        ensures Verify(w, now, input, policy).Ok?
      {
        RootedUnderMetadata(w, now, input, entries, options, chain);
        AttestationLaws.ShownCertifies(w, now, input, policy, chain);
      }
    }
  }

  /**
   * Under a policy compiled from a BLOB, a packed statement that is in order is accepted if and only if some
   * entry vouches for its model, every root listed for that model can be read, and its chain reaches one.
   */
  lemma PackedUnderMetadata(w: World, now: int, input: Input, entries: seq<Mds.Entry>, options: Mds.Options,
                            chain: seq<Certificate>)
    requires input.format == PACKED && Evidence.PresentsX5c(w, input.statement, chain)
    requires Evidence.PackedShown(w, input, chain[0])
    requires options.formats.Some? ==> PACKED in options.formats.value
    ensures var model := ToHex(input.aaguid);
      Verify(w, now, input, Mds.ToPolicy(entries, options)).Ok?
      <==> Mds.Vouched(entries, options, model) && ListedReadable(w, entries, options, model)
           && ReachesListed(w, now, chain, entries, options, model)
  {
    hide Verify, Mds.ToPolicy, Evidence.PackedShown, ListedReadable, ReachesListed, Mds.Vouched;
    hide ToHex, Ascii, Evidence.AppleShown, Evidence.TpmShown, Evidence.AndroidKeyShown, Evidence.U2fShown;
    AcceptedExactly(w, now, input, entries, options);
    assert Mds.DEFAULT_FORMATS[0] == PACKED;
    AttestationLaws.FormatsDiffer();
    AttestationLaws.PackedAside();
    var policy := Mds.ToPolicy(entries, options);
    assert Evidence.Shown(w, input, false, chain);
    forall other | Evidence.Shown(w, input, false, other) ensures other == chain {
      AttestationLaws.SameChain(w, input, input, other, chain);
    }
  }

  /** A model revoked in one entry is still vouched for by another: histories are read entry by entry. */
  lemma RevocationIsPerEntry()
    ensures exists entries: seq<Mds.Entry>, options: Mds.Options, model: string ::
      && |entries| == 2 && entries[0].aaguid == entries[1].aaguid == Some(model)
      && Mds.Disqualified(entries[0]) && Mds.Vouched(entries, options, model)
  {
    var revoked := Mds.Entry(Some("m"), [[1]], [Mds.Report("REVOKED", None)]);
    var certified := Mds.Entry(Some("m"), [[2]], [Mds.Report("FIDO_CERTIFIED", None)]);
    var entries, options := [revoked, certified], Mds.Options(None, None, None);
    assert revoked.reports[0].status == Mds.DISQUALIFYING_STATUSES[4];
    assert Mds.DEFAULT_ACCEPTED_STATUSES[0] == "FIDO_CERTIFIED";
    assert !Mds.Disqualified(certified) by {
      assert |"FIDO_CERTIFIED"| == 14 && |"USER_KEY_REMOTE_COMPROMISE"| == 26;
    }
    assert Mds.Disqualified(entries[0]) by {
      assert entries[0].reports[0].status in Mds.DISQUALIFYING_STATUSES;
    }
    assert Mds.Qualifies(entries[1], options);
    assert Mds.Vouched(entries, options, "m");
  }
}
