/** Metadata BLOB entries, and the attestation policy that is compiled from them. */
module Mds {
  import opened Bytes
  import opened Wrappers
  import opened Attestation

  datatype Error = RootNotString | RootNotBase64

  /** What JSON may hold where text is expected; null counts as absent. */
  datatype Json = Absent | Str(text: string) | Other

  datatype Report = Report(status: string, date: Option<string>)

  /** A status report before its fields have been looked at. */
  datatype RawReport = NotARecord | RawReport(status: Json, date: Json)

  datatype Entry = Entry(aaguid: Option<string>, roots: seq<ByteString>, reports: seq<Report>)

  /** An entry before it is read: its own AAGUID, the one of its statement, roots and reports. */
  datatype RawEntry = NotAnEntry | RawEntry(own: Json, stated: Json, roots: seq<Json>, reports: seq<RawReport>)

  const DISQUALIFYING_STATUSES := [
    "ATTESTATION_KEY_COMPROMISE", "USER_VERIFICATION_BYPASS", "USER_KEY_REMOTE_COMPROMISE",
    "USER_KEY_PHYSICAL_COMPROMISE", "REVOKED"]

  const DEFAULT_ACCEPTED_STATUSES := [
    "FIDO_CERTIFIED", "FIDO_CERTIFIED_L1", "FIDO_CERTIFIED_L1plus", "FIDO_CERTIFIED_L2",
    "FIDO_CERTIFIED_L2plus", "FIDO_CERTIFIED_L3", "FIDO_CERTIFIED_L3plus"]

  const DEFAULT_FORMATS := [PACKED, APPLE, TPM, FIDO_U2F, ANDROID_KEY]

  // ---- Status reports, newest first --------------------------------------------------------

  /** The collation place of a report's date; an undated report has that of the empty text. */
  function Place(rank: string -> int, r: Report): int {
    rank(if r.date.Some? then r.date.value else "")
  }

  function ReadReports(raw: seq<RawReport>): seq<Report> {
    if |raw| == 0 then []
    else if raw[0].NotARecord? || !raw[0].status.Str? then ReadReports(raw[1..])
    else
      [Report(raw[0].status.text, if raw[0].date.Str? then Some(raw[0].date.text) else None)] + ReadReports(raw[1..])
  }

  /** Stable insertion, before the first report that is strictly older. */
  function Insert(rank: string -> int, r: Report, reports: seq<Report>): seq<Report> {
    if |reports| == 0 then [r]
    else if Place(rank, r) >= Place(rank, reports[0]) then [r] + reports
    else [reports[0]] + Insert(rank, r, reports[1..])
  }

  function NewestFirst(rank: string -> int, reports: seq<Report>): seq<Report> {
    if |reports| == 0 then [] else Insert(rank, reports[0], NewestFirst(rank, reports[1..]))
  }

  function StatusReports(rank: string -> int, raw: seq<RawReport>): seq<Report> {
    NewestFirst(rank, ReadReports(raw))
  }

  predicate Descending(rank: string -> int, reports: seq<Report>) {
    forall i, j :: 0 <= i < j < |reports| ==> Place(rank, reports[i]) >= Place(rank, reports[j])
  }

  lemma {:induction false} InsertCounts(rank: string -> int, r: Report, reports: seq<Report>)
    ensures multiset(Insert(rank, r, reports)) == multiset{r} + multiset(reports)
  {
    if |reports| > 0 {
      assert reports == [reports[0]] + reports[1..];
      if Place(rank, r) < Place(rank, reports[0]) {
        InsertCounts(rank, r, reports[1..]);
      }
    }
  }

  lemma {:induction false} InsertKeeps(rank: string -> int, r: Report, reports: seq<Report>)
    requires Descending(rank, reports)
    ensures Descending(rank, Insert(rank, r, reports))
  {
    if |reports| > 0 && Place(rank, r) < Place(rank, reports[0]) {
      var rest := Insert(rank, r, reports[1..]);
      InsertKeeps(rank, r, reports[1..]);
      InsertCounts(rank, r, reports[1..]);
      forall i | 0 <= i < |rest| ensures Place(rank, reports[0]) >= Place(rank, rest[i]) {
        assert rest[i] in multiset(rest);
        assert rest[i] == r || rest[i] in reports[1..];
      }
    }
  }

  /** The reports are all kept, newest first. */
  lemma {:induction false} NewestFirstSorts(rank: string -> int, reports: seq<Report>)
    ensures Descending(rank, NewestFirst(rank, reports))
    ensures multiset(NewestFirst(rank, reports)) == multiset(reports)
  {
    if |reports| > 0 {
      NewestFirstSorts(rank, reports[1..]);
      InsertKeeps(rank, reports[0], NewestFirst(rank, reports[1..]));
      InsertCounts(rank, reports[0], NewestFirst(rank, reports[1..]));
      assert reports == [reports[0]] + reports[1..];
    }
  }

  /**
   * Where no text collates before the empty one, an undated report is the current one only when no date
   * collates after it: every report then has the place of an undated one.
   */
  lemma UndatedIsNeverCurrent(rank: string -> int, raw: seq<RawReport>)
    requires forall d :: rank("") <= rank(d)
    requires var reports := StatusReports(rank, raw); |reports| > 0 && reports[0].date.None?
    ensures forall r :: r in ReadReports(raw) ==> Place(rank, r) == rank("")
  {
    var read, reports := ReadReports(raw), StatusReports(rank, raw);
    NewestFirstSorts(rank, read);
    forall r | r in read ensures Place(rank, r) == rank("") {
      assert r in multiset(reports);
      var i :| 0 <= i < |reports| && reports[i] == r;
      assert Place(rank, reports[0]) >= Place(rank, r);
    }
  }

  /** A report that is read, as what it is read into. */
  predicate Reads(raw: RawReport, r: Report) {
    && raw.RawReport? && raw.status == Str(r.status)
    && r.date == if raw.date.Str? then Some(raw.date.text) else None
  }

  /** A report is read if and only if the BLOB holds it, with text for its status. */
  lemma {:induction false} ReportsRead(raw: seq<RawReport>, r: Report)
    ensures r in ReadReports(raw) <==> exists i :: 0 <= i < |raw| && Reads(raw[i], r)
  {
    if |raw| > 0 {
      ReportsRead(raw[1..], r);
      if r in ReadReports(raw[1..]) {
        var i :| 0 <= i < |raw[1..]| && Reads(raw[1..][i], r);
        assert raw[i + 1] == raw[1..][i];
      }
      if i :| 0 <= i < |raw| && Reads(raw[i], r) {
        assert i > 0 ==> raw[1..][i - 1] == raw[i];
      }
    }
  }

  /** The loop that keeps the reports whose status is text; they are sorted when it is done. */
  method ReadStatusReports(raw: seq<RawReport>, rank: string -> int) returns (reports: seq<Report>)
    ensures reports == StatusReports(rank, raw)
  {
    reports := [];
    for i := 0 to |raw|
      invariant reports + ReadReports(raw[i..]) == ReadReports(raw)
    {
      assert raw[i..][1..] == raw[i + 1..];
      if raw[i].NotARecord? || !raw[i].status.Str? { continue; }
      var report := Report(raw[i].status.text, if raw[i].date.Str? then Some(raw[i].date.text) else None);
      assert reports + ([report] + ReadReports(raw[i + 1..])) == (reports + [report]) + ReadReports(raw[i + 1..]);
      reports := reports + [report];
    }
    assert reports + [] == reports;
    reports := NewestFirst(rank, reports);
  }

  // ---- Entries ---------------------------------------------------------------------------

  function Lower(c: char): char {
    if 'A' <= c <= 'Z' then c - 'A' + 'a' else c
  }

  function Stripped(s: string): string {
    if |s| == 0 then "" else (if s[0] == '-' then "" else [Lower(s[0])]) + Stripped(s[1..])
  }

  /** The lowercase hex of sixteen bytes, whatever case and hyphens it was written with. */
  function NormaliseAaguid(value: Json): Option<string> {
    if !value.Str? then None
    else
      var hex := Stripped(value.text);
      if |hex| == 32 && forall i :: 0 <= i < |hex| ==> hex[i] in HEX_DIGITS then Some(hex) else None
  }

  function ReadRoots(roots: seq<Json>, decode: string -> Option<ByteString>): Result<seq<ByteString>, Error> {
    if |roots| == 0 then Ok([])
    else if !roots[0].Str? then Err(RootNotString)
    else if decode(roots[0].text).None? then Err(RootNotBase64)
    else
      var rest :- ReadRoots(roots[1..], decode);
      Ok([decode(roots[0].text).value] + rest)
  }

  function ReadEntry(raw: RawEntry, decode: string -> Option<ByteString>, rank: string -> int)
    : Result<Option<Entry>, Error>
  {
    if raw.NotAnEntry? then Ok(None)
    else
      var roots :- ReadRoots(raw.roots, decode);
      var aaguid := NormaliseAaguid(if raw.own.Absent? then raw.stated else raw.own);
      Ok(Some(Entry(aaguid, roots, StatusReports(rank, raw.reports))))
  }

  function ReadEntries(raws: seq<RawEntry>, decode: string -> Option<ByteString>, rank: string -> int)
    : Result<seq<Entry>, Error>
  {
    if |raws| == 0 then Ok([])
    else
      var first :- ReadEntry(raws[0], decode, rank);
      var rest :- ReadEntries(raws[1..], decode, rank);
      Ok((if first.Some? then [first.value] else []) + rest)
  }

  /** The roots that are read are those listed, in order; all must be text in canonical base64. */
  lemma {:induction false} RootsRead(roots: seq<Json>, decode: string -> Option<ByteString>)
    ensures var r := ReadRoots(roots, decode);
      && (r.Ok? <==> forall i :: 0 <= i < |roots| ==> roots[i].Str? && decode(roots[i].text).Some?)
      && (r.Ok? ==> |r.value| == |roots|
                    && forall i :: 0 <= i < |roots| ==> decode(roots[i].text) == Some(r.value[i]))
  {
    if |roots| > 0 {
      RootsRead(roots[1..], decode);
      assert forall i :: 0 < i < |roots| ==> roots[i] == roots[1..][i - 1];
      if ReadRoots(roots, decode).Err? && roots[0].Str? && decode(roots[0].text).Some? {
        var i :| 0 <= i < |roots[1..]| && !(roots[1..][i].Str? && decode(roots[1..][i].text).Some?);
        assert roots[i + 1] == roots[1..][i];
      }
    }
  }

  /** An entry is among those read if and only if some entry of the BLOB is read into it. */
  lemma {:induction false} EntriesRead(
      raws: seq<RawEntry>, decode: string -> Option<ByteString>, rank: string -> int, entry: Entry)
    requires ReadEntries(raws, decode, rank).Ok?
    ensures entry in ReadEntries(raws, decode, rank).value
            <==> exists i :: 0 <= i < |raws| && ReadEntry(raws[i], decode, rank) == Ok(Some(entry))
  {
    hide ReadEntry;
    if |raws| > 0 {
      EntriesRead(raws[1..], decode, rank, entry);
      if entry in ReadEntries(raws[1..], decode, rank).value {
        var i :| 0 <= i < |raws[1..]| && ReadEntry(raws[1..][i], decode, rank) == Ok(Some(entry));
        assert raws[i + 1] == raws[1..][i];
      }
      if i :| 0 <= i < |raws| && ReadEntry(raws[i], decode, rank) == Ok(Some(entry)) {
        assert i > 0 ==> raws[1..][i - 1] == raws[i];
      }
    }
  }

  /** The loop over the entries of a BLOB, and over the roots of each. */
  method ReadBlobEntries(raws: seq<RawEntry>, decode: string -> Option<ByteString>, rank: string -> int)
      returns (r: Result<seq<Entry>, Error>)
    ensures r == ReadEntries(raws, decode, rank)
  {
    hide ReadReports, NewestFirst, NormaliseAaguid;
    var entries: seq<Entry> := [];
    PrependNothing(ReadEntries(raws, decode, rank));
    assert raws[0..] == raws;
    for i := 0 to |raws|
      invariant ReadEntries(raws, decode, rank) == Prepend(entries, ReadEntries(raws[i..], decode, rank))
    {
      assert raws[i..][1..] == raws[i + 1..];
      PrependNothing(ReadEntries(raws[i + 1..], decode, rank));
      if raws[i].NotAnEntry? { continue; }
      var roots := ReadRootCertificates(raws[i].roots, decode);
      if roots.Err? {
        return Err(roots.error);
      }
      var aaguid := NormaliseAaguid(if raws[i].own.Absent? then raws[i].stated else raws[i].own);
      var reports := ReadStatusReports(raws[i].reports, rank);
      var entry := Entry(aaguid, roots.value, reports);
      PrependTwice(entries, [entry], ReadEntries(raws[i + 1..], decode, rank));
      entries := entries + [entry];
    }
    assert entries + [] == entries;
    return Ok(entries);
  }

  method ReadRootCertificates(roots: seq<Json>, decode: string -> Option<ByteString>)
      returns (r: Result<seq<ByteString>, Error>)
    ensures r == ReadRoots(roots, decode)
  {
    var read: seq<ByteString> := [];
    PrependNothing(ReadRoots(roots, decode));
    assert roots[0..] == roots;
    for i := 0 to |roots|
      invariant ReadRoots(roots, decode) == Prepend(read, ReadRoots(roots[i..], decode))
    {
      assert roots[i..][1..] == roots[i + 1..];
      if !roots[i].Str? {
        return Err(RootNotString);
      }
      var der := decode(roots[i].text);
      if der.None? {
        return Err(RootNotBase64);
      }
      PrependTwice(read, [der.value], ReadRoots(roots[i + 1..], decode));
      read := read + [der.value];
    }
    assert read + [] == read;
    return Ok(read);
  }

  /** A result with items put before those it holds. */
  function Prepend<T>(items: seq<T>, r: Result<seq<T>, Error>): Result<seq<T>, Error> {
    if r.Ok? then Ok(items + r.value) else r
  }

  lemma PrependNothing<T>(r: Result<seq<T>, Error>)
    ensures Prepend([], r) == r
  {
    if r.Ok? {
      assert [] + r.value == r.value;
    }
  }

  lemma PrependTwice<T>(a: seq<T>, b: seq<T>, r: Result<seq<T>, Error>)
    ensures Prepend(a, Prepend(b, r)) == Prepend(a + b, r)
  {
    if r.Ok? {
      assert a + (b + r.value) == (a + b) + r.value;
    }
  }

  // ---- The policy ------------------------------------------------------------------------

  datatype Options = Options(
    formats: Option<seq<ByteString>>, acceptedStatuses: Option<seq<string>>, aaguids: Option<seq<string>>)

  /** What the loop over the entries has gathered. */
  datatype Gathered = Gathered(
    trustAnchors: seq<ByteString>, allowed: seq<string>, models: map<string, seq<ByteString>>)

  const NOTHING := Gathered([], [], map[])

  predicate Disqualified(entry: Entry) {
    exists i :: 0 <= i < |entry.reports| && entry.reports[i].status in DISQUALIFYING_STATUSES
  }

  /** A disqualifying status among the reports as the BLOB holds them. */
  predicate RawDisqualified(raw: RawEntry) {
    && raw.RawEntry?
    && exists i :: 0 <= i < |raw.reports| && raw.reports[i].RawReport? && raw.reports[i].status.Str?
                   && raw.reports[i].status.text in DISQUALIFYING_STATUSES
  }

  /** Reading and sorting neither lose a disqualifying report nor invent one. */
  lemma DisqualifiedAsRead(raw: RawEntry, decode: string -> Option<ByteString>, rank: string -> int)
    requires ReadEntry(raw, decode, rank).Ok? && ReadEntry(raw, decode, rank).value.Some?
    ensures Disqualified(ReadEntry(raw, decode, rank).value.value) <==> RawDisqualified(raw)
  {
    hide ReadReports, NewestFirst, ReadRoots, NormaliseAaguid;
    var read, reports := ReadReports(raw.reports), StatusReports(rank, raw.reports);
    NewestFirstSorts(rank, read);
    if i :| 0 <= i < |reports| && reports[i].status in DISQUALIFYING_STATUSES {
      assert reports[i] in multiset(read);
      ReportsRead(raw.reports, reports[i]);
    }
    if RawDisqualified(raw) {
      var i :| 0 <= i < |raw.reports| && raw.reports[i].RawReport? && raw.reports[i].status.Str?
               && raw.reports[i].status.text in DISQUALIFYING_STATUSES;
      var date := raw.reports[i].date;
      var r := Report(raw.reports[i].status.text, if date.Str? then Some(date.text) else None);
      ReportsRead(raw.reports, r);
      assert r in multiset(reports);
    }
  }

  /** Where a report of the BLOB is placed by its date, one without a date as if that were the empty text. */
  function RawPlace(rank: string -> int, raw: RawReport): int
    requires raw.RawReport?
  {
    rank(if raw.date.Str? then raw.date.text else "")
  }

  predicate HasStatus(raw: RawReport) {
    raw.RawReport? && raw.status.Str?
  }

  /** The i-th report has a status, no other that has one is dated later, and none before it as late. */
  predicate CurrentAt(raw: seq<RawReport>, rank: string -> int, i: nat) {
    && i < |raw| && HasStatus(raw[i])
    && forall j :: 0 <= j < |raw| && HasStatus(raw[j]) ==>
         if j < i then RawPlace(rank, raw[j]) < RawPlace(rank, raw[i])
         else RawPlace(rank, raw[j]) <= RawPlace(rank, raw[i])
  }

  lemma SortedSize(raw: seq<RawReport>, rank: string -> int)
    ensures |StatusReports(rank, raw)| == |ReadReports(raw)|
  {
    hide ReadReports, NewestFirst;
    NewestFirstSorts(rank, ReadReports(raw));
    assert |multiset(ReadReports(raw))| == |multiset(StatusReports(rank, raw))|;
  }

  /** One more report in front: it is skipped, or it leads unless the leader so far is dated later. */
  lemma LeaderOfMore(raw: seq<RawReport>, rank: string -> int)
    requires |raw| > 0
    ensures var more := raw[1..];
      if !HasStatus(raw[0]) then StatusReports(rank, raw) == StatusReports(rank, more)
      else
        && |StatusReports(rank, raw)| > 0
        && var lead := StatusReports(rank, raw)[0];
           if |StatusReports(rank, more)| == 0
              || RawPlace(rank, raw[0]) >= Place(rank, StatusReports(rank, more)[0])
           then Reads(raw[0], lead) else lead == StatusReports(rank, more)[0]
  {
  }

  /** The first of the sorted reports is the first among the newest of the BLOB's. */
  lemma {:induction false} FirstIsCurrent(raw: seq<RawReport>, rank: string -> int) returns (i: nat)
    requires |StatusReports(rank, raw)| > 0
    ensures CurrentAt(raw, rank, i) && Reads(raw[i], StatusReports(rank, raw)[0])
  {
    hide StatusReports, CurrentAt;
    SortedSize(raw, rank);
    NoneHaveStatus(raw);
    var more := raw[1..];
    assert forall j :: 0 <= j < |more| ==> raw[j + 1] == more[j];
    LeaderOfMore(raw, rank);
    SortedSize(more, rank);
    if |StatusReports(rank, more)| == 0 {
      NoneHaveStatus(more);
      AloneIsCurrent(raw, more, rank);
      i := 0;
    } else {
      var k := FirstIsCurrent(more, rank);
      CurrentHasStatus(more, rank, k);
      if HasStatus(raw[0]) && RawPlace(rank, raw[0]) >= RawPlace(rank, more[k]) {
        LeadsAll(raw, more, rank, k);
        i := 0;
      } else {
        i := CurrentMoves(raw, more, rank, k);
      }
    }
  }

  lemma CurrentHasStatus(raw: seq<RawReport>, rank: string -> int, i: nat)
    requires CurrentAt(raw, rank, i)
    ensures i < |raw| && HasStatus(raw[i])
  {
  }

  lemma AloneIsCurrent(raw: seq<RawReport>, more: seq<RawReport>, rank: string -> int)
    requires |raw| == |more| + 1 && HasStatus(raw[0])
    requires forall j :: 0 <= j < |more| ==> raw[j + 1] == more[j] && !HasStatus(more[j])
    ensures CurrentAt(raw, rank, 0)
  {
    assert forall j :: 0 < j < |raw| ==> raw[j] == more[j - 1];
  }

  lemma LeadsAll(raw: seq<RawReport>, more: seq<RawReport>, rank: string -> int, k: nat)
    requires |raw| == |more| + 1 && forall j :: 0 <= j < |more| ==> raw[j + 1] == more[j]
    requires CurrentAt(more, rank, k) && HasStatus(raw[0]) && RawPlace(rank, raw[0]) >= RawPlace(rank, more[k])
    ensures CurrentAt(raw, rank, 0)
  {
    assert forall j :: 0 < j < |raw| ==> raw[j] == more[j - 1];
  }

  lemma CurrentMoves(raw: seq<RawReport>, more: seq<RawReport>, rank: string -> int, k: nat) returns (i: nat)
    requires |raw| == |more| + 1 && forall j :: 0 <= j < |more| ==> raw[j + 1] == more[j]
    requires CurrentAt(more, rank, k)
    requires HasStatus(raw[0]) ==> RawPlace(rank, raw[0]) < RawPlace(rank, more[k])
    ensures i == k + 1 && CurrentAt(raw, rank, i) && raw[i] == more[k]
  {
    i := k + 1;
    forall j | 0 <= j < |raw| && HasStatus(raw[j])
      ensures if j < i then RawPlace(rank, raw[j]) < RawPlace(rank, raw[i])
              else RawPlace(rank, raw[j]) <= RawPlace(rank, raw[i])
    {
      if j > 0 {
        assert raw[j - 1 + 1] == more[j - 1];
      }
    }
  }

  lemma {:induction false} NoneHaveStatus(raw: seq<RawReport>)
    ensures |ReadReports(raw)| == 0 <==> forall j :: 0 <= j < |raw| ==> !HasStatus(raw[j])
  {
    if |raw| > 0 {
      NoneHaveStatus(raw[1..]);
      if forall j :: 0 <= j < |raw[1..]| ==> !HasStatus(raw[1..][j]) {
        assert forall j :: 0 < j < |raw| ==> raw[j] == raw[1..][j - 1];
      } else {
        var j :| 0 <= j < |raw[1..]| && HasStatus(raw[1..][j]);
        assert raw[j + 1] == raw[1..][j];
      }
    }
  }

  /** An entry's reports begin with this status exactly when that is the BLOB's current one. */
  lemma CurrentStatus(raw: seq<RawReport>, rank: string -> int, status: string)
    ensures (|StatusReports(rank, raw)| > 0 && StatusReports(rank, raw)[0].status == status)
            <==> exists i: nat :: CurrentAt(raw, rank, i) && raw[i].status == Str(status)
  {
    hide StatusReports;
    SortedSize(raw, rank);
    NoneHaveStatus(raw);
    if |StatusReports(rank, raw)| > 0 {
      var i := FirstIsCurrent(raw, rank);
    }
  }

  /** Whether an entry's roots are to be trusted for its model. */
  predicate Qualifies(entry: Entry, options: Options): (yes: bool)
    ensures yes ==> entry.aaguid.Some?
  {
    && entry.aaguid.Some?
    && (options.aaguids.Some? ==> entry.aaguid.value in options.aaguids.value)
    && |entry.roots| > 0
    && !Disqualified(entry)
    && |entry.reports| > 0
    && entry.reports[0].status
       in (if options.acceptedStatuses.Some? then options.acceptedStatuses.value else DEFAULT_ACCEPTED_STATUSES)
  }

  /** Roots joined to those that are there, each once. */
  function Union(anchors: seq<ByteString>, roots: seq<ByteString>): seq<ByteString>
    decreases |roots|
  {
    if |roots| == 0 then anchors
    else Union(if roots[0] in anchors then anchors else anchors + [roots[0]], roots[1..])
  }

  function Paired(models: map<string, seq<ByteString>>, aaguid: string): seq<ByteString> {
    if aaguid in models then models[aaguid] else []
  }

  function Take(g: Gathered, entry: Entry): Gathered
    requires entry.aaguid.Some?
  {
    var model := entry.aaguid.value;
    Gathered(Union(g.trustAnchors, entry.roots), g.allowed + [model],
             g.models[model := Paired(g.models, model) + entry.roots])
  }

  function Gather(g: Gathered, entries: seq<Entry>, options: Options): Gathered
    decreases |entries|
  {
    if |entries| == 0 then g
    else Gather(if Qualifies(entries[0], options) then Take(g, entries[0]) else g, entries[1..], options)
  }

  function PolicyOf(g: Gathered, options: Options): Policy {
    Policy(Some(if options.formats.Some? then options.formats.value else DEFAULT_FORMATS),
           Some(g.trustAnchors), g.models, Some(g.allowed), false, false)
  }

  function ToPolicy(entries: seq<Entry>, options: Options): Policy {
    PolicyOf(Gather(NOTHING, entries, options), options)
  }

  /** The loops that gather the policy; `seen` holds the roots already in the union. */
  method ToAttestationPolicy(entries: seq<Entry>, options: Options) returns (policy: Policy)
    ensures policy == ToPolicy(entries, options)
  {
    var accepted := if options.acceptedStatuses.Some? then options.acceptedStatuses.value
                    else DEFAULT_ACCEPTED_STATUSES;
    var trustAnchors: seq<ByteString> := [];
    var allowed: seq<string> := [];
    var models: map<string, seq<ByteString>> := map[];
    var seen: set<ByteString> := {};
    for i := 0 to |entries|
      invariant forall root :: root in seen <==> root in trustAnchors
      invariant Gather(Gathered(trustAnchors, allowed, models), entries[i..], options)
                == Gather(NOTHING, entries, options)
    {
      var entry := entries[i];
      assert entries[i..][1..] == entries[i + 1..];
      if entry.aaguid.None? { continue; }
      if options.aaguids.Some? && entry.aaguid.value !in options.aaguids.value { continue; }
      if |entry.roots| == 0 { continue; }
      if exists k :: 0 <= k < |entry.reports| && entry.reports[k].status in DISQUALIFYING_STATUSES { continue; }
      if |entry.reports| == 0 || entry.reports[0].status !in accepted { continue; }
      var model := entry.aaguid.value;
      ghost var before := trustAnchors;
      allowed := allowed + [model];
      models := models[model := Paired(models, model) + entry.roots];
      for k := 0 to |entry.roots|
        invariant forall root :: root in seen <==> root in trustAnchors
        invariant Union(trustAnchors, entry.roots[k..]) == Union(before, entry.roots)
      {
        assert entry.roots[k..][1..] == entry.roots[k + 1..];
        if entry.roots[k] in seen { continue; }
        seen := seen + {entry.roots[k]};
        trustAnchors := trustAnchors + [entry.roots[k]];
      }
    }
    policy := PolicyOf(Gathered(trustAnchors, allowed, models), options);
  }

  // ---- What the policy says --------------------------------------------------------------

  /** Some entry for this model qualifies. */
  predicate Vouched(entries: seq<Entry>, options: Options, model: string) {
    exists i :: 0 <= i < |entries| && Qualifies(entries[i], options) && entries[i].aaguid == Some(model)
  }

  /** Some entry for this model qualifies and lists this root. */
  predicate Lists(entries: seq<Entry>, options: Options, model: string, root: ByteString) {
    exists i :: 0 <= i < |entries| && Qualifies(entries[i], options) && entries[i].aaguid == Some(model)
                && root in entries[i].roots
  }

  lemma {:induction false} UnionMembers(anchors: seq<ByteString>, roots: seq<ByteString>)
    ensures forall x :: x in Union(anchors, roots) <==> x in anchors || x in roots
    decreases |roots|
  {
    if |roots| > 0 {
      UnionMembers(if roots[0] in anchors then anchors else anchors + [roots[0]], roots[1..]);
      assert roots == [roots[0]] + roots[1..];
    }
  }

  predicate Distinct(s: seq<ByteString>) {
    forall i, j :: 0 <= i < j < |s| ==> s[i] != s[j]
  }

  lemma {:induction false} UnionDistinct(anchors: seq<ByteString>, roots: seq<ByteString>)
    requires Distinct(anchors)
    ensures Distinct(Union(anchors, roots))
    decreases |roots|
  {
    if |roots| > 0 {
      UnionDistinct(if roots[0] in anchors then anchors else anchors + [roots[0]], roots[1..]);
    }
  }

  lemma VouchedStep(entries: seq<Entry>, options: Options, model: string)
    requires |entries| > 0
    ensures Vouched(entries, options, model)
            <==> (Qualifies(entries[0], options) && entries[0].aaguid == Some(model))
                 || Vouched(entries[1..], options, model)
  {
    if Vouched(entries[1..], options, model) {
      var i :| 0 <= i < |entries[1..]| && Qualifies(entries[1..][i], options) && entries[1..][i].aaguid == Some(model);
      assert entries[i + 1] == entries[1..][i];
    }
    if Vouched(entries, options, model) {
      var i :| 0 <= i < |entries| && Qualifies(entries[i], options) && entries[i].aaguid == Some(model);
      assert i > 0 ==> entries[1..][i - 1] == entries[i];
    }
  }

  lemma ListsStep(entries: seq<Entry>, options: Options, model: string, root: ByteString)
    requires |entries| > 0
    ensures Lists(entries, options, model, root)
            <==> (Qualifies(entries[0], options) && entries[0].aaguid == Some(model) && root in entries[0].roots)
                 || Lists(entries[1..], options, model, root)
  {
    if Lists(entries[1..], options, model, root) {
      var i :| 0 <= i < |entries[1..]| && Qualifies(entries[1..][i], options)
               && entries[1..][i].aaguid == Some(model) && root in entries[1..][i].roots;
      assert entries[i + 1] == entries[1..][i];
    }
    if Lists(entries, options, model, root) {
      var i :| 0 <= i < |entries| && Qualifies(entries[i], options) && entries[i].aaguid == Some(model)
               && root in entries[i].roots;
      assert i > 0 ==> entries[1..][i - 1] == entries[i];
    }
  }

  lemma {:induction false} GatheredModels(g: Gathered, entries: seq<Entry>, options: Options, model: string)
    ensures var h := Gather(g, entries, options);
      && (model in h.allowed <==> model in g.allowed || Vouched(entries, options, model))
      && (model in h.models <==> model in g.models || Vouched(entries, options, model))
    decreases |entries|
  {
    hide Qualifies;
    if |entries| > 0 {
      var next := if Qualifies(entries[0], options) then Take(g, entries[0]) else g;
      GatheredModels(next, entries[1..], options, model);
      VouchedStep(entries, options, model);
    }
  }

  lemma {:induction false} GatheredRoots(
      g: Gathered, entries: seq<Entry>, options: Options, model: string, root: ByteString)
    ensures var h := Gather(g, entries, options);
      root in Paired(h.models, model) <==> root in Paired(g.models, model) || Lists(entries, options, model, root)
    decreases |entries|
  {
    hide Qualifies;
    if |entries| > 0 {
      var next := if Qualifies(entries[0], options) then Take(g, entries[0]) else g;
      GatheredRoots(next, entries[1..], options, model, root);
      ListsStep(entries, options, model, root);
    }
  }

  lemma {:induction false} GatheredUnion(g: Gathered, entries: seq<Entry>, options: Options)
    requires Distinct(g.trustAnchors)
    requires forall m, x :: m in g.models && x in g.models[m] ==> x in g.trustAnchors
    requires forall x :: x in g.trustAnchors ==> exists m :: m in g.models && x in g.models[m]
    ensures var h := Gather(g, entries, options);
      && Distinct(h.trustAnchors)
      && (forall m, x :: m in h.models && x in h.models[m] ==> x in h.trustAnchors)
      && (forall x :: x in h.trustAnchors ==> exists m :: m in h.models && x in h.models[m])
    decreases |entries|
  {
    hide Qualifies;
    if |entries| > 0 {
      if Qualifies(entries[0], options) {
        UnionDistinct(g.trustAnchors, entries[0].roots);
        UnionMembers(g.trustAnchors, entries[0].roots);
        TakeKeepsUnion(g, entries[0]);
        GatheredUnion(Take(g, entries[0]), entries[1..], options);
      } else {
        GatheredUnion(g, entries[1..], options);
      }
    }
  }

  lemma TakeKeepsUnion(g: Gathered, entry: Entry)
    requires entry.aaguid.Some?
    requires forall m, x :: m in g.models && x in g.models[m] ==> x in g.trustAnchors
    requires forall x :: x in g.trustAnchors ==> exists m :: m in g.models && x in g.models[m]
    ensures var h := Take(g, entry);
      && (forall m, x :: m in h.models && x in h.models[m] ==> x in h.trustAnchors)
      && (forall x :: x in h.trustAnchors ==> exists m :: m in h.models && x in h.models[m])
  {
    var h, model := Take(g, entry), entry.aaguid.value;
    UnionMembers(g.trustAnchors, entry.roots);
    forall x | x in h.trustAnchors ensures exists m :: m in h.models && x in h.models[m] {
      if x in entry.roots {
        assert x in h.models[model];
      } else {
        var m :| m in g.models && x in g.models[m];
        assert m in h.models && x in h.models[m];
      }
    }
  }

  /** The policy allows exactly the vouched-for models, and pins each to exactly the roots listed for it. */
  lemma PolicyPairs(entries: seq<Entry>, options: Options, model: string, root: ByteString)
    ensures var p := ToPolicy(entries, options);
      && (model in p.allowedAaguids.value <==> Vouched(entries, options, model))
      && (model in p.modelAnchors <==> Vouched(entries, options, model))
      && (root in Paired(p.modelAnchors, model) <==> Lists(entries, options, model, root))
  {
    GatheredModels(NOTHING, entries, options, model);
    GatheredRoots(NOTHING, entries, options, model, root);
  }

  /** The general anchors are the union of all pinned roots, each once. */
  lemma PolicyUnion(entries: seq<Entry>, options: Options)
    ensures var p := ToPolicy(entries, options);
      && Distinct(p.trustAnchors.value)
      && forall x :: x in p.trustAnchors.value <==> exists m :: m in p.modelAnchors && x in p.modelAnchors[m]
  {
    GatheredUnion(NOTHING, entries, options);
  }
}
