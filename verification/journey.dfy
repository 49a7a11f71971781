/**
 * The two multi-transcript files of src/services/transcriptService.js: the
 * chronological journey built by `downloadMultipleTranscripts` (records
 * looked up one id at a time, missing ones skipped, sorted oldest first,
 * numbered sections each formatted by the server copy of the cascade), and
 * the plain concatenation built by `concatenateTranscripts`.
 *
 * Dates arrive already read: a record carries its start time in epoch
 * milliseconds (`None` for an invalid date) and the texts `toISOString`,
 * `toLocaleDateString` and `toLocaleTimeString` produce for it.
 */
module Journey {
  import opened Common
  import opened JsStrings
  import opened JsValues
  import opened TranscriptCascade
  import opened ServerTranscript
  import Sorting

  /** A stored transcript as the lookup by id returns it. */
  datatype StoredRecord = StoredRecord(
    title: Option<string>,
    startMs: Option<int>,
    isoDay: string,
    localeDate: string,
    localeTime: string,
    transcript: Prop)

  datatype JourneyFile = JourneyFile(filename: string, content: string)

  const NoValidTranscriptsText: string := "No valid transcripts found"
  const InvalidTimeText: string := "RangeError: Invalid time value"
  const JourneyBanner: string := "=== CHRONOLOGICAL TRANSCRIPT JOURNEY ===\n"

  /** The strings, one after the other. */
  function Concat(parts: seq<string>): string
    decreases |parts|
  {
    if |parts| == 0 then "" else Concat(parts[..|parts| - 1]) + parts[|parts| - 1]
  }

  lemma ConcatSnoc(parts: seq<string>, i: nat)
    requires i < |parts|
    ensures Concat(parts[..i + 1]) == Concat(parts[..i]) + parts[i]
  {
    assert parts[..i + 1][..i] == parts[..i];
  }

  /** The comparator `new Date(a.startTime) - new Date(b.startTime)`; an invalid date is NaN. */
  function StartRank(r: StoredRecord): Option<int> {
    r.startMs
  }

  /** The records the lookups return, in id order, ids without a record skipped. */
  function Found(ids: seq<string>, lookup: string -> Option<StoredRecord>): seq<StoredRecord> {
    FilterMap(ids, lookup)
  }

  /** The found records, oldest first. */
  function Chronological(found: seq<StoredRecord>): (r: seq<StoredRecord>)
    ensures |r| == |found| && multiset(r) == multiset(found)
  {
    Sorting.SortBy(found, StartRank)
  }

  function TitleText(title: Option<string>): string {
    if title.Some? && title.value != "" then title.value else "Untitled Meeting"
  }

  /** The heading line of section number `n`. */
  function SectionHeading(n: nat, r: StoredRecord): string {
    "=== TRANSCRIPT " + NatToString(n) + ": " + TitleText(r.title) + " (" + r.localeDate + " " + r.localeTime + ") ===\n"
  }

  /** Section number `n`: its heading, its formatted transcript and a blank line. */
  function Section(n: nat, r: StoredRecord, parse: string -> Option<Json>): string {
    SectionHeading(n, r) + ServerContent(r.transcript, parse) + "\n\n"
  }

  /** The sections of the sorted records, numbered from 1. */
  function Sections(rs: seq<StoredRecord>, parse: string -> Option<Json>): (r: seq<string>)
    ensures |r| == |rs| && forall k :: 0 <= k < |rs| ==> r[k] == Section(k + 1, rs[k], parse)
  {
    seq(|rs|, k requires 0 <= k < |rs| => Section(k + 1, rs[k], parse))
  }

  function JourneyHeader(oldest: string, newest: string, total: nat): string {
    JourneyBanner + "Start: " + oldest + " | End: " + newest + " | Total: " + NatToString(total) + " transcripts\n\n"
  }

  function JourneyName(oldest: string, newest: string): string {
    "transcript-journey-" + oldest + "-to-" + newest + ".txt"
  }

  /**
   * The journey for the requested ids: an error when no id has a record, or
   * when the oldest or newest record's date is invalid (`toISOString` throws).
   */
  function JourneyOf(ids: seq<string>, lookup: string -> Option<StoredRecord>, parse: string -> Option<Json>): Outcome<JourneyFile> {
    var found := Found(ids, lookup);
    if |found| == 0 then Thrown(NoValidTranscriptsText)
    else
      var sorted := Chronological(found);
      var oldest := sorted[0];
      var newest := sorted[|sorted| - 1];
      if oldest.startMs.None? || newest.startMs.None? then Thrown(InvalidTimeText)
      else Ok(JourneyFile(
        JourneyName(oldest.isoDay, newest.isoDay),
        JourneyHeader(oldest.isoDay, newest.isoDay, |sorted|) + Concat(Sections(sorted, parse))))
  }

  /** The lookup loop of `downloadMultipleTranscripts`: ids without a record are skipped. */
  method FetchRecords(ids: seq<string>, lookup: string -> Option<StoredRecord>) returns (transcripts: seq<StoredRecord>)
    ensures transcripts == Found(ids, lookup)
  {
    transcripts := [];
    var i := 0;
    while i < |ids|
      invariant 0 <= i <= |ids|
      invariant transcripts == FilterMap(ids[..i], lookup)
    {
      TakeSnoc(ids, i);
      FilterMapSnoc(ids[..i], ids[i], lookup);
      var transcript := lookup(ids[i]);
      if transcript.Some? {
        transcripts := transcripts + [transcript.value];
      }
      i := i + 1;
    }
    assert ids[..i] == ids;
  }

  /** Appending the next piece extends the concatenation by one. */
  lemma ConcatAppend(header: string, parts: seq<string>, j: nat, content: string, part: string)
    requires j < |parts| && part == parts[j]
    requires content == header + Concat(parts[..j])
    ensures content + part == header + Concat(parts[..j + 1])
  {
    ConcatSnoc(parts, j);
  }

  /** One turn of the section loop appends the next numbered section. */
  lemma AppendStep(header: string, transcripts: seq<StoredRecord>, parse: string -> Option<Json>,
                   j: nat, content: string, transcriptContent: string)
    requires j < |transcripts|
    requires content == header + Concat(Sections(transcripts, parse)[..j])
    requires transcriptContent == ServerContent(transcripts[j].transcript, parse)
    ensures content + (SectionHeading(j + 1, transcripts[j]) + transcriptContent + "\n\n")
      == header + Concat(Sections(transcripts, parse)[..j + 1])
  {
    ConcatAppend(header, Sections(transcripts, parse), j, content,
      SectionHeading(j + 1, transcripts[j]) + transcriptContent + "\n\n");
  }

  /** The section loop of `downloadMultipleTranscripts`: one numbered section per sorted record. */
  method AppendSections(header: string, transcripts: seq<StoredRecord>, parse: string -> Option<Json>) returns (content: string)
    ensures content == header + Concat(Sections(transcripts, parse))
  {
    content := header;
    var j := 0;
    while j < |transcripts|
      invariant 0 <= j <= |transcripts|
      invariant content == header + Concat(Sections(transcripts, parse)[..j])
    {
      var transcript := transcripts[j];
      var transcriptContent := FormatSectionContent(transcript.transcript, parse);
      AppendStep(header, transcripts, parse, j, content, transcriptContent);
      content := content + (SectionHeading(j + 1, transcript) + transcriptContent + "\n\n");
      j := j + 1;
    }
    assert Sections(transcripts, parse)[..j] == Sections(transcripts, parse);
  }

  /** `downloadMultipleTranscripts`: look the ids up, sort, then append one section per record. */
  method DownloadMultipleTranscripts(ids: seq<string>, lookup: string -> Option<StoredRecord>, parse: string -> Option<Json>)
    returns (result: Outcome<JourneyFile>)
    ensures result == JourneyOf(ids, lookup, parse)
  {
    var transcripts := FetchRecords(ids, lookup);
    if |transcripts| == 0 {
      return Thrown(NoValidTranscriptsText);
    }
    transcripts := Sorting.SortBy(transcripts, StartRank);
    if transcripts[0].startMs.None? || transcripts[|transcripts| - 1].startMs.None? {
      return Thrown(InvalidTimeText);
    }
    var oldestDate := transcripts[0].isoDay;
    var newestDate := transcripts[|transcripts| - 1].isoDay;
    var filename := JourneyName(oldestDate, newestDate);
    var content := AppendSections(JourneyHeader(oldestDate, newestDate, |transcripts|), transcripts, parse);
    result := Ok(JourneyFile(filename, content));
  }

  // ---------------------------------------------------------------------------
  // What the journey promises
  // ---------------------------------------------------------------------------

  /** The journey fails with "No valid transcripts found" exactly when no requested id has a record. */
  lemma JourneyFailsWithoutRecords(ids: seq<string>, lookup: string -> Option<StoredRecord>, parse: string -> Option<Json>)
    ensures JourneyOf(ids, lookup, parse) == Thrown(NoValidTranscriptsText) <==>
      forall k :: 0 <= k < |ids| ==> lookup(ids[k]).None?
  {
    FilterMapEmpty(ids, lookup);
  }

  /** With valid dates, the records are the found ones rearranged oldest first. */
  lemma ChronologicalOrder(found: seq<StoredRecord>)
    requires forall k :: 0 <= k < |found| ==> found[k].startMs.Some?
    ensures forall k :: 0 <= k < |found| ==> Chronological(found)[k].startMs.Some?
    ensures forall i, j :: 0 <= i < j < |found| ==>
      Chronological(found)[i].startMs.value <= Chronological(found)[j].startMs.value
  {
    var r := Chronological(found);
    assert Sorting.AllRanked(found, StartRank);
    Sorting.SortByAscending(found, StartRank);
    forall k | 0 <= k < |r| ensures r[k].startMs.Some? {
      assert r[k] in multiset(found);
    }
    forall i, j | 0 <= i < j < |r| ensures r[i].startMs.value <= r[j].startMs.value {
      assert !Sorting.Before(StartRank(r[j]), StartRank(r[i]));
    }
  }

  /** The file name's dates are those of the earliest and the latest record. */
  lemma JourneyDatesSpan(found: seq<StoredRecord>)
    requires |found| > 0 && forall k :: 0 <= k < |found| ==> found[k].startMs.Some?
    ensures var r := Chronological(found);
      r[0].startMs.Some? && r[|r| - 1].startMs.Some? &&
      forall k :: 0 <= k < |found| ==>
        r[0].startMs.value <= found[k].startMs.value <= r[|r| - 1].startMs.value
  {
    var r := Chronological(found);
    ChronologicalOrder(found);
    forall k | 0 <= k < |found|
      ensures r[0].startMs.value <= found[k].startMs.value <= r[|r| - 1].startMs.value
    {
      assert found[k] in multiset(r);
      var m :| 0 <= m < |r| && r[m] == found[k];
      if m > 0 { assert r[0].startMs.value <= r[m].startMs.value; }
      if m < |r| - 1 { assert r[m].startMs.value <= r[|r| - 1].startMs.value; }
    }
  }

  /** Appending pieces that each end in a blank line ends in a blank line. */
  lemma {:induction false} ConcatEndsWith(parts: seq<string>, tail: string)
    requires |parts| > 0 && forall k :: 0 <= k < |parts| ==> EndsWith(parts[k], tail)
    ensures EndsWith(Concat(parts), tail)
  {
    var last := parts[|parts| - 1];
    var c := Concat(parts);
    assert c == Concat(parts[..|parts| - 1]) + last;
    assert c[|c| - |tail|..] == last[|last| - |tail|..];
  }

  lemma EndsWithAfter(front: string, back: string, tail: string)
    requires EndsWith(back, tail)
    ensures EndsWith(front + back, tail)
  {
    assert (front + back)[|front + back| - |tail|..] == back[|back| - |tail|..];
  }

  /** Each section ends with the blank line that separates it from the next. */
  lemma SectionsEndWithBlankLine(rs: seq<StoredRecord>, parse: string -> Option<Json>)
    ensures forall k :: 0 <= k < |rs| ==> EndsWith(Sections(rs, parse)[k], "\n\n")
  {
    forall k | 0 <= k < |rs| ensures EndsWith(Sections(rs, parse)[k], "\n\n") {
      EndsWithAfter(SectionHeading(k + 1, rs[k]) + ServerContent(rs[k].transcript, parse), "\n\n", "\n\n");
    }
  }

  /** Every section, the last one included, is followed by a blank line. */
  lemma JourneyEndsWithBlankLine(ids: seq<string>, lookup: string -> Option<StoredRecord>, parse: string -> Option<Json>)
    requires JourneyOf(ids, lookup, parse).Ok?
    ensures EndsWith(JourneyOf(ids, lookup, parse).value.content, "\n\n")
  {
    var sorted := Chronological(Found(ids, lookup));
    SectionsEndWithBlankLine(sorted, parse);
    ConcatEndsWith(Sections(sorted, parse), "\n\n");
    EndsWithAfter(JourneyHeader(sorted[0].isoDay, sorted[|sorted| - 1].isoDay, |sorted|), Concat(Sections(sorted, parse)), "\n\n");
  }

  /**
   * A section whose decoded transcript throws while it is formatted (a `null`
   * element, or an object value that parses to `null`) shows the
   * processing-error sentence, and nothing else fails.
   */
  lemma SectionOfFailedTranscript(n: nat, r: StoredRecord, raw: string, data: Json, parse: string -> Option<Json>)
    requires r.transcript == Defined(JStr(raw)) && raw != ""
    requires parse(raw) == Some(data) && ServerDecoded(data, parse).Thrown?
    ensures Section(n, r, parse) == SectionHeading(n, r) + ProcessingErrorText + "\n\n"
  {
    ServerDecodes(raw, data, parse);
  }

  // ---------------------------------------------------------------------------
  // concatenateTranscripts
  // ---------------------------------------------------------------------------

  /** A row of the concatenation query, already ordered by start time. */
  datatype ConcatRow = ConcatRow(
    title: Option<string>,
    localeDate: string,
    domains: Option<string>,   // GROUP_CONCAT(DISTINCT domain)
    transcript: Option<string>)

  /** `domains[0] || 'Unknown Domain'`, with `domains` the comma-split list or `[]`. */
  function PrimaryDomain(domains: Option<string>): (r: string)
    ensures r != ""
  {
    var ds := if domains.Some? && domains.value != "" then Split(domains.value, ",") else [];
    if |ds| > 0 && ds[0] != "" then ds[0] else "Unknown Domain"
  }

  /** `${transcript.title}` of a row: SQL `NULL` shows as "null". */
  function TitleOrNull(row: ConcatRow): string {
    if row.title.Some? then row.title.value else "null"
  }

  /** `transcript.transcript || '[No transcript available]'`. */
  function BodyText(row: ConcatRow): string {
    if row.transcript.Some? && row.transcript.value != "" then row.transcript.value else "[No transcript available]"
  }

  /** One meeting's block: title, date and domain lines, the transcript, a blank line. */
  function Block(row: ConcatRow): string {
    ("--- " + TitleOrNull(row) + " ---\n") + ("Date: " + row.localeDate + "\n") +
    ("Domain: " + PrimaryDomain(row.domains) + "\n\n") + BodyText(row) + "\n\n"
  }

  function Blocks(rows: seq<ConcatRow>): (r: seq<string>)
    ensures |r| == |rows| && forall k :: 0 <= k < |rows| ==> r[k] == Block(rows[k])
  {
    seq(|rows|, k requires 0 <= k < |rows| => Block(rows[k]))
  }

  /** Five appends in a row append their concatenation. */
  lemma AppendFive(p: string, a: string, b: string, c: string, d: string, e: string)
    ensures p + a + b + c + d + e == p + (a + b + c + d + e)
  {
  }

  /** `concatenateTranscripts`' loop over the query rows. */
  method ConcatenateTranscripts(results: seq<ConcatRow>) returns (concatenatedText: string)
    ensures concatenatedText == Concat(Blocks(results))
  {
    ghost var blocks := Blocks(results);
    concatenatedText := "";
    var i := 0;
    while i < |results|
      invariant 0 <= i <= |results|
      invariant concatenatedText == Concat(blocks[..i])
    {
      var transcript := results[i];
      var primaryDomain := PrimaryDomain(transcript.domains);
      ghost var before := concatenatedText;
      var header := "--- " + TitleOrNull(transcript) + " ---\n";
      var dateLine := "Date: " + transcript.localeDate + "\n";
      var domainLine := "Domain: " + primaryDomain + "\n\n";
      var body := BodyText(transcript);
      concatenatedText := concatenatedText + header;
      concatenatedText := concatenatedText + dateLine;
      concatenatedText := concatenatedText + domainLine;
      concatenatedText := concatenatedText + body;
      concatenatedText := concatenatedText + "\n\n";
      AppendFive(before, header, dateLine, domainLine, body, "\n\n");
      ConcatSnoc(blocks, i);
      i := i + 1;
    }
    assert blocks[..i] == blocks;
  }

  /** The primary domain is the text before the first comma of the domain list. */
  lemma PrimaryDomainFirst(first: string, rest: string)
    requires first != "" && NoChar(first, ',')
    ensures PrimaryDomain(Some(first + "," + rest)) == first
  {
    SplitAtFirst(first, ",", rest);
  }

  /** A single domain is the primary domain. */
  lemma PrimaryDomainSingle(domain: string)
    requires domain != "" && NoChar(domain, ',')
    ensures PrimaryDomain(Some(domain)) == domain
  {
    NoOccurrence(domain, ",");
    IndexOfAbsent(domain, ",", 0);
  }

  /** A list that starts with a comma, or no list at all, gives the fallback. */
  lemma PrimaryDomainFallback(rest: string)
    ensures PrimaryDomain(Some("," + rest)) == "Unknown Domain"
    ensures PrimaryDomain(None) == "Unknown Domain"
  {
    SplitAtFirst("", ",", rest);
    assert "" + "," + rest == "," + rest;
  }
}
