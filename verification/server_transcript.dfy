/**
 * The server's own copy of the transcript formatting, run for every section
 * of a journey file (`downloadMultipleTranscripts` in
 * src/services/transcriptService.js). It shares the malformed-string
 * recovery with the browser copy but differs from it in the speaker, text
 * and timestamp fallbacks, in parsing every value of a decoded object with
 * `JSON.parse` (no regular-expression fallback, decoded objects skipped),
 * in emitting "No transcript available" whenever nothing is extracted, and
 * in its failure sentence.
 */
module ServerTranscript {
  import opened Common
  import opened JsStrings
  import opened JsValues
  import opened TranscriptCascade

  const NoTranscriptText: string := "No transcript available"
  const ProcessingErrorText: string := "Error processing transcript content"

  /**
   * The line of a non-null entry: speaker `entry.speaker?.display_name ||
   * entry.speaker || 'Unknown'`, text `entry.text || entry.content || ''`,
   * timestamp `entry.timestamp || entry.time || ''`.
   */
  function ServerEntryLine(e: Json): string {
    var speakerField := Get(e, "speaker");
    var speaker := OrElse(OrElse(OptAccess(speakerField, "display_name"), speakerField), Lit("Unknown"));
    var text := OrElse(OrElse(Get(e, "text"), Get(e, "content")), Lit(""));
    var timestamp := OrElse(OrElse(Get(e, "timestamp"), Get(e, "time")), Lit(""));
    Line(PropText(speaker), PropText(timestamp), PropText(text))
  }

  /** One entry as the server renders it; reading a property of a `null` entry throws. */
  function RenderServerEntry(e: Json): Outcome<string> {
    if e == JNull then Thrown("TypeError: Cannot read properties of null (reading 'speaker')")
    else Ok(ServerEntryLine(e))
  }

  /** The rendered entries joined by blank lines, or what rendering threw. */
  function ServerRendered(entries: seq<Json>): Outcome<string> {
    match RenderEach(entries, RenderServerEntry)
    case Thrown(m) => Thrown(m)
    case Ok(lines) => Ok(JoinEntries(lines))
  }

  /** The server lines of entries none of which is `null`. */
  function ServerLines(entries: seq<Json>): (r: seq<string>)
    ensures |r| == |entries| && forall k :: 0 <= k < |entries| ==> r[k] == ServerEntryLine(entries[k])
  {
    seq(|entries|, k requires 0 <= k < |entries| => ServerEntryLine(entries[k]))
  }

  /** `JSON.parse(v)`: a value that is not a string is first turned into text with `String(v)`. */
  function ParseValue(v: Json, parse: string -> Option<Json>): Option<Json> {
    match v
    case JStr(s) => parse(s)
    case JNull => parse(ToStr(v))
    case JBool(_) => parse(ToStr(v))
    case JNum(_) => parse(ToStr(v))
    case JArr(_) => parse(ToStr(v))
    case JObj(_) => parse(ToStr(v))
  }

  /** `ParseValue` with the parser fixed. */
  function ValueParser(parse: string -> Option<Json>): Json -> Option<Json> {
    v => ParseValue(v, parse)
  }

  /** The entries of a decoded object: every value parsed, in integer key order, failures skipped. */
  function ServerObjectEntries(fields: seq<(string, Json)>, parse: string -> Option<Json>): seq<Json> {
    CollectEntries(fields, ValueParser(parse))
  }

  /**
   * The text for a payload that decoded (or already was) `data`: arrays and
   * objects are rendered when they yield entries; every other value, `null`
   * included, leaves the default sentence.
   */
  function ServerDecoded(data: Json, parse: string -> Option<Json>): Outcome<string> {
    match data
    case JArr(elems) => if |elems| == 0 then Ok(NoTranscriptText) else ServerRendered(elems)
    case JObj(fields) =>
      var entries := ServerObjectEntries(fields, parse);
      if |entries| == 0 then Ok(NoTranscriptText) else ServerRendered(entries)
    case JNull => Ok(NoTranscriptText)
    case JStr(_) => Ok(NoTranscriptText)
    case JBool(_) => Ok(NoTranscriptText)
    case JNum(_) => Ok(NoTranscriptText)
  }

  /**
   * The text recovered from a malformed string; a rendering failure is
   * caught by the recovery's own handler, which leaves the default sentence.
   */
  function ServerRecovered(entries: seq<Json>): Option<string> {
    if |entries| == 0 then None
    else match ServerRendered(entries)
      case Ok(text) => Some(text)
      case Thrown(_) => None
  }

  function ServerCaught(o: Outcome<string>): string {
    match o
    case Ok(text) => text
    case Thrown(_) => ProcessingErrorText
  }

  /** The section body the journey file shows for a stored `transcript` field. */
  function ServerContent(transcript: Prop, parse: string -> Option<Json>): string {
    if !TruthyProp(transcript) then NoTranscriptText
    else match transcript.value
      case JStr(raw) =>
        (match parse(raw)
         case Some(data) => ServerCaught(ServerDecoded(data, parse))
         case None => ServerRecovered(Survivors(Fragments(raw), parse)).GetOr(NoTranscriptText))
      case JNull => ServerCaught(ServerDecoded(transcript.value, parse))
      case JBool(_) => ServerCaught(ServerDecoded(transcript.value, parse))
      case JNum(_) => ServerCaught(ServerDecoded(transcript.value, parse))
      case JArr(_) => ServerCaught(ServerDecoded(transcript.value, parse))
      case JObj(_) => ServerCaught(ServerDecoded(transcript.value, parse))
  }

  // ---------------------------------------------------------------------------
  // The cascade as the server runs it
  // ---------------------------------------------------------------------------

  /** One turn of the recovery loop keeps the entries in step with the fragments handled so far. */
  lemma SurvivorStep(raw: seq<string>, i: nat, entries: seq<Json>, parse: string -> Option<Json>)
    requires i < |raw| && entries == FilterMap(CleanAll(raw)[..i], parse)
    ensures var p := parse(Unescape(StripQuotes(raw[i])));
      (p.Some? ==> entries + [p.value] == FilterMap(CleanAll(raw)[..i + 1], parse)) &&
      (p.None? ==> entries == FilterMap(CleanAll(raw)[..i + 1], parse))
  {
    var cleaned := CleanAll(raw);
    CleanAllAt(raw, i);
    assert cleaned[i] == CleanFragment(raw[i]);
    TakeSnoc(cleaned, i);
    FilterMapSnoc(cleaned[..i], cleaned[i], parse);
  }

  /** The recovery loop: each cleaned fragment that parses is pushed, in fragment order. */
  method ServerParseFragments(rawEntries: seq<string>, parse: string -> Option<Json>) returns (entries: seq<Json>)
    ensures entries == Survivors(rawEntries, parse)
  {
    entries := [];
    var i := 0;
    while i < |rawEntries|
      invariant 0 <= i <= |rawEntries|
      invariant entries == FilterMap(CleanAll(rawEntries)[..i], parse)
    {
      var entryStr := StripQuotes(rawEntries[i]);
      var unescapedStr := Unescape(entryStr);
      SurvivorStep(rawEntries, i, entries, parse);
      var entry := parse(unescapedStr);
      if entry.Some? {
        entries := entries + [entry.value];
      }
      i := i + 1;
    }
    assert CleanAll(rawEntries)[..i] == CleanAll(rawEntries);
  }

  /** Recovery: cut the cleaned string into fragments and keep the ones that parse. */
  method ServerRecoverEntries(raw: string, parse: string -> Option<Json>) returns (entries: seq<Json>)
    ensures entries == Survivors(Fragments(raw), parse)
  {
    var cleanData := Trim(raw);
    if StartsWith(cleanData, "{") && EndsWith(cleanData, "}") {
      cleanData := Substring(cleanData, 1, |cleanData| - 1);
    }
    assert cleanData == StripOuterBraces(Trim(raw));
    var rawEntries := Split(cleanData, EntrySeparator);
    entries := ServerParseFragments(rawEntries, parse);
  }

  /** The loop over a decoded object's keys: every value goes through `JSON.parse`. */
  method CollectServerEntries(fields: seq<(string, Json)>, parse: string -> Option<Json>) returns (entries: seq<Json>)
    ensures entries == ServerObjectEntries(fields, parse)
  {
    var keys := KeyOrder(fields);
    entries := [];
    var i := 0;
    while i < |keys|
      invariant 0 <= i <= |keys|
      invariant entries == Collected(keys[..i], ValueParser(parse))
    {
      TakeSnoc(keys, i);
      CollectedSnoc(keys[..i], keys[i], ValueParser(parse));
      var entry := ParseValue(keys[i].1, parse);
      if entry.Some? {
        entries := entries + [entry.value];
      }
      i := i + 1;
    }
    assert keys[..i] == keys;
  }

  /** The formatting of one journey section's transcript field. */
  method FormatSectionContent(transcript: Prop, parse: string -> Option<Json>) returns (transcriptContent: string)
    ensures transcriptContent == ServerContent(transcript, parse)
  {
    transcriptContent := NoTranscriptText;
    if !TruthyProp(transcript) {
      return;
    }
    var transcriptData := transcript.value;
    var transcriptProcessed := false;
    if transcriptData.JStr? {
      var raw := transcriptData.s;
      var decoded := parse(raw);
      if decoded.Some? {
        transcriptData := decoded.value;
      } else {
        var entries := ServerRecoverEntries(raw, parse);
        if |entries| > 0 {
          var rendered := ServerRendered(entries);
          if rendered.Ok? {
            transcriptContent := rendered.value;
            transcriptProcessed := true;
          }
        }
        assert transcriptProcessed == ServerRecovered(entries).Some?;
        if !transcriptProcessed {
          // the string is still a string: the object branch is not taken
          return;
        }
      }
    }
    if !transcriptProcessed && (transcriptData.JArr? || transcriptData.JObj?) {
      var entries: seq<Json>;
      if transcriptData.JArr? {
        entries := transcriptData.elems;
      } else {
        entries := CollectServerEntries(transcriptData.fields, parse);
      }
      if |entries| > 0 {
        var rendered := ServerRendered(entries);
        transcriptContent := ServerCaught(rendered);
      }
    }
  }

  // ---------------------------------------------------------------------------
  // What the server copy promises
  // ---------------------------------------------------------------------------

  /** Rendering succeeds exactly when no entry is `null`, and then gives every entry's line, in order. */
  lemma ServerRenderedSpec(entries: seq<Json>)
    ensures ServerRendered(entries).Ok? <==> forall k :: 0 <= k < |entries| ==> entries[k] != JNull
    ensures ServerRendered(entries).Ok? ==> ServerRendered(entries) == Ok(JoinEntries(ServerLines(entries)))
  {
    RenderEachSpec(entries, RenderServerEntry);
    if ServerRendered(entries).Ok? {
      assert RenderEach(entries, RenderServerEntry).value == ServerLines(entries);
    }
  }

  /** An entry without any of the six fields renders with the defaults. */
  lemma ServerEntryLineDefaults(fields: seq<(string, Json)>)
    requires forall k :: 0 <= k < |fields| ==>
      fields[k].0 !in {"speaker", "text", "content", "timestamp", "time"}
    ensures ServerEntryLine(JObj(fields)) == "Unknown []: "
  {
    LookupAbsent(fields, "speaker");
    LookupAbsent(fields, "text");
    LookupAbsent(fields, "content");
    LookupAbsent(fields, "timestamp");
    LookupAbsent(fields, "time");
  }

  /** A plain-string speaker, a `content` text and a `time` stamp are picked up as fallbacks. */
  lemma ServerEntryLineFallbacks(name: string, content: string, time: string)
    requires name != "" && content != "" && time != ""
    ensures ServerEntryLine(JObj([
      ("speaker", JStr(name)),
      ("content", JStr(content)),
      ("time", JStr(time))
    ])) == name + " [" + time + "]: " + content
  {
    var fields := [("speaker", JStr(name)), ("content", JStr(content)), ("time", JStr(time))];
    assert fields[1..] == [("content", JStr(content)), ("time", JStr(time))];
    assert fields[1..][1..] == [("time", JStr(time))];
    assert Lookup(fields[1..][1..], "time") == Defined(JStr(time));
    assert Lookup(fields[1..], "content") == Defined(JStr(content));
    LookupAbsent(fields, "text");
    LookupAbsent(fields, "timestamp");
    assert Lookup(fields[1..], "time") == Defined(JStr(time));
  }

  /** When no fragment of a malformed string parses, the section shows the default sentence. */
  lemma ServerUnrecoverable(raw: string, parse: string -> Option<Json>)
    requires raw != "" && parse(raw).None?
    requires forall k :: 0 <= k < |Fragments(raw)| ==> parse(CleanFragment(Fragments(raw)[k])).None?
    ensures ServerContent(Defined(JStr(raw)), parse) == NoTranscriptText
  {
    ServerMalformed(raw, parse);
    SurvivorsNone(Fragments(raw), parse);
  }

  /** A stored string that is not JSON goes through recovery, and shows the default sentence when nothing is recovered. */
  lemma ServerMalformed(raw: string, parse: string -> Option<Json>)
    requires raw != "" && parse(raw).None?
    ensures ServerContent(Defined(JStr(raw)), parse) == ServerRecovered(Survivors(Fragments(raw), parse)).GetOr(NoTranscriptText)
  {
  }

  /** A stored string that is JSON is formatted from what it decodes to. */
  lemma ServerDecodes(raw: string, data: Json, parse: string -> Option<Json>)
    requires raw != "" && parse(raw) == Some(data)
    ensures ServerContent(Defined(JStr(raw)), parse) == ServerCaught(ServerDecoded(data, parse))
  {
  }

  /** Surviving entries give text exactly when there is one and none is `null`: their server lines joined by blank lines. */
  lemma ServerRecoveredSpec(entries: seq<Json>)
    ensures ServerRecovered(entries).Some? <==> |entries| > 0 && forall k :: 0 <= k < |entries| ==> entries[k] != JNull
    ensures ServerRecovered(entries).Some? ==> ServerRecovered(entries).value == JoinEntries(ServerLines(entries))
  {
    ServerRenderedSpec(entries);
  }

  /** Recovered entries, none of them `null`, are rendered in fragment order. */
  lemma ServerRecoveredText(raw: string, entries: seq<Json>, parse: string -> Option<Json>)
    requires raw != "" && parse(raw).None?
    requires entries == Survivors(Fragments(raw), parse)
    requires |entries| > 0 && forall k :: 0 <= k < |entries| ==> entries[k] != JNull
    ensures ServerContent(Defined(JStr(raw)), parse) == JoinEntries(ServerLines(entries))
  {
    ServerMalformed(raw, parse);
    ServerRecoveredSpec(entries);
  }

  /**
   * Already-decoded object values yield no entries: each becomes the text
   * "[object Object]" before parsing, which is not JSON.
   */
  lemma ServerSkipsDecodedObjects(fields: seq<(string, Json)>, parse: string -> Option<Json>)
    requires parse("[object Object]").None?
    requires forall k :: 0 <= k < |fields| ==> fields[k].1.JObj?
    ensures ServerObjectEntries(fields, parse) == []
  {
    var keys := KeyOrder(fields);
    forall k | 0 <= k < |keys| ensures ValueParser(parse)(keys[k].1).None? {
      assert keys[k] in multiset(fields);
      assert keys[k] in fields;
    }
    CollectedNone(keys, ValueParser(parse));
  }

  /** A stored string that decodes to such an object therefore shows the default sentence. */
  lemma ServerDecodedObjectsPayload(raw: string, fields: seq<(string, Json)>, parse: string -> Option<Json>)
    requires raw != "" && parse(raw) == Some(JObj(fields))
    requires parse("[object Object]").None?
    requires forall k :: 0 <= k < |fields| ==> fields[k].1.JObj?
    ensures ServerContent(Defined(JStr(raw)), parse) == NoTranscriptText
  {
    ServerDecodes(raw, JObj(fields), parse);
    ServerSkipsDecodedObjects(fields, parse);
  }

  /** Object values that are JSON text of entries are all parsed, one entry per key, in integer key order. */
  lemma ServerObjectOfTexts(fields: seq<(string, Json)>, parse: string -> Option<Json>)
    requires forall k :: 0 <= k < |fields| ==> fields[k].1.JStr? && parse(fields[k].1.s).Some?
    ensures |ServerObjectEntries(fields, parse)| == |KeyOrder(fields)| == |fields|
    ensures forall k :: 0 <= k < |fields| ==>
      ParseValue(KeyOrder(fields)[k].1, parse) == Some(ServerObjectEntries(fields, parse)[k])
  {
    var keys := KeyOrder(fields);
    forall k | 0 <= k < |keys| ensures ValueParser(parse)(keys[k].1).Some? {
      assert keys[k] in multiset(fields);
      assert keys[k] in fields;
    }
    CollectedAllSome(keys, ValueParser(parse));
  }

  /** An object one of whose values parses to `null` makes `entry.speaker` throw, whatever the other values are. */
  lemma ServerNullValueThrows(fields: seq<(string, Json)>, parse: string -> Option<Json>)
    requires exists k :: 0 <= k < |fields| && ParseValue(fields[k].1, parse) == Some(JNull)
    ensures ServerDecoded(JObj(fields), parse).Thrown?
  {
    var k :| 0 <= k < |fields| && ParseValue(fields[k].1, parse) == Some(JNull);
    var keys := KeyOrder(fields);
    assert fields[k] in multiset(keys);
    var j :| 0 <= j < |keys| && keys[j] == fields[k];
    CollectedHas(keys, ValueParser(parse), j);
    var entries := ServerObjectEntries(fields, parse);
    assert JNull in entries;
    ServerRenderedSpec(entries);
  }

  /** An array payload with a `null` element fails this section only, with the processing-error sentence. */
  lemma ServerArrayWithNull(raw: string, elems: seq<Json>, parse: string -> Option<Json>)
    requires raw != "" && parse(raw) == Some(JArr(elems))
    requires exists k :: 0 <= k < |elems| && elems[k] == JNull
    ensures ServerContent(Defined(JStr(raw)), parse) == ProcessingErrorText
  {
    ServerDecodes(raw, JArr(elems), parse);
    ServerRenderedSpec(elems);
  }

  /** Payloads that decode to `null`, a string, a number or a boolean leave the default sentence. */
  lemma ServerScalarPayload(raw: string, data: Json, parse: string -> Option<Json>)
    requires raw != "" && parse(raw) == Some(data)
    requires !data.JArr? && !data.JObj?
    ensures ServerContent(Defined(JStr(raw)), parse) == NoTranscriptText
  {
    ServerDecodes(raw, data, parse);
  }
}
