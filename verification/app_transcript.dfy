/**
 * The browser's export of one stored transcript (`downloadTranscript` in
 * public/app.js): the text that goes under the TRANSCRIPT heading of the
 * downloaded file.
 *
 * Cascade: a strict `JSON.parse` of a string payload; when that throws, the
 * malformed-string recovery; when recovery yields nothing, the raw string
 * itself. A decoded object is walked in integer key order (string values are
 * parsed, with a `"field":"value"` regular-expression fallback; object values
 * are used as they are); a decoded array is rendered element by element;
 * any other decoded value is emitted unchanged. Anything thrown on the way is
 * replaced by a fixed error sentence.
 */
module AppTranscript {
  import opened Common
  import opened JsStrings
  import opened JsValues
  import opened TranscriptCascade
  import Sorting

  const NoTranscriptText: string := "No transcript available"
  const NoValidEntriesText: string := "No valid transcript entries found"
  const FormatErrorText: string := "Error formatting transcript. Please check the console for details."
  const NoEntriesExtractedText: string := "Error: Unable to extract transcript entries from corrupted data."
  const CorruptedJsonText: string := "Error: Unable to parse transcript data. The JSON format appears to be corrupted."

  /**
   * The line a non-null entry renders to: speaker `entry.speaker?.display_name
   * || 'Unknown Speaker'`, text `entry.text || ''`, timestamp `entry.timestamp || ''`.
   */
  function EntryLine(e: Json): string {
    var speaker := OrElse(OptAccess(Get(e, "speaker"), "display_name"), Lit("Unknown Speaker"));
    var text := OrElse(Get(e, "text"), Lit(""));
    var timestamp := OrElse(Get(e, "timestamp"), Lit(""));
    Line(PropText(speaker), PropText(timestamp), PropText(text))
  }

  /** One entry as the browser renders it; reading a property of a `null` entry throws. */
  function RenderEntry(e: Json): Outcome<string> {
    if e == JNull then Thrown("TypeError: Cannot read properties of null (reading 'speaker')")
    else Ok(EntryLine(e))
  }

  /** The lines of entries none of which is `null`. */
  function Lines(entries: seq<Json>): (r: seq<string>)
    ensures |r| == |entries| && forall k :: 0 <= k < |entries| ==> r[k] == EntryLine(entries[k])
  {
    seq(|entries|, k requires 0 <= k < |entries| => EntryLine(entries[k]))
  }

  predicate NoNull(entries: seq<Json>) {
    forall k :: 0 <= k < |entries| ==> entries[k] != JNull
  }

  /**
   * The entry rebuilt from a string value that is not JSON: the first
   * `"text":"…"`, `"display_name":"…"` and `"timestamp":"…"` matches, when at
   * least one of the three matches.
   */
  function RegexEntry(s: string): Option<Json> {
    var text := FieldMatch(s, "text");
    var speaker := FieldMatch(s, "display_name");
    var timestamp := FieldMatch(s, "timestamp");
    if text.None? && speaker.None? && timestamp.None? then None
    else Some(JObj([
      ("speaker", JObj([("display_name", JStr(speaker.GetOr("Unknown Speaker")))])),
      ("text", JStr(text.GetOr(""))),
      ("timestamp", JStr(timestamp.GetOr("")))
    ]))
  }

  /**
   * What one value of a decoded object contributes: a string is parsed (or
   * rebuilt by `RegexEntry`, or skipped); a value whose `typeof` is `'object'`
   * (an object, an array, `null`) is used as it is; numbers and booleans are skipped.
   */
  function PickValue(v: Json, parse: string -> Option<Json>): Option<Json> {
    match v
    case JStr(s) =>
      (match parse(s)
       case Some(e) => Some(e)
       case None => RegexEntry(s))
    case JNull => Some(v)
    case JArr(_) => Some(v)
    case JObj(_) => Some(v)
    case JBool(_) => None
    case JNum(_) => None
  }

  /** `PickValue` with the parser fixed. */
  function Picker(parse: string -> Option<Json>): Json -> Option<Json> {
    v => PickValue(v, parse)
  }

  /** The entries of a decoded object, in the order its keys are visited. */
  function ObjectEntries(fields: seq<(string, Json)>, parse: string -> Option<Json>): seq<Json> {
    CollectEntries(fields, Picker(parse))
  }

  /** The rendered entries joined by blank lines, or what rendering threw. */
  function RenderJoined(entries: seq<Json>): Outcome<string> {
    match RenderEach(entries, RenderEntry)
    case Thrown(m) => Thrown(m)
    case Ok(lines) => Ok(JoinEntries(lines))
  }

  /** The text for a payload that decoded (or already was) `data`. */
  function DecodedText(data: Json, parse: string -> Option<Json>): Outcome<string> {
    match data
    case JNull => Thrown("TypeError: Cannot convert undefined or null to object")
    case JObj(fields) =>
      var entries := ObjectEntries(fields, parse);
      if |entries| == 0 then Ok(NoValidEntriesText) else RenderJoined(entries)
    case JArr(elems) => RenderJoined(elems)
    case JStr(_) => Ok(ToStr(data))
    case JBool(_) => Ok(ToStr(data))
    case JNum(_) => Ok(ToStr(data))
  }

  /** The text recovered from the surviving entries of a malformed string, when there is one and all of them render. */
  function Recovered(entries: seq<Json>): Option<string> {
    if |entries| == 0 then None
    else match RenderJoined(entries)
      case Ok(text) => Some(text)
      case Thrown(_) => None
  }

  function Caught(o: Outcome<string>): string {
    match o
    case Ok(text) => text
    case Thrown(_) => FormatErrorText
  }

  /** The transcript text of the downloaded file for a stored `transcript` field. */
  function ExportText(transcript: Prop, parse: string -> Option<Json>): string {
    if !TruthyProp(transcript) then NoTranscriptText
    else match transcript.value
      case JStr(raw) =>
        (match parse(raw)
         case Some(data) => Caught(DecodedText(data, parse))
         case None => Recovered(Survivors(Fragments(raw), parse)).GetOr(raw))
      case JNull => Caught(DecodedText(transcript.value, parse))
      case JBool(_) => Caught(DecodedText(transcript.value, parse))
      case JNum(_) => Caught(DecodedText(transcript.value, parse))
      case JArr(_) => Caught(DecodedText(transcript.value, parse))
      case JObj(_) => Caught(DecodedText(transcript.value, parse))
  }

  // ---------------------------------------------------------------------------
  // The cascade as the browser runs it
  // ---------------------------------------------------------------------------

  function EntryKey(item: (int, Json)): Option<int> {
    Some(item.0)
  }

  /** The entries of the `{key, entry}` records, in record order. */
  function Entries(keyed: seq<(int, Json)>): (r: seq<Json>)
    ensures |r| == |keyed|
    decreases |keyed|
  {
    if |keyed| == 0 then [] else Entries(keyed[..|keyed| - 1]) + [keyed[|keyed| - 1].1]
  }

  /** The keys of the records strictly increase from one record to the next, and stay below `bound`. */
  predicate KeysBelow(keyed: seq<(int, Json)>, bound: int) {
    forall k :: 0 <= k < |keyed| ==> keyed[k].0 < bound && (k > 0 ==> keyed[k - 1].0 < keyed[k].0)
  }

  /** Keys that increase step by step increase between any two records. */
  lemma {:induction false} KeysIncrease(keyed: seq<(int, Json)>, bound: int, k: nat, l: nat)
    requires KeysBelow(keyed, bound) && k < l < |keyed|
    ensures keyed[k].0 < keyed[l].0
    decreases l - k
  {
    if k + 1 < l {
      KeysIncrease(keyed, bound, k + 1, l);
    }
  }

  /**
   * One turn of the recovery loop keeps the records in step with the
   * fragments handled so far: a fragment that parses is pushed under its
   * index, one that does not leaves the records alone.
   */
  lemma RecoveryStep(raw: seq<string>, i: nat, keyed: seq<(int, Json)>, parse: string -> Option<Json>)
    requires i < |raw|
    requires Entries(keyed) == FilterMap(CleanAll(raw)[..i], parse) && KeysBelow(keyed, i)
    ensures var p := parse(Unescape(StripQuotes(raw[i])));
      (p.Some? ==>
        Entries(keyed + [(i, p.value)]) == FilterMap(CleanAll(raw)[..i + 1], parse) &&
        KeysBelow(keyed + [(i, p.value)], i + 1)) &&
      (p.None? ==> Entries(keyed) == FilterMap(CleanAll(raw)[..i + 1], parse) && KeysBelow(keyed, i + 1))
  {
    var cleaned := CleanAll(raw);
    CleanAllAt(raw, i);
    assert cleaned[i] == CleanFragment(raw[i]);
    TakeSnoc(cleaned, i);
    FilterMapSnoc(cleaned[..i], cleaned[i], parse);
    if parse(cleaned[i]).Some? {
      var v := parse(cleaned[i]).value;
      var pushed := keyed + [(i, v)];
      assert pushed[..|keyed|] == keyed;
      assert Entries(pushed) == Entries(keyed) + [v];
      KeysPush(keyed, i, v);
    } else {
      KeysPush(keyed, i, JNull);
    }
  }

  /** Pushing the current index keeps the keys increasing and below the next index. */
  lemma KeysPush(keyed: seq<(int, Json)>, i: int, v: Json)
    requires KeysBelow(keyed, i)
    ensures KeysBelow(keyed + [(i, v)], i + 1) && KeysBelow(keyed, i + 1)
  {
  }

  /** Indices pushed in increasing order are already sorted by key. */
  lemma KeyedAscending(keyed: seq<(int, Json)>, bound: int)
    requires KeysBelow(keyed, bound)
    ensures Sorting.SortBy(keyed, EntryKey) == keyed
  {
    assert Sorting.Ascending(keyed, EntryKey) by {
      forall k, l | 0 <= k < l < |keyed|
        ensures !Sorting.Before(EntryKey(keyed[l]), EntryKey(keyed[k]))
      {
        KeysIncrease(keyed, bound, k, l);
      }
    }
    Sorting.SortByAscendingIsIdentity(keyed, EntryKey);
  }

  /** The recovery loop: each fragment that parses is pushed with its index as key. */
  method ParseFragments(rawEntries: seq<string>, parse: string -> Option<Json>) returns (keyed: seq<(int, Json)>)
    ensures Entries(keyed) == FilterMap(CleanAll(rawEntries), parse)
    ensures KeysBelow(keyed, |rawEntries|)
  {
    keyed := [];
    var i := 0;
    while i < |rawEntries|
      invariant 0 <= i <= |rawEntries|
      invariant Entries(keyed) == FilterMap(CleanAll(rawEntries)[..i], parse)
      invariant KeysBelow(keyed, i)
    {
      var entryStr := StripQuotes(rawEntries[i]);
      var unescapedStr := Unescape(entryStr);
      RecoveryStep(rawEntries, i, keyed, parse);
      var parsed := parse(unescapedStr);
      if parsed.Some? {
        keyed := keyed + [(i, parsed.value)];
      }
      i := i + 1;
    }
    assert CleanAll(rawEntries)[..i] == CleanAll(rawEntries);
  }

  /**
   * Recovery: cut the cleaned string into fragments, keep the ones that
   * parse, then sort them by their key; the sort leaves them where they are.
   */
  method RecoverEntries(raw: string, parse: string -> Option<Json>) returns (entries: seq<Json>)
    ensures entries == Survivors(Fragments(raw), parse)
  {
    var cleanData := Trim(raw);
    if StartsWith(cleanData, "{") && EndsWith(cleanData, "}") {
      cleanData := Substring(cleanData, 1, |cleanData| - 1);
    }
    assert cleanData == StripOuterBraces(Trim(raw));
    var rawEntries := Split(cleanData, EntrySeparator);
    var keyed := ParseFragments(rawEntries, parse);
    KeyedAscending(keyed, |rawEntries|);
    keyed := Sorting.SortBy(keyed, EntryKey);
    entries := Entries(keyed);
  }

  /** One value of a decoded object: the entry it yields, if any. */
  method PickEntry(value: Json, parse: string -> Option<Json>) returns (entry: Option<Json>)
    ensures entry == PickValue(value, parse)
  {
    if value.JStr? {
      entry := parse(value.s);
      if entry.None? {
        entry := RegexEntry(value.s);
      }
    } else if value.JObj? || value.JArr? || value.JNull? {
      entry := Some(value);
    } else {
      entry := None;
    }
  }

  /** The loop over a decoded object's keys, in integer order. */
  method CollectObjectEntries(fields: seq<(string, Json)>, parse: string -> Option<Json>) returns (entries: seq<Json>)
    ensures entries == ObjectEntries(fields, parse)
  {
    var keys := KeyOrder(fields);
    entries := [];
    var i := 0;
    while i < |keys|
      invariant 0 <= i <= |keys|
      invariant entries == Collected(keys[..i], Picker(parse))
    {
      TakeSnoc(keys, i);
      CollectedSnoc(keys[..i], keys[i], Picker(parse));
      var entry := PickEntry(keys[i].1, parse);
      if entry.Some? {
        entries := entries + [entry.value];
      }
      i := i + 1;
    }
    assert keys[..i] == keys;
  }

  /** The branches taken when the payload is (or decoded to) something other than a string to recover. */
  method FormatDecoded(transcriptData: Json, parse: string -> Option<Json>) returns (formattedTranscript: string)
    ensures formattedTranscript == Caught(DecodedText(transcriptData, parse))
  {
    match transcriptData {
      case JNull =>
        formattedTranscript := FormatErrorText;
      case JObj(fields) =>
        var entries := CollectObjectEntries(fields, parse);
        if |entries| > 0 {
          formattedTranscript := Caught(RenderJoined(entries));
        } else {
          formattedTranscript := NoValidEntriesText;
        }
      case JArr(elems) =>
        formattedTranscript := Caught(RenderJoined(elems));
      case JStr(s) =>
        formattedTranscript := s;
      case JBool(_) =>
        formattedTranscript := ToStr(transcriptData);
      case JNum(_) =>
        formattedTranscript := ToStr(transcriptData);
    }
  }

  /** `downloadTranscript`'s formatting of the transcript field. */
  method FormatTranscript(transcript: Prop, parse: string -> Option<Json>) returns (formattedTranscript: string)
    ensures formattedTranscript == ExportText(transcript, parse)
  {
    formattedTranscript := NoTranscriptText;
    if !TruthyProp(transcript) {
      return;
    }
    var transcriptData := transcript.value;
    var transcriptProcessed := false;
    if transcriptData.JStr? {
      var raw := transcriptData.s;
      var decoded := parse(raw);
      if decoded.Some? {
        transcriptData := decoded.value;
      } else {
        var entries := RecoverEntries(raw, parse);
        if |entries| > 0 {
          var rendered := RenderJoined(entries);
          if rendered.Ok? {
            formattedTranscript := rendered.value;
            transcriptProcessed := true;
          } else {
            formattedTranscript := CorruptedJsonText;
          }
        } else {
          formattedTranscript := NoEntriesExtractedText;
        }
        assert transcriptProcessed == Recovered(entries).Some?;
        if transcriptProcessed {
          assert formattedTranscript == Recovered(entries).value;
        }
      }
    }
    if !transcriptProcessed {
      formattedTranscript := FormatDecoded(transcriptData, parse);
    }
  }

  // ---------------------------------------------------------------------------
  // What the export promises
  // ---------------------------------------------------------------------------

  /** Rendering succeeds exactly when no entry is `null`, and then gives every entry's line, in order, joined by blank lines. */
  lemma RenderJoinedSpec(entries: seq<Json>)
    ensures RenderJoined(entries).Ok? <==> NoNull(entries)
    ensures NoNull(entries) ==> RenderJoined(entries) == Ok(JoinEntries(Lines(entries)))
  {
    RenderEachSpec(entries, RenderEntry);
    if NoNull(entries) {
      assert RenderEach(entries, RenderEntry).value == Lines(entries);
    }
  }

  /** An entry with all three fields as non-empty strings renders as `speaker [timestamp]: text`. */
  lemma EntryLineOfFields(name: string, timestamp: string, text: string)
    requires name != "" && timestamp != "" && text != ""
    ensures EntryLine(JObj([
      ("speaker", JObj([("display_name", JStr(name))])),
      ("text", JStr(text)),
      ("timestamp", JStr(timestamp))
    ])) == name + " [" + timestamp + "]: " + text
  {
    var fields := [
      ("speaker", JObj([("display_name", JStr(name))])),
      ("text", JStr(text)),
      ("timestamp", JStr(timestamp))
    ];
    assert fields[1..] == [("text", JStr(text)), ("timestamp", JStr(timestamp))];
    assert fields[1..][1..] == [("timestamp", JStr(timestamp))];
    assert Get(JObj(fields), "speaker") == Defined(JObj([("display_name", JStr(name))]));
    assert Lookup(fields[1..][1..], "timestamp") == Defined(JStr(timestamp));
    assert Lookup(fields[1..], "text") == Defined(JStr(text));
    assert Lookup(fields[1..], "timestamp") == Defined(JStr(timestamp));
  }

  /** An entry without any of the three fields renders with the defaults. */
  lemma EntryLineDefaults(fields: seq<(string, Json)>)
    requires forall k :: 0 <= k < |fields| ==> fields[k].0 !in {"speaker", "text", "timestamp"}
    ensures EntryLine(JObj(fields)) == "Unknown Speaker []: "
  {
    LookupAbsent(fields, "speaker");
    LookupAbsent(fields, "text");
    LookupAbsent(fields, "timestamp");
  }

  /** A stored string that is not JSON goes through recovery, and falls back to itself when nothing is recovered. */
  lemma ExportMalformed(raw: string, parse: string -> Option<Json>)
    requires raw != "" && parse(raw).None?
    ensures ExportText(Defined(JStr(raw)), parse) == Recovered(Survivors(Fragments(raw), parse)).GetOr(raw)
  {
  }

  /** A stored string that is JSON is formatted from what it decodes to. */
  lemma ExportDecodes(raw: string, data: Json, parse: string -> Option<Json>)
    requires raw != "" && parse(raw) == Some(data)
    ensures ExportText(Defined(JStr(raw)), parse) == Caught(DecodedText(data, parse))
  {
  }

  /** Surviving entries give text exactly when there is one and none is `null`: their lines joined by blank lines. */
  lemma RecoveredSpec(entries: seq<Json>)
    ensures Recovered(entries).Some? <==> |entries| > 0 && NoNull(entries)
    ensures Recovered(entries).Some? ==> Recovered(entries).value == JoinEntries(Lines(entries))
  {
    RenderJoinedSpec(entries);
  }

  /** A malformed string from which entries were recovered exports their lines; the object and array branches are not taken. */
  lemma ExportRecovered(raw: string, entries: seq<Json>, parse: string -> Option<Json>)
    requires raw != "" && parse(raw).None?
    requires entries == Survivors(Fragments(raw), parse)
    requires |entries| > 0 && NoNull(entries)
    ensures ExportText(Defined(JStr(raw)), parse) == JoinEntries(Lines(entries))
  {
    ExportMalformed(raw, parse);
    RecoveredSpec(entries);
  }

  /** When no fragment of a malformed string parses, the raw string itself is exported. */
  lemma ExportUnrecoverableIsRaw(raw: string, parse: string -> Option<Json>)
    requires raw != "" && parse(raw).None?
    requires forall k :: 0 <= k < |Fragments(raw)| ==> parse(CleanFragment(Fragments(raw)[k])).None?
    ensures ExportText(Defined(JStr(raw)), parse) == raw
  {
    ExportMalformed(raw, parse);
    SurvivorsNone(Fragments(raw), parse);
  }

  /** A recovered `null` entry makes rendering throw, which also falls back to the raw string. */
  lemma ExportRecoveredNullIsRaw(raw: string, entries: seq<Json>, parse: string -> Option<Json>)
    requires raw != "" && parse(raw).None?
    requires entries == Survivors(Fragments(raw), parse) && !NoNull(entries)
    ensures ExportText(Defined(JStr(raw)), parse) == raw
  {
    ExportMalformed(raw, parse);
    RecoveredSpec(entries);
  }

  /** A payload that decodes to a string (a double-encoded transcript) is emitted as that string, not parsed again. */
  lemma ExportDoubleEncoded(raw: string, inner: string, parse: string -> Option<Json>)
    requires raw != "" && parse(raw) == Some(JStr(inner))
    ensures ExportText(Defined(JStr(raw)), parse) == inner
  {
    ExportDecodes(raw, JStr(inner), parse);
  }

  /** An array payload exports its elements' lines in element order, or the error sentence when an element is `null`. */
  lemma ExportArray(raw: string, elems: seq<Json>, parse: string -> Option<Json>)
    requires raw != "" && parse(raw) == Some(JArr(elems))
    ensures NoNull(elems) ==> ExportText(Defined(JStr(raw)), parse) == JoinEntries(Lines(elems))
    ensures !NoNull(elems) ==> ExportText(Defined(JStr(raw)), parse) == FormatErrorText
  {
    ExportDecodes(raw, JArr(elems), parse);
    RenderJoinedSpec(elems);
  }

  /** Splitting an exported array on the blank line gives back one line per element, when no line holds a newline. */
  lemma ExportArrayRoundTrip(raw: string, elems: seq<Json>, parse: string -> Option<Json>)
    requires raw != "" && parse(raw) == Some(JArr(elems))
    requires |elems| >= 1 && NoNull(elems)
    requires forall k :: 0 <= k < |elems| ==> NoChar(EntryLine(elems[k]), '\n')
    ensures Split(ExportText(Defined(JStr(raw)), parse), EntryGap) == Lines(elems)
  {
    ExportArray(raw, elems, parse);
    JoinEntriesRoundTrip(Lines(elems));
  }

  /** Decoding to JSON `null` throws inside the cascade and yields the error sentence. */
  lemma ExportJsonNull(raw: string, parse: string -> Option<Json>)
    requires raw != "" && parse(raw) == Some(JNull)
    ensures ExportText(Defined(JStr(raw)), parse) == FormatErrorText
  {
    ExportDecodes(raw, JNull, parse);
  }

  /** An object none of whose values is a string or an object contributes no entries. */
  lemma ObjectEntriesOfScalars(fields: seq<(string, Json)>, parse: string -> Option<Json>)
    requires forall k :: 0 <= k < |fields| ==> fields[k].1.JNum? || fields[k].1.JBool?
    ensures ObjectEntries(fields, parse) == []
  {
    var keys := KeyOrder(fields);
    forall k | 0 <= k < |keys| ensures Picker(parse)(keys[k].1).None? {
      assert keys[k] in multiset(fields);
      assert keys[k] in fields;
    }
    CollectedNone(keys, Picker(parse));
  }

  /** Such an object therefore exports the no-entries sentence. */
  lemma ExportObjectWithoutEntries(raw: string, fields: seq<(string, Json)>, parse: string -> Option<Json>)
    requires raw != "" && parse(raw) == Some(JObj(fields))
    requires forall k :: 0 <= k < |fields| ==> fields[k].1.JNum? || fields[k].1.JBool?
    ensures ExportText(Defined(JStr(raw)), parse) == NoValidEntriesText
  {
    ExportDecodes(raw, JObj(fields), parse);
    ObjectEntriesOfScalars(fields, parse);
  }

  /** Values that are objects are taken as they are: the entries are the values, in key order. */
  lemma ObjectEntriesOfObjects(fields: seq<(string, Json)>, parse: string -> Option<Json>)
    requires forall k :: 0 <= k < |fields| ==> fields[k].1.JObj?
    ensures ObjectEntries(fields, parse) == Values(KeyOrder(fields))
  {
    var keys := KeyOrder(fields);
    forall k | 0 <= k < |keys| ensures Picker(parse)(keys[k].1) == Some(keys[k].1) {
      assert keys[k] in multiset(fields);
    }
    CollectedAll(keys, Picker(parse));
  }

  /**
   * A string value that is not JSON is skipped exactly when none of the three
   * expressions matches; otherwise the rebuilt entry carries the leftmost
   * `text`, `display_name` and `timestamp` captures, with `"Unknown Speaker"`
   * and empty texts for the ones that do not match.
   */
  lemma PickValueRegex(s: string, parse: string -> Option<Json>)
    requires parse(s).None?
    ensures PickValue(JStr(s), parse).None? <==>
      FieldMatch(s, "text").None? && FieldMatch(s, "display_name").None? && FieldMatch(s, "timestamp").None?
    ensures PickValue(JStr(s), parse).Some? ==>
      var e := PickValue(JStr(s), parse).value;
      Get(e, "text") == Defined(JStr(FieldMatch(s, "text").GetOr(""))) &&
      Get(e, "timestamp") == Defined(JStr(FieldMatch(s, "timestamp").GetOr(""))) &&
      OptAccess(Get(e, "speaker"), "display_name") == Defined(JStr(FieldMatch(s, "display_name").GetOr("Unknown Speaker")))
  {
    var text, speaker, timestamp := FieldMatch(s, "text"), FieldMatch(s, "display_name"), FieldMatch(s, "timestamp");
    assert PickValue(JStr(s), parse) == RegexEntry(s);
    if !(text.None? && speaker.None? && timestamp.None?) {
      var e := JObj([
        ("speaker", JObj([("display_name", JStr(speaker.GetOr("Unknown Speaker")))])),
        ("text", JStr(text.GetOr(""))),
        ("timestamp", JStr(timestamp.GetOr("")))
      ]);
      assert RegexEntry(s) == Some(e);
      RebuiltEntryFields(speaker.GetOr("Unknown Speaker"), text.GetOr(""), timestamp.GetOr(""));
    }
  }

  /** The three fields of a rebuilt entry read back as they were put in. */
  lemma RebuiltEntryFields(d: string, x: string, ts: string)
    ensures var e := JObj([("speaker", JObj([("display_name", JStr(d))])), ("text", JStr(x)), ("timestamp", JStr(ts))]);
      Get(e, "text") == Defined(JStr(x)) && Get(e, "timestamp") == Defined(JStr(ts)) &&
      OptAccess(Get(e, "speaker"), "display_name") == Defined(JStr(d))
  {
    var e := JObj([("speaker", JObj([("display_name", JStr(d))])), ("text", JStr(x)), ("timestamp", JStr(ts))]);
    assert "speaker" != "text" && "speaker" != "timestamp" && "text" != "timestamp" by {
      assert |"speaker"| != |"text"| && |"speaker"| != |"timestamp"| && |"text"| != |"timestamp"|;
    }
    assert e.fields[1..] == [("text", JStr(x)), ("timestamp", JStr(ts))];
    assert Lookup(e.fields[1..], "text") == Defined(JStr(x));
    assert e.fields[1..][1..] == [("timestamp", JStr(ts))];
    assert Lookup(e.fields[1..][1..], "timestamp") == Defined(JStr(ts));
    assert Lookup(e.fields[1..], "timestamp") == Defined(JStr(ts));
  }

  /** A string value that is not JSON but starts with a `"text":"..."` field is rebuilt around that text. */
  lemma PickValueRegexText(x: string, rest: string, parse: string -> Option<Json>)
    requires NoChar(x, '"')
    requires parse(FieldPattern("text") + x + "\"" + rest).None?
    ensures PickValue(JStr(FieldPattern("text") + x + "\"" + rest), parse).Some?
    ensures Get(PickValue(JStr(FieldPattern("text") + x + "\"" + rest), parse).value, "text") == Defined(JStr(x))
  {
    var s := FieldPattern("text") + x + "\"" + rest;
    FieldMatchAtStart("text", x, rest);
    var e := RegexEntry(s).value;
    assert e.fields[1..] == [("text", JStr(x)), ("timestamp", JStr(FieldMatch(s, "timestamp").GetOr("")))];
    assert Lookup(e.fields[1..], "text") == Defined(JStr(x));
  }

  // ---------------------------------------------------------------------------
  // The downloaded file
  // ---------------------------------------------------------------------------

  /** The fields of a stored transcript that the downloaded file shows. */
  datatype StoredTranscript = StoredTranscript(
    title: Option<string>,
    startTimeText: Option<string>,   // `new Date(startTime).toLocaleString()`, absent when `startTime` is falsy
    duration: Option<int>,           // seconds
    participants: Option<seq<string>>,
    recordingUrl: Option<string>,
    summary: Option<string>,
    transcript: Prop)

  /** `Math.round(seconds / 60)`: the nearest whole minute, halves rounded up. */
  function RoundedMinutes(seconds: int): (r: int)
    ensures 60 * r - 30 <= seconds < 60 * r + 30
  {
    (seconds + 30) / 60
  }

  /** The header's Duration line value. */
  function DurationText(duration: Option<int>): (r: string)
    ensures (duration.None? || duration.value == 0) <==> r == "Unknown"
  {
    if duration.None? || duration.value == 0 then "Unknown"
    else IntToString(RoundedMinutes(duration.value)) + " minutes"
  }

  function TextOr(s: Option<string>, fallback: string): string {
    if s.Some? && s.value != "" then s.value else fallback
  }

  const Banner: string := "FATHOM TRANSCRIPT\n================\n\n"

  /** Everything above the transcript text, without the template's leading newline. */
  function FileHeader(t: StoredTranscript): string {
    Banner + HeaderFields(t)
  }

  /** The header lines after the banner. */
  function HeaderFields(t: StoredTranscript): string {
    "Title: " + TextOr(t.title, "Untitled Meeting") + "\n" +
    "Date: " + TextOr(t.startTimeText, "Unknown") + "\n" +
    "Duration: " + DurationText(t.duration) + "\n" +
    "Participants: " + (if t.participants.Some? then Join(t.participants.value, ", ") else "None") + "\n\n" +
    (if TextOr(t.recordingUrl, "") != "" then "Recording URL: " + t.recordingUrl.value + "\n" else "") +
    "\nSUMMARY\n-------\n" + TextOr(t.summary, "No summary available") + "\n\n" +
    "TRANSCRIPT\n----------\n"
  }

  /** The text of the downloaded file: the filled-in template, trimmed. */
  function DownloadContent(t: StoredTranscript, parse: string -> Option<Json>): string {
    Trim("\n" + (FileHeader(t) + ExportText(t.transcript, parse)) + "\n")
  }

  /**
   * The file is the header followed by the transcript text, with only trailing
   * white space removed; the header's rule line always survives, so the file
   * starts with the whole header but its final newline.
   */
  lemma DownloadContentTrimmed(t: StoredTranscript, parse: string -> Option<Json>)
    ensures DownloadContent(t, parse) == TrimEnd(FileHeader(t) + ExportText(t.transcript, parse))
    ensures var h := FileHeader(t); |h| >= 2 && h[..|h| - 1] <= DownloadContent(t, parse)
  {
    HeaderEnds(t);
    TrimFramedHead(FileHeader(t), ExportText(t.transcript, parse));
  }

  /** The header starts with the banner's `F` and ends with the rule under `TRANSCRIPT` and a newline. */
  lemma HeaderEnds(t: StoredTranscript)
    ensures var h := FileHeader(t); |h| >= 2 && h[0] == 'F' && h[|h| - 2] == '-' && h[|h| - 1] == '\n'
  {
    var fields := HeaderFields(t);
    var rule := "TRANSCRIPT\n----------\n";
    assert fields[|fields| - |rule|..] == rule;
    assert (Banner + fields)[0] == Banner[0];
  }

  /** When the transcript text does not end in white space, the file is the header followed by exactly that text. */
  lemma DownloadContentShape(t: StoredTranscript, parse: string -> Option<Json>)
    requires var x := ExportText(t.transcript, parse); |x| > 0 && !IsJsSpace(x[|x| - 1])
    ensures DownloadContent(t, parse) == FileHeader(t) + ExportText(t.transcript, parse)
  {
    DownloadContentTrimmed(t, parse);
    var body := FileHeader(t) + ExportText(t.transcript, parse);
    assert body[|body| - 1] == ExportText(t.transcript, parse)[|ExportText(t.transcript, parse)| - 1];
  }
}
