/**
 * The browser's transcript export (public/app.js) and the server's journey
 * section (src/services/transcriptService.js) run the same cascade on the
 * same stored `transcript` field but were written separately. These lemmas
 * put the two side by side: where they agree, and each input on which
 * they produce different text.
 */
module Divergence {
  import opened Common
  import opened JsStrings
  import opened JsValues
  import opened TranscriptCascade
  import AppTranscript
  import ServerTranscript

  /** Two lines that differ only in the speaker are different texts. */
  lemma LineDiffersInSpeaker(a: string, b: string, timestamp: string, text: string)
    requires a != b
    ensures Line(a, timestamp, text) != Line(b, timestamp, text)
  {
    var la := Line(a, timestamp, text);
    var lb := Line(b, timestamp, text);
    if |a| == |b| {
      assert la[..|a|] == a;
      assert lb[..|b|] == b;
    } else {
      assert |la| != |lb|;
    }
  }

  /** An entry that carries a speaker display name, a text and a timestamp, all truthy. */
  predicate FullEntry(e: Json) {
    e.JObj? &&
    TruthyProp(OptAccess(Get(e, "speaker"), "display_name")) &&
    TruthyProp(Get(e, "text")) && TruthyProp(Get(e, "timestamp"))
  }

  /** On such an entry neither copy reaches a fallback, so both render the same line. */
  lemma FullEntryAgrees(e: Json)
    requires FullEntry(e)
    ensures AppTranscript.EntryLine(e) == ServerTranscript.ServerEntryLine(e)
    ensures AppTranscript.EntryLine(e) ==
      Line(PropText(OptAccess(Get(e, "speaker"), "display_name")), PropText(Get(e, "timestamp")), PropText(Get(e, "text")))
  {
  }

  /** A non-empty array of full entries is exported and sectioned identically. */
  lemma FullArrayAgrees(raw: string, elems: seq<Json>, parse: string -> Option<Json>)
    requires raw != "" && parse(raw) == Some(JArr(elems))
    requires |elems| > 0 && forall k :: 0 <= k < |elems| ==> FullEntry(elems[k])
    ensures AppTranscript.ExportText(Defined(JStr(raw)), parse) == ServerTranscript.ServerContent(Defined(JStr(raw)), parse)
  {
    AppTranscript.ExportArray(raw, elems, parse);
    ServerTranscript.ServerDecodes(raw, JArr(elems), parse);
    ServerTranscript.ServerRenderedSpec(elems);
    forall k | 0 <= k < |elems| ensures AppTranscript.Lines(elems)[k] == ServerTranscript.ServerLines(elems)[k] {
      FullEntryAgrees(elems[k]);
    }
    assert AppTranscript.Lines(elems) == ServerTranscript.ServerLines(elems);
  }

  /** A missing transcript gives the same sentence in both. */
  lemma MissingAgrees(transcript: Prop, parse: string -> Option<Json>)
    requires !TruthyProp(transcript)
    ensures AppTranscript.ExportText(transcript, parse) == ServerTranscript.ServerContent(transcript, parse) == "No transcript available"
  {
  }

  /**
   * A speaker given as a plain string: the browser ignores it and writes
   * "Unknown Speaker", the server writes the string itself.
   */
  lemma StringSpeakerDiverges(name: string, timestamp: string, text: string)
    requires name != "" && name != "Unknown Speaker" && timestamp != "" && text != ""
    ensures var e := JObj([("speaker", JStr(name)), ("text", JStr(text)), ("timestamp", JStr(timestamp))]);
      AppTranscript.EntryLine(e) == Line("Unknown Speaker", timestamp, text) &&
      ServerTranscript.ServerEntryLine(e) == Line(name, timestamp, text) &&
      AppTranscript.EntryLine(e) != ServerTranscript.ServerEntryLine(e)
  {
    var fields := [("speaker", JStr(name)), ("text", JStr(text)), ("timestamp", JStr(timestamp))];
    assert fields[1..] == [("text", JStr(text)), ("timestamp", JStr(timestamp))];
    assert fields[1..][1..] == [("timestamp", JStr(timestamp))];
    assert Lookup(fields[1..][1..], "timestamp") == Defined(JStr(timestamp));
    assert Lookup(fields, "timestamp") == Defined(JStr(timestamp));
    assert Lookup(fields, "text") == Defined(JStr(text));
    LineDiffersInSpeaker("Unknown Speaker", name, timestamp, text);
  }

  /** An entry with no speaker at all: "Unknown Speaker" in the browser, "Unknown" on the server. */
  lemma MissingSpeakerDiverges(timestamp: string, text: string)
    requires timestamp != "" && text != ""
    ensures var e := JObj([("text", JStr(text)), ("timestamp", JStr(timestamp))]);
      AppTranscript.EntryLine(e) == Line("Unknown Speaker", timestamp, text) &&
      ServerTranscript.ServerEntryLine(e) == Line("Unknown", timestamp, text) &&
      AppTranscript.EntryLine(e) != ServerTranscript.ServerEntryLine(e)
  {
    var fields := [("text", JStr(text)), ("timestamp", JStr(timestamp))];
    assert fields[1..] == [("timestamp", JStr(timestamp))];
    assert Lookup(fields, "timestamp") == Defined(JStr(timestamp));
    LookupAbsent(fields, "speaker");
    LineDiffersInSpeaker("Unknown Speaker", "Unknown", timestamp, text);
  }

  /**
   * A malformed string from which nothing is recovered: the browser exports
   * the raw string, the server shows the default sentence.
   */
  lemma UnrecoveredDiverges(raw: string, parse: string -> Option<Json>)
    requires raw != "" && parse(raw).None?
    requires forall k :: 0 <= k < |Fragments(raw)| ==> parse(CleanFragment(Fragments(raw)[k])).None?
    ensures AppTranscript.ExportText(Defined(JStr(raw)), parse) == raw
    ensures ServerTranscript.ServerContent(Defined(JStr(raw)), parse) == "No transcript available"
  {
    AppTranscript.ExportUnrecoverableIsRaw(raw, parse);
    ServerTranscript.ServerUnrecoverable(raw, parse);
  }

  /** Recovered entries of which one is `null`: the browser falls back to the raw string, the server to the default sentence. */
  lemma RecoveredNullDiverges(raw: string, entries: seq<Json>, parse: string -> Option<Json>)
    requires raw != "" && parse(raw).None?
    requires entries == Survivors(Fragments(raw), parse)
    requires exists k :: 0 <= k < |entries| && entries[k] == JNull
    ensures AppTranscript.ExportText(Defined(JStr(raw)), parse) == raw
    ensures ServerTranscript.ServerContent(Defined(JStr(raw)), parse) == "No transcript available"
  {
    AppTranscript.ExportRecoveredNullIsRaw(raw, entries, parse);
    ServerTranscript.ServerMalformed(raw, parse);
    ServerTranscript.ServerRecoveredSpec(entries);
  }

  /** Object values visited in key order are as many as the fields, and none is `null` when every value is an object. */
  lemma ObjectValuesNotNull(fields: seq<(string, Json)>)
    requires forall k :: 0 <= k < |fields| ==> fields[k].1.JObj?
    ensures |Values(KeyOrder(fields))| == |fields|
    ensures AppTranscript.NoNull(Values(KeyOrder(fields)))
  {
    var keys := KeyOrder(fields);
    assert |keys| == |fields| by {
      assert |multiset(keys)| == |multiset(fields)|;
    }
    forall k | 0 <= k < |keys| ensures keys[k].1 != JNull {
      assert keys[k] in multiset(fields);
      assert keys[k] in fields;
    }
  }

  /** The browser renders an object of entry objects from its values in key order. */
  lemma DecodedObjectsRendered(fields: seq<(string, Json)>, parse: string -> Option<Json>)
    requires |fields| > 0 && forall k :: 0 <= k < |fields| ==> fields[k].1.JObj?
    ensures AppTranscript.DecodedText(JObj(fields), parse) == Ok(JoinEntries(AppTranscript.Lines(Values(KeyOrder(fields)))))
  {
    ObjectValuesNotNull(fields);
    AppTranscript.ObjectEntriesOfObjects(fields, parse);
    AppTranscript.RenderJoinedSpec(Values(KeyOrder(fields)));
  }

  /**
   * A payload whose values are already-decoded entry objects: the browser
   * takes them in key order, the server turns each into "[object Object]",
   * fails to parse it and shows the default sentence.
   */
  lemma DecodedObjectsDiverge(raw: string, fields: seq<(string, Json)>, parse: string -> Option<Json>)
    requires raw != "" && parse(raw) == Some(JObj(fields))
    requires |fields| > 0 && forall k :: 0 <= k < |fields| ==> fields[k].1.JObj?
    requires parse("[object Object]").None?
    ensures AppTranscript.ExportText(Defined(JStr(raw)), parse) == JoinEntries(AppTranscript.Lines(Values(KeyOrder(fields))))
    ensures ServerTranscript.ServerContent(Defined(JStr(raw)), parse) == "No transcript available"
  {
    DecodedObjectsRendered(fields, parse);
    AppTranscript.ExportDecodes(raw, JObj(fields), parse);
    ServerTranscript.ServerDecodedObjectsPayload(raw, fields, parse);
  }

  /** A double-encoded transcript: the browser emits the inner string, the server shows the default sentence. */
  lemma DoubleEncodedDiverges(raw: string, inner: string, parse: string -> Option<Json>)
    requires raw != "" && parse(raw) == Some(JStr(inner))
    ensures AppTranscript.ExportText(Defined(JStr(raw)), parse) == inner
    ensures ServerTranscript.ServerContent(Defined(JStr(raw)), parse) == "No transcript available"
  {
    AppTranscript.ExportDoubleEncoded(raw, inner, parse);
    ServerTranscript.ServerScalarPayload(raw, JStr(inner), parse);
  }

  /** JSON `null`: an error sentence in the browser, the default sentence on the server. */
  lemma JsonNullDiverges(raw: string, parse: string -> Option<Json>)
    requires raw != "" && parse(raw) == Some(JNull)
    ensures AppTranscript.ExportText(Defined(JStr(raw)), parse) == AppTranscript.FormatErrorText
    ensures ServerTranscript.ServerContent(Defined(JStr(raw)), parse) == "No transcript available"
  {
    AppTranscript.ExportJsonNull(raw, parse);
    ServerTranscript.ServerScalarPayload(raw, JNull, parse);
  }

  /** An array with a `null` element fails in both, with each copy's own failure sentence. */
  lemma NullElementDiverges(raw: string, elems: seq<Json>, parse: string -> Option<Json>)
    requires raw != "" && parse(raw) == Some(JArr(elems))
    requires exists k :: 0 <= k < |elems| && elems[k] == JNull
    ensures AppTranscript.ExportText(Defined(JStr(raw)), parse) == AppTranscript.FormatErrorText
    ensures ServerTranscript.ServerContent(Defined(JStr(raw)), parse) == ServerTranscript.ProcessingErrorText
  {
    AppTranscript.ExportArray(raw, elems, parse);
    ServerTranscript.ServerArrayWithNull(raw, elems, parse);
  }

  /** An empty array: an empty export in the browser, the default sentence on the server. */
  lemma EmptyArrayDiverges(raw: string, parse: string -> Option<Json>)
    requires raw != "" && parse(raw) == Some(JArr([]))
    ensures AppTranscript.ExportText(Defined(JStr(raw)), parse) == ""
    ensures ServerTranscript.ServerContent(Defined(JStr(raw)), parse) == "No transcript available"
  {
    AppTranscript.ExportArray(raw, [], parse);
    ServerTranscript.ServerDecodes(raw, JArr([]), parse);
  }
}
