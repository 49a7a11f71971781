# Fathom transcript manager: a verified model of its core

This project models the logic of the Fathom transcript manager that turns
stored meeting records into text. It covers:

- **The transcript export, browser copy** (`downloadTranscript` in
  `public/app.js`). A stored `transcript` payload goes through a cascade:
  a strict JSON parse; when that fails, recovery from the malformed string;
  for a decoded object, its values visited in integer key order; for a
  decoded array, its elements in order. Each entry is rendered as
  `speaker [timestamp]: text` and the entries are joined by a blank line.
  Fixed sentences stand in when nothing can be extracted. The downloaded
  file puts a header (title, date, rounded minutes, participants, URL,
  summary) above this text.
- **The transcript export, server copy** (the section formatting inside
  `downloadMultipleTranscripts` in `src/services/transcriptService.js`).
  It runs the same cascade with different fallbacks and sentinels. The
  `Divergence` module proves where the two copies agree and gives an input
  for each place where they differ.
- **The chronological journey file** of several transcripts: lookup,
  oldest-first ordering, numbered sections, header and file name.
  Also `concatenateTranscripts`.
- **The row mappings and search parameters** of the transcript service.
- **Duration text**: `formatDuration`, the header's rounded minutes, and
  the hours-and-minutes form logged by the duration fixes.
- **The duration fix** of `POST /fix-durations` (`src/routes/sync.js`) and
  of the script `fix-durations.js`. It works over a meetings table updated
  in place.
- **The Fathom client's pure and looping logic**:
  - `processMeetingData` (field fallbacks, participants, distinct domains);
  - the domain and company filters with their page result;
  - the `syncAllMeetings` page-accumulation loop with its request counter.
- **The selection state of the browser page**: checkbox toggles,
  select-all, the download button and the 0/1/many dispatch.
- **The `basicAuth` decision** of `server.js`.

JavaScript semantics are written out rather than assumed:
- truthiness and `||` on property values (`JsValues.OrElse`);
- optional chaining, and property access on `null`/`undefined` that throws (an `Outcome`);
- `String()` of a value inside a template;
- `split`, `trim`, `startsWith`/`endsWith`/`includes`;
- `parseInt`, and `x > 0` after the conversion of `x` to a number (`JsValues.JsPositive`);
- global regular-expression replacement as a left-to-right scan;
- `Set` insertion order.

`JSON.parse` is a function parameter `parse: string -> Option<Json>`
(`None` where it throws). The network fetch of `syncAllMeetings` is a
parameter `fetch`. Base64 decoding is a parameter `decode`. Record lookup
by id is a parameter `lookup`. Dates reach the model already formatted
(locale strings, ISO days) or as epoch milliseconds.

Module layout:
- `common.dfy`, `js_strings.dfy`, `js_values.dfy`, `js_sets.dfy`,
  `sorting.dfy`: shared JavaScript building blocks.
- `transcript_cascade.dfy`: the cleaning, fragment recovery, key ordering
  and line rendering shared by both copies.
- `app_transcript.dfy` and `server_transcript.dfy`: the two copies.
- `divergence.dfy`: the comparison of the two copies.
- `journey.dfy`, `transcript_rows.dfy`, `durations.dfy`,
  `duration_fix.dfy`, `fathom_service.dfy`, `selection.dfy`,
  `basic_auth.dfy`: one module per remaining part.

Where code loops or mutates state, the model is a method with a loop or a
class:
- `AppTranscript.ParseFragments`, `ServerTranscript.ServerParseFragments`;
- `Journey.AppendSections`, `Journey.ConcatenateTranscripts`;
- `DurationFix.MeetingStore`;
- `Selection.SelectionState`;
- `FathomService.SyncAllMeetings`.

Each of these methods is proved against a specification function, and that
function's properties are proved as lemmas.

## Model

| member | source | states |
|---|---|---|
| AppTranscript.FormatTranscript | public/app.js:555-748 | The export text of a stored transcript follows the whole cascade: missing → "No transcript available"; parse; recovery or the raw string; decoded branch; any throw → the formatting-error sentence |
| AppTranscript.RecoverEntries | public/app.js:584-633 | The recovered entries are exactly the parsed survivors of the cleaned `","`-fragments of the trimmed, brace-stripped string, in fragment order |
| AppTranscript.ParseFragments | public/app.js:595-630 | The loop keeps each fragment that parses, with its index, drops the others without stopping, and produces strictly increasing keys below the fragment count |
| AppTranscript.KeyedAscending | public/app.js:633 | Sorting entries by strictly increasing keys leaves them in place, so the sort by key keeps fragment order |
| AppTranscript.PickEntry | public/app.js:684-712 | A string value is parsed, or rebuilt by the field regexes when at least one matches, or skipped; object, array and null values are kept as they are; numbers and booleans are skipped |
| AppTranscript.CollectObjectEntries | public/app.js:673-718 | Entries of a decoded object are the picked values visited in integer key order |
| AppTranscript.FormatDecoded | public/app.js:660-748 | Rendering of a decoded payload: object entries or "No valid transcript entries found", array elements, other values unchanged, throws replaced by the error sentence |
| AppTranscript.RenderJoinedSpec | public/app.js:722-738 | Rendering entries succeeds exactly when none is null, and then yields their lines, in order, joined by a blank line |
| AppTranscript.EntryLineOfFields | public/app.js:723-726 | An entry with display name, text and timestamp renders as `name [timestamp]: text` |
| AppTranscript.EntryLineDefaults | public/app.js:723-726 | An entry with none of the three fields renders with the defaults "Unknown Speaker", "" and "" |
| AppTranscript.ExportMalformed | public/app.js:570-656 | When the strict parse fails, the export is the recovered rendering, or else the raw string |
| AppTranscript.ExportDecodes | public/app.js:562-568 | When the strict parse succeeds, the export is the rendering of the decoded value, with throws caught |
| AppTranscript.RecoveredSpec | public/app.js:635-651 | Recovery counts as successful exactly when it finds at least one entry and none is null; its text is then the joined lines |
| AppTranscript.ExportRecovered | public/app.js:635-647 | Successfully recovered entries are the export, and the object and array branches are skipped |
| AppTranscript.ExportUnrecoverableIsRaw | public/app.js:739-742 | When no fragment parses, the error sentence of line 650 is overwritten and the export is the raw string |
| AppTranscript.ExportRecoveredNullIsRaw | public/app.js:636-655 | A recovered `null` entry makes rendering throw inside recovery, and the export falls back to the raw string |
| AppTranscript.ExportDoubleEncoded | public/app.js:739-742 | A payload that decodes to a string is emitted as that string, not parsed again |
| AppTranscript.ExportArray | public/app.js:731-748 | A decoded array is rendered element by element in order, or gives the error sentence when an element is null |
| AppTranscript.ExportArrayRoundTrip | public/app.js:733-738 | Splitting an array export on the blank line gives back one line per entry, in order, when no line contains a newline |
| AppTranscript.ExportJsonNull | public/app.js:744-748 | A payload that decodes to JSON `null` gives the formatting-error sentence |
| AppTranscript.ObjectEntriesOfScalars | public/app.js:710-711 | Number and boolean values of an object are all skipped |
| AppTranscript.ExportObjectWithoutEntries | public/app.js:728-730 | An object with no usable values exports "No valid transcript entries found" |
| AppTranscript.ObjectEntriesOfObjects | public/app.js:707-709 | Object values are used as they are, in integer key order |
| AppTranscript.PickValueRegex | public/app.js:688-702 | A string value that does not parse is skipped exactly when none of the three expressions matches; otherwise the rebuilt entry has the leftmost `text`, `display_name` and `timestamp` captures, with `Unknown Speaker` and empty texts for those that do not match |
| AppTranscript.PickValueRegexText | public/app.js:691-700 | A string value that does not parse and begins with `"text":"x"`, x without quotes, yields an entry whose text is x |
| AppTranscript.RoundedMinutes | public/app.js:758 | The header's minutes are the nearest whole minute to the duration in seconds |
| AppTranscript.DurationText | public/app.js:758 | The header's duration is "Unknown" exactly when the duration is missing or zero |
| AppTranscript.DownloadContentTrimmed | public/app.js:752-769 | For every transcript, including an empty export or one ending in a newline, the downloaded file is the header followed by the export text with only its trailing white space removed, and it always starts with the whole header but its last newline |
| AppTranscript.DownloadContentShape | public/app.js:752-769 | When the export text is non-empty and does not end in white space, the downloaded file is exactly the header followed by that text |
| TranscriptCascade.StripOuterBracesWrapped | public/app.js:584-588 | A string that starts with `{` and ends with `}` loses exactly that pair |
| TranscriptCascade.StripOuterBracesUnwrapped | public/app.js:584-588 | A string that does not both start with `{` and end with `}` is left unchanged |
| TranscriptCascade.StripQuotesOneLayer | public/app.js:601-607 | At most one leading and one trailing quote are removed from a fragment |
| TranscriptCascade.UnescapeWithoutBackslash | public/app.js:613-618 | A fragment without backslashes is unchanged by the unescaping |
| TranscriptCascade.UnescapeOrderDoubleDecodes | public/app.js:613-618 | The fixed replacement order (`\\` before `\n`) turns the escaped text `\\n` into a newline |
| TranscriptCascade.SurvivorsNone | public/app.js:626-629 | When no cleaned fragment parses, recovery finds nothing |
| TranscriptCascade.SurvivorsDropFailure | public/app.js:626-629 | A fragment that fails to parse is dropped without disturbing the entries around it |
| TranscriptCascade.SurvivorsKeepSuccess | public/app.js:622-623 | A fragment that parses contributes its entry in its own position |
| TranscriptCascade.KeyOrder | public/app.js:673-677 | The key ordering is a permutation of the object's fields |
| TranscriptCascade.KeyOrderAscending | public/app.js:673-677 | When every key parses as an integer, keys are visited in ascending integer order |
| TranscriptCascade.FieldMatch | public/app.js:691-693 | A capture holds no quote, and the string contains `"name":"`, then the capture, then a quote |
| TranscriptCascade.FieldMatchSpec | public/app.js:691-693 | No match exactly when no `"name":"` in the string has a quote somewhere after it; otherwise the capture is the quote-free run from the leftmost such `"name":"` up to the first quote after it |
| TranscriptCascade.MatchFromSpec | public/app.js:691-693 | From a given position on, the search finds nothing exactly when the expression matches nowhere, and otherwise returns the capture of the leftmost match |
| TranscriptCascade.FieldMatchAtStart | public/app.js:691-693 | The field regex finds the quoted value that follows the pattern |
| TranscriptCascade.JoinEntriesRoundTrip | public/app.js:642 | Joining newline-free lines with a blank line and splitting again gives the lines back |
| ServerTranscript.FormatSectionContent | src/services/transcriptService.js:457-551 | A journey section's content follows the server cascade, with "No transcript available" as the default and "Error processing transcript content" for a throw |
| ServerTranscript.ServerRecoverEntries | src/services/transcriptService.js:472-503 | Server recovery uses the same cleaning and keeps the survivors in fragment order |
| ServerTranscript.ServerParseFragments | src/services/transcriptService.js:480-503 | The loop keeps each cleaned fragment that parses and skips the rest |
| ServerTranscript.CollectServerEntries | src/services/transcriptService.js:527-535 | Object values are visited in integer key order and each goes through JSON.parse; failures are skipped |
| ServerTranscript.ServerRenderedSpec | src/services/transcriptService.js:538-545 | Server rendering succeeds exactly when no entry is null, and then yields the server lines joined by a blank line |
| ServerTranscript.ServerEntryLineDefaults | src/services/transcriptService.js:539-543 | An entry with none of the fields renders as "Unknown []: " |
| ServerTranscript.ServerEntryLineFallbacks | src/services/transcriptService.js:506-510 | A string speaker, `content` and `time` stand in for display name, text and timestamp |
| ServerTranscript.ServerUnrecoverable | src/services/transcriptService.js:505-513 | When nothing is recovered from a malformed string, the content stays "No transcript available" |
| ServerTranscript.ServerMalformed | src/services/transcriptService.js:465-517 | When the strict parse fails, the content is the recovered rendering or the default sentence |
| ServerTranscript.ServerDecodes | src/services/transcriptService.js:464-466 | When the strict parse succeeds, the content is the rendering of the decoded value, with throws caught |
| ServerTranscript.ServerRecoveredSpec | src/services/transcriptService.js:505-516 | Server recovery succeeds exactly when it finds at least one entry and none is null |
| ServerTranscript.ServerRecoveredText | src/services/transcriptService.js:505-512 | Successfully recovered entries are the section content |
| ServerTranscript.ServerSkipsDecodedObjects | src/services/transcriptService.js:528-535 | Already-decoded object values become "[object Object]", fail to parse and are skipped |
| ServerTranscript.ServerDecodedObjectsPayload | src/services/transcriptService.js:521-545 | A payload of decoded objects gives the default sentence |
| ServerTranscript.ServerObjectOfTexts | src/services/transcriptService.js:527-535 | An object of parseable strings yields one entry per key, in integer key order |
| ServerTranscript.ServerArrayWithNull | src/services/transcriptService.js:547-550 | An array with a null element gives "Error processing transcript content" |
| ServerTranscript.ServerNullValueThrows | src/services/transcriptService.js:527-549 | An object payload one of whose values parses to `null` (such as `{"0":"null"}`) throws at `entry.speaker`, whatever the other values are |
| ServerTranscript.ServerScalarPayload | src/services/transcriptService.js:521 | A payload that decodes to neither object nor array leaves the default sentence |
| Divergence.FullEntryAgrees | src/services/transcriptService.js:539-543 | On an entry with a display name, text and timestamp, the server line equals the browser line |
| Divergence.FullArrayAgrees | src/services/transcriptService.js:524-545 | A non-empty array of such entries gives identical browser export and server section content |
| Divergence.MissingAgrees | src/services/transcriptService.js:457-458 | A missing transcript gives "No transcript available" in both copies |
| Divergence.StringSpeakerDiverges | src/services/transcriptService.js:540 | A plain-string speaker is "Unknown Speaker" in the browser and the string itself on the server |
| Divergence.MissingSpeakerDiverges | src/services/transcriptService.js:540 | A missing speaker is "Unknown Speaker" in the browser and "Unknown" on the server |
| Divergence.UnrecoveredDiverges | src/services/transcriptService.js:505-513 | Unrecoverable malformed text: the browser exports the raw string, the server the default sentence |
| Divergence.RecoveredNullDiverges | src/services/transcriptService.js:514-516 | A recovered null entry: raw string in the browser, default sentence on the server |
| Divergence.ObjectValuesNotNull | public/app.js:707-709 | Object values taken in key order are as many as the fields and none is null |
| Divergence.DecodedObjectsRendered | public/app.js:707-727 | The browser renders an object of entry objects from its values in key order |
| Divergence.DecodedObjectsDiverge | src/services/transcriptService.js:528-535 | Decoded entry objects are rendered by the browser and dropped by the server |
| Divergence.DoubleEncodedDiverges | src/services/transcriptService.js:521 | A double-encoded payload: the inner string in the browser, the default sentence on the server |
| Divergence.JsonNullDiverges | src/services/transcriptService.js:521 | JSON null: the formatting-error sentence in the browser, the default sentence on the server |
| Divergence.NullElementDiverges | src/services/transcriptService.js:547-550 | An array with a null element fails in both copies, each with its own sentence |
| Divergence.EmptyArrayDiverges | src/services/transcriptService.js:538 | An empty array: an empty export in the browser, the default sentence on the server |
| Journey.FetchRecords | src/services/transcriptService.js:425-431 | The fetched transcripts are the ids' lookups that exist, in id order |
| Journey.Chronological | src/services/transcriptService.js:438 | The journey order is a permutation of the found transcripts |
| Journey.ChronologicalOrder | src/services/transcriptService.js:438 | With every start time present, the journey is ordered oldest first |
| Journey.JourneyDatesSpan | src/services/transcriptService.js:438-443 | The first and last transcripts of the journey bound every found start time, so the file name spans the dates |
| Journey.Sections | src/services/transcriptService.js:449-454 | There is one section per transcript, and section k carries the number k+1 |
| Journey.AppendSections | src/services/transcriptService.js:449-554 | The loop's `content +=` builds the header followed by every numbered section in journey order |
| Journey.DownloadMultipleTranscripts | src/services/transcriptService.js:422-559 | The method returns the journey file: the missing-transcripts error, the invalid-time error, or file name and content |
| Journey.JourneyFailsWithoutRecords | src/services/transcriptService.js:426-435 | The journey fails with "No valid transcripts found" exactly when no id's lookup succeeds |
| Journey.SectionsEndWithBlankLine | src/services/transcriptService.js:553 | Every section ends with a blank line |
| Journey.JourneyEndsWithBlankLine | src/services/transcriptService.js:553 | A journey file ends with a blank line |
| Journey.SectionOfFailedTranscript | src/services/transcriptService.js:547-553 | Any stored transcript that parses but whose formatting throws gives "Error processing transcript content" for its own section only, with the heading unchanged |
| Journey.PrimaryDomain | src/services/transcriptService.js:387-388 | The domain line is never empty |
| Journey.PrimaryDomainFirst | src/services/transcriptService.js:387-388 | The domain line shows the first of the comma-separated domains |
| Journey.PrimaryDomainSingle | src/services/transcriptService.js:387-388 | A single domain is shown as it is |
| Journey.PrimaryDomainFallback | src/services/transcriptService.js:387-388 | No domains, or an empty first domain, shows "Unknown Domain" |
| Journey.ConcatenateTranscripts | src/services/transcriptService.js:384-400 | The five appends per meeting build title, date, domain, transcript (or "[No transcript available]") and a blank line, in result order |
| TranscriptRows.ParticipantList | src/services/transcriptService.js:135 | The participant list is empty exactly when the aggregate is missing or empty |
| TranscriptRows.ToItems | src/services/transcriptService.js:127-136 | One item per row, in row order |
| TranscriptRows.ParticipantListRoundTrip | src/services/transcriptService.js:135 | Joining the split participants with the separator gives back the aggregate |
| TranscriptRows.CompanySearchRecoversNames | src/services/transcriptService.js:244 | The company search's split on ", " recovers names that contain no comma |
| TranscriptRows.EmailSearchKeepsSpace | src/services/transcriptService.js:109-135 | The email search aggregates with ", " but splits on ",", so every name after the first keeps a leading space |
| TranscriptRows.KeyParamsLimit | src/services/transcriptService.js:120-122 | The query-string limit, passed as it came, is applied exactly when it is truthy (so `"0"` is applied), as `LIMIT $2` on the last parameter |
| TranscriptRows.CompanyParamsLimit | src/services/transcriptService.js:229-232 | The company limit is applied exactly when it is truthy and compares above zero (so `"0"` is not applied), as `LIMIT $7` on the seventh parameter |
| TranscriptRows.CompanyParamsVariants | src/services/transcriptService.js:221-226 | The six search parameters are the term as given, lower-cased, upper-cased and three times as given |
| Durations.FormatHm | src/routes/sync.js:161-164 | The logged duration always ends in "m" |
| Durations.FormatHmHours | public/app.js:375-381 | At least an hour gives `"{h}h {m}m"` with h = floor(s/3600) and m = floor(s/60) mod 60; otherwise `"{minutes}m"` with fewer than 60 minutes |
| Durations.FormatHmRoundTrip | public/app.js:375-381 | Reading the hours-and-minutes text back gives floor(s/60) minutes, so no minutes are lost |
| Durations.FormatDurationUnknown | public/app.js:357-373 | "Unknown" exactly for a falsy value, a value that is neither number nor string, an unparseable string, or a non-positive count; otherwise the text stands for floor(s/60) minutes |
| Durations.FormatDurationOfText | public/app.js:361-364 | A numeric string formats like the number it spells |
| Durations.FormatDurationReadsLeadingDigits | public/app.js:363-364 | `parseInt` reads the leading digits, so "90s"-style strings format as their number |
| DurationFix.Take | fix-durations.js:19 | The script's limit keeps a prefix of at most 20 candidates |
| DurationFix.CandidatesNeedFix | src/routes/sync.js:128-135 | Every candidate is a stored meeting with a null duration and both times present, and the limit bounds their number |
| DurationFix.MeetingStore.SetDuration | src/routes/sync.js:155-158 | The update writes the duration of the rows with that id and nothing else |
| DurationFix.MeetingStore.UpdateDurations | src/routes/sync.js:148-168 | The loop performs exactly the positive-duration writes in order, counts them and logs each one's hours-and-minutes text |
| DurationFix.MeetingStore.FixDurationsRoute | src/routes/sync.js:121-176 | The route writes the candidates' positive durations, reports their count, and says "No meetings need duration fixes" when there are no candidates |
| DurationFix.MeetingStore.FixDurationsScript | fix-durations.js:12-59 | The script does the same for the 20 newest candidates |
| DurationFix.WritesCount | src/routes/sync.js:154-159 | The update count equals the number of meetings with a positive duration |
| DurationFix.WritesFromMeetings | src/routes/sync.js:150-158 | Every write carries a meeting's id and its floor((end - start)/1000) seconds, which is positive |
| DurationFix.ApplyWritesUntouched | src/routes/sync.js:154-160 | Rows that no write names are left untouched |
| DurationFix.ApplyWritesTouched | src/routes/sync.js:154-158 | A written row gets a positive duration and no other change |
| DurationFix.SecondRunWritesNothing | src/routes/sync.js:128-160 | Running the route a second time writes nothing |
| DurationFix.FirstRunMissed | src/routes/sync.js:150-154 | A candidate the route did not write has no positive duration to write |
| DurationFix.Logged | fix-durations.js:50-55 | One log text per write |
| BasicAuth.Authenticate | server.js:78-108 | Every request is passed on, or refused with "Authentication required" or "Invalid credentials", both with the challenge header |
| BasicAuth.ExemptRequestsPass | server.js:81-83 | `/health` and OPTIONS requests pass without credentials |
| BasicAuth.AuthenticatePasses | server.js:85-104 | Another request passes exactly when it has a Basic header whose decoded token is accepted, and is refused as unauthenticated exactly when the header is missing or not Basic |
| BasicAuth.SuffixImpliesAt | server.js:95-96 | The contains-`@` test is implied by the suffix test |
| BasicAuth.TokenAfterBasic | server.js:91 | The token is the word after "Basic " |
| BasicAuth.PasswordTruncated | server.js:93-99 | A company user with password "admin" is accepted, even with more text after a second colon |
| BasicAuth.NoColonRejected | server.js:93-97 | Decoded text without a colon has no password and is refused |
| BasicAuth.LookalikeDomainRejected | server.js:96 | A look-alike domain that only contains "@getcollate.io" is refused |
| Selection.Dispatch | public/app.js:476-491 | 0 selected ids → the error message, 1 → single download of that id, more → journey download of all ids in order |
| Selection.DownloadButton | public/app.js:425-445 | The download button is disabled exactly when nothing is selected |
| Selection.SelectAllLabel | public/app.js:448-457 | The label reads "Deselect All" exactly when every current result is selected |
| Selection.SelectionState.Toggle | public/app.js:387-394 | A checkbox change adds or deletes exactly that id, keeping the set free of duplicates |
| Selection.SelectionState.SelectAll | public/app.js:400-416 | Select-all deletes every box's id when all results were selected, and adds every box's id otherwise |
| Selection.SelectAllSelectsEveryBox | public/app.js:407-414 | After selecting all, the set holds exactly the earlier ids and every box |
| Selection.SelectAllClearsEveryBox | public/app.js:407-414 | After deselecting all, the set holds exactly the earlier ids that are not boxes |
| Selection.SelectAllTwice | public/app.js:400-416 | Pressing select-all twice from an empty selection ends empty |
| Selection.ToggleUndo | public/app.js:387-392 | Checking then unchecking a box restores the selection |
| JsSets.AddSpec | public/app.js:389 | After `add` the set holds exactly the old members and the value, with no duplicates |
| JsSets.RemoveSpec | public/app.js:391 | After `delete` the set holds exactly the old members other than the value |
| JsSets.DistinctSpec | src/services/fathomService.js:142 | `[...new Set(xs)]` has no duplicates, the same members as xs, and lists them in the order of their first occurrences in xs |
| JsSets.DistinctIdempotent | src/services/fathomService.js:142 | De-duplicating twice is the same as once |
| FathomService.ParticipantsOf | src/services/fathomService.js:158-163 | The participants, when computed, are as many as the invitees |
| FathomService.ParticipantOfSpec | src/services/fathomService.js:158-163 | A participant throws exactly for a null invitee or a non-string email; otherwise name and email are copied and isHost holds exactly when is_external is false |
| FathomService.ParticipantsOfSpec | src/services/fathomService.js:158-163 | The mapping throws exactly when some invitee is unreadable; otherwise participant k comes from invitee k |
| FathomService.ProcessMeetingDataSpec | src/services/fathomService.js:140-166 | Processing throws exactly for a null meeting, a truthy non-array invitee list or an unreadable invitee; otherwise participants keep the invitees' length, order, names, emails and host flags |
| FathomService.NoInvitees | src/services/fathomService.js:141 | An absent invitee list gives no participants and no domains |
| FathomService.DomainsSpec | src/services/fathomService.js:142 | Domains are distinct and non-empty, a text is a domain exactly when it is some participant's domain, and domains are listed in the order they first appear among the participants |
| FathomService.DomainsOrdered | src/services/fathomService.js:142 | Any participant with a later-listed domain has a participant with each earlier-listed domain before it |
| FathomService.DomainsMembers | src/services/fathomService.js:142 | The distinct domains of any participant list are distinct, non-empty, and exactly the participants' non-empty domains |
| FathomService.DomainsInOrder | src/services/fathomService.js:142 | The distinct domains of any participant list follow the order of their first appearance |
| FathomService.EmailDomainAfterAt | src/services/fathomService.js:161 | The domain of `local@domain` is domain |
| FathomService.EmailDomainUpToSecondAt | src/services/fathomService.js:161 | With two `@`, the domain is the segment between them |
| FathomService.EmailWithoutAt | src/services/fathomService.js:161 | An email without `@` has no domain |
| FathomService.FilterMeetings | src/services/fathomService.js:81-85 | Filtering never adds meetings |
| FathomService.FilterMeetingsSpec | src/services/fathomService.js:81-85 | The filtered list holds exactly the meetings that match |
| FathomService.SomeInviteeSpec | src/services/fathomService.js:82-84 | `some` over invitees is true exactly when one invitee matches |
| FathomService.SomeInviteeOutcome | src/services/fathomService.js:82-84 | Whenever `some` answers, true means some callback answered true and false means every callback answered false; it answers whenever no callback throws |
| FathomService.DomainInvitee | src/services/fathomService.js:82-84 | Whenever the domain callback answers, it answers whether the invitee email, lower-cased, ends with the lower-cased domain; it answers for any non-null invitee whose email is a text, `null` or absent, whatever its name |
| FathomService.DomainMatchSpec | src/services/fathomService.js:81-85 | Whenever the domain filter answers, it keeps a meeting exactly when some invitee email, lower-cased, ends with the lower-cased domain; it answers for a non-null meeting whose invitee list is absent, `null` or a list of such invitees |
| FathomService.CompanyInvitee | src/services/fathomService.js:119-122 | Whenever the company callback answers, it answers whether the invitee email or name contains the name, ignoring case; it answers for any non-null invitee whose email and name are texts, `null` or absent |
| FathomService.CompanyMatchSpec | src/services/fathomService.js:117-124 | Whenever the company filter answers, it keeps a meeting exactly when the title, or some invitee email or name, contains the name, ignoring case; it answers for a non-null meeting whose title is a text, `null` or absent and whose invitees are absent, `null` or such invitees |
| FathomService.SearchPage | src/services/fathomService.js:87-91 | The page's total is the number of filtered items and its cursor is the response's `next_cursor` |
| FathomService.ConcatValue | src/services/fathomService.js:204-205 | `concat` keeps the meetings collected so far as a prefix |
| FathomService.SyncAllMeetings | src/services/fathomService.js:171-227 | The loop returns the pages concatenated in fetch order, or the first thrown error |
| FathomService.SyncStep | src/services/fathomService.js:196-211 | One request: a throw is passed on, a null response throws, otherwise the page is appended and the loop goes on only with a truthy cursor and a page whose `length` is above zero: a non-empty array or text, or an object whose `length` property compares above zero |
| FathomService.SyncKeepsEarlierPages | src/services/fathomService.js:204-205 | Earlier pages stay a prefix of the result |
| FathomService.SyncStops | src/services/fathomService.js:210 | A falsy cursor or an empty page ends the sync after appending that page |
| FathomService.SyncAppendsNonArray | src/services/fathomService.js:204-210 | A truthy `items` value that is neither an array nor a text and has no positive `length` is appended as one element, as `concat` does, and ends the loop |
| FathomService.SyncFollowsObjectLength | src/services/fathomService.js:204-210 | An object `items` whose `length` property compares above zero is appended as one element and the loop goes on with the next cursor |
| JsValues.IntTextPositive | src/services/fathomService.js:210 | In the `> 0` comparison, the decimal text of an integer compares as the integer does |
| JsValues.DecimalValuePositive | src/services/fathomService.js:210 | A digit string spells a number above zero exactly when one of its digits is not `0` |
| FathomService.SyncFuelIrrelevant | src/services/fathomService.js:182-219 | The result does not depend on the termination bound once that bound suffices |
| FathomService.RequestCount | src/services/fathomService.js:184-188 | The request counter never exceeds 60 |
| FathomService.RequestCountCycles | src/services/fathomService.js:184-212 | After n requests the counter is (n - 1) mod 60 + 1: it returns to 0 once it reaches 60 |
| Sorting.SortBy | src/services/transcriptService.js:438 | The sort is a permutation of its input |
| Sorting.SortByAscending | src/services/transcriptService.js:438 | When every rank is present, the sort is ascending |
| Sorting.SortByAscendingIsIdentity | public/app.js:633 | Sorting an ascending sequence leaves it unchanged, so the sort is stable on sorted input |

## Left out

- Floating point: JSON numbers are integers (`JNum(int)`). Durations with fractions, `NaN`, and `Math.round` of non-integers are not modelled.
- Case mapping is ASCII only. Strings are sequences of characters, not UTF-16 code units.
- `String()` follows JavaScript: `null` and booleans by name, objects as `[object Object]`, arrays as their elements joined by commas with `null` elements empty. An object with its own `toString` or `valueOf` key is not modelled, in `String()` or in the `> 0` comparison.
- In the `> 0` comparison, a numeric text such as `1e-400`, which underflows to zero in floating point, counts as above zero.
- The sort comparators `parseInt(a) - parseInt(b)` and `new Date(a) - new Date(b)` are a stable insertion sort by an optional integer rank. A missing rank (`NaN`) is never "before" anything; the engine's own order for `NaN` comparisons is not modelled.
- Duplicate keys in a decoded JSON object are not modelled; `Lookup` takes the first.
- SQL is not modelled: the queries' filtering, `ORDER BY` tie order, `ILIKE`, `STRING_AGG` and `GROUP_CONCAT` results are inputs. The duration fix's table is a sequence of rows.
- HTTP, Express middleware, the DOM, `Blob` downloads, timers, the `setTimeout` sleeps of `syncAllMeetings` and console logging are left out.
- The auto-sync interval with its running flag, and `updateDashboardMetrics`, are left out because they depend on clocks and concurrency.
- `JSON.parse`, base64 decoding, record lookup and the Fathom fetch are function parameters. Dates arrive as formatted strings or epoch milliseconds.
- The request parameters `include_transcript` and `options.filters` are not modelled: `fetch` receives only the cursor.
- The `'Authentication error'` branch of `basicAuth` (server.js:105-107) is not modelled. Decoding is a total function here, and nothing else in the decision throws.
- `FathomService.SyncAllMeetings` carries a ghost termination bound `fuel`. A fetch sequence that never ends is outside what it states.
- `processMeetingData` stores `duration` verbatim: the code parses no transcript timestamps and resolves no duration from several sources, so the model has neither.
- The transcript normalizer exists twice, in the browser and in the server, with different fallbacks and error sentences, and either can throw; the `Divergence` module states each difference.
- FathomService.DomainMatchSpec: the condition under which the filter answers is sufficient, not exact; inputs such as a non-text email after a matching invitee, which `some` never reads, also answer, through `SomeInviteeOutcome`.
- FathomService.CompanyMatchSpec: the same holds for the company filter, where a matching email also leaves the name unread.
- DurationFix.Logged: states only the number of log texts. Each text's form is stated through `Durations.FormatHm` and `Durations.FormatHmHours`.
