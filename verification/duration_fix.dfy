/**
 * The duration repair of src/routes/sync.js (`POST /fix-durations`) and of
 * the stand-alone fix-durations.js: meetings stored without a duration but
 * with both a start and an end time get `floor((end - start) / 1000)`
 * seconds written, when that is positive, and each write is counted and
 * logged in hours-and-minutes form.
 *
 * The meetings table is a sequence of rows updated in place; the candidate
 * query is the function `Candidates`. Times are epoch milliseconds.
 */
module DurationFix {
  import opened Common
  import opened JsStrings
  import opened TranscriptCascade
  import opened Durations
  import Sorting

  datatype MeetingRow = MeetingRow(
    id: int,
    title: Option<string>,
    startMs: Option<int>,
    endMs: Option<int>,
    duration: Option<int>)

  type Positive = n: int | n > 0 witness 1

  /** `UPDATE meetings SET duration = seconds WHERE id = id`. */
  datatype Write = Write(id: int, seconds: Positive)

  /** `WHERE duration IS NULL AND start_time IS NOT NULL AND end_time IS NOT NULL`. */
  predicate NeedsFix(m: MeetingRow) {
    m.duration.None? && m.startMs.Some? && m.endMs.Some?
  }

  function AsCandidate(m: MeetingRow): Option<MeetingRow> {
    if NeedsFix(m) then Some(m) else None
  }

  /** `ORDER BY start_time DESC` as an ascending rank. */
  function NewestFirst(m: MeetingRow): Option<int> {
    if m.startMs.Some? then Some(-m.startMs.value) else None
  }

  function Take<T>(s: seq<T>, limit: Option<nat>): (r: seq<T>)
    ensures limit.Some? ==> |r| <= limit.value
    ensures |r| <= |s| && r == s[..|r|]
  {
    if limit.Some? && |s| > limit.value then s[..limit.value] else s
  }

  /** The candidate query: the route has no limit, the script `LIMIT 20`. */
  function Candidates(rows: seq<MeetingRow>, limit: Option<nat>): seq<MeetingRow> {
    Take(Sorting.SortBy(FilterMap(rows, AsCandidate), NewestFirst), limit)
  }

  const ScriptLimit: nat := 20

  /**
   * `Math.floor((end - start) / 1000)`: Dafny's division by a positive
   * divisor rounds toward negative infinity, as `Math.floor` does.
   */
  function Delta(m: MeetingRow): int
    requires m.startMs.Some? && m.endMs.Some?
  {
    (m.endMs.value - m.startMs.value) / 1000
  }

  /** The write a meeting causes: only for a strictly positive duration. */
  function WriteFor(m: MeetingRow): Option<Write> {
    if m.startMs.Some? && m.endMs.Some? && Delta(m) > 0 then Some(Write(m.id, Delta(m))) else None
  }

  function Writes(meetings: seq<MeetingRow>): seq<Write> {
    FilterMap(meetings, WriteFor)
  }

  function WithDuration(rows: seq<MeetingRow>, id: int, seconds: int): (r: seq<MeetingRow>)
    ensures |r| == |rows|
  {
    seq(|rows|, k requires 0 <= k < |rows| => if rows[k].id == id then rows[k].(duration := Some(seconds)) else rows[k])
  }

  /** The table after the writes, performed in order. */
  function ApplyWrites(rows: seq<MeetingRow>, ws: seq<Write>): (r: seq<MeetingRow>)
    ensures |r| == |rows|
    decreases |ws|
  {
    if |ws| == 0 then rows
    else
      var w := ws[|ws| - 1];
      WithDuration(ApplyWrites(rows, ws[..|ws| - 1]), w.id, w.seconds)
  }

  /** The hours-and-minutes text logged for each write. */
  function Logged(ws: seq<Write>): (r: seq<string>)
    ensures |r| == |ws|
  {
    seq(|ws|, k requires 0 <= k < |ws| => FormatHm(ws[k].seconds))
  }

  const NoFixesText: string := "No meetings need duration fixes"

  /** The route's `message`. */
  function FixMessage(found: nat, updated: nat): string {
    if found == 0 then NoFixesText
    else "Successfully updated " + NatToString(updated) + " meetings with calculated durations"
  }

  lemma ApplyWritesSnoc(rows: seq<MeetingRow>, ws: seq<Write>, w: Write)
    ensures ApplyWrites(rows, ws + [w]) == WithDuration(ApplyWrites(rows, ws), w.id, w.seconds)
  {
    assert (ws + [w])[..|ws|] == ws;
  }

  lemma LoggedSnoc(ws: seq<Write>, w: Write)
    ensures Logged(ws + [w]) == Logged(ws) + [FormatHm(w.seconds)]
  {
  }

  /** One turn of the update loop: the meeting adds its write, if any, to the batch so far. */
  lemma UpdateStep(meetings: seq<MeetingRow>, i: nat)
    requires i < |meetings|
    ensures Writes(meetings[..i + 1]) == Writes(meetings[..i]) + OptSeq(WriteFor(meetings[i]))
  {
    TakeSnoc(meetings, i);
    FilterMapSnoc(meetings[..i], meetings[i], WriteFor);
  }

  /** A meeting without a write leaves the table, the count and the log as they were. */
  lemma SkipStep(rows0: seq<MeetingRow>, meetings: seq<MeetingRow>, i: nat, rows: seq<MeetingRow>)
    requires i < |meetings| && WriteFor(meetings[i]).None?
    requires rows == ApplyWrites(rows0, Writes(meetings[..i]))
    ensures rows == ApplyWrites(rows0, Writes(meetings[..i + 1]))
    ensures |Writes(meetings[..i + 1])| == |Writes(meetings[..i])|
    ensures Logged(Writes(meetings[..i + 1])) == Logged(Writes(meetings[..i]))
  {
    UpdateStep(meetings, i);
    assert Writes(meetings[..i + 1]) == Writes(meetings[..i]);
  }

  /** A meeting with a write adds it to the table, the count and the log. */
  lemma WriteStep(rows0: seq<MeetingRow>, meetings: seq<MeetingRow>, i: nat, rows: seq<MeetingRow>, seconds: Positive)
    requires i < |meetings| && WriteFor(meetings[i]) == Some(Write(meetings[i].id, seconds))
    requires rows == ApplyWrites(rows0, Writes(meetings[..i]))
    ensures WithDuration(rows, meetings[i].id, seconds) == ApplyWrites(rows0, Writes(meetings[..i + 1]))
    ensures |Writes(meetings[..i + 1])| == |Writes(meetings[..i])| + 1
    ensures Logged(Writes(meetings[..i + 1])) == Logged(Writes(meetings[..i])) + [FormatHm(seconds)]
  {
    UpdateStep(meetings, i);
    var w := Write(meetings[i].id, seconds);
    assert Writes(meetings[..i + 1]) == Writes(meetings[..i]) + [w];
    ApplyWritesSnoc(rows0, Writes(meetings[..i]), w);
    LoggedSnoc(Writes(meetings[..i]), w);
  }

  class MeetingStore {
    var rows: seq<MeetingRow>

    constructor(initial: seq<MeetingRow>)
      ensures rows == initial
    {
      rows := initial;
    }

    /** `db.query('UPDATE meetings SET duration = $1 WHERE id = $2', ...)`. */
    method SetDuration(id: int, seconds: int)
      modifies this
      ensures rows == WithDuration(old(rows), id, seconds)
    {
      rows := WithDuration(rows, id, seconds);
    }

    /** The `for (const meeting of meetings)` loop both versions share. */
    method UpdateDurations(meetings: seq<MeetingRow>) returns (updated: nat, logged: seq<string>)
      modifies this
      ensures rows == ApplyWrites(old(rows), Writes(meetings))
      ensures updated == |Writes(meetings)|
      ensures logged == Logged(Writes(meetings))
    {
      ghost var rows0 := rows;
      updated := 0;
      logged := [];
      var i := 0;
      while i < |meetings|
        invariant 0 <= i <= |meetings|
        invariant rows == ApplyWrites(rows0, Writes(meetings[..i]))
        invariant updated == |Writes(meetings[..i])|
        invariant logged == Logged(Writes(meetings[..i]))
      {
        var meeting := meetings[i];
        var wrote := false;
        if meeting.startMs.Some? && meeting.endMs.Some? {
          var durationSeconds := (meeting.endMs.value - meeting.startMs.value) / 1000;
          if durationSeconds > 0 {
            WriteStep(rows0, meetings, i, rows, durationSeconds);
            SetDuration(meeting.id, durationSeconds);
            updated := updated + 1;
            logged := logged + [FormatHm(durationSeconds)];
            wrote := true;
          }
        }
        if !wrote {
          SkipStep(rows0, meetings, i, rows);
        }
        i := i + 1;
      }
      assert meetings[..i] == meetings;
    }

    /** The `/fix-durations` handler: the route's message and `data.updated`. */
    method FixDurationsRoute() returns (message: string, updated: nat)
      modifies this
      ensures rows == ApplyWrites(old(rows), Writes(Candidates(old(rows), None)))
      ensures updated == |Writes(Candidates(old(rows), None))|
      ensures message == FixMessage(|Candidates(old(rows), None)|, updated)
    {
      var meetings := Candidates(rows, None);
      if |meetings| == 0 {
        assert Writes(meetings) == [];
        return NoFixesText, 0;
      }
      var logged;
      updated, logged := UpdateDurations(meetings);
      message := "Successfully updated " + NatToString(updated) + " meetings with calculated durations";
    }

    /** fix-durations.js: at most 20 meetings, newest first; returns the count and the logged texts. */
    method FixDurationsScript() returns (updated: nat, logged: seq<string>)
      modifies this
      ensures rows == ApplyWrites(old(rows), Writes(Candidates(old(rows), Some(ScriptLimit))))
      ensures updated == |Writes(Candidates(old(rows), Some(ScriptLimit)))|
      ensures logged == Logged(Writes(Candidates(old(rows), Some(ScriptLimit))))
    {
      var meetings := Candidates(rows, Some(ScriptLimit));
      if |meetings| == 0 {
        assert Writes(meetings) == [];
        return 0, [];
      }
      updated, logged := UpdateDurations(meetings);
    }
  }

  // ---------------------------------------------------------------------------
  // What the repair promises
  // ---------------------------------------------------------------------------

  /** Candidates need a fix, come from the table, and the script takes at most 20. */
  lemma CandidatesNeedFix(rows: seq<MeetingRow>, limit: Option<nat>)
    ensures limit.Some? ==> |Candidates(rows, limit)| <= limit.value
    ensures forall c :: c in Candidates(rows, limit) ==> NeedsFix(c) && c in rows
  {
    var found := FilterMap(rows, AsCandidate);
    var sorted := Sorting.SortBy(found, NewestFirst);
    forall c | c in Candidates(rows, limit) ensures NeedsFix(c) && c in rows {
      assert c in sorted;
      assert c in multiset(found);
      var k :| 0 <= k < |found| && found[k] == c;
      FilterMapFrom(rows, AsCandidate, k);
    }
  }

  /** The number of meetings with a strictly positive computed duration. */
  function PositiveCount(meetings: seq<MeetingRow>): nat
    decreases |meetings|
  {
    if |meetings| == 0 then 0
    else
      var m := meetings[|meetings| - 1];
      PositiveCount(meetings[..|meetings| - 1]) + (if m.startMs.Some? && m.endMs.Some? && Delta(m) > 0 then 1 else 0)
  }

  /** `updated` counts exactly the meetings with a positive duration, and each write carries that duration. */
  lemma {:induction false} WritesCount(meetings: seq<MeetingRow>)
    ensures |Writes(meetings)| == PositiveCount(meetings)
    decreases |meetings|
  {
    if |meetings| > 0 {
      var init := meetings[..|meetings| - 1];
      WritesCount(init);
      assert init + [meetings[|meetings| - 1]] == meetings;
      FilterMapSnoc(init, meetings[|meetings| - 1], WriteFor);
    }
  }

  /** Each write names a meeting of the batch and carries its positive computed duration. */
  lemma WritesFromMeetings(meetings: seq<MeetingRow>, j: nat)
    requires j < |Writes(meetings)|
    ensures exists i :: 0 <= i < |meetings| && meetings[i].startMs.Some? && meetings[i].endMs.Some? &&
                        Delta(meetings[i]) > 0 && Writes(meetings)[j] == Write(meetings[i].id, Delta(meetings[i]))
  {
    FilterMapFrom(meetings, WriteFor, j);
  }

  /** A row no write names is left exactly as it was. */
  lemma {:induction false} ApplyWritesUntouched(rows: seq<MeetingRow>, ws: seq<Write>, k: nat)
    requires k < |rows|
    requires forall j :: 0 <= j < |ws| ==> ws[j].id != rows[k].id
    ensures ApplyWrites(rows, ws)[k] == rows[k]
    decreases |ws|
  {
    if |ws| > 0 {
      ApplyWritesUntouched(rows, ws[..|ws| - 1], k);
    }
  }

  /** A row some write names keeps every field but its duration, which becomes positive. */
  lemma {:induction false} ApplyWritesTouched(rows: seq<MeetingRow>, ws: seq<Write>, k: nat)
    requires k < |rows|
    requires exists j :: 0 <= j < |ws| && ws[j].id == rows[k].id
    ensures ApplyWrites(rows, ws)[k].duration.Some? && ApplyWrites(rows, ws)[k].duration.value > 0
    ensures ApplyWrites(rows, ws)[k].(duration := rows[k].duration) == rows[k]
    decreases |ws|
  {
    var init := ws[..|ws| - 1];
    var w := ws[|ws| - 1];
    if w.id != rows[k].id {
      var j :| 0 <= j < |ws| && ws[j].id == rows[k].id;
      assert init[j] == ws[j];
      ApplyWritesTouched(rows, init, k);
    } else if exists j :: 0 <= j < |init| && init[j].id == rows[k].id {
      ApplyWritesTouched(rows, init, k);
    } else {
      ApplyWritesUntouched(rows, init, k);
    }
  }

  /** After the route has run, running it again writes nothing. */
  lemma SecondRunWritesNothing(rows: seq<MeetingRow>)
    ensures var after := ApplyWrites(rows, Writes(Candidates(rows, None)));
      Writes(Candidates(after, None)) == []
  {
    var ws := Writes(Candidates(rows, None));
    var after := ApplyWrites(rows, ws);
    var again := Candidates(after, None);
    forall i | 0 <= i < |again| ensures WriteFor(again[i]).None? {
      CandidatesNeedFix(after, None);
      assert again[i] in again;
      var k :| 0 <= k < |after| && after[k] == again[i];
      if exists j :: 0 <= j < |ws| && ws[j].id == rows[k].id {
        ApplyWritesTouched(rows, ws, k);
        assert false;
      } else {
        ApplyWritesUntouched(rows, ws, k);
        FirstRunMissed(rows, k);
      }
    }
    FilterMapEmpty(again, WriteFor);
  }

  /** A row that needs a fix and has a positive delta is written by the route. */
  lemma CandidateWritten(rows: seq<MeetingRow>, k: nat)
    requires k < |rows| && NeedsFix(rows[k])
    ensures WriteFor(rows[k]).Some? ==> WriteFor(rows[k]).value in Writes(Candidates(rows, None))
  {
    FilterMapHas(rows, AsCandidate, k);
    var cands := Candidates(rows, None);
    assert rows[k] in multiset(cands);
    var m :| 0 <= m < |cands| && cands[m] == rows[k];
    if WriteFor(rows[k]).Some? {
      FilterMapHas(cands, WriteFor, m);
    }
  }

  /** A row that needed a fix and that no write of the route named has no positive duration. */
  lemma FirstRunMissed(rows: seq<MeetingRow>, k: nat)
    requires k < |rows| && NeedsFix(rows[k])
    requires forall j :: 0 <= j < |Writes(Candidates(rows, None))| ==> Writes(Candidates(rows, None))[j].id != rows[k].id
    ensures WriteFor(rows[k]).None?
  {
    CandidateWritten(rows, k);
  }
}
