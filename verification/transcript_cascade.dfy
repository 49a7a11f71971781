/**
 * The building blocks both transcript formatters are made of: the
 * malformed-string recovery (trim, strip one pair of braces, split on `","`,
 * strip one quote at each end, undo five escapes in a fixed order, parse each
 * fragment and drop the failures), the ordered walk over an object keyed by
 * numeric strings, the `"field":"value"` regular-expression fallback and the
 * rendering of entries joined by blank lines. The browser copy
 * (public/app.js) and the server copy (src/services/transcriptService.js)
 * differ only in what they plug into these blocks.
 */
module TranscriptCascade {
  import opened Common
  import opened JsStrings
  import opened JsValues
  import Sorting

  // ---------------------------------------------------------------------------
  // Filter-map: keep the successes of a per-item step, in order
  // ---------------------------------------------------------------------------

  /** Apply `f` to every item and keep the values it produces, in item order. */
  function FilterMap<A, B>(xs: seq<A>, f: A -> Option<B>): (r: seq<B>)
    ensures |r| <= |xs|
    decreases |xs|
  {
    if |xs| == 0 then []
    else
      var init := FilterMap(xs[..|xs| - 1], f);
      match f(xs[|xs| - 1])
      case None => init
      case Some(y) => init + [y]
  }

  /** Filter-map distributes over concatenation: each item is handled on its own. */
  lemma {:induction false} FilterMapAppend<A, B>(xs: seq<A>, ys: seq<A>, f: A -> Option<B>)
    ensures FilterMap(xs + ys, f) == FilterMap(xs, f) + FilterMap(ys, f)
    decreases |ys|
  {
    if |ys| > 0 {
      var ys' := ys[..|ys| - 1];
      assert (xs + ys)[..|xs + ys| - 1] == xs + ys';
      assert (xs + ys)[|xs + ys| - 1] == ys[|ys| - 1];
      FilterMapAppend(xs, ys', f);
    } else {
      assert xs + ys == xs;
    }
  }

  /** An item whose step fails is dropped without disturbing the items around it. */
  lemma FilterMapDrops<A, B>(xs: seq<A>, x: A, ys: seq<A>, f: A -> Option<B>)
    requires f(x).None?
    ensures FilterMap(xs + [x] + ys, f) == FilterMap(xs, f) + FilterMap(ys, f)
  {
    FilterMapAppend(xs + [x], ys, f);
    assert (xs + [x])[..|xs + [x]| - 1] == xs;
  }

  /** An item whose step succeeds contributes exactly its value, in its place. */
  lemma FilterMapKeeps<A, B>(xs: seq<A>, x: A, ys: seq<A>, f: A -> Option<B>)
    requires f(x).Some?
    ensures FilterMap(xs + [x] + ys, f) == FilterMap(xs, f) + [f(x).value] + FilterMap(ys, f)
  {
    FilterMapAppend(xs + [x], ys, f);
    assert (xs + [x])[..|xs + [x]| - 1] == xs;
  }

  /** The value kept for item `k` comes right after the values kept for the items before it. */
  lemma FilterMapAt<A, B>(xs: seq<A>, f: A -> Option<B>, k: nat)
    requires k < |xs| && f(xs[k]).Some?
    ensures var pre := FilterMap(xs[..k], f);
      |pre| < |FilterMap(xs, f)| && FilterMap(xs, f)[|pre|] == f(xs[k]).value && FilterMap(xs, f)[..|pre|] == pre
  {
    assert xs == xs[..k] + [xs[k]] + xs[k + 1..];
    FilterMapKeeps(xs[..k], xs[k], xs[k + 1..], f);
  }

  /** A value kept from the items before `k` comes from one of them. */
  lemma FilterMapFromPrefix<A, B>(xs: seq<A>, f: A -> Option<B>, k: nat, v: B)
    requires k <= |xs| && v in FilterMap(xs[..k], f)
    ensures exists i :: 0 <= i < k && f(xs[i]) == Some(v)
  {
    var pre := FilterMap(xs[..k], f);
    var r :| 0 <= r < |pre| && pre[r] == v;
    FilterMapFrom(xs[..k], f, r);
    var i :| 0 <= i < k && f(xs[..k][i]) == Some(v);
    assert xs[i] == xs[..k][i];
  }

  /** Every value kept comes from some item's step. */
  lemma {:induction false} FilterMapFrom<A, B>(xs: seq<A>, f: A -> Option<B>, k: nat)
    requires k < |FilterMap(xs, f)|
    ensures exists i :: 0 <= i < |xs| && f(xs[i]) == Some(FilterMap(xs, f)[k])
    decreases |xs|
  {
    var init := xs[..|xs| - 1];
    var last := xs[|xs| - 1];
    if k < |FilterMap(init, f)| {
      FilterMapFrom(init, f, k);
      var i :| 0 <= i < |init| && f(init[i]) == Some(FilterMap(init, f)[k]);
      assert xs[i] == init[i];
    } else {
      assert f(xs[|xs| - 1]) == Some(FilterMap(xs, f)[k]);
    }
  }

  /** Every item whose step succeeds has its value kept. */
  lemma FilterMapHas<A, B>(xs: seq<A>, f: A -> Option<B>, i: nat)
    requires i < |xs| && f(xs[i]).Some?
    ensures f(xs[i]).value in FilterMap(xs, f)
  {
    assert xs == xs[..i] + [xs[i]] + xs[i + 1..];
    FilterMapKeeps(xs[..i], xs[i], xs[i + 1..], f);
  }

  /** The values a single optional step contributes: none or one. */
  function OptSeq<B>(o: Option<B>): (r: seq<B>)
    ensures |r| <= 1
  {
    match o
    case None => []
    case Some(y) => [y]
  }

  /** Handling one more item appends what its step produces. */
  lemma FilterMapSnoc<A, B>(xs: seq<A>, x: A, f: A -> Option<B>)
    ensures FilterMap(xs + [x], f) == FilterMap(xs, f) + OptSeq(f(x))
  {
    assert (xs + [x])[..|xs + [x]| - 1] == xs;
  }

  /** Nothing is kept exactly when every step fails. */
  lemma {:induction false} FilterMapEmpty<A, B>(xs: seq<A>, f: A -> Option<B>)
    ensures FilterMap(xs, f) == [] <==> forall i :: 0 <= i < |xs| ==> f(xs[i]).None?
    decreases |xs|
  {
    if |xs| > 0 {
      var init := xs[..|xs| - 1];
      FilterMapEmpty(init, f);
      if f(xs[|xs| - 1]).None? {
        assert forall i :: 0 <= i < |init| ==> init[i] == xs[i];
      }
    }
  }

  // ---------------------------------------------------------------------------
  // Malformed-string recovery
  // ---------------------------------------------------------------------------

  /** The three-character separator between entries: `","`. */
  const EntrySeparator: string := "\",\""

  /** Remove one outer `{`...`}` pair, only when the string both starts with `{` and ends with `}`. */
  function StripOuterBraces(s: string): string {
    if StartsWith(s, "{") && EndsWith(s, "}") then Substring(s, 1, |s| - 1) else s
  }

  /** Remove at most one leading and then at most one trailing double quote. */
  function StripQuotes(f: string): string {
    var a := if StartsWith(f, "\"") then Substring(f, 1, |f|) else f;
    if EndsWith(a, "\"") then Substring(a, 0, |a| - 1) else a
  }

  /**
   * The escapes undone, in the order they are undone: a backslash followed by
   * the first character becomes the second character (`\"`, `\\`, `\n`, `\r`, `\t`).
   */
  const Escapes: seq<(char, char)> := [('"', '"'), ('\\', '\\'), ('n', '\n'), ('r', '\r'), ('t', '\t')]

  /** Each escape of `escapes` undone over the whole string, one after the other. */
  function ReplaceEach(s: string, escapes: seq<(char, char)>): string
    decreases |escapes|
  {
    if |escapes| == 0 then s
    else ReplaceEach(ReplaceAll(s, ['\\', escapes[0].0], [escapes[0].1]), escapes[1..])
  }

  /** Undo the escapes of `Escapes`, each over the whole string, in order. */
  function Unescape(f: string): string {
    ReplaceEach(f, Escapes)
  }

  /** The fragments the malformed string is cut into. */
  function Fragments(raw: string): (r: seq<string>)
    ensures |r| >= 1
  {
    Split(StripOuterBraces(Trim(raw)), EntrySeparator)
  }

  /** The text handed to the parser for one fragment. */
  function CleanFragment(f: string): string {
    Unescape(StripQuotes(f))
  }

  /** Every fragment cleaned, in fragment order. */
  function CleanAll(frags: seq<string>): (r: seq<string>)
    ensures |r| == |frags|
    decreases |frags|
  {
    if |frags| == 0 then [] else CleanAll(frags[..|frags| - 1]) + [CleanFragment(frags[|frags| - 1])]
  }

  lemma {:induction false} CleanAllAppend(xs: seq<string>, ys: seq<string>)
    ensures CleanAll(xs + ys) == CleanAll(xs) + CleanAll(ys)
    decreases |ys|
  {
    if |ys| == 0 {
      assert xs + ys == xs;
    } else {
      var ys' := ys[..|ys| - 1];
      assert (xs + ys)[..|xs + ys| - 1] == xs + ys';
      assert (xs + ys)[|xs + ys| - 1] == ys[|ys| - 1];
      CleanAllAppend(xs, ys');
    }
  }

  /** Fragment `i` cleaned is entry `i` of the cleaned fragments. */
  lemma {:induction false} CleanAllAt(frags: seq<string>, i: nat)
    requires i < |frags|
    ensures CleanAll(frags)[i] == CleanFragment(frags[i])
    decreases |frags|
  {
    if i < |frags| - 1 {
      CleanAllAt(frags[..|frags| - 1], i);
    }
  }

  /** The entries recovered from the fragments: the ones that parse once cleaned, in fragment order. */
  function Survivors(frags: seq<string>, parse: string -> Option<Json>): seq<Json> {
    FilterMap(CleanAll(frags), parse)
  }

  /** When no cleaned fragment parses, nothing survives. */
  lemma SurvivorsNone(frags: seq<string>, parse: string -> Option<Json>)
    requires forall k :: 0 <= k < |frags| ==> parse(CleanFragment(frags[k])).None?
    ensures Survivors(frags, parse) == []
  {
    var cleaned := CleanAll(frags);
    forall k | 0 <= k < |cleaned| ensures parse(cleaned[k]).None? {
      CleanAllAt(frags, k);
    }
    FilterMapEmpty(cleaned, parse);
  }

  /** Recovery drops exactly the fragments that fail to parse and keeps the rest in order. */
  lemma SurvivorsDropFailure(xs: seq<string>, f: string, ys: seq<string>, parse: string -> Option<Json>)
    requires parse(CleanFragment(f)).None?
    ensures Survivors(xs + [f] + ys, parse) == Survivors(xs, parse) + Survivors(ys, parse)
  {
    CleanAllAppend(xs + [f], ys);
    CleanAllAppend(xs, [f]);
    assert CleanAll([f]) == [CleanFragment(f)];
    FilterMapDrops(CleanAll(xs), CleanFragment(f), CleanAll(ys), parse);
  }

  lemma SurvivorsKeepSuccess(xs: seq<string>, f: string, ys: seq<string>, parse: string -> Option<Json>)
    requires parse(CleanFragment(f)).Some?
    ensures Survivors(xs + [f] + ys, parse)
         == Survivors(xs, parse) + [parse(CleanFragment(f)).value] + Survivors(ys, parse)
  {
    CleanAllAppend(xs + [f], ys);
    CleanAllAppend(xs, [f]);
    assert CleanAll([f]) == [CleanFragment(f)];
    FilterMapKeeps(CleanAll(xs), CleanFragment(f), CleanAll(ys), parse);
  }

  /** A wrapped string loses exactly its outer braces. */
  lemma StripOuterBracesWrapped(x: string)
    ensures StripOuterBraces("{" + x + "}") == x
  {
    var s := "{" + x + "}";
    assert StartsWith(s, "{") && EndsWith(s, "}");
    assert s[1..|s| - 1] == x;
  }

  /** Without a `{` at the start and a `}` at the end nothing is removed. */
  lemma StripOuterBracesUnwrapped(s: string)
    requires !StartsWith(s, "{") || !EndsWith(s, "}")
    ensures StripOuterBraces(s) == s
  {
  }

  /** One quote is removed at each end, whatever follows it: `""x""` becomes `"x"`. */
  lemma StripQuotesOneLayer(x: string)
    ensures StripQuotes("\"" + x + "\"") == x
  {
    var f := "\"" + x + "\"";
    assert StartsWith(f, "\"");
    var a := Substring(f, 1, |f|);
    assert a == x + "\"";
    assert EndsWith(a, "\"");
    assert Substring(a, 0, |a| - 1) == x;
  }

  /** A pattern that never occurs is never replaced. */
  lemma {:induction false} ReplaceAllAbsentAt(s: string, p: string, r: string)
    requires |p| > 0 && forall j: nat :: !OccursAt(s, p, j)
    ensures ReplaceAll(s, p, r) == s
    decreases |s|
  {
    if |s| > 0 {
      assert !OccursAt(s, p, 0);
      forall j: nat ensures !OccursAt(s[1..], p, j) {
        assert !OccursAt(s, p, j + 1);
        if j + |p| <= |s[1..]| {
          assert s[1..][j..j + |p|] == s[j + 1..j + 1 + |p|];
        }
      }
      ReplaceAllAbsentAt(s[1..], p, r);
      assert s == [s[0]] + s[1..];
    }
  }

  /** In particular, a string without the pattern's first character is left alone. */
  lemma ReplaceAllAbsent(s: string, p: string, r: string)
    requires |p| > 0 && NoChar(s, p[0])
    ensures ReplaceAll(s, p, r) == s
  {
    forall j: nat ensures !OccursAt(s, p, j) {
      if j + |p| <= |s| { assert s[j..j + |p|][0] == s[j]; }
    }
    ReplaceAllAbsentAt(s, p, r);
  }

  /** Replacements whose patterns start with a backslash leave a string without backslashes alone. */
  lemma {:induction false} ReplaceEachWithoutBackslash(s: string, escapes: seq<(char, char)>)
    requires NoChar(s, '\\')
    ensures ReplaceEach(s, escapes) == s
    decreases |escapes|
  {
    if |escapes| > 0 {
      ReplaceAllAbsent(s, ['\\', escapes[0].0], [escapes[0].1]);
      ReplaceEachWithoutBackslash(s, escapes[1..]);
    }
  }

  /** A fragment without backslashes is handed to the parser unchanged by the unescaping. */
  lemma UnescapeWithoutBackslash(f: string)
    requires NoChar(f, '\\')
    ensures Unescape(f) == f
  {
    ReplaceEachWithoutBackslash(f, Escapes);
  }

  /** Replacing a pattern that occurs once, at the start, of a three-character string. */
  lemma ReplaceAtStart(a: char, b: char, c: char, r: string)
    ensures ReplaceAll([a, b, c], [a, b], r) == r + [c]
  {
    var s := [a, b, c];
    assert s[..2] == [a, b] && s[2..] == [c];
    assert ReplaceAll([c], [a, b], r) == [c] + ReplaceAll([], [a, b], r);
  }

  /** Replacing a two-character string that is the whole pattern. */
  lemma ReplaceWhole(a: char, b: char, r: string)
    ensures ReplaceAll([a, b], [a, b], r) == r
  {
    var s := [a, b];
    assert s[..2] == s && s[2..] == [];
  }

  /**
   * The order of the replacements is observable: an escaped backslash followed
   * by `n` first becomes `\n` and then a newline, so it is unescaped twice.
   */
  lemma UnescapeOrderDoubleDecodes()
    ensures Unescape("\\\\n") == "\n"
  {
    var f := "\\\\n";
    forall j: nat ensures !OccursAt(f, "\\\"", j) {
      if j + 2 <= |f| { assert f[j + 1] != '"'; }
    }
    ReplaceAllAbsentAt(f, "\\\"", "\"");
    ReplaceAtStart('\\', '\\', 'n', "\\");
    var s2 := "\\n";
    ReplaceWhole('\\', 'n', "\n");
    var s3 := "\n";
    assert NoChar(s3, '\\');
    ReplaceEachWithoutBackslash(s3, Escapes[3..]);
    assert Escapes[1..][1..] == Escapes[2..] && Escapes[2..][1..] == Escapes[3..];
    assert ReplaceEach(f, Escapes) == ReplaceEach(f, Escapes[1..]);
    assert ReplaceAll(f, ['\\', Escapes[1].0], [Escapes[1].1]) == s2;
    assert ReplaceEach(f, Escapes[1..]) == ReplaceEach(s2, Escapes[2..]);
    assert ReplaceAll(s2, ['\\', Escapes[2].0], [Escapes[2].1]) == s3;
    assert ReplaceEach(s2, Escapes[2..]) == ReplaceEach(s3, Escapes[3..]);
  }

  // ---------------------------------------------------------------------------
  // Objects keyed by numeric strings
  // ---------------------------------------------------------------------------

  /** The comparator's view of a key: `parseInt(key)`, `None` for NaN. */
  function KeyRank(field: (string, Json)): Option<int> {
    ParseInt(field.0)
  }

  /** The object's properties in the order `keys.sort((a, b) => parseInt(a) - parseInt(b))` visits them. */
  function KeyOrder(fields: seq<(string, Json)>): (r: seq<(string, Json)>)
    ensures multiset(r) == multiset(fields)
  {
    Sorting.SortBy(fields, KeyRank)
  }

  /** The entries `pick` takes from the values of `keys`, in the order given. */
  function Collected(keys: seq<(string, Json)>, pick: Json -> Option<Json>): seq<Json> {
    FilterMap(keys, (p: (string, Json)) => pick(p.1))
  }

  /** Every value `pick` accepts is among the collected entries. */
  lemma CollectedHas(keys: seq<(string, Json)>, pick: Json -> Option<Json>, j: nat)
    requires j < |keys| && pick(keys[j].1).Some?
    ensures pick(keys[j].1).value in Collected(keys, pick)
  {
    FilterMapAt(keys, (p: (string, Json)) => pick(p.1), j);
  }

  lemma CollectedSnoc(keys: seq<(string, Json)>, p: (string, Json), pick: Json -> Option<Json>)
    ensures Collected(keys + [p], pick) == Collected(keys, pick) + OptSeq(pick(p.1))
  {
    FilterMapSnoc(keys, p, (q: (string, Json)) => pick(q.1));
  }

  /** The values of `keys`, in order. */
  function Values(keys: seq<(string, Json)>): (r: seq<Json>)
    ensures |r| == |keys| && forall k :: 0 <= k < |keys| ==> r[k] == keys[k].1
  {
    seq(|keys|, k requires 0 <= k < |keys| => keys[k].1)
  }

  /** When `pick` keeps every value, there is one entry per key, in key order. */
  lemma {:induction false} CollectedAllSome(keys: seq<(string, Json)>, pick: Json -> Option<Json>)
    requires forall k :: 0 <= k < |keys| ==> pick(keys[k].1).Some?
    ensures |Collected(keys, pick)| == |keys|
    ensures forall k :: 0 <= k < |keys| ==> Collected(keys, pick)[k] == pick(keys[k].1).value
    decreases |keys|
  {
    if |keys| > 0 {
      var init := keys[..|keys| - 1];
      var last := keys[|keys| - 1];
      assert forall k :: 0 <= k < |init| ==> init[k] == keys[k];
      CollectedAllSome(init, pick);
      assert keys == init + [last];
      CollectedSnoc(init, last, pick);
    }
  }

  /** When `pick` keeps every value as it is, the entries are the values. */
  lemma CollectedAll(keys: seq<(string, Json)>, pick: Json -> Option<Json>)
    requires forall k :: 0 <= k < |keys| ==> pick(keys[k].1) == Some(keys[k].1)
    ensures Collected(keys, pick) == Values(keys)
  {
    CollectedAllSome(keys, pick);
  }

  /** When `pick` keeps no value, there are no entries. */
  lemma CollectedNone(keys: seq<(string, Json)>, pick: Json -> Option<Json>)
    requires forall k :: 0 <= k < |keys| ==> pick(keys[k].1).None?
    ensures Collected(keys, pick) == []
  {
    FilterMapEmpty(keys, (p: (string, Json)) => pick(p.1));
  }

  /** The entries taken from the visited values, `pick` deciding per value. */
  function CollectEntries(fields: seq<(string, Json)>, pick: Json -> Option<Json>): seq<Json> {
    Collected(KeyOrder(fields), pick)
  }

  /** When every key reads as an integer, keys are visited in ascending integer order. */
  lemma KeyOrderAscending(fields: seq<(string, Json)>)
    requires forall i :: 0 <= i < |fields| ==> ParseInt(fields[i].0).Some?
    ensures forall i :: 0 <= i < |KeyOrder(fields)| ==> ParseInt(KeyOrder(fields)[i].0).Some?
    ensures forall i, j :: 0 <= i < j < |KeyOrder(fields)| ==>
      ParseInt(KeyOrder(fields)[i].0).value <= ParseInt(KeyOrder(fields)[j].0).value
  {
    assert Sorting.AllRanked(fields, KeyRank);
    Sorting.SortByAscending(fields, KeyRank);
    var r := KeyOrder(fields);
    forall i | 0 <= i < |r| ensures ParseInt(r[i].0).Some? {
      assert r[i] in multiset(fields);
    }
  }

  // ---------------------------------------------------------------------------
  // The "field":"value" regular expressions
  // ---------------------------------------------------------------------------

  /** The literal start of `/"name":"([^"]*?)"/`. */
  function FieldPattern(name: string): string {
    "\"" + name + "\":\""
  }

  /**
   * The leftmost match at or after `from` of the pattern followed by a lazy run
   * of non-quote characters and a closing quote; the result is the captured run.
   */
  function MatchFrom(s: string, prefix: string, from: nat): (r: Option<string>)
    requires |prefix| > 0
    ensures r.Some? ==> NoChar(r.value, '"')
    ensures r.Some? ==> exists i: nat :: from <= i && OccursAt(s, prefix + r.value + "\"", i)
    ensures OccursAt(s, prefix, from) && IndexOf(s, "\"", from + |prefix|).Some? ==>
      r.Some? && OccursAt(s, prefix + r.value + "\"", from)
    decreases |s| - from
  {
    if from + |prefix| > |s| then None
    else
      var q := IndexOf(s, "\"", from + |prefix|);
      IndexOfSpec(s, "\"", from + |prefix|);
      if OccursAt(s, prefix, from) && q.Some? then
        var capture := s[from + |prefix|..q.value];
        assert NoChar(capture, '"') by {
          forall k | 0 <= k < |capture| ensures capture[k] != '"' {
            assert !OccursAt(s, "\"", from + |prefix| + k);
          }
        }
        assert s[from..from + |prefix + capture + "\""|] == prefix + capture + "\"" by {
          assert s[from..from + |prefix|] == prefix;
          assert s[from + |prefix|..q.value] == capture;
          assert s[q.value..q.value + 1] == "\"";
          assert s[from..q.value + 1] == s[from..from + |prefix|] + s[from + |prefix|..q.value] + s[q.value..q.value + 1];
        }
        assert OccursAt(s, prefix + capture + "\"", from);
        Some(capture)
      else MatchFrom(s, prefix, from + 1)
  }

  /** The regular expression matches at `i`: the pattern starts there and a quote follows it somewhere. */
  predicate MatchesAt(s: string, prefix: string, i: nat) {
    OccursAt(s, prefix, i) && exists q :: i + |prefix| <= q < |s| && s[q] == '"'
  }

  /** Whether the expression matches at `from` is what `MatchFrom` tests there. */
  lemma MatchesAtTest(s: string, prefix: string, from: nat)
    requires |prefix| > 0
    ensures MatchesAt(s, prefix, from) <==> OccursAt(s, prefix, from) && IndexOf(s, "\"", from + |prefix|).Some?
  {
    var q := IndexOf(s, "\"", from + |prefix|);
    IndexOfSpec(s, "\"", from + |prefix|);
    if q.Some? {
      assert s[q.value] == '"' by { assert s[q.value..q.value + 1] == "\""; }
    } else {
      forall k | from + |prefix| <= k < |s| ensures s[k] != '"' {
        assert !OccursAt(s, "\"", k);
        assert s[k..k + 1] == [s[k]];
      }
    }
  }

  /**
   * `MatchFrom` finds nothing exactly when the expression matches nowhere
   * from `from` on; otherwise its capture is the run up to the first quote
   * after the leftmost position where it matches.
   */
  lemma {:induction false} MatchFromSpec(s: string, prefix: string, from: nat)
    requires |prefix| > 0
    ensures MatchFrom(s, prefix, from).None? <==> forall i: nat :: from <= i ==> !MatchesAt(s, prefix, i)
    ensures MatchFrom(s, prefix, from).Some? ==>
      exists i: nat :: from <= i && MatchesAt(s, prefix, i) &&
        (forall j: nat :: from <= j < i ==> !MatchesAt(s, prefix, j)) &&
        OccursAt(s, prefix + MatchFrom(s, prefix, from).value + "\"", i)
    decreases |s| - from
  {
    if from + |prefix| > |s| {
      assert forall i: nat :: from <= i ==> !OccursAt(s, prefix, i);
    } else {
      MatchesAtTest(s, prefix, from);
      if !MatchesAt(s, prefix, from) {
        MatchFromSpec(s, prefix, from + 1);
        MatchFromSkip(s, prefix, from);
      }
    }
  }

  /** A position where the expression does not match adds nothing to the quantified facts. */
  lemma MatchFromSkip(s: string, prefix: string, from: nat)
    requires |prefix| > 0 && !MatchesAt(s, prefix, from)
    requires MatchFrom(s, prefix, from) == MatchFrom(s, prefix, from + 1)
    requires MatchFrom(s, prefix, from + 1).None? <==> forall i: nat :: from + 1 <= i ==> !MatchesAt(s, prefix, i)
    requires MatchFrom(s, prefix, from + 1).Some? ==>
      exists i: nat :: from + 1 <= i && MatchesAt(s, prefix, i) &&
        (forall j: nat :: from + 1 <= j < i ==> !MatchesAt(s, prefix, j)) &&
        OccursAt(s, prefix + MatchFrom(s, prefix, from + 1).value + "\"", i)
    ensures MatchFrom(s, prefix, from).None? <==> forall i: nat :: from <= i ==> !MatchesAt(s, prefix, i)
    ensures MatchFrom(s, prefix, from).Some? ==>
      exists i: nat :: from <= i && MatchesAt(s, prefix, i) &&
        (forall j: nat :: from <= j < i ==> !MatchesAt(s, prefix, j)) &&
        OccursAt(s, prefix + MatchFrom(s, prefix, from).value + "\"", i)
  {
    var r := MatchFrom(s, prefix, from);
    if r.Some? {
      var i: nat :| from + 1 <= i && MatchesAt(s, prefix, i) &&
        (forall j: nat :: from + 1 <= j < i ==> !MatchesAt(s, prefix, j)) &&
        OccursAt(s, prefix + r.value + "\"", i);
      assert forall j: nat :: from <= j < i ==> !MatchesAt(s, prefix, j);
    }
  }

  /** `s.match(/"name":"([^"]*?)"/)`, the captured group when it matches. */
  function FieldMatch(s: string, name: string): (r: Option<string>)
    ensures r.Some? ==> NoChar(r.value, '"')
    ensures r.Some? ==> exists i: nat :: OccursAt(s, FieldPattern(name) + r.value + "\"", i)
  {
    MatchFrom(s, FieldPattern(name), 0)
  }

  /**
   * The field expression finds nothing exactly when it matches nowhere;
   * otherwise the capture is the run of non-quote characters after the
   * leftmost `"name":"` that some later quote closes.
   */
  lemma FieldMatchSpec(s: string, name: string)
    ensures FieldMatch(s, name).None? <==> forall i: nat :: !MatchesAt(s, FieldPattern(name), i)
    ensures FieldMatch(s, name).Some? ==>
      exists i: nat :: MatchesAt(s, FieldPattern(name), i) &&
        (forall j: nat :: j < i ==> !MatchesAt(s, FieldPattern(name), j)) &&
        OccursAt(s, FieldPattern(name) + FieldMatch(s, name).value + "\"", i)
  {
    MatchFromSpec(s, FieldPattern(name), 0);
  }

  /** A string that begins with `"name":"value"` matches with exactly that value. */
  lemma FieldMatchAtStart(name: string, x: string, rest: string)
    requires NoChar(x, '"')
    ensures FieldMatch(FieldPattern(name) + x + "\"" + rest, name) == Some(x)
  {
    var p := FieldPattern(name);
    var s := p + x + "\"" + rest;
    assert OccursAt(s, p, 0) by { assert s[..|p|] == p; }
    forall j: nat | |p| <= j < |p| + |x| ensures !OccursAt(s, "\"", j) {
      assert s[j] == x[j - |p|];
    }
    assert OccursAt(s, "\"", |p| + |x|) by { assert s[|p| + |x|] == '"'; }
    IndexOfFinds(s, "\"", |p|, |p| + |x|);
    assert s[|p|..|p| + |x|] == x;
  }

  // ---------------------------------------------------------------------------
  // Rendering
  // ---------------------------------------------------------------------------

  /** `entries.map(render)`: the lines, or the first error thrown while rendering. */
  function RenderEach(entries: seq<Json>, render: Json -> Outcome<string>): (r: Outcome<seq<string>>)
    ensures r.Ok? ==> |r.value| == |entries|
    decreases |entries|
  {
    if |entries| == 0 then Ok([])
    else
      match RenderEach(entries[..|entries| - 1], render)
      case Thrown(m) => Thrown(m)
      case Ok(lines) =>
        match render(entries[|entries| - 1])
        case Thrown(m) => Thrown(m)
        case Ok(line) => Ok(lines + [line])
  }

  /** Rendering keeps the entries' order: line `k` is entry `k` rendered, and it fails exactly when some entry does. */
  lemma {:induction false} RenderEachSpec(entries: seq<Json>, render: Json -> Outcome<string>)
    ensures RenderEach(entries, render).Ok? <==> forall k :: 0 <= k < |entries| ==> render(entries[k]).Ok?
    ensures RenderEach(entries, render).Ok? ==>
      forall k :: 0 <= k < |entries| ==> RenderEach(entries, render).value[k] == render(entries[k]).value
    decreases |entries|
  {
    if |entries| > 0 {
      var init := entries[..|entries| - 1];
      RenderEachSpec(init, render);
      assert forall k :: 0 <= k < |init| ==> init[k] == entries[k];
    }
  }

  /** One rendered entry: `${speaker} [${timestamp}]: ${text}`. */
  function Line(speaker: string, timestamp: string, text: string): string {
    speaker + " [" + timestamp + "]: " + text
  }

  /** The blank line between rendered entries. */
  const EntryGap: string := "\n\n"

  /** Lines joined with blank lines between them. */
  function JoinEntries(lines: seq<string>): string {
    Join(lines, EntryGap)
  }

  /**
   * Re-splitting the export text on the blank line gives back the rendered
   * lines, one per entry, as long as no line holds a newline of its own.
   */
  lemma JoinEntriesRoundTrip(lines: seq<string>)
    requires |lines| >= 1
    requires forall k :: 0 <= k < |lines| ==> NoChar(lines[k], '\n')
    ensures Split(JoinEntries(lines), EntryGap) == lines
  {
    SplitJoin(lines, EntryGap);
  }
}
