/**
 * The JavaScript string operations the application relies on, with their
 * library semantics written out: `trim`, `startsWith`, `endsWith`, `includes`,
 * `split` and global `replace` with a literal pattern, `join`, ASCII case
 * mapping, `parseInt` and the decimal rendering of integers.
 */
module JsStrings {
  import opened Common

  // ---------------------------------------------------------------------------
  // Prefixes, suffixes, occurrences
  // ---------------------------------------------------------------------------

  predicate StartsWith(s: string, p: string) {
    |p| <= |s| && s[..|p|] == p
  }

  predicate EndsWith(s: string, p: string) {
    |p| <= |s| && s[|s| - |p|..] == p
  }

  /** `p` occurs in `s` starting at index `i`. */
  predicate OccursAt(s: string, p: string, i: nat) {
    i + |p| <= |s| && s[i..i + |p|] == p
  }

  /** `s.includes(p)`. */
  predicate Contains(s: string, p: string) {
    exists i: nat | i <= |s| :: OccursAt(s, p, i)
  }

  /** The first index at or after `from` where the non-empty `p` occurs in `s`. */
  function IndexOf(s: string, p: string, from: nat): (r: Option<nat>)
    requires |p| > 0
    ensures r.Some? ==> from <= r.value && OccursAt(s, p, r.value)
    decreases |s| - from
  {
    if from + |p| > |s| then None
    else if s[from..from + |p|] == p then Some(from)
    else IndexOf(s, p, from + 1)
  }

  /** `IndexOf` finds the first occurrence, and reports none only when there is none. */
  lemma {:induction false} IndexOfSpec(s: string, p: string, from: nat)
    requires |p| > 0
    ensures IndexOf(s, p, from).Some? ==> forall j: nat :: from <= j < IndexOf(s, p, from).value ==> !OccursAt(s, p, j)
    ensures IndexOf(s, p, from).None? ==> forall j: nat :: from <= j ==> !OccursAt(s, p, j)
    decreases |s| - from
  {
    if from + |p| <= |s| && s[from..from + |p|] != p {
      IndexOfSpec(s, p, from + 1);
    }
  }

  /** An occurrence at `i` with none between `from` and `i` is the one `IndexOf` finds. */
  lemma {:induction false} IndexOfFinds(s: string, p: string, from: nat, i: nat)
    requires |p| > 0 && from <= i && OccursAt(s, p, i)
    requires forall j: nat :: from <= j < i ==> !OccursAt(s, p, j)
    ensures IndexOf(s, p, from) == Some(i)
    decreases i - from
  {
    if from < i {
      assert !OccursAt(s, p, from);
      IndexOfFinds(s, p, from + 1, i);
    }
  }

  /** Without an occurrence at or after `from`, `IndexOf` finds nothing. */
  lemma IndexOfAbsent(s: string, p: string, from: nat)
    requires |p| > 0
    requires forall j: nat :: from <= j ==> !OccursAt(s, p, j)
    ensures IndexOf(s, p, from).None?
  {
  }

  // ---------------------------------------------------------------------------
  // split / join / replace
  // ---------------------------------------------------------------------------

  /** `s.split(d)` for a non-empty literal delimiter: matches are taken left to right without overlap. */
  function Split(s: string, d: string): (r: seq<string>)
    requires |d| > 0
    ensures |r| >= 1
    decreases |s|
  {
    match IndexOf(s, d, 0)
    case None => [s]
    case Some(i) => [s[..i]] + Split(s[i + |d|..], d)
  }

  /** `xs.join(sep)`. */
  function Join(xs: seq<string>, sep: string): string
    decreases |xs|
  {
    if |xs| == 0 then ""
    else if |xs| == 1 then xs[0]
    else xs[0] + sep + Join(xs[1..], sep)
  }

  /**
   * `s.replace(/p/g, r)` for a literal, non-empty pattern `p`: the string is
   * scanned left to right and every match is replaced, matches not overlapping.
   */
  function ReplaceAll(s: string, p: string, r: string): string
    requires |p| > 0
    decreases |s|
  {
    if |s| == 0 then ""
    else if OccursAt(s, p, 0) then r + ReplaceAll(s[|p|..], p, r)
    else [s[0]] + ReplaceAll(s[1..], p, r)
  }

  lemma JoinCons(x: string, xs: seq<string>, sep: string)
    requires |xs| >= 1
    ensures Join([x] + xs, sep) == x + sep + Join(xs, sep)
  {
    assert ([x] + xs)[1..] == xs;
  }

  /** Joining the pieces of a split with the same delimiter gives back the string. */
  lemma {:induction false} JoinSplit(s: string, d: string)
    requires |d| > 0
    ensures Join(Split(s, d), d) == s
    decreases |s|
  {
    var idx := IndexOf(s, d, 0);
    if idx.Some? {
      var i := idx.value;
      var rest := s[i + |d|..];
      assert Split(s, d) == [s[..i]] + Split(rest, d);
      JoinSplit(rest, d);
      JoinCons(s[..i], Split(rest, d), d);
      assert s[i..i + |d|] == d;
      assert s == s[..i] + s[i..i + |d|] + rest;
    }
  }

  predicate NoChar(x: string, c: char) {
    forall k :: 0 <= k < |x| ==> x[k] != c
  }

  /** Without the delimiter's first character, a string has no occurrence of it. */
  lemma NoOccurrence(s: string, d: string)
    requires |d| > 0 && NoChar(s, d[0])
    ensures forall j: nat :: !OccursAt(s, d, j)
  {
    forall j: nat ensures !OccursAt(s, d, j) {
      if j + |d| <= |s| {
        assert s[j..j + |d|][0] == s[j];
      }
    }
  }

  /** Splitting `x + d + rest`, where `x` lacks `d`'s first character, cuts at the `d` after `x`. */
  lemma SplitAtFirst(x: string, d: string, rest: string)
    requires |d| > 0 && NoChar(x, d[0])
    ensures Split(x + d + rest, d) == [x] + Split(rest, d)
  {
    var s := x + d + rest;
    assert s[|x|..|x| + |d|] == d;
    forall j: nat | j < |x| ensures !OccursAt(s, d, j) {
      if j + |d| <= |s| {
        assert s[j..j + |d|][0] == s[j] == x[j];
      }
    }
    IndexOfFinds(s, d, 0, |x|);
    assert s[..|x|] == x;
    assert s[|x| + |d|..] == rest;
  }

  /**
   * Splitting a join recovers the pieces when none of them contains the
   * delimiter's first character.
   */
  lemma {:induction false} SplitJoin(xs: seq<string>, d: string)
    requires |d| > 0 && |xs| >= 1
    requires forall k :: 0 <= k < |xs| ==> NoChar(xs[k], d[0])
    ensures Split(Join(xs, d), d) == xs
    decreases |xs|
  {
    if |xs| == 1 {
      NoOccurrence(xs[0], d);
      IndexOfAbsent(xs[0], d, 0);
    } else {
      var tail := xs[1..];
      assert forall k :: 0 <= k < |tail| ==> NoChar(tail[k], d[0]) by {
        forall k | 0 <= k < |tail| ensures NoChar(tail[k], d[0]) { assert tail[k] == xs[k + 1]; }
      }
      SplitJoin(tail, d);
      assert Join(xs, d) == xs[0] + d + Join(tail, d);
      SplitAtFirst(xs[0], d, Join(tail, d));
      assert [xs[0]] + tail == xs;
    }
  }

  /** `s.substring(a, b)`: both ends clamped to the string, swapped when `a > b`. */
  function Substring(s: string, a: int, b: int): (r: string)
    ensures |r| <= |s|
  {
    var lo := if a < 0 then 0 else if a > |s| then |s| else a;
    var hi := if b < 0 then 0 else if b > |s| then |s| else b;
    if lo <= hi then s[lo..hi] else s[hi..lo]
  }

  // ---------------------------------------------------------------------------
  // trim
  // ---------------------------------------------------------------------------

  /** JavaScript's WhiteSpace and LineTerminator code points, the set `trim` removes. */
  predicate IsJsSpace(c: char) {
    c == '\U{0009}' || c == '\U{000A}' || c == '\U{000B}' || c == '\U{000C}' || c == '\U{000D}' ||
    c == ' ' || c == '\U{00A0}' || c == '\U{1680}' || ('\U{2000}' <= c <= '\U{200A}') ||
    c == '\U{2028}' || c == '\U{2029}' || c == '\U{202F}' || c == '\U{205F}' || c == '\U{3000}' ||
    c == '\U{FEFF}'
  }

  /** `s.trimStart()`: a suffix of `s`. */
  function TrimStart(s: string): (r: string)
    ensures |r| <= |s| && r == s[|s| - |r|..]
    decreases |s|
  {
    if |s| > 0 && IsJsSpace(s[0]) then TrimStart(s[1..]) else s
  }

  /** `trimStart` removes exactly the leading white space. */
  lemma {:induction false} TrimStartSpec(s: string)
    ensures |TrimStart(s)| > 0 ==> !IsJsSpace(TrimStart(s)[0])
    ensures forall k :: 0 <= k < |s| - |TrimStart(s)| ==> IsJsSpace(s[k])
    decreases |s|
  {
    if |s| > 0 && IsJsSpace(s[0]) {
      TrimStartSpec(s[1..]);
    }
  }

  /** `s.trimEnd()`: a prefix of `s`. */
  function TrimEnd(s: string): (r: string)
    ensures |r| <= |s| && r == s[..|r|]
    decreases |s|
  {
    if |s| > 0 && IsJsSpace(s[|s| - 1]) then TrimEnd(s[..|s| - 1]) else s
  }

  /** `trimEnd` removes exactly the trailing white space. */
  lemma {:induction false} TrimEndSpec(s: string)
    ensures |TrimEnd(s)| > 0 ==> !IsJsSpace(TrimEnd(s)[|TrimEnd(s)| - 1])
    ensures forall k :: |TrimEnd(s)| <= k < |s| ==> IsJsSpace(s[k])
    decreases |s|
  {
    if |s| > 0 && IsJsSpace(s[|s| - 1]) {
      TrimEndSpec(s[..|s| - 1]);
    }
  }

  /** `s.trim()`. */
  function Trim(s: string): string {
    TrimEnd(TrimStart(s))
  }

  /** Trimming a string that neither starts nor ends with white space changes nothing. */
  lemma TrimUnpadded(s: string)
    requires |s| > 0 && !IsJsSpace(s[0]) && !IsJsSpace(s[|s| - 1])
    ensures Trim(s) == s
  {
  }

  /** One leading white-space character in front of a string that starts with something else is all `trimStart` removes. */
  lemma TrimStartOne(c: char, x: string)
    requires IsJsSpace(c) && |x| > 0 && !IsJsSpace(x[0])
    ensures TrimStart([c] + x) == x
  {
    assert ([c] + x)[1..] == x;
  }

  /** Trimming a newline-framed string that has no white space at either end gives back the string. */
  lemma TrimFramed(body: string)
    requires |body| > 0 && !IsJsSpace(body[0]) && !IsJsSpace(body[|body| - 1])
    ensures Trim("\n" + body + "\n") == body
  {
    assert "\n" + body + "\n" == ['\n'] + (body + "\n");
    TrimStartOne('\n', body + "\n");
    TrimEndSpaces(body, "\n");
  }

  /** Trimming a newline-framed string that starts with something other than white space trims only its end. */
  lemma TrimLeadFramed(body: string)
    requires |body| > 0 && !IsJsSpace(body[0])
    ensures Trim("\n" + body + "\n") == TrimEnd(body)
  {
    assert "\n" + body + "\n" == ['\n'] + (body + "\n");
    TrimStartOne('\n', body + "\n");
    assert (body + "\n")[..|body|] == body;
  }

  /** `trimEnd` keeps everything up to the last character that is not white space. */
  lemma TrimEndKeeps(p: string, x: string)
    requires |p| > 0 && !IsJsSpace(p[|p| - 1])
    ensures p <= TrimEnd(p + x)
  {
    var s := p + x;
    TrimEndSpec(s);
    assert s[|p| - 1] == p[|p| - 1];
    assert s[..|p|] == p;
  }

  /**
   * A newline-framed text whose head starts, and ends but for its last
   * character, with something other than white space: trimming it removes
   * only trailing white space, and never reaches into the head.
   */
  lemma TrimFramedHead(h: string, x: string)
    requires |h| >= 2 && !IsJsSpace(h[0]) && !IsJsSpace(h[|h| - 2])
    ensures Trim("\n" + (h + x) + "\n") == TrimEnd(h + x)
    ensures h[..|h| - 1] <= TrimEnd(h + x)
  {
    TrimLeadFramed(h + x);
    var kept := h[..|h| - 1];
    assert kept + ([h[|h| - 1]] + x) == h + x;
    TrimEndKeeps(kept, [h[|h| - 1]] + x);
  }

  /** Trailing white space after a string that ends with something else is all `trimEnd` removes. */
  lemma {:induction false} TrimEndSpaces(y: string, tail: string)
    requires |y| > 0 && !IsJsSpace(y[|y| - 1])
    requires forall k :: 0 <= k < |tail| ==> IsJsSpace(tail[k])
    ensures TrimEnd(y + tail) == y
    decreases |tail|
  {
    if |tail| == 0 {
      assert y + tail == y;
    } else {
      var init := tail[..|tail| - 1];
      assert (y + tail)[..|y + tail| - 1] == y + init;
      TrimEndSpaces(y, init);
    }
  }

  // ---------------------------------------------------------------------------
  // Case mapping (ASCII)
  // ---------------------------------------------------------------------------

  function LowerChar(c: char): char {
    if 'A' <= c <= 'Z' then (c as int + 32) as char else c
  }

  function UpperChar(c: char): char {
    if 'a' <= c <= 'z' then (c as int - 32) as char else c
  }

  /** `s.toLowerCase()` restricted to ASCII letters. */
  function ToLower(s: string): (r: string)
    ensures |r| == |s| && forall k :: 0 <= k < |s| ==> r[k] == LowerChar(s[k])
  {
    seq(|s|, k requires 0 <= k < |s| => LowerChar(s[k]))
  }

  /** `s.toUpperCase()` restricted to ASCII letters. */
  function ToUpper(s: string): (r: string)
    ensures |r| == |s| && forall k :: 0 <= k < |s| ==> r[k] == UpperChar(s[k])
  {
    seq(|s|, k requires 0 <= k < |s| => UpperChar(s[k]))
  }

  // ---------------------------------------------------------------------------
  // Integers and their decimal text
  // ---------------------------------------------------------------------------

  predicate IsDigit(c: char) { '0' <= c <= '9' }

  predicate IsHexDigit(c: char) { IsDigit(c) || 'a' <= c <= 'f' || 'A' <= c <= 'F' }

  predicate AllDigits(s: string) { forall k :: 0 <= k < |s| ==> IsDigit(s[k]) }

  function DigitChar(d: nat): char
    requires d < 10
  {
    ('0' as int + d) as char
  }

  function HexDigitValue(c: char): nat
    requires IsHexDigit(c)
  {
    if IsDigit(c) then c as int - '0' as int
    else if 'a' <= c <= 'f' then c as int - 'a' as int + 10
    else c as int - 'A' as int + 10
  }

  /** The value of a string of decimal digits, most significant first. */
  function DecimalValue(s: string): nat
    requires AllDigits(s)
    decreases |s|
  {
    if |s| == 0 then 0
    else DecimalValue(s[..|s| - 1]) * 10 + (s[|s| - 1] as int - '0' as int)
  }

  function HexValue(s: string): nat
    requires forall k :: 0 <= k < |s| ==> IsHexDigit(s[k])
    decreases |s|
  {
    if |s| == 0 then 0
    else HexValue(s[..|s| - 1]) * 16 + HexDigitValue(s[|s| - 1])
  }

  /** The decimal text of a natural number, without leading zeros. */
  function NatToString(n: nat): (r: string)
    ensures |r| >= 1 && AllDigits(r)
    ensures r[0] == '0' ==> n == 0
    decreases n
  {
    if n < 10 then [DigitChar(n)] else NatToString(n / 10) + [DigitChar(n % 10)]
  }

  /** JavaScript's `String(n)` for an integer `n`. */
  function IntToString(n: int): string {
    if n < 0 then "-" + NatToString(-n) else NatToString(n)
  }

  /** Reading back the decimal text of a number gives the number. */
  lemma {:induction false} NatToStringRoundTrip(n: nat)
    ensures DecimalValue(NatToString(n)) == n
    decreases n
  {
    if n >= 10 {
      NatToStringRoundTrip(n / 10);
      var s := NatToString(n);
      assert s[..|s| - 1] == NatToString(n / 10);
    }
  }

  /** Distinct numbers have distinct decimal texts. */
  lemma NatToStringInjective(m: nat, n: nat)
    requires NatToString(m) == NatToString(n)
    ensures m == n
  {
    NatToStringRoundTrip(m);
    NatToStringRoundTrip(n);
  }

  function DigitPrefix(s: string): (r: string)
    ensures AllDigits(r) && StartsWith(s, r)
    ensures |r| < |s| ==> !IsDigit(s[|r|])
    decreases |s|
  {
    if |s| > 0 && IsDigit(s[0]) then [s[0]] + DigitPrefix(s[1..]) else ""
  }

  function HexPrefix(s: string): (r: string)
    ensures (forall k :: 0 <= k < |r| ==> IsHexDigit(r[k])) && StartsWith(s, r)
    decreases |s|
  {
    if |s| > 0 && IsHexDigit(s[0]) then [s[0]] + HexPrefix(s[1..]) else ""
  }

  /** The digits after the sign: hexadecimal after `0x`/`0X`, decimal otherwise; `None` when there are none. */
  function ParseUnsigned(u: string): Option<nat> {
    if |u| >= 2 && u[0] == '0' && (u[1] == 'x' || u[1] == 'X') then
      var h := HexPrefix(u[2..]);
      if h == "" then None else Some(HexValue(h))
    else
      var d := DigitPrefix(u);
      if d == "" then None else Some(DecimalValue(d))
  }

  /**
   * `parseInt(s)` with no radix: leading white space and one sign are skipped,
   * a `0x`/`0X` prefix selects hexadecimal, and the longest prefix of digits is
   * read; `None` is NaN (no digit at all).
   */
  function ParseInt(s: string): Option<int> {
    var t := TrimStart(s);
    if |t| > 0 && (t[0] == '-' || t[0] == '+') then
      match ParseUnsigned(t[1..])
      case None => None
      case Some(v) => var x: int := v; Some(if t[0] == '-' then -x else x)
    else
      match ParseUnsigned(t)
      case None => None
      case Some(v) => var x: int := v; Some(x)
  }

  lemma DigitPrefixOfDigits(s: string, rest: string)
    requires AllDigits(s)
    requires rest == "" || !IsDigit(rest[0])
    ensures DigitPrefix(s + rest) == s
    decreases |s|
  {
    if |s| > 0 {
      assert (s + rest)[1..] == s[1..] + rest;
      DigitPrefixOfDigits(s[1..], rest);
    }
  }

  lemma ParseUnsignedOfNat(n: nat)
    ensures ParseUnsigned(NatToString(n)) == Some(n)
  {
    var s := NatToString(n);
    DigitPrefixOfDigits(s, "");
    assert s + "" == s;
    NatToStringRoundTrip(n);
  }

  /** `parseInt` reads back the decimal text of a natural number. */
  lemma ParseIntOfNat(n: nat)
    ensures ParseInt(NatToString(n)) == Some(n)
  {
    var s := NatToString(n);
    assert !IsJsSpace(s[0]);
    assert TrimStart(s) == s;
    ParseUnsignedOfNat(n);
  }
}
