/**
 * JavaScript values as the application sees them after `JSON.parse`, with the
 * three language rules the transcript code leans on: truthiness (`||`),
 * property access (`a.b` throws on `null`, `a?.b` does not) and the text a
 * value turns into inside a template literal (`String(v)`).
 */
module JsValues {
  import opened Common
  import opened JsStrings

  /**
   * A decoded JSON value. Numbers are integers; an object keeps its own
   * properties in `Object.keys` order, each key once (as `JSON.parse` builds it).
   */
  datatype Json =
    | JNull
    | JBool(b: bool)
    | JNum(n: int)
    | JStr(s: string)
    | JArr(elems: seq<Json>)
    | JObj(fields: seq<(string, Json)>)

  /** The result of reading a property: `undefined`, or a value. */
  datatype Prop = Undefined | Defined(value: Json)

  /** JavaScript truthiness of a value: `null`, `false`, `0` and `""` are falsy. */
  predicate Truthy(v: Json) {
    match v
    case JNull => false
    case JBool(b) => b
    case JNum(n) => n != 0
    case JStr(s) => s != ""
    case JArr(_) => true
    case JObj(_) => true
  }

  predicate TruthyProp(p: Prop) {
    p.Defined? && Truthy(p.value)
  }

  /** `a || b`: the left operand when it is truthy, otherwise the right one. */
  function OrElse(a: Prop, b: Prop): (r: Prop)
    ensures TruthyProp(a) ==> r == a
    ensures !TruthyProp(a) ==> r == b
  {
    if TruthyProp(a) then a else b
  }

  /** A string literal used as a property value or a fallback. */
  function Lit(s: string): Prop {
    Defined(JStr(s))
  }

  /** The value stored under `name` among an object's own properties. */
  function Lookup(fields: seq<(string, Json)>, name: string): Prop
    decreases |fields|
  {
    if |fields| == 0 then Undefined
    else if fields[0].0 == name then Defined(fields[0].1)
    else Lookup(fields[1..], name)
  }

  lemma {:induction false} LookupAbsent(fields: seq<(string, Json)>, name: string)
    requires forall k :: 0 <= k < |fields| ==> fields[k].0 != name
    ensures Lookup(fields, name) == Undefined
    decreases |fields|
  {
    if |fields| > 0 {
      LookupAbsent(fields[1..], name);
    }
  }

  /**
   * `v.name` on a value that is not `null`. Only objects have the named
   * properties this model reads (`speaker`, `text`, `email`, ...); strings,
   * numbers, booleans and arrays give `undefined` for all of them.
   */
  function Get(v: Json, name: string): Prop {
    if v.JObj? then Lookup(v.fields, name) else Undefined
  }

  /** `p.name`: throws a TypeError when `p` is `undefined` or `null`. */
  function Access(p: Prop, name: string): Outcome<Prop> {
    if p == Undefined || p == Defined(JNull) then Thrown("TypeError: cannot read properties of " + PropText(p))
    else Ok(Get(p.value, name))
  }

  /** `p?.name`: `undefined` when `p` is `undefined` or `null`. */
  function OptAccess(p: Prop, name: string): Prop {
    if p == Undefined || p == Defined(JNull) then Undefined else Get(p.value, name)
  }

  /** `String(v)`, the text a value becomes inside a template literal. */
  function ToStr(v: Json): string
    decreases v
  {
    match v
    case JNull => "null"
    case JBool(b) => if b then "true" else "false"
    case JNum(n) => IntToString(n)
    case JStr(s) => s
    case JArr(es) =>
      // Array.prototype.toString: elements joined with ",", null elements as ""
      Join(seq(|es|, i requires 0 <= i < |es| => if es[i] == JNull then "" else ToStr(es[i])), ",")
    case JObj(_) => "[object Object]"
  }

  // ---------------------------------------------------------------------------
  // `x > 0` after the conversion to a number
  // ---------------------------------------------------------------------------

  /** Decimal digits, possibly none. */
  predicate DecimalRun(s: string) {
    forall k :: 0 <= k < |s| ==> IsDigit(s[k])
  }

  /** Some character other than `0` and `.`: the digits do not spell zero. */
  predicate HasNonZero(s: string) {
    exists k :: 0 <= k < |s| && s[k] != '0' && s[k] != '.'
  }

  /** `12`, `12.`, `12.5` or `.5`. */
  predicate Mantissa(m: string) {
    (|m| > 0 && DecimalRun(m)) ||
    (|m| > 1 && exists d :: 0 <= d < |m| && m[d] == '.' && DecimalRun(m[..d]) && DecimalRun(m[d + 1..]))
  }

  /** `e7`, `E+7` or `e-7`. */
  predicate Exponent(x: string) {
    |x| >= 2 && (x[0] == 'e' || x[0] == 'E') &&
    ((DecimalRun(x[1..])) ||
     (|x| >= 3 && (x[1] == '+' || x[1] == '-') && DecimalRun(x[2..])))
  }

  /** An unsigned decimal literal of `Number(text)` whose value is above zero. */
  predicate DecimalPositive(u: string) {
    u == "Infinity" ||
    exists k :: 0 <= k <= |u| && Mantissa(u[..k]) && (k == |u| || Exponent(u[k..])) && HasNonZero(u[..k])
  }

  /** `0x..`, `0o..` or `0b..` with a digit other than `0`. */
  predicate RadixPositive(t: string) {
    |t| > 2 && t[0] == '0' && HasNonZero(t[2..]) &&
    ((t[1] in "xX" && forall k :: 2 <= k < |t| ==> IsHexDigit(t[k])) ||
     (t[1] in "oO" && forall k :: 2 <= k < |t| ==> '0' <= t[k] <= '7') ||
     (t[1] in "bB" && forall k :: 2 <= k < |t| ==> '0' <= t[k] <= '1'))
  }

  /**
   * `Number(s) > 0`: the text without surrounding white space is a numeric
   * literal with a value above zero. A leading `-` gives a negative number,
   * `-0` or `NaN`, none of them above zero; a text that is not a literal is
   * `NaN`.
   */
  predicate NumberTextPositive(s: string) {
    var t := Trim(s);
    if |t| > 0 && t[0] == '-' then false
    else if |t| > 0 && t[0] == '+' then DecimalPositive(t[1..])
    else DecimalPositive(t) || RadixPositive(t)
  }

  /**
   * `v > 0` for a value read from JSON: `null` is 0, booleans 0 and 1,
   * texts and arrays compare through their text, an object through
   * `"[object Object]"`, which is `NaN`.
   */
  predicate JsPositive(v: Json) {
    match v
    case JNull => false
    case JBool(b) => b
    case JNum(n) => n > 0
    case JStr(s) => NumberTextPositive(s)
    case JArr(_) => NumberTextPositive(ToStr(v))
    case JObj(_) => false
  }

  /** A string of digits spells a positive number exactly when one of its digits is not `0`. */
  lemma {:induction false} DecimalValuePositive(s: string)
    requires AllDigits(s)
    ensures DecimalValue(s) > 0 <==> HasNonZero(s)
    decreases |s|
  {
    if |s| > 0 {
      var init := s[..|s| - 1];
      DecimalValuePositive(init);
      assert forall k :: 0 <= k < |init| ==> init[k] == s[k];
      if HasNonZero(init) {
        var k :| 0 <= k < |init| && init[k] != '0' && init[k] != '.';
        assert s[k] != '0' && s[k] != '.';
      }
      if HasNonZero(s) && !HasNonZero(init) {
        var k :| 0 <= k < |s| && s[k] != '0' && s[k] != '.';
        assert k == |s| - 1;
      }
    }
  }

  /** The decimal text of an integer compares with zero as the integer does. */
  lemma IntTextPositive(n: int)
    ensures NumberTextPositive(IntToString(n)) <==> n > 0
  {
    var s := IntToString(n);
    assert |s| > 0 && !IsJsSpace(s[0]) && !IsJsSpace(s[|s| - 1]);
    TrimUnpadded(s);
    if n >= 0 {
      NatToStringRoundTrip(n);
      DecimalValuePositive(s);
      if n > 0 {
        assert s[..|s|] == s;
        assert Mantissa(s[..|s|]);
      } else {
        assert s == "0";
        assert !RadixPositive(s);
        assert forall k :: 0 <= k <= |s| ==> !HasNonZero(s[..k]);
      }
    }
  }

  function PropText(p: Prop): string {
    match p
    case Undefined => "undefined"
    case Defined(v) => ToStr(v)
  }

  /** A fallback chain ending in a non-empty literal always yields a truthy value. */
  lemma OrElseLiteral(a: Prop, s: string)
    requires s != ""
    ensures TruthyProp(OrElse(a, Lit(s)))
    ensures PropText(OrElse(a, Lit(s))) == if TruthyProp(a) then PropText(a) else s
  {
  }
}
