/** Small wrapper types shared by every module of the model. */
module Common {

  /** An optional value: `None` stands for JavaScript's `undefined`/`null` or a missing row. */
  datatype Option<+T> = None | Some(value: T) {
    /** The value, or `default` when there is none. */
    function GetOr(default: T): T {
      if Some? then value else default
    }
  }

  /** The outcome of a JavaScript computation that may throw (a TypeError, an explicit `throw`). */
  datatype Outcome<+T> = Ok(value: T) | Thrown(message: string)

  /** The prefix of length `i + 1` is the prefix of length `i` and element `i`. */
  lemma TakeSnoc<T>(s: seq<T>, i: nat)
    requires i < |s|
    ensures s[..i + 1] == s[..i] + [s[i]]
  {
  }
}
