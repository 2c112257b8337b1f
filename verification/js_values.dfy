/** The few JavaScript values and conversions the form relies on. */
module JsValues {

  datatype Option<+T> = None | Some(value: T)

  /**
   * A control's `value` (or a serialised value): the primitive JavaScript
   * values. Numbers are modelled as integers.
   */
  datatype Value = Undefined | Null | Bool(b: bool) | Num(n: int) | Str(s: string)

  /** True when JavaScript's `!v` is true, i.e. `v` converts to `false`. */
  predicate Falsy(v: Value) {
    match v
    case Undefined => true
    case Null => true
    case Bool(b) => !b
    case Num(n) => n == 0
    case Str(s) => s == ""
  }

  function UpperChar(c: char): char {
    if 'a' <= c <= 'z' then (c as int - 32) as char else c
  }

  /** `String.prototype.toUpperCase`, restricted to ASCII letters. */
  function ToUpperCase(s: string): (r: string)
    ensures |r| == |s|
  {
    if s == [] then [] else [UpperChar(s[0])] + ToUpperCase(s[1..])
  }

  /** The test `method.toUpperCase() === 'POST'`. */
  predicate IsPost(m: string) {
    ToUpperCase(m) == "POST"
  }

  /** The POST test accepts exactly the four letters p, o, s, t in any mix of cases. */
  lemma {:induction false} IsPostIgnoresCase(m: string)
    ensures IsPost(m) <==>
      |m| == 4 && m[0] in "pP" && m[1] in "oO" && m[2] in "sS" && m[3] in "tT"
  {
    if |m| == 4 {
      calc {
        ToUpperCase(m);
        [UpperChar(m[0])] + ToUpperCase(m[1..]);
        [UpperChar(m[0])] + ([UpperChar(m[1])] + ToUpperCase(m[2..]));
        [UpperChar(m[0])] + ([UpperChar(m[1])] + ([UpperChar(m[2])] + ToUpperCase(m[3..])));
        { assert m[3..][1..] == []; }
        [UpperChar(m[0]), UpperChar(m[1]), UpperChar(m[2]), UpperChar(m[3])];
      }
    }
  }
}
