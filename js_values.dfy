/**
 * The JavaScript values that the controllers read out of a JSON request body,
 * and the two built-in behaviours they rely on: truthiness (`!x`, `x || d`)
 * and `String.prototype.includes`.
 */
module JsValues {

  /**
   * A field of a parsed JSON body after destructuring. A missing field is
   * `Undefined`; numbers are integers here (floating point is not modelled).
   */
  datatype Value = Undefined | Null | Bool(b: bool) | Num(n: int) | Str(s: string)

  /** `!v` in JavaScript: undefined, null, false, 0 and '' are falsy. */
  predicate Falsy(v: Value) {
    match v
    case Undefined => true
    case Null => true
    case Bool(b) => !b
    case Num(n) => n == 0
    case Str(s) => s == ""
  }

  predicate Truthy(v: Value) {
    !Falsy(v)
  }

  /** `v === undefined || v === null`. */
  predicate Nullish(v: Value) {
    v == Undefined || v == Null
  }

  /** The `a || b` operator. */
  function Or(a: Value, b: Value): Value {
    if Truthy(a) then a else b
  }

  /** `p` occurs in `s` starting at position `i`. */
  ghost predicate OccursAt(s: string, p: string, i: int) {
    0 <= i && i + |p| <= |s| && s[i..i + |p|] == p
  }

  /**
   * `s.includes(p)`: tries every start position from the left. The result is
   * true exactly when `p` occurs somewhere in `s`.
   */
  function Includes(s: string, p: string): (r: bool)
    ensures r <==> exists i :: OccursAt(s, p, i)
    decreases |s|
  {
    if p <= s then
      assert OccursAt(s, p, 0);
      true
    else if s == [] then
      assert forall i :: !OccursAt(s, p, i);
      false
    else
      var r := Includes(s[1..], p);
      assert forall i :: OccursAt(s[1..], p, i) <==> OccursAt(s, p, i + 1);
      assert forall i :: OccursAt(s, p, i) ==> i > 0 && OccursAt(s[1..], p, i - 1);
      r
  }

  /** A pattern longer than the text never occurs in it. */
  lemma IncludesNeedsRoom(s: string, p: string)
    requires |s| < |p|
    ensures !Includes(s, p)
  {
  }
}
