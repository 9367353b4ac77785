/**
  The values a handler reads out of a parsed JSON request body, and the two
  presence tests the handlers apply to them: JavaScript truthiness (`!x`)
  and strict comparison with `undefined` (`x === undefined`).
  Numbers are restricted to integers; a field absent from the body reads as
  `Undefined`.
 */
module JsValues {

  datatype Value = Undefined | Null | Bool(b: bool) | Int(i: int) | Str(s: string)

  /** JavaScript's ToBoolean on this value domain. */
  predicate Truthy(v: Value) {
    match v
    case Undefined => false
    case Null => false
    case Bool(b) => b
    case Int(i) => i != 0
    case Str(s) => s != ""
  }

  /** The complete list of falsy values of this domain (JavaScript also has
      NaN, -0 and 0n, which integers cannot express). */
  const Falsy: set<Value> := {Undefined, Null, Bool(false), Int(0), Str("")}

  /** `x === undefined`: only the missing field fails it. */
  predicate Defined(v: Value) {
    !v.Undefined?
  }

  /** Truthiness agrees with the enumeration of falsy values, in both directions. */
  lemma TruthyIffNotFalsy(v: Value)
    ensures Truthy(v) <==> v !in Falsy
  {
  }

  /** Every truthy value passes the `=== undefined` test, but not conversely:
      0, null, false and the empty string are defined yet falsy. */
  lemma DefinedIsWeakerThanTruthy(v: Value)
    ensures Truthy(v) ==> Defined(v)
    ensures Defined(v) && !Truthy(v) <==> v in {Null, Bool(false), Int(0), Str("")}
  {
  }
}
