/**
  How a JavaScript parameter reaches SQLite through node-sqlite3, and how
  SQLite compares it with a stored value in a `WHERE column = ?` clause.
 */
module SqliteValues {

  import opened Wrappers
  import opened JsValues

  /** The value node-sqlite3 binds for a JavaScript parameter: `undefined`
      becomes NULL and a boolean becomes the integer 1 or 0; strings and
      null are passed through, and so are integers, which is exact for
      those that fit in 32 bits (larger ones are bound as REAL, which this
      domain does not distinguish). */
  function Bind(v: Value): (b: Value)
    ensures b.Null? || b.Int? || b.Str?
    ensures Truthy(b) == Truthy(v)
    ensures b.Null? <==> v.Null? || v.Undefined?
    ensures v.Int? || v.Str? ==> b == v
  {
    match v
    case Undefined => Null
    case Bool(x) => Int(if x then 1 else 0)
    case _ => v
  }

  /** SQL `=` on two bound values: NULL is equal to nothing, not even NULL. */
  predicate SqlEq(column: Value, param: Value) {
    !column.Null? && !param.Null? && column == param
  }

  /** A truthy parameter is never NULL once bound, so SQL `=` against it is
      plain equality. */
  lemma SqlEqTruthyParam(column: Value, param: Value)
    requires Truthy(param)
    ensures SqlEq(column, Bind(param)) <==> column == Bind(param)
  {
  }

  predicate IsDigit(c: char) {
    '0' <= c <= '9'
  }

  predicate AllDigits(s: string) {
    forall i :: 0 <= i < |s| ==> IsDigit(s[i])
  }

  /** The number a string of decimal digits spells (leading zeros allowed). */
  function DigitsValue(s: string): nat
    requires AllDigits(s)
  {
    if s == [] then 0
    else 10 * DigitsValue(s[..|s| - 1]) + (s[|s| - 1] as int - '0' as int)
  }

  /** The integer a parameter turns into when it is compared with an
      INTEGER PRIMARY KEY column: integers compare as themselves, booleans
      as 1 and 0, and a text parameter is converted when it spells an
      integer. `None` means the comparison matches no row. */
  function RowKey(v: Value): (k: Option<int>)
    ensures v.Int? ==> k == Some(v.i)
    ensures v.Null? || v.Undefined? ==> k == None
    ensures v.Str? && v.s == "" ==> k == None
    ensures k.Some? && !v.Int? ==> k.value >= 0
  {
    match Bind(v)
    case Int(i) => Some(i)
    case Str(s) => if s != "" && AllDigits(s) then Some(DigitsValue(s)) else None
    case Null => None
  }

  function Digit(d: nat): (c: char)
    requires d < 10
    ensures IsDigit(c)
  {
    ('0' as int + d) as char
  }

  /** The decimal spelling of a natural number, as it appears in a URL. */
  function DecimalString(n: nat): (s: string)
    ensures s != "" && AllDigits(s)
  {
    if n < 10 then [Digit(n)] else DecimalString(n / 10) + [Digit(n % 10)]
  }

  lemma {:induction false} DigitsValueOfDecimalString(n: nat)
    ensures DigitsValue(DecimalString(n)) == n
  {
    var s := DecimalString(n);
    if n >= 10 {
      DigitsValueOfDecimalString(n / 10);
      assert s[..|s| - 1] == DecimalString(n / 10);
    }
  }

  /** A path parameter holding the decimal spelling of an id selects exactly
      that id. */
  lemma RowKeyOfDecimalString(n: nat)
    ensures RowKey(Str(DecimalString(n))) == Some(n)
  {
    DigitsValueOfDecimalString(n);
  }
}
