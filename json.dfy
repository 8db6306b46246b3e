/**
 * Values found in the legacy JSON files once decoded, and the two Python
 * conversions the bootstrap applies to them: int(v) and str(v).
 */
module Json {
  import opened Wrappers
  import Text

  /**
   * A decoded JSON value. A float carries its printed form and the integer
   * that int() truncates it to, since floating point is not modelled; a list
   * or an object nested inside a legacy file only carries its printed form.
   */
  datatype Value =
    | Null
    | Bool(b: bool)
    | Int(i: int)
    | Float(repr: string, truncated: int)
    | Str(s: string)
    | Composite(repr: string)

  /** int(v): None where Python raises TypeError or ValueError. */
  function ToInt(v: Value): (r: Option<int>)
    ensures v.Int? ==> r == Some(v.i)
    ensures v.Null? || v.Composite? ==> r == None
  {
    match v
    case Null => None
    case Bool(b) => Some(if b then 1 else 0)
    case Int(i) => Some(i)
    case Float(_, t) => Some(t)
    case Str(s) => Text.IntOfText(s)
    case Composite(_) => None
  }

  /**
   * str(v): a string is kept verbatim, and the printed form of an integer
   * reads back as that integer.
   */
  function ToStr(v: Value): (r: string)
    ensures v.Str? ==> r == v.s
    ensures v.Int? ==> Text.IntOfText(r) == Some(v.i)
  {
    match v
    case Null => "None"
    case Bool(b) => if b then "True" else "False"
    case Int(i) => Text.IntRoundTrip(i); Text.IntToDecimal(i)
    case Float(repr, _) => repr
    case Str(s) => s
    case Composite(repr) => repr
  }

  /** A number written as a JSON string converts like the number itself. */
  lemma NumericStringConverts(i: int)
    ensures ToInt(Str(ToStr(Int(i)))) == ToInt(Int(i))
  {
    Text.IntRoundTrip(i);
  }
}
