/**
 * The PHP values that flow through the builder and the driver's
 * configuration, with the three conversions the code applies to them:
 * truthiness (`if ($x)`), string interpolation (`"{$x}"`) and an offset
 * read (`$x[0]`).
 */
module PhpValues {
  import opened PhpStrings

  datatype Option<T> = None | Some(value: T)

  /** A PHP value; arrays are lists (only their order and length matter here). */
  datatype Value =
    | Null
    | Bool(b: bool)
    | Int(i: int)
    | Str(s: string)
    | List(items: seq<Value>)

  /** One key => value entry of an associative array, in iteration order. */
  datatype Entry = Entry(key: string, value: Value)

  /** PHP's conversion to bool: null, false, 0, "", "0" and [] are falsy. */
  predicate Truthy(v: Value) {
    match v
    case Null => false
    case Bool(b) => b
    case Int(i) => i != 0
    case Str(s) => s != "" && s != "0"
    case List(items) => |items| > 0
  }

  /** PHP's conversion to string inside an interpolated string. */
  function Interpolate(v: Value): string {
    match v
    case Null => ""
    case Bool(b) => if b then "1" else ""
    case Int(i) => IntToString(i)
    case Str(s) => s
    case List(_) => "Array"
  }

  /**
   * Reading `$v[k]`: an element of a list, one character of a string,
   * and otherwise null (PHP warns and carries on); past the end of a
   * list null, past the end of a string the empty string.
   */
  function Offset(v: Value, k: nat): Value {
    match v
    case List(items) => if k < |items| then items[k] else Null
    case Str(s) => if k < |s| then Str([s[k]]) else Str("")
    case _ => Null
  }

  /** Updating a union is updating its right-hand side; a hint that keeps `Table.Between` cheap to verify. */
  lemma UnionUpdate(p: map<string, Value>, b: map<string, Value>, key: string, v: Value)
    ensures (p + b)[key := v] == p + b[key := v]
  {
  }
}
