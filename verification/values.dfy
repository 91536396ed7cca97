/**
 * The generic value that documents and entity fields hold: the Java objects
 * that flow through `Map<String, Object>` in the modelled code.
 */
module Values {
  import opened JavaText

  type Int32 = x: int | INT32_MIN <= x <= INT32_MAX
  type Int64 = x: int | INT64_MIN <= x <= INT64_MAX

  datatype Value =
    | Null                                   // Java null
    | Str(s: string)                         // java.lang.String
    | Int(i: Int32)                          // java.lang.Integer
    | Long(l: Int64)                         // java.lang.Long
    | Bool(b: bool)                          // java.lang.Boolean
    | Dbl(text: string)                      // java.lang.Double; only its decimal text is kept
    | List(items: seq<Value>)                // java.util.List
    | Obj(entries: map<string, Value>)       // java.util.Map with String keys
    | Other(className: string, text: string) // any other object: its class and its toString()

  /** A document: the field-name to value map exchanged between the layers. */
  type Document = map<string, Value>

  /** The parts glued together with sep between neighbours, as String.join does. */
  function JoinWith(parts: seq<string>, sep: string): string {
    if parts == [] then ""
    else if |parts| == 1 then parts[0]
    else parts[0] + sep + JoinWith(parts[1..], sep)
  }

  /**
   * String.valueOf / toString. A list prints as "[a, b]" (AbstractCollection);
   * a non-empty map prints its entries in HashMap order, which is not modelled,
   * so it is rendered as a fixed text that has the same first and last character.
   */
  function ToText(v: Value): string {
    match v
    case Null => "null"
    case Str(s) => s
    case Int(i) => IntToDecimal(i)
    case Long(l) => IntToDecimal(l)
    case Bool(b) => if b then "true" else "false"
    case Dbl(t) => t
    case List(xs) => "[" + JoinWith(seq(|xs|, k requires 0 <= k < |xs| => ToText(xs[k])), ", ") + "]"
    case Obj(m) => if |m| == 0 then "{}" else "{...}"
    case Other(_, t) => t
  }
}
