/** Values of the daemon's JSON configuration, as Python sees them after `json.load`:
    `None`, strings, numbers, booleans, lists, and dicts whose items keep their file order.
    Numbers are integers here; the daemon never does arithmetic on configured values. */
module ConfigTree {

  datatype Scalar =
    | Null
    | Str(s: string)
    | Num(n: int)
    | Bool(b: bool)
    | List(items: seq<Value>)

  datatype Value =
    | Leaf(scalar: Scalar)
    | Map(entries: seq<(string, Value)>)
}
