/**
 * The slice of Jackson's `JsonNode` tree that the AI service walks: the node
 * kinds, `path(key)`, `get(index)` and `asText()`.
 */
module JsonTree {
  import opened Optional

  /**
   * A parsed JSON value. `Missing` is Jackson's `MissingNode`, which `path`
   * returns for a key that is not there; numbers keep the text Jackson would
   * print for them.
   */
  datatype Json =
    | Object(fields: map<string, Json>)
    | Array(items: seq<Json>)
    | Text(value: string)
    | Number(literal: string)
    | Bool(truth: bool)
    | Null
    | Missing

  /**
   * `node.path(key)`: the member `key` of an object, and `Missing` for an
   * absent key or for any node that is not an object (a missing node included).
   */
  function Path(node: Json, key: string): (r: Json)
    ensures !node.Object? ==> r == Missing
    ensures node.Object? && key in node.fields ==> r == node.fields[key]
    ensures node.Object? && key !in node.fields ==> r == Missing
  {
    if node.Object? && key in node.fields then node.fields[key] else Missing
  }

  /**
   * `node.get(index)`: the element at `index` of an array, and `null` for an
   * index past the end or for any node that is not an array.
   */
  function Get(node: Json, index: nat): (r: Option<Json>)
    ensures r.Some? <==> node.Array? && index < |node.items|
    ensures r.Some? ==> r.value == node.items[index]
  {
    if node.Array? && index < |node.items| then Some(node.items[index]) else None
  }

  /**
   * `node.asText()`: a string's own text, a number's literal, "true" or
   * "false", "null" for a JSON null, and the empty string for a missing node,
   * an object or an array.
   */
  function AsText(node: Json): (r: string)
    ensures node.Text? ==> r == node.value
    ensures node.Missing? || node.Object? || node.Array? ==> r == ""
    ensures node.Null? ==> r == "null"
  {
    match node
    case Text(s) => s
    case Number(lit) => lit
    case Bool(b) => if b then "true" else "false"
    case Null => "null"
    case Object(_) => ""
    case Array(_) => ""
    case Missing => ""
  }
}
