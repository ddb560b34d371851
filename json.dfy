/** The values `json.loads` produces. The parser itself is not part of this model:
    operations that parse text take it as a parameter `parse: string -> Option<Json>`,
    where `None` stands for the `JSONDecodeError` it raises. */
module Json {
  import opened Wrappers

  datatype Json =
    | JNull
    | JBool(b: bool)
    | JNum(n: real)
    | JStr(s: string)
    | JArr(items: seq<Json>)
    | JObj(fields: map<string, Json>)

  /** The strings of a JSON array whose items are all strings. */
  function AsStrings(items: seq<Json>): (r: Option<seq<string>>)
    ensures r.Some? <==> forall i :: 0 <= i < |items| ==> items[i].JStr?
    ensures r.Some? ==> |r.value| == |items| && forall i :: 0 <= i < |items| ==> items[i] == JStr(r.value[i])
  {
    if items == [] then Some([])
    else if !items[0].JStr? then None
    else
      match AsStrings(items[1..])
      case None => None
      case Some(rest) => Some([items[0].s] + rest)
  }

  function StringsToJson(xs: seq<string>): (j: Json)
    ensures j.JArr? && |j.items| == |xs|
  {
    JArr(seq(|xs|, i requires 0 <= i < |xs| => JStr(xs[i])))
  }

  /** A JSON number whose value is an integer (what a model's `int` field accepts). */
  function AsInt(j: Json): (r: Option<int>)
    ensures r.Some? <==> j.JNum? && j.n.Floor as real == j.n
    ensures r.Some? ==> r.value as real == j.n
  {
    if j.JNum? && j.n.Floor as real == j.n then Some(j.n.Floor) else None
  }
}
