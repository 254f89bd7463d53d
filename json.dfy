/**
 * JSON values as serde_json::Value holds them. Objects are maps, so key order
 * (which canonical JSON fixes by sorting) is not part of a value.
 */
module Json {
  import opened Wrappers

  datatype Json =
    | JNull
    | JBool(b: bool)
    | JInt(i: int)
    | JStr(s: string)
    | JArr(items: seq<Json>)
    | JObj(fields: map<string, Json>)

  /** A JSON array of strings, as serde renders a Vec<String>. */
  function StrArray(xs: seq<string>): Json {
    JArr(seq(|xs|, i requires 0 <= i < |xs| => JStr(xs[i])))
  }

  /** An optional string: serde renders None as null. */
  function OptStr(o: Option<string>): Json {
    match o
    case Some(s) => JStr(s)
    case None => JNull
  }

  /** A map of integers, as serde renders a HashMap<String, u32>. */
  function IntMap(m: map<string, nat>): Json {
    JObj(map k | k in m :: JInt(m[k]))
  }
}
