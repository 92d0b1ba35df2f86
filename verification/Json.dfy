/** JSON values as they occur in token claims. */
module Json {
  datatype Value = Null | Bool(b: bool) | Number(n: real) | String(s: string) | Array(items: seq<Value>) | Obj(fields: Object)

  type Object = map<string, Value>
}
