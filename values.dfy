/** Values shared by the whole model: an optional value and the JSON shapes the handlers send. */
module Values {

  /** A request field or a query result that may be absent (`undefined` or `null`). */
  datatype Option<+T> = None | Some(value: T)

  /** A JSON value as it appears in a response body. */
  datatype Json =
    | Null
    | Str(s: string)
    | Num(n: int)
    | Bool(b: bool)
    | Obj(fields: map<string, Json>)
}
