/** The JSON values the tester and the server exchange, and the one task kind they know. */
module Protocol {

  /** The only task kind either program acts on. */
  const MatrixMultiplication: string := "matrix_multiplication"

  /**
   * A decoded JSON value. Numbers are kept as the integers the tester
   * truncates them to; objects, booleans and null are not inspected and
   * collapse to `JOther`.
   */
  datatype Json = JNumber(n: int) | JString(s: string) | JArray(items: seq<Json>) | JOther

  /** A Go `v.([]interface{})` assertion whose failure is ignored: non-arrays give the empty slice. */
  function AsArray(v: Json): seq<Json>
  {
    if v.JArray? then v.items else []
  }

  /** A Go `v.(string)` assertion whose failure is ignored: non-strings give "". */
  function AsString(v: Json): string
  {
    if v.JString? then v.s else ""
  }

  /** Reading a field of a decoded object: a missing key reads as a value of no useful type. */
  function Field(obj: map<string, Json>, key: string): Json
  {
    if key in obj then obj[key] else JOther
  }
}
