/** A decoded JSON value, as `json.load` hands it to the program. */
module Json {
  import opened OrderedDict

  /**
   * Numbers keep their literal text: the program never compares or computes
   * with them, it only passes them through.
   */
  datatype Value =
    | Null
    | Bool(b: bool)
    | Number(text: string)
    | Str(s: string)
    | Array(items: seq<Value>)
    | Object(members: Dict<Value>)
}
