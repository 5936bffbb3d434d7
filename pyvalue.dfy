/** The Python values that the scripts put into the dictionaries built by their
    `to_dict` methods (and read back in `from_dict`). */
module PyValue {

  datatype Value =
    | Null                            // None
    | Str(s: string)                  // str
    | List(items: seq<Value>)         // list
    | Obj(fields: map<string, Value>) // dict with string keys

}
