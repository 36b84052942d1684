/**
  JSON documents as field maps.  The text form is a given pair of functions; `Faithful` is the one
  thing the proofs ask of it.
 */
module Json {
  import opened Text
  import opened Utf8

  datatype Value =
    | Null
    | Bool(b: bool)
    | Num(n: int)
    | Str(s: string)
    | Arr(items: seq<Value>)
    | Obj(fields: map<string, Value>)
  {
    /** `data.get(name)`. */
    function Get(name: string): Value {
      if Obj? && name in fields then fields[name] else Null
    }

    predicate Has(name: string) {
      Obj? && name in fields
    }
  }

  /** `json.dumps(...).encode("utf-8")` and `json.loads` of a file's text, nothing if it does not parse. */
  datatype Codec = Codec(dumps: Value -> seq<Byte>, loads: seq<Byte> -> Option<Value>) {
    ghost predicate Faithful() {
      forall v :: loads(dumps(v)) == Some(v)
    }
  }

  function OfOption(s: Option<string>): Value {
    match s
    case None => Null
    case Some(v) => Str(v)
  }
}
