/** The values `json.loads` produces, the small Option/Result wrappers the
    model uses for optional inputs and failures, and the Python type name that
    the loader records for every value it sees. */
module Json {

  datatype Option<T> = None | Some(value: T)

  datatype Result<T, E> = Ok(value: T) | Err(error: E)

  /** A decoded JSON value, as the Python object `json.loads` returns:
      `None`, `bool`, `int`, `float`, `str`, `list` or `dict`. */
  datatype JsonValue =
    | JNull
    | JBool(b: bool)
    | JInt(i: int)
    | JFloat(f: real)
    | JStr(s: string)
    | JList(items: seq<JsonValue>)
    | JDict(fields: map<string, JsonValue>)

  /** The names `type(value).__name__` gives for decoded JSON values. */
  datatype TypeTag = TDict | TList | TStr | TInt | TFloat | TBool | TNoneType

  /** The tag of a value. Python's `bool` is its own type, so `true` is
      tagged `bool` and never `int`. */
  function TypeOf(v: JsonValue): TypeTag
  {
    match v
    case JNull => TNoneType
    case JBool(_) => TBool
    case JInt(_) => TInt
    case JFloat(_) => TFloat
    case JStr(_) => TStr
    case JList(_) => TList
    case JDict(_) => TDict
  }

  /** The tag as Python spells it. */
  function TypeName(t: TypeTag): string
  {
    match t
    case TDict => "dict"
    case TList => "list"
    case TStr => "str"
    case TInt => "int"
    case TFloat => "float"
    case TBool => "bool"
    case TNoneType => "NoneType"
  }

  /** Two values get the same tag exactly when they are of the same kind, and
      distinct tags have distinct Python names. */
  lemma TypeOfSeparatesKinds(v: JsonValue, w: JsonValue)
    ensures TypeOf(v) == TypeOf(w) <==>
      (v.JNull? && w.JNull?) || (v.JBool? && w.JBool?) || (v.JInt? && w.JInt?)
      || (v.JFloat? && w.JFloat?) || (v.JStr? && w.JStr?) || (v.JList? && w.JList?)
      || (v.JDict? && w.JDict?)
    ensures TypeName(TypeOf(v)) == TypeName(TypeOf(w)) <==> TypeOf(v) == TypeOf(w)
  {
  }
}
