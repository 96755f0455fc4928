/**
 * The values `json.loads` produces. Parsing itself is outside the model: callers receive
 * `Option<Value>`, with `None` standing for the `JSONDecodeError` that `json.loads` raises.
 */
module Json {

  datatype Value =
    | JNull
    | JBool(b: bool)
    | JInt(i: int)
    /** A non-integral number, kept as its literal: `/generate` only asks for its type, and
        `/analyze` hands it back to the client without computing with it. */
    | JFloat(literal: string)
    | JStr(s: string)
    | JArr(items: seq<Value>)
    | JObj(fields: map<string, Value>)

  /** The Python type name of the decoded value, as it appears in exception messages. */
  function TypeName(v: Value): string {
    match v
    case JNull => "NoneType"
    case JBool(_) => "bool"
    case JInt(_) => "int"
    case JFloat(_) => "float"
    case JStr(_) => "str"
    case JArr(_) => "list"
    case JObj(_) => "dict"
  }

  /** The `AttributeError` raised when `attr` is looked up on `owner`. */
  datatype AttributeError = AttributeError(owner: Value, attr: string)

  /** `str(e)` of such an error. */
  function Message(e: AttributeError): string {
    "'" + TypeName(e.owner) + NoAttribute + e.attr + "'"
  }

  const NoAttribute := "' object has no attribute '"

  /** A list entry has no `get`: "'list' object has no attribute 'get'". */
  lemma ListHasNoGet()
    ensures Message(AttributeError(JArr([]), "get")) == "'list" + NoAttribute + "get'"
  {
    assert "'" + "list" == "'list" && "get" + "'" == "get'";
  }

  /** A null field has no `strip`: "'NoneType' object has no attribute 'strip'". */
  lemma NullHasNoStrip()
    ensures Message(AttributeError(JNull, "strip")) == "'NoneType" + NoAttribute + "strip'"
  {
    assert "'" + "NoneType" == "'NoneType" && "strip" + "'" == "strip'";
  }
}
