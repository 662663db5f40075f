/** The documents exchanged with YAML: a mapping from string keys to values. */
module Documents {

  /** A YAML value as `yaml.safe_load` produces it (floats and non-string mapping keys are not modelled). */
  datatype Value =
    | Null
    | Bool(b: bool)
    | Int(i: int)
    | Str(s: string)
    | List(items: seq<Value>)
    | Mapping(entries: map<string, Value>)

  /** The one document a storage strategy manages: always a mapping at the top level. */
  type Document = map<string, Value>

  /** `{}`: what an in-memory strategy starts with and what an absent file loads as. */
  const EmptyDocument: Document := map[]

  /** Python truthiness of a value (`if value:`). */
  predicate Truthy(v: Value)
    ensures !Truthy(v) <==>
              v == Null || v == Bool(false) || v == Int(0) || v == Str("") || v == List([]) || v == Mapping(map[])
  {
    match v
    case Null => false
    case Bool(b) => b
    case Int(i) => i != 0
    case Str(s) => s != ""
    case List(items) => items != []
    case Mapping(entries) => entries != map[]
  }

  /** Whether Python can use the value as a dictionary key (lists and dicts cannot). */
  predicate Hashable(v: Value) {
    !v.List? && !v.Mapping?
  }
}
