/** The values the index generator handles: the Python literals found in a
    plugin's `bl_info` declaration, the JSON values of an index document, and
    the Python exceptions that end a run. */
module Values {

  datatype Option<+T> = None | Some(value: T)

  /** A Python literal or JSON value. A Python tuple behaves like a list in
      every step of the generator (membership test, then a failing
      `.copy()`/`.update()`), so both are `VList`. Dictionary keys are strings,
      as in a JSON object and in every `bl_info` declaration. */
  datatype Value =
    | VNone
    | VBool(b: bool)
    | VInt(i: int)
    | VStr(s: string)
    | VList(items: seq<Value>)
    | VDict(entries: map<string, Value>)

  /** The Python exceptions that escape `main` and abort a run. */
  datatype PyError =
    | OpenFailed(path: string)          // open() of a plugin source that is not a readable file
    | LiteralEvalFailed(path: string)   // ast.literal_eval rejected the right-hand side
    | NotAContainer(addonId: string)    // `key not in bl_info` on a value without `in`
    | NoDictMethods(addonId: string)    // bl_info.copy() / .update() on a list or a string
    | IndexUnreadable                   // index.json missing or not JSON, under --merge
    | IndexNotAnObject                  // existing_data.get on a JSON value that is not an object
    | UnsupportedSchema(found: Value)   // the ValueError raised by the schema check
    | MissingAddons                     // KeyError on existing_data['addons']
    | AddonsNotAnObject                 // addon_data.update on an 'addons' value that is not an object

  datatype Result<+T> = Ok(value: T) | Err(error: PyError)

  /** Python's `v == n` for an integer `n`: a bool compares equal to 0 or 1. */
  predicate EqualsInt(v: Value, n: int)
  {
    match v
    case VInt(i) => i == n
    case VBool(b) => (if b then 1 else 0) == n
    case _ => false
  }

  /** Python's `k in s` for two strings: `k` occurs in `s` as a substring. */
  predicate IsSubstring(k: string, s: string)
    decreases |s|
  {
    k <= s || (s != [] && IsSubstring(k, s[1..]))
  }
}
