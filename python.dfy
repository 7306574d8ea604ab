/**
 * The slice of Python's runtime the server code relies on: JSON values as
 * json.loads builds them, the exceptions the server raises or catches, and
 * `str(e)` of those exceptions.
 */
module PyRuntime {
  import opened Wrappers
  import Text

  /** A value json.loads can return (a dict's key order is not kept). */
  datatype Json =
    | JNull
    | JBool(b: bool)
    | JNum(n: real)
    | JStr(s: string)
    | JArr(items: seq<Json>)
    | JObj(fields: map<string, Json>)

  /** The exceptions that matter to the server's handlers. */
  datatype PyExc =
    | HTTPException(status: nat, detail: string)   // FastAPI's HTTPException
    | ValueError(message: string)                  // also json.JSONDecodeError, a ValueError subclass
    | TypeError(message: string)
    | KeyError(key: string)                        // key as repr() shows it
    | IndexError(message: string)
    | LibraryError(message: string)                // raised inside pdfminer or python-docx
    | Exception(message: string)                   // a plain `Exception(...)`

  // The messages CPython gives the TypeError, IndexError and ValueError raised below.
  const ArgumentOfType := "argument of type '"
  const NotIterable := "' is not iterable"
  const ObjectOfType := "object of type '"
  const HasNoLen := "' has no len()"
  const ListIndexRange := "list index out of range"
  const ListIndicesType := "list indices must be integers or slices, not str"
  const StringIndexRange := "string index out of range"
  const StringIndicesType := "string indices must be integers, not 'str'"
  const NotSubscriptable := "' object is not subscriptable"
  const CannotConvert := "could not convert string to float: '"
  const FloatArgument := "float() argument must be a string or a real number, not '"

  /** `str(e)`; for an HTTPException, Starlette's "<status>: <detail>". */
  function Str(e: PyExc): (r: string)
    ensures e.HTTPException? ==>
              var n := |Text.NatToString(e.status)|;
              && n < |r| && Text.IsDigits(r[..n]) && Text.DecimalValue(r[..n]) == e.status
              && r[n..] == ": " + e.detail
    ensures e.KeyError? ==> r == e.key
    ensures !e.HTTPException? && !e.KeyError? ==> r == e.message
  {
    match e
    case HTTPException(status, detail) =>
      var digits := Text.NatToString(status);
      Text.DecimalRoundTrip(status);
      assert (digits + ": " + detail)[..|digits|] == digits;
      digits + ": " + detail
    case ValueError(m) => m
    case TypeError(m) => m
    case KeyError(k) => k
    case IndexError(m) => m
    case LibraryError(m) => m
    case Exception(m) => m
  }

  /** The name Python gives the type of a JSON value (a JSON number is read as 'float'). */
  function TypeName(j: Json): string
  {
    match j
    case JNull => "NoneType"
    case JBool(_) => "bool"
    case JNum(_) => "float"
    case JStr(_) => "str"
    case JArr(_) => "list"
    case JObj(_) => "dict"
  }

  /** `needle` occurs in s as a contiguous substring. */
  predicate IsSubstring(needle: string, s: string)
  {
    needle <= s || (s != [] && IsSubstring(needle, s[1..]))
  }

  /** Python's `key in container` for a string key: dict keys, list elements, substrings; other types raise. */
  function Contains(container: Json, key: string): (r: Raises<bool>)
    ensures container.JObj? ==> r == Ok(key in container.fields)
    ensures container.JNull? || container.JBool? || container.JNum? ==> r.Err? && r.error.TypeError?
  {
    match container
    case JObj(fields) => Ok(key in fields)
    case JArr(items) => Ok(JStr(key) in items)
    case JStr(s) => Ok(IsSubstring(key, s))
    case _ => Err(TypeError(ArgumentOfType + TypeName(container) + NotIterable))
  }

  /** Python's len(); numbers, booleans and None have none. */
  function Len(j: Json): (r: Raises<nat>)
    ensures j.JArr? ==> r == Ok(|j.items|)
  {
    match j
    case JStr(s) => Ok(|s|)
    case JArr(items) => Ok(|items|)
    case JObj(fields) => Ok(|fields|)
    case _ => Err(TypeError(ObjectOfType + TypeName(j) + HasNoLen))
  }

  /** A subscript: a string key or an integer index. */
  datatype Key = Name(name: string) | Index(index: nat)

  /** Python's `j[key]` on a JSON value. */
  function GetItem(j: Json, key: Key): (r: Raises<Json>)
    ensures j.JObj? && key.Name? && key.name in j.fields ==> r == Ok(j.fields[key.name])
    ensures j.JArr? && key.Index? && key.index < |j.items| ==> r == Ok(j.items[key.index])
  {
    match j
    case JObj(fields) =>
      (match key
       case Name(n) => if n in fields then Ok(fields[n]) else Err(KeyError("'" + n + "'"))
       case Index(i) => Err(KeyError(Text.NatToString(i))))
    case JArr(items) =>
      (match key
       case Index(i) => if i < |items| then Ok(items[i]) else Err(IndexError(ListIndexRange))
       case Name(_) => Err(TypeError(ListIndicesType)))
    case JStr(s) =>
      (match key
       case Index(i) => if i < |s| then Ok(JStr([s[i]])) else Err(IndexError(StringIndexRange))
       case Name(_) => Err(TypeError(StringIndicesType)))
    case _ => Err(TypeError("'" + TypeName(j) + NotSubscriptable))
  }

  /** A computation that returns a value or raises. */
  type Raises<T> = Result<T, PyExc>

  /** The parts of Python's standard library, sqlite3 included, the model leaves uninterpreted. */
  datatype Runtime = Runtime(
    /** json.loads on a string: None when it raises JSONDecodeError. */
    jsonLoads: string -> Option<Json>,
    /** float() on a string: None when it raises ValueError. */
    floatOfString: string -> Option<real>,
    /** The text SQLite stores in a TEXT column for a number bound through sqlite3. */
    sqliteNumberText: real -> string)

  /** Python's float(x): numbers and booleans convert, strings are parsed, the rest raise TypeError. */
  function Float(rt: Runtime, j: Json): (r: Raises<real>)
    ensures j.JNum? ==> r == Ok(j.n)
    ensures j.JNull? || j.JArr? || j.JObj? ==> r.Err? && r.error.TypeError?
    ensures j.JStr? ==> (r.Err? <==> rt.floatOfString(j.s).None?) && (r.Err? ==> r.error.ValueError?)
  {
    match j
    case JNum(n) => Ok(n)
    case JBool(b) => Ok(if b then 1.0 else 0.0)
    case JStr(s) =>
      (match rt.floatOfString(s)
       case Some(x) => Ok(x)
       case None => Err(ValueError(CannotConvert + s + "'")))
    case _ => Err(TypeError(FloatArgument + TypeName(j) + "'"))
  }
}
