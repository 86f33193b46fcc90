/** The slice of Python that the bot's decision logic touches: the values a
    JSON decoder produces, the exception kinds the bot's `except` chain tells
    apart, and the three operators the bot applies to decoded values
    (`value[key]`, `value[0]` and `key in value`), each with the outcome
    CPython gives for every kind of value. */
module Python {
  import opened Wrappers

  /** A decoded JSON value, as `response.json()` hands it over. Numbers are
      integers only; a dictionary is a map, so its insertion order is not kept. */
  datatype Json =
    | JNull
    | JBool(b: bool)
    | JNum(n: int)
    | JStr(s: string)
    | JList(items: seq<Json>)
    | JDict(fields: map<string, Json>)

  /** The exception classes that reach the bot's `except` chain. Python's
      built-in `ConnectionError` and the HTTP library's `RequestException`
      are separate classes; `OtherError` is every class the chain does not
      name on its own (the bare `Exception` raised on a non-200 answer, a
      `NameError`, a `ValueError`, ...). */
  datatype Kind =
    | ConnectionError
    | RequestException
    | TypeError
    | KeyError
    | IndexError
    | OtherError

  /** A raised exception: its class and its first argument. */
  datatype Exc = Exc(kind: Kind, text: string)

  /** The name CPython prints for the type of a decoded value. */
  function TypeName(j: Json): string {
    match j
    case JNull => "NoneType"
    case JBool(_) => "bool"
    case JNum(_) => "int"
    case JStr(_) => "str"
    case JList(_) => "list"
    case JDict(_) => "dict"
  }

  /** `j[key]` for a string key. Only a dictionary can be subscripted by a
      string; it raises `KeyError(key)` when the key is absent. Every other
      kind of value raises `TypeError`. */
  function Subscript(j: Json, key: string): (r: Result<Json, Exc>)
    ensures r.Success? <==> j.JDict? && key in j.fields
    ensures r.Success? ==> r.value == j.fields[key]
    ensures r.Failure? && j.JDict? ==> r.error == Exc(KeyError, key)
    ensures r.Failure? && !j.JDict? ==> r.error.kind == TypeError
  {
    match j
    case JDict(m) =>
      if key in m then Success(m[key]) else Failure(Exc(KeyError, key))
    case JList(_) =>
      Failure(Exc(TypeError, "list indices must be integers or slices, not str"))
    case JStr(_) =>
      Failure(Exc(TypeError, "string indices must be integers"))
    case _ =>
      Failure(Exc(TypeError, "'" + TypeName(j) + "' object is not subscriptable"))
  }

  /** `j[0]`. A list or a string yields its first element or raises
      `IndexError` when empty; a dictionary (whose keys are all strings)
      raises `KeyError(0)`; every other kind of value raises `TypeError`. */
  function First(j: Json): (r: Result<Json, Exc>)
    ensures j.JList? ==> (r.Success? <==> |j.items| > 0)
    ensures j.JList? && r.Success? ==> r.value == j.items[0]
    ensures j.JList? && r.Failure? ==> r.error.kind == IndexError
  {
    match j
    case JList(items) =>
      if |items| == 0 then Failure(Exc(IndexError, "list index out of range"))
      else Success(items[0])
    case JStr(s) =>
      if |s| == 0 then Failure(Exc(IndexError, "string index out of range"))
      else Success(JStr(s[..1]))
    case JDict(_) =>
      Failure(Exc(KeyError, "0"))
    case _ =>
      Failure(Exc(TypeError, "'" + TypeName(j) + "' object is not subscriptable"))
  }

  /** Whether `needle` occurs as a contiguous piece of `hay`. */
  predicate Occurs(needle: string, hay: string)
    decreases |hay|
  {
    if |hay| < |needle| then false
    else hay[..|needle|] == needle || Occurs(needle, hay[1..])
  }

  /** `key in j` for a string key: key membership for a dictionary, element
      equality for a list (a string equals only a string), substring search
      for a string; any other kind of value is not iterable and raises
      `TypeError`. */
  function In(key: string, j: Json): (r: Result<bool, Exc>)
    ensures j.JDict? ==> r == Success(key in j.fields)
    ensures j.JList? ==> r == Success(JStr(key) in j.items)
    ensures r.Failure? <==> j.JNull? || j.JBool? || j.JNum?
    ensures r.Failure? ==> r.error.kind == TypeError
  {
    match j
    case JDict(m) => Success(key in m)
    case JList(items) => Success(JStr(key) in items)
    case JStr(s) => Success(Occurs(key, s))
    case _ => Failure(Exc(TypeError, "argument of type '" + TypeName(j) + "' is not iterable"))
  }

  /** Whether a value can serve as a dictionary key (lists and dictionaries cannot). */
  predicate Hashable(j: Json) {
    !j.JList? && !j.JDict?
  }

  function DigitChar(d: nat): char
    requires d < 10
  {
    "0123456789"[d]
  }

  function Decimal(n: nat): string
    decreases n
  {
    if n < 10 then [DigitChar(n)] else Decimal(n / 10) + [DigitChar(n % 10)]
  }

  /** What an f-string placeholder prints for a decoded value (`str(j)`).
      Containers are shown as a bare bracket pair; see the README. */
  function Display(j: Json): string {
    match j
    case JStr(s) => s
    case JNull => "None"
    case JBool(b) => if b then "True" else "False"
    case JNum(n) => if n < 0 then "-" + Decimal(-n) else Decimal(n)
    case JList(_) => "[...]"
    case JDict(_) => "{...}"
  }
}
