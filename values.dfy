/** Python-level values, exceptions and callables as seen by the pipeline engine. */
module Values {

  datatype Option<+T> = None | Some(value: T)

  /** No element occurs twice. */
  ghost predicate Distinct<T>(s: seq<T>)
  {
    forall i, j :: 0 <= i < j < |s| ==> s[i] != s[j]
  }

  /** A return value, or the exception raised instead. */
  datatype Result<+T> = Ok(value: T) | Err(error: Exc)

  /** The values an edge function can receive or return. Records are pydantic
      models; `Tuple2` is the `(data, condition)` pair that a conditional's first
      edge produces; `ErrorRecord` is an `ErrorType` model. */
  datatype Value =
    | NoneValue
    | Bool(b: bool)
    | Model(kind: string, payload: string)
    | Tuple2(fst: Value, snd: Value)
    | ErrorRecord(item: Value, exception: string, excType: string)

  /** Python truthiness: None and False are falsy; models (which define neither
      `__bool__` nor `__len__`) and two-element tuples are truthy. */
  predicate Truthy(v: Value)
  {
    match v
    case NoneValue => false
    case Bool(b) => b
    case _ => true
  }

  /** A raised exception: its class name, the names of its base classes, and `str(e)`. */
  datatype Exc = Exc(excType: string, bases: set<string>, message: string)

  function Classes(e: Exc): set<string>
  {
    {e.excType} + e.bases
  }

  /** `isinstance(e, types)` for a tuple of exception classes. */
  predicate IsInstance(e: Exc, types: set<string>)
  {
    Classes(e) * types != {}
  }

  /** Whether `except Exception` catches `e` (a bare BaseException subclass is not caught). */
  predicate IsException(e: Exc)
  {
    "Exception" in Classes(e)
  }

  /** The KeyError that `dict.__getitem__` raises for a missing string key. Its message is
      the key's repr, which is the key in single quotes only when the key holds no single
      quote (a key with one is repr'd in double quotes, which is not modelled). */
  function KeyErrorFor(key: string): (e: Exc)
    ensures IsException(e) && IsInstance(e, {"KeyError"})
  {
    Exc("KeyError", {"LookupError", "Exception", "BaseException"}, "'" + key + "'")
  }

  function SeedErrorFor(message: string): (e: Exc)
    ensures IsException(e) && e.message == message
  {
    Exc("SeedError", {"Exception", "BaseException"}, message)
  }

  /** A TypeError with the given message. The message `if_cond_true` gets from subscripting
      a non-tuple is fixed here; Python's own wording, which names the value's type, is not
      modelled. */
  function TypeErrorFor(message: string): (e: Exc)
    ensures IsException(e) && IsInstance(e, {"TypeError"}) && e.message == message
  {
    Exc("TypeError", {"Exception", "BaseException"}, message)
  }

  /** `ErrorType(item=item, exception=str(e), exc_type=str(type(e)))`. */
  function ErrorFor(item: Value, e: Exc): (r: Value)
    ensures Truthy(r) && r.ErrorRecord? && r.item == item && r.exception == e.message
  {
    ErrorRecord(item, e.message, "<class '" + e.excType + "'>")
  }

  datatype Outcome = Returned(value: Value) | Raised(exc: Exc)

  /** A Python callable: its `__name__` (a lambda's is "<lambda>") and its behaviour. */
  datatype Callable = Callable(name: string, call: Value -> Outcome)

  const LambdaName: string := "<lambda>"
}
