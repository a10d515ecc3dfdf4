/**
 Explicit outcomes in place of Python's `None` and exceptions. A `Failure`
 carries the exception class the bot would see and the text it was raised
 with; `Describe` is Python's `str(error)` for it.
 */
module Outcomes {

  datatype Option<+T> = None | Some(value: T)

  /** The exceptions a poll cycle can raise, by class. */
  datatype Failure =
    | FetchError(text: string)  // anything the API request raised; its text is opaque
    | TypeError(text: string)
    | KeyError(text: string)

  datatype Result<+T> = Ok(value: T) | Err(error: Failure) {

    predicate IsFailure() {
      Err?
    }

    function PropagateFailure<U>(): Result<U>
      requires Err?
    {
      Err(error)
    }

    function Extract(): T
      requires Ok?
    {
      value
    }
  }

  /**
   `str(error)`. A `KeyError` prints the repr of its argument, so its text
   comes out between single quotes; the other classes print their text as is.
   */
  function Describe(e: Failure): (s: string)
    ensures e.KeyError? ==>
              |s| == |e.text| + 2 && s[0] == '\'' && s[|s| - 1] == '\'' && s[1..|s| - 1] == e.text
    ensures !e.KeyError? ==> s == e.text
  {
    match e
    case FetchError(t) => t
    case TypeError(t) => t
    case KeyError(t) => "'" + t + "'"
  }
}
