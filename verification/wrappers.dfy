/** Outcomes of the library's operations: either a value, or the Python
    exception the original code raises on that path. Every crash path of the
    modelled code is one of these errors rather than a precondition. */
module Wrappers {

  datatype Option<+T> = None | Some(value: T)

  /** The exceptions raised (explicitly or by the Python runtime) on the
      modelled paths. */
  datatype Error =
    | IndexError            // `xs[0]` on an empty list, `file[0]` of an empty file
    | KeyError              // lookup of a key a dictionary does not hold
    | ValueError            // `list.remove`/`int(...)` failures and explicit raises
    | AttributeError        // a method the receiver does not have (`set.append`)
    | TypeError             // an operation on an operand of the wrong type
    | AssertionError        // a failed `assert` in a constructor
    | NotImplementedError
    | NestedTiesError
    | UnopenedTieError
    | UnclosedTieError
    | ParticipantQuantityError
    | IDMisformatError
    | RepeatIDError

  datatype Result<+T> = Ok(value: T) | Err(error: Error) {

    predicate IsFailure() {
      Err?
    }

    function PropagateFailure<U>(): Result<U>
      requires Err?
    {
      Err(error)
    }

    function Extract(): T
      requires Ok?
    {
      value
    }
  }
}
