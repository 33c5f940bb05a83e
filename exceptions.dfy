/** Failure values for the game engine.
    QuestionActive stands for hide_and_seek_exceptions.QuestionActiveException; the other three
    stand for the Python built-in exceptions the engine's code raises on bad input: a failed
    `assert` (AssertionError), `list.remove` of an absent element or `random.randint` over an
    empty range (ValueError), and `random.choice` of an empty list (IndexError). */
module Exceptions {

  datatype Error = QuestionActive | AssertionFailed | ValueError | IndexError

  datatype Option<T> = None | Some(value: T)

  /** The result of an operation that either returns a value or raises. */
  datatype Result<T> = Ok(value: T) | Err(error: Error)

  /** The result of an operation that returns nothing or raises. */
  datatype Outcome = Pass | Fail(error: Error)
}
