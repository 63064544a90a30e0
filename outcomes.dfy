/** Failures raised by the codec and the language models, and the result
    types that carry them. */
module Outcomes {

  /** The exceptions the modelled code can raise. */
  datatype Error =
    | NotEnoughWords   // AssertionError: the text has no more words than the window
    | ContextTooLong   // Exception raised by `reset` on an oversize context
    | ContextOverrun   // AssertionError in `add_word_to_context`: context already too long
    | PopFromEmpty     // IndexError: `pop()` on an empty context (window length 0)
    | RankOutOfRange   // IndexError: a ranking outside the candidate list on decode
    | NoListMethod     // AttributeError: `pop` or `append` called on a `str` context
    | StrPlusList      // TypeError: a `str` concatenated with a `list`

  datatype Option<T> = None | Some(value: T)

  datatype Result<T> = Success(value: T) | Failure(error: Error)

  /** The outcome of an operation that returns nothing but may raise. */
  datatype Outcome = Pass | Fail(error: Error)
}
