/** `BERTModel`: the BERT predictor's context handling. Its `__call__`
    returns one decoded token rather than a ranking, so it has no `Predict`
    here and cannot drive the codec. */
module Bert {
  import opened Outcomes
  import opened Words
  import CW = ContextWindow

  class BERTModel {
    const windowLength: nat
    const numPossibilities: nat
    var context: seq<Word>

    /** A falsy `initial_context` (`None`, or the default empty string or
        list) gives an empty context. */
    constructor (contextWindowLength: nat, nextWordPossibilitiesNumber: nat,
                 initialContext: Option<seq<Word>>)
      ensures windowLength == contextWindowLength
      ensures numPossibilities == nextWordPossibilitiesNumber
      ensures initialContext.Some? ==> context == initialContext.value
      ensures initialContext.None? ==> context == []
    {
      windowLength := contextWindowLength;
      numPossibilities := nextWordPossibilitiesNumber;
      if initialContext.Some? && initialContext.value != [] {
        context := initialContext.value;
      } else {
        context := [];
      }
    }

    /** Raises on a context longer than the window, else installs it as is. */
    method Reset(newContext: seq<Word>) returns (r: Outcome)
      modifies this
      ensures r == Fail(ContextTooLong) <==> |newContext| > windowLength
      ensures r == Pass ==> context == newContext
      ensures CW.Applied(CW.Reset(CW.Reject, windowLength, newContext), r, old(context), context)
    {
      if |newContext| > windowLength {
        return Fail(ContextTooLong);
      }
      context := newContext;
      return Pass;
    }

    /** Asserts the context fits, drops the last word when the window is
        full, and appends `word`. */
    method AddWordToContext(word: Word) returns (r: Outcome)
      modifies this
      ensures CW.Applied(CW.AddWord(windowLength, old(context), word), r, old(context), context)
    {
      if |context| > windowLength {
        return Fail(ContextOverrun);
      }
      if |context| == windowLength {
        if context == [] {
          return Fail(PopFromEmpty);
        }
        context := context[..|context| - 1];
      }
      context := context + [word];
      return Pass;
    }
  }
}
