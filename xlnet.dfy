/** `XLNetModel`: the XLNet predictor's context handling. */
module XLNet {
  import opened Outcomes
  import opened Words
  import opened LanguageModel
  import CW = ContextWindow

  class XLNetModel {
    const windowLength: nat
    const numPossibilities: nat
    /** The pretrained network and tokenizer, as a function of the context. */
    const network: Network
    var context: seq<Word>

    /** A falsy `initial_context` (`None`, or the default empty string or
        list) gives an empty context. */
    constructor (contextWindowLength: nat, nextWordPossibilitiesNumber: nat,
                 initialContext: Option<seq<Word>>, network: Network)
      ensures windowLength == contextWindowLength
      ensures numPossibilities == nextWordPossibilitiesNumber
      ensures this.network == network
      ensures initialContext.Some? ==> context == initialContext.value
      ensures initialContext.None? ==> context == []
    {
      windowLength := contextWindowLength;
      numPossibilities := nextWordPossibilitiesNumber;
      this.network := network;
      if initialContext.Some? && initialContext.value != [] {
        context := initialContext.value;
      } else {
        context := [];
      }
    }

    /** Raises on a context longer than the window, else installs it as is. */
    method Reset(newContext: seq<Word>) returns (r: Outcome)
      modifies this
      ensures r == Fail(ContextTooLong) <==> |newContext| > windowLength
      ensures r == Pass ==> context == newContext
      ensures CW.Applied(CW.Reset(CW.Reject, windowLength, newContext), r, old(context), context)
    {
      if |newContext| > windowLength {
        return Fail(ContextTooLong);
      }
      context := newContext;
      return Pass;
    }

    /** Asserts the context fits, drops the last word when the window is
        full, and appends `word`. */
    method AddWordToContext(word: Word) returns (r: Outcome)
      modifies this
      ensures CW.Applied(CW.AddWord(windowLength, old(context), word), r, old(context), context)
    {
      if |context| > windowLength {
        return Fail(ContextOverrun);
      }
      if |context| == windowLength {
        if context == [] {
          return Fail(PopFromEmpty);
        }
        context := context[..|context| - 1];
      }
      context := context + [word];
      return Pass;
    }

    /** `__call__`: the next-word ranking for the current context. */
    method Predict() returns (m: Mapping)
      ensures m == network(context)
    {
      m := network(context);
    }
  }
}
