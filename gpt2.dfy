/** `GPT2Model`: the GPT-2 predictor's context handling. Unlike the other
    models, its `reset` truncates an oversize context instead of raising. */
module Gpt2 {
  import opened Outcomes
  import opened Words
  import opened LanguageModel
  import CW = ContextWindow

  class GPT2Model {
    const windowLength: nat
    const numPossibilities: nat
    /** The pretrained network and tokenizer, as a function of the context. */
    const network: Network
    var context: seq<Word>

    /** A falsy `initial_context` (`None`, or the default empty string or
        list) gives an empty context. */
    constructor (contextWindowLength: nat, nextWordPossibilitiesNumber: nat,
                 initialContext: Option<seq<Word>>, network: Network)
      ensures windowLength == contextWindowLength
      ensures numPossibilities == nextWordPossibilitiesNumber
      ensures this.network == network
      ensures initialContext.Some? ==> context == initialContext.value
      ensures initialContext.None? ==> context == []
    {
      windowLength := contextWindowLength;
      numPossibilities := nextWordPossibilitiesNumber;
      this.network := network;
      if initialContext.Some? && initialContext.value != [] {
        context := initialContext.value;
      } else {
        context := [];
      }
    }

    /** Keeps only the last `windowLength` words of an oversize context
        (Python's `new_context[-window_length:]`, which keeps everything when
        the window length is 0), then installs it. */
    method Reset(newContext: seq<Word>)
      modifies this
      ensures |newContext| <= windowLength ==> context == newContext
      ensures windowLength > 0 ==> |context| <= windowLength
      ensures windowLength > 0 && |newContext| > windowLength ==>
                context == newContext[|newContext| - windowLength..]
      ensures CW.Applied(CW.Reset(CW.KeepLast, windowLength, newContext), Pass, old(context), context)
    {
      var fitted := newContext;
      if |newContext| > windowLength {
        fitted := if windowLength == 0 then newContext
                  else newContext[|newContext| - windowLength..];
      }
      context := fitted;
    }

    /** Asserts the context fits, drops the last word when the window is
        full, and appends `word`. */
    method AddWordToContext(word: Word) returns (r: Outcome)
      modifies this
      ensures CW.Applied(CW.AddWord(windowLength, old(context), word), r, old(context), context)
    {
      if |context| > windowLength {
        return Fail(ContextOverrun);
      }
      if |context| == windowLength {
        if context == [] {
          return Fail(PopFromEmpty);
        }
        context := context[..|context| - 1];
      }
      context := context + [word];
      return Pass;
    }

    /** `__call__`: the next-word ranking for the current context. */
    method Predict() returns (m: Mapping)
      ensures m == network(context)
    {
      m := network(context);
    }
  }
}
