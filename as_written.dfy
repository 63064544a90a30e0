/** The codec driver exactly as written, where both `reset` calls receive the
    space-joined initial context, a `str`, instead of its list of words, and
    the decoder's result is built as `str + list`. A `str` context has a
    length (its number of characters) but no `pop` or `append`. */
module AsWritten {
  import opened Outcomes
  import opened Words
  import opened LanguageModel
  import opened RankCodec
  import CW = ContextWindow

  /** `add_word_to_context` on a `str` context: the length assertion still
      applies, and then `pop()` or `append(word)` is an AttributeError. */
  function AddWordToString(window: nat, ctx: string, word: Word): (r: Result<string>)
    ensures r.Failure?
    ensures r.error == ContextOverrun <==> |ctx| > window
    ensures r.error == NoListMethod <==> |ctx| <= window
  {
    if |ctx| > window then Failure(ContextOverrun) else Failure(NoListMethod)
  }

  /** What `' '.join(self.context)` in a model's `__call__` makes of a `str`
      context: its characters, each taken as a word. */
  function CharsAsWords(s: string): (ws: seq<Word>)
    ensures |ws| == |s|
    ensures forall i :: 0 <= i < |s| ==> ws[i] == [s[i]]
  {
    seq(|s|, i requires 0 <= i < |s| => [s[i]])
  }

  /** `_get_compressed_object` as written: `reset` is given the joined
      initial context; the first later word is then ranked against the
      prediction for that context and fed to the model, which fails. */
  function EncodeTextAsWritten(policy: CW.ResetPolicy, net: Network, window: nat,
                               contextLength: nat, text: string): (r: Result<CompressedObject>)
    ensures r.Failure?
  {
    var words := Split(text);
    if |words| <= contextLength then Failure(NotEnoughWords)
    else match CW.Reset(policy, window, Join(words[..contextLength]))
      case Failure(e) => Failure(e)
      case Success(ctx) => Failure(AddWordToString(window, ctx, words[contextLength]).error)
  }

  /** `_get_string_from_compressed_object` as written: `reset` is given the
      stored string; the first item is looked up and fed to the model, which
      fails, and with no items the final `str + list` fails instead. */
  function DecodeObjectAsWritten(policy: CW.ResetPolicy, net: Network, window: nat,
                                 obj: CompressedObject): (r: Result<string>)
    ensures r.Failure?
  {
    match CW.Reset(policy, window, obj.initialContext)
    case Failure(e) => Failure(e)
    case Success(ctx) =>
      if obj.words == [] then Failure(StrPlusList)
      else match DecodeEntry(Predicted(net, CharsAsWords(ctx)), obj.words[0])
        case Failure(e) => Failure(e)
        case Success(w) => Failure(AddWordToString(window, ctx, w).error)
  }

  /** Whenever the codec with the word-list reset encodes a text, the code as
      written fails on it: a raising model rejects the joined string when it
      is longer than the window, and otherwise the first word fed back finds
      a `str` context. */
  lemma EncodeAsWrittenFails(policy: CW.ResetPolicy, net: Network, window: nat, contextLength: nat, text: string)
    requires EncodeText(policy, net, window, contextLength, text).Success?
    requires window > 0
    ensures EncodeTextAsWritten(policy, net, window, contextLength, text).error
         == (if policy == CW.Reject && |Join(Split(text)[..contextLength])| > window
             then ContextTooLong else NoListMethod)
  {
    var head := Split(text)[..contextLength];
    var r := CW.Reset(policy, window, Join(head));
    if r.Success? {
      assert |r.value| <= window;
    }
  }

  /** With nine or more words of initial context and a window of 16, the
      joined string never fits, so a raising model rejects it although the
      list of the same words fits. */
  lemma StringResetRejected(text: string, contextLength: nat, window: nat)
    requires |Split(text)| > contextLength > 0
    requires 2 * contextLength - 1 > window >= contextLength
    ensures CW.Reset(CW.Reject, window, Join(Split(text)[..contextLength])) == Failure(ContextTooLong)
    ensures CW.Reset(CW.Reject, window, Split(text)[..contextLength]) == Success(Split(text)[..contextLength])
  {
    SplitWellFormed(text);
    var head := Split(text)[..contextLength];
    assert AllWellFormed(head);
    JoinLength(head);
  }

  /** "the quick brown fox": the word-list codec encodes it and decodes it
      back, while the code as written fails on both sides. "the quick" has 9
      characters, so it fits the window and the failure is the missing
      `append`; decoding asks the predictor about a 9-character context, for
      which it proposes nothing, so ranking 0 is out of range. */
  lemma QuickBrownFoxAsWritten(text: string)
    requires text == "the quick brown fox"
    ensures EncodeText(CW.Reject, QuickFox, 16, 2, text)
         == Success(CompressedObject("the quick", [Ranked(0), Ranked(0)]))
    ensures EncodeTextAsWritten(CW.Reject, QuickFox, 16, 2, text) == Failure(NoListMethod)
    ensures DecodeObject(CW.Reject, QuickFox, 16, CompressedObject("the quick", [Ranked(0), Ranked(0)]))
         == Success(text)
    ensures DecodeObjectAsWritten(CW.Reject, QuickFox, 16, CompressedObject("the quick", [Ranked(0), Ranked(0)]))
         == Failure(RankOutOfRange)
  {
    QuickBrownFox(text);
    var words: seq<Word> := ["the", "quick", "brown", "fox"];
    QuickBrownFoxWords(text, words);
    assert |"the quick"| == 9;
    assert CW.Reset(CW.Reject, 16, "the quick") == Success("the quick");
    assert |CharsAsWords("the quick")| == 9;
    assert Keys(QuickFox(CharsAsWords("the quick"))) == [];
  }

  /** As written, whenever the first stored item can be looked up in the
      prediction for the character context, decoding fails at the `append`
      that follows; the lookup's own success depends on the predictor. */
  lemma DecodeAsWrittenFails(policy: CW.ResetPolicy, net: Network, window: nat, obj: CompressedObject)
    requires |obj.initialContext| <= window
    requires obj.words != []
    requires DecodeEntry(Predicted(net, CharsAsWords(obj.initialContext)), obj.words[0]).Success?
    ensures DecodeObjectAsWritten(policy, net, window, obj) == Failure(NoListMethod)
  {
  }

  /** An object with no stored words decodes to its initial context with the
      corrected join, and fails on `str + list` as written. */
  lemma EmptyObjectJoin(policy: CW.ResetPolicy, net: Network, window: nat, initialContext: string)
    requires |initialContext| <= window
    ensures DecodeObject(policy, net, window, CompressedObject(initialContext, []))
         == Success(Join(Split(initialContext)))
    ensures DecodeObjectAsWritten(policy, net, window, CompressedObject(initialContext, [])) == Failure(StrPlusList)
  {
    assert |Split(initialContext)| <= |initialContext| by {
      SplitShorter(initialContext);
    }
    assert Split(initialContext) + [] == Split(initialContext);
  }
}
