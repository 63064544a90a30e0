/** `LMProtocol`: the codec driver. It owns one language model, resets it on
    the initial context and then walks the words, asking the model for a
    ranking before each word and feeding the word back afterwards. */
module Protocol {
  import opened Outcomes
  import opened Words
  import opened LanguageModel
  import opened Ranking
  import opened RankCodec
  import CW = ContextWindow
  import Gpt
  import Gpt2
  import XLNet

  /** The window length and candidate count the protocol always builds its
      model with, whatever parameters it is given itself. */
  const ModelSize: nat := 16

  /** The language-model classes that can drive the codec. */
  datatype ModelClass = GPTModel | GPT2Model | XLNetModel

  /** The protocol's model object, whichever class it belongs to. */
  datatype Model =
    | GptLM(gpt: Gpt.GPTModel)
    | Gpt2LM(gpt2: Gpt2.GPT2Model)
    | XLNetLM(xlnet: XLNet.XLNetModel)
  {
    function Obj(): object {
      match this
      case GptLM(g) => g
      case Gpt2LM(g) => g
      case XLNetLM(x) => x
    }

    function Class(): ModelClass {
      match this
      case GptLM(_) => GPTModel
      case Gpt2LM(_) => GPT2Model
      case XLNetLM(_) => XLNetModel
    }

    function Window(): nat {
      match this
      case GptLM(g) => g.windowLength
      case Gpt2LM(g) => g.windowLength
      case XLNetLM(x) => x.windowLength
    }

    function Possibilities(): nat {
      match this
      case GptLM(g) => g.numPossibilities
      case Gpt2LM(g) => g.numPossibilities
      case XLNetLM(x) => x.numPossibilities
    }

    function Net(): Network {
      match this
      case GptLM(g) => g.network
      case Gpt2LM(g) => g.network
      case XLNetLM(x) => x.network
    }

    /** GPT-2 truncates an oversize context on reset; the others raise. */
    function Policy(): CW.ResetPolicy {
      if Gpt2LM? then CW.KeepLast else CW.Reject
    }

    function Context(): seq<Word>
      reads Obj()
    {
      match this
      case GptLM(g) => g.context
      case Gpt2LM(g) => g.context
      case XLNetLM(x) => x.context
    }
  }

  /** `self.lm.reset(new_context)`. */
  method ResetModel(m: Model, newContext: seq<Word>) returns (r: Outcome)
    modifies m.Obj()
    ensures CW.Applied(CW.Reset(m.Policy(), m.Window(), newContext), r, old(m.Context()), m.Context())
  {
    match m
    case GptLM(g) => r := g.Reset(newContext);
    case Gpt2LM(g) => g.Reset(newContext); r := Pass;
    case XLNetLM(x) => r := x.Reset(newContext);
  }

  /** `self.lm.add_word_to_context(word)`. */
  method AddWordToModel(m: Model, word: Word) returns (r: Outcome)
    modifies m.Obj()
    ensures CW.Applied(CW.AddWord(m.Window(), old(m.Context()), word), r, old(m.Context()), m.Context())
  {
    match m
    case GptLM(g) => r := g.AddWordToContext(word);
    case Gpt2LM(g) => r := g.AddWordToContext(word);
    case XLNetLM(x) => r := x.AddWordToContext(word);
  }

  /** `self.lm()`. */
  method PredictModel(m: Model) returns (p: Mapping)
    ensures p == Predicted(m.Net(), m.Context())
  {
    match m
    case GptLM(g) => p := g.Predict();
    case Gpt2LM(g) => p := g.Predict();
    case XLNetLM(x) => p := x.Predict();
  }

  lemma ExtendNothing<T>(r: Result<seq<T>>)
    ensures Extend([], r) == r
  {
    if r.Success? {
      assert [] + r.value == r.value;
    }
  }

  /** One turn of the encoding loop, in terms of what remains to encode:
      word `i` is encoded against `ctx`, and the rest against `next`. */
  lemma EncodeStep(net: Network, window: nat, ctx: seq<Word>, ws: seq<Word>, i: nat,
                   done: seq<Entry>, next: seq<Word>)
    requires i < |ws|
    requires CW.AddWord(window, ctx, ws[i]) == Success(next)
    ensures Extend(done, EncodeWords(net, window, ctx, ws[i..]))
         == Extend(done + [EncodeWord(Predicted(net, ctx), ws[i])], EncodeWords(net, window, next, ws[i + 1..]))
    ensures CW.Feed(window, ctx, ws[i..]) == CW.Feed(window, next, ws[i + 1..])
  {
    assert ws[i..][0] == ws[i] && ws[i..][1..] == ws[i + 1..];
    var rest := EncodeWords(net, window, next, ws[i + 1..]);
    if rest.Success? {
      assert done + ([EncodeWord(Predicted(net, ctx), ws[i])] + rest.value)
          == (done + [EncodeWord(Predicted(net, ctx), ws[i])]) + rest.value;
    }
  }

  /** One turn of the decoding loop, in terms of what remains to decode:
      entry `i` decodes to `w` against `ctx`, and the rest against `next`. */
  lemma DecodeStep(net: Network, window: nat, ctx: seq<Word>, es: seq<Entry>, i: nat,
                   w: Word, done: seq<Word>, next: seq<Word>)
    requires i < |es|
    requires DecodeEntry(Predicted(net, ctx), es[i]) == Success(w)
    requires CW.AddWord(window, ctx, w) == Success(next)
    ensures Extend(done, DecodeWords(net, window, ctx, es[i..]))
         == Extend(done + [w], DecodeWords(net, window, next, es[i + 1..]))
  {
    assert es[i..][0] == es[i] && es[i..][1..] == es[i + 1..];
    var rest := DecodeWords(net, window, next, es[i + 1..]);
    if rest.Success? {
      assert done + ([w] + rest.value) == (done + [w]) + rest.value;
    }
  }

  /** A failed ranking lookup fails the whole decoding. */
  lemma DecodeStepFails(net: Network, window: nat, ctx: seq<Word>, es: seq<Entry>, i: nat, done: seq<Word>)
    requires i < |es|
    requires DecodeEntry(Predicted(net, ctx), es[i]).Failure?
    ensures Extend(done, DecodeWords(net, window, ctx, es[i..]))
         == Failure(DecodeEntry(Predicted(net, ctx), es[i]).error)
  {
    assert es[i..][0] == es[i];
  }

  class LMProtocol {
    const lm: Model
    const contextWindowLength: nat
    const nextWordPossibilitiesNumber: nat

    ghost predicate Valid() {
      lm.Window() == ModelSize && lm.Possibilities() == ModelSize
    }

    /** Builds the model with window length and candidate count 16; the
        protocol's own parameters only decide how many words open the text. */
    constructor (languageModel: ModelClass, network: Network,
                 contextWindowLength: nat, nextWordPossibilitiesNumber: nat)
      ensures Valid()
      ensures lm.Class() == languageModel && lm.Net() == network && lm.Context() == []
      ensures this.contextWindowLength == contextWindowLength
      ensures this.nextWordPossibilitiesNumber == nextWordPossibilitiesNumber
      ensures fresh(lm.Obj())
    {
      this.contextWindowLength := contextWindowLength;
      this.nextWordPossibilitiesNumber := nextWordPossibilitiesNumber;
      match languageModel {
        case GPTModel =>
          var g := new Gpt.GPTModel(ModelSize, ModelSize, None, network);
          lm := GptLM(g);
        case GPT2Model =>
          var g := new Gpt2.GPT2Model(ModelSize, ModelSize, None, network);
          lm := Gpt2LM(g);
        case XLNetModel =>
          var x := new XLNet.XLNetModel(ModelSize, ModelSize, None, network);
          lm := XLNetLM(x);
      }
    }

    /** `_get_compressed_object(text)`. On success the model has been reset
        on the initial context and fed every later word. */
    method GetCompressedObject(text: string) returns (r: Result<CompressedObject>)
      requires Valid()
      modifies lm.Obj()
      ensures r == EncodeText(lm.Policy(), lm.Net(), lm.Window(), contextWindowLength, text)
      ensures r.Failure? ==> lm.Context() == old(lm.Context())
      ensures r.Success? ==>
                var words := Split(text);
                |words| > contextWindowLength &&
                var ctx := CW.Reset(lm.Policy(), lm.Window(), words[..contextWindowLength]);
                ctx.Success? &&
                CW.Feed(lm.Window(), ctx.value, words[contextWindowLength..]) == Success(lm.Context())
    {
      var words := Split(text);
      if |words| <= contextWindowLength {
        return Failure(NotEnoughWords);
      }
      var initialContext := Join(words[..contextWindowLength]);
      var reset := ResetModel(lm, words[..contextWindowLength]);
      if reset.Fail? {
        return Failure(reset.error);
      }
      ghost var net, win := lm.Net(), lm.Window();
      ghost var ctx := lm.Context();
      ghost var later := words[contextWindowLength..];
      ghost var cur := ctx;
      var entries: seq<Entry> := [];
      var i := contextWindowLength;
      ExtendNothing(EncodeWords(net, win, ctx, later));
      while i < |words|
        invariant contextWindowLength <= i <= |words|
        invariant cur == lm.Context() && |cur| <= win
        invariant EncodeWords(net, win, ctx, later) == Extend(entries, EncodeWords(net, win, cur, words[i..]))
        invariant CW.Feed(win, ctx, later) == CW.Feed(win, cur, words[i..])
      {
        var word := words[i];
        var entry := Encode(word);
        assert cur == lm.Context();
        ghost var next := CW.AddWord(win, cur, word);
        assert next.Success?;
        var added := AddWordToModel(lm, word);
        assert CW.Applied(next, added, cur, lm.Context());
        EncodeStep(net, win, cur, words, i, entries, next.value);
        entries := entries + [entry];
        cur := next.value;
        i := i + 1;
      }
      assert words[i..] == [] && entries + [] == entries;
      assert EncodeWords(net, win, ctx, later) == Success(entries);
      assert CW.Reset(lm.Policy(), win, words[..contextWindowLength]) == Success(ctx);
      return Success(CompressedObject(initialContext, entries));
    }

    /** `_get_string_from_compressed_object(obj)`. On success the model has
        been reset on the initial context's words and fed every decoded word. */
    method GetStringFromCompressedObject(obj: CompressedObject) returns (r: Result<string>)
      requires Valid()
      modifies lm.Obj()
      ensures r == DecodeObject(lm.Policy(), lm.Net(), lm.Window(), obj)
      ensures r.Success? ==>
                var ctx := CW.Reset(lm.Policy(), lm.Window(), Split(obj.initialContext));
                ctx.Success? &&
                var decoded := DecodeWords(lm.Net(), lm.Window(), ctx.value, obj.words);
                decoded.Success? && CW.Feed(lm.Window(), ctx.value, decoded.value) == Success(lm.Context())
    {
      var initial := Split(obj.initialContext);
      var reset := ResetModel(lm, initial);
      if reset.Fail? {
        return Failure(reset.error);
      }
      ghost var net, win := lm.Net(), lm.Window();
      ghost var ctx := lm.Context();
      ghost var cur := ctx;
      var words: seq<Word> := [];
      var i := 0;
      ExtendNothing(DecodeWords(net, win, ctx, obj.words));
      assert obj.words[0..] == obj.words;
      while i < |obj.words|
        invariant 0 <= i <= |obj.words|
        invariant cur == lm.Context() && |cur| <= win
        invariant DecodeWords(net, win, ctx, obj.words) == Extend(words, DecodeWords(net, win, cur, obj.words[i..]))
        invariant CW.Feed(win, ctx, words) == Success(cur)
      {
        var item := LookUp(obj.words[i]);
        assert cur == lm.Context();
        if item.Failure? {
          DecodeStepFails(net, win, cur, obj.words, i, words);
          return Failure(item.error);
        }
        var word := item.value;
        ghost var next := CW.AddWord(win, cur, word);
        assert next.Success?;
        var added := AddWordToModel(lm, word);
        assert CW.Applied(next, added, cur, lm.Context());
        DecodeStep(net, win, cur, obj.words, i, word, words, next.value);
        CW.FeedAppend(win, ctx, words, word);
        words := words + [word];
        cur := next.value;
        i := i + 1;
      }
      assert obj.words[i..] == [] && words + [] == words;
      assert DecodeWords(net, win, ctx, obj.words) == Success(words);
      assert CW.Reset(lm.Policy(), win, initial) == Success(ctx);
      return Success(Join(initial + words));
    }

    /** How the next word is stored: the literal word when the model's
        prediction lacks it, otherwise its ranking in that prediction. */
    method Encode(word: Word) returns (entry: Entry)
      ensures entry == EncodeWord(Predicted(lm.Net(), lm.Context()), word)
      ensures lm.Context() == old(lm.Context())
    {
      var probabilities := PredictModel(lm);
      if !HasKey(probabilities, word) {
        entry := OutOfVocabulary(word);
      } else {
        entry := Ranked(RankingFromProbabilities(probabilities, word));
      }
    }

    /** The word one stored item stands for: the literal word, or the key at
        the item's ranking in the model's prediction, in the mapping's own
        order, with Python's negative indices counting from the end. */
    method LookUp(item: Entry) returns (r: Result<Word>)
      ensures r == DecodeEntry(Predicted(lm.Net(), lm.Context()), item)
      ensures r.Failure? ==> r.error == RankOutOfRange
      ensures lm.Context() == old(lm.Context())
    {
      match item {
        case OutOfVocabulary(w) =>
          r := Success(w);
        case Ranked(ranking) =>
          var probabilities := PredictModel(lm);
          var keys := Keys(probabilities);
          if 0 <= ranking < |keys| {
            r := Success(keys[ranking]);
          } else if -|keys| <= ranking < 0 {
            r := Success(keys[|keys| + ranking]);
          } else {
            r := Failure(RankOutOfRange);
          }
      }
    }
  }
}
