/** The rank codec as functions: what `_get_compressed_object` and
    `_get_string_from_compressed_object` compute, for a language model given
    by its reset policy, its window length and its network. */
module RankCodec {
  import opened Outcomes
  import opened Words
  import opened LanguageModel
  import opened Ranking
  import CW = ContextWindow

  /** One element of `compressed_object['words']`. A ranking read back from
      a stored object can be any integer. */
  datatype Entry = OutOfVocabulary(word: Word) | Ranked(ranking: int)

  datatype CompressedObject = CompressedObject(initialContext: string, words: seq<Entry>)

  /** How one word is stored, given the mapping predicted for its position. */
  function EncodeWord(m: Mapping, w: Word): (e: Entry)
    ensures e.OutOfVocabulary? <==> !HasKey(m, w)
    ensures e.OutOfVocabulary? ==> e.word == w
    ensures e.Ranked? ==> 0 <= e.ranking < |m| && SortByScore(m)[e.ranking].word == w
  {
    if !HasKey(m, w) then OutOfVocabulary(w) else Ranked(RankingFromProbabilities(m, w))
  }

  /** `prefix` followed by the elements of a successful result. */
  function Extend<T>(prefix: seq<T>, r: Result<seq<T>>): Result<seq<T>> {
    match r
    case Success(xs) => Success(prefix + xs)
    case Failure(e) => Failure(e)
  }

  /** The encoding loop: predict, store the word, then feed it to the model. */
  function EncodeWords(net: Network, window: nat, ctx: seq<Word>, ws: seq<Word>): Result<seq<Entry>>
    decreases |ws|
  {
    if ws == [] then Success([])
    else
      var e := EncodeWord(net(ctx), ws[0]);
      match CW.AddWord(window, ctx, ws[0])
      case Failure(err) => Failure(err)
      case Success(next) => Extend([e], EncodeWords(net, window, next, ws[1..]))
  }

  /** Python's `ks[r]`, where a negative `r` counts from the end. */
  function PyIndex(ks: seq<Word>, r: int): (res: Result<Word>)
    ensures res.Success? <==> -|ks| <= r < |ks|
    ensures res.Failure? ==> res.error == RankOutOfRange
  {
    if 0 <= r < |ks| then Success(ks[r])
    else if -|ks| <= r < 0 then Success(ks[|ks| + r])
    else Failure(RankOutOfRange)
  }

  /** The word an entry stands for: the stored literal, or the key at the
      ranking in the mapping's own (unsorted) key order. */
  function DecodeEntry(m: Mapping, e: Entry): (r: Result<Word>)
    ensures e.OutOfVocabulary? ==> r == Success(e.word)
    ensures r.Failure? ==> e.Ranked? && r.error == RankOutOfRange
    ensures r.Success? && e.Ranked? ==> r.value in Keys(m)
  {
    match e
    case OutOfVocabulary(w) => Success(w)
    case Ranked(r) => PyIndex(Keys(m), r)
  }

  /** The decoding loop: recover the word, then feed it to the model. */
  function DecodeWords(net: Network, window: nat, ctx: seq<Word>, es: seq<Entry>): Result<seq<Word>>
    decreases |es|
  {
    if es == [] then Success([])
    else match DecodeEntry(net(ctx), es[0])
      case Failure(err) => Failure(err)
      case Success(w) =>
        match CW.AddWord(window, ctx, w)
        case Failure(err) => Failure(err)
        case Success(next) => Extend([w], DecodeWords(net, window, next, es[1..]))
  }

  /** `_get_compressed_object(text)`, with the model reset on the list of
      the first `contextLength` words. */
  function EncodeText(policy: CW.ResetPolicy, net: Network, window: nat,
                      contextLength: nat, text: string): (r: Result<CompressedObject>)
    ensures |Split(text)| <= contextLength ==> r == Failure(NotEnoughWords)
    ensures r.Success? ==> r.value.initialContext == Join(Split(text)[..contextLength])
    ensures |Split(text)| > contextLength ==>
              (CW.Reset(policy, window, Split(text)[..contextLength]).Failure? ==> r == Failure(ContextTooLong))
  {
    var words := Split(text);
    if |words| <= contextLength then Failure(NotEnoughWords)
    else match CW.Reset(policy, window, words[..contextLength])
      case Failure(e) => Failure(e)
      case Success(ctx) =>
        match EncodeWords(net, window, ctx, words[contextLength..])
        case Failure(e) => Failure(e)
        case Success(es) => Success(CompressedObject(Join(words[..contextLength]), es))
  }

  /** `_get_string_from_compressed_object(obj)`, with the model reset on the
      words of the stored initial context, and the result the initial
      context's words followed by the decoded ones, joined by spaces. */
  function DecodeObject(policy: CW.ResetPolicy, net: Network, window: nat,
                        obj: CompressedObject): (r: Result<string>)
    ensures CW.Reset(policy, window, Split(obj.initialContext)).Failure? ==> r == Failure(ContextTooLong)
  {
    var initial := Split(obj.initialContext);
    match CW.Reset(policy, window, initial)
    case Failure(e) => Failure(e)
    case Success(ctx) =>
      match DecodeWords(net, window, ctx, obj.words)
      case Failure(e) => Failure(e)
      case Success(ws) => Success(Join(initial + ws))
  }

  /** A predictor whose mappings already come in descending score order,
      which the decoder's unsorted lookup needs. */
  ghost predicate OrderedPredictor(net: Network) {
    forall c :: NonIncreasing(net(c))
  }

  /** The encoding has one entry per word, in order; entry `k` is the word
      encoded against the mapping predicted for the context reached by
      feeding the first `k` words. */
  lemma {:induction false} EncodeWordsSteps(net: Network, window: nat, ctx: seq<Word>, ws: seq<Word>)
    requires EncodeWords(net, window, ctx, ws).Success?
    ensures |EncodeWords(net, window, ctx, ws).value| == |ws|
    ensures forall k :: 0 <= k < |ws| ==>
              CW.Feed(window, ctx, ws[..k]).Success? &&
              EncodeWords(net, window, ctx, ws).value[k]
                == EncodeWord(net(CW.Feed(window, ctx, ws[..k]).value), ws[k])
    decreases |ws|
  {
    if ws != [] {
      var next := CW.AddWord(window, ctx, ws[0]).value;
      var es := EncodeWords(net, window, ctx, ws).value;
      EncodeWordsSteps(net, window, next, ws[1..]);
      assert es == [EncodeWord(net(ctx), ws[0])] + EncodeWords(net, window, next, ws[1..]).value;
      forall k | 0 <= k < |ws|
        ensures CW.Feed(window, ctx, ws[..k]).Success?
        ensures es[k] == EncodeWord(net(CW.Feed(window, ctx, ws[..k]).value), ws[k])
      {
        if k == 0 {
          assert ws[..0] == [];
        } else {
          assert ws[..k][0] == ws[0];
          assert ws[..k][1..] == ws[1..][..k - 1];
          assert ws[1..][k - 1] == ws[k];
        }
      }
    }
  }

  /** The decoding has one word per entry, in order; word `k` is entry `k`
      decoded against the mapping predicted for the context reached by
      feeding the first `k` decoded words. */
  lemma {:induction false} DecodeWordsSteps(net: Network, window: nat, ctx: seq<Word>, es: seq<Entry>)
    requires DecodeWords(net, window, ctx, es).Success?
    ensures |DecodeWords(net, window, ctx, es).value| == |es|
    ensures forall k :: 0 <= k < |es| ==>
              var ds := DecodeWords(net, window, ctx, es).value;
              CW.Feed(window, ctx, ds[..k]).Success? &&
              DecodeEntry(net(CW.Feed(window, ctx, ds[..k]).value), es[k]) == Success(ds[k])
    decreases |es|
  {
    if es != [] {
      var w := DecodeEntry(net(ctx), es[0]).value;
      var next := CW.AddWord(window, ctx, w).value;
      var ds := DecodeWords(net, window, ctx, es).value;
      DecodeWordsSteps(net, window, next, es[1..]);
      var rest := DecodeWords(net, window, next, es[1..]).value;
      assert ds == [w] + rest;
      forall k | 0 <= k < |es|
        ensures CW.Feed(window, ctx, ds[..k]).Success?
        ensures DecodeEntry(net(CW.Feed(window, ctx, ds[..k]).value), es[k]) == Success(ds[k])
      {
        if k == 0 {
          assert ds[..0] == [];
        } else {
          assert ds[..k][0] == w;
          assert ds[..k][1..] == rest[..k - 1];
          assert es[1..][k - 1] == es[k];
        }
      }
    }
  }

  /** The encoding loop cannot fail its window assertion when it starts from
      a context that fits a non-empty window. */
  lemma {:induction false} EncodeWordsSucceed(net: Network, window: nat, ctx: seq<Word>, ws: seq<Word>)
    requires 0 < window && |ctx| <= window
    ensures EncodeWords(net, window, ctx, ws).Success?
    decreases |ws|
  {
    if ws != [] {
      EncodeWordsSucceed(net, window, CW.AddWord(window, ctx, ws[0]).value, ws[1..]);
    }
  }

  /** Decoding what was encoded against the same context gives the words
      back, given a predictor whose mappings are already ordered. */
  lemma {:induction false} RoundTripWords(net: Network, window: nat, ctx: seq<Word>, ws: seq<Word>)
    requires OrderedPredictor(net)
    requires EncodeWords(net, window, ctx, ws).Success?
    ensures DecodeWords(net, window, ctx, EncodeWords(net, window, ctx, ws).value) == Success(ws)
    decreases |ws|
  {
    if ws != [] {
      var m := net(ctx);
      var e := EncodeWord(m, ws[0]);
      var next := CW.AddWord(window, ctx, ws[0]).value;
      var es := EncodeWords(net, window, ctx, ws).value;
      assert es == [e] + EncodeWords(net, window, next, ws[1..]).value;
      if e.Ranked? {
        assert NonIncreasing(m);
        RankingOnOrdered(m, ws[0]);
      }
      assert DecodeEntry(m, es[0]) == Success(ws[0]);
      assert es[1..] == EncodeWords(net, window, next, ws[1..]).value;
      RoundTripWords(net, window, next, ws[1..]);
      assert ws == [ws[0]] + ws[1..];
    }
  }

  /** A successful encoding stores the first `contextLength` words, joined,
      and the encoding of the rest against the context `reset` installs. */
  lemma EncodeTextValue(policy: CW.ResetPolicy, net: Network, window: nat, contextLength: nat, text: string)
    requires EncodeText(policy, net, window, contextLength, text).Success?
    ensures |Split(text)| > contextLength
    ensures CW.Reset(policy, window, Split(text)[..contextLength]).Success?
    ensures EncodeWords(net, window, CW.Reset(policy, window, Split(text)[..contextLength]).value,
                        Split(text)[contextLength..]).Success?
    ensures EncodeText(policy, net, window, contextLength, text).value
         == CompressedObject(Join(Split(text)[..contextLength]),
                             EncodeWords(net, window, CW.Reset(policy, window, Split(text)[..contextLength]).value,
                                         Split(text)[contextLength..]).value)
  {
  }

  /** Decoding the object built from the first `contextLength` words and the
      encoding of the rest gives all the words back, joined by spaces. */
  lemma DecodeEncoded(policy: CW.ResetPolicy, net: Network, window: nat, contextLength: nat, words: seq<Word>)
    requires OrderedPredictor(net)
    requires AllWellFormed(words) && |words| > contextLength
    requires CW.Reset(policy, window, words[..contextLength]).Success?
    requires EncodeWords(net, window, CW.Reset(policy, window, words[..contextLength]).value,
                         words[contextLength..]).Success?
    ensures DecodeObject(policy, net, window,
              CompressedObject(Join(words[..contextLength]),
                               EncodeWords(net, window, CW.Reset(policy, window, words[..contextLength]).value,
                                           words[contextLength..]).value))
         == Success(Join(words))
  {
    var head, tail := words[..contextLength], words[contextLength..];
    var ctx := CW.Reset(policy, window, head).value;
    var es := EncodeWords(net, window, ctx, tail).value;
    var obj := CompressedObject(Join(head), es);
    SplitJoinPrefix(words, contextLength);
    RoundTripWords(net, window, ctx, tail);
    DecodeObjectOf(policy, net, window, obj, ctx, tail);
    assert head + tail == words;
  }

  /** The words of a prefix survive being joined and split again. */
  lemma SplitJoinPrefix(words: seq<Word>, n: nat)
    requires AllWellFormed(words) && n <= |words|
    ensures Split(Join(words[..n])) == words[..n]
  {
    assert AllWellFormed(words[..n]);
    SplitJoin(words[..n]);
  }

  /** The decoder's result, from the reset context and the decoded words. */
  lemma DecodeObjectOf(policy: CW.ResetPolicy, net: Network, window: nat, obj: CompressedObject,
                       ctx: seq<Word>, ds: seq<Word>)
    requires CW.Reset(policy, window, Split(obj.initialContext)) == Success(ctx)
    requires DecodeWords(net, window, ctx, obj.words) == Success(ds)
    ensures DecodeObject(policy, net, window, obj) == Success(Join(Split(obj.initialContext) + ds))
  {
  }

  /** The codec round trip: decoding an encoded text gives the text's words
      joined by single spaces (the text itself when it was already in that
      form), for a predictor whose mappings are already ordered. */
  lemma RoundTrip(policy: CW.ResetPolicy, net: Network, window: nat, contextLength: nat, text: string)
    requires OrderedPredictor(net)
    requires EncodeText(policy, net, window, contextLength, text).Success?
    ensures DecodeObject(policy, net, window, EncodeText(policy, net, window, contextLength, text).value)
         == Success(Join(Split(text)))
    ensures text == Join(Split(text)) ==>
              (DecodeObject(policy, net, window, EncodeText(policy, net, window, contextLength, text).value)
               == Success(text))
  {
    SplitWellFormed(text);
    EncodeTextValue(policy, net, window, contextLength, text);
    DecodeEncoded(policy, net, window, contextLength, Split(text));
  }

  /** The decoder replays the encoder's context updates: after its reset
      and after each of its first `k` words, the model holds the same
      context as the encoder did at that point. */
  lemma ReplaysSameContexts(policy: CW.ResetPolicy, net: Network, window: nat, contextLength: nat, text: string)
    requires OrderedPredictor(net)
    requires EncodeText(policy, net, window, contextLength, text).Success?
    ensures var obj := EncodeText(policy, net, window, contextLength, text).value;
            var words := Split(text);
            var start := CW.Reset(policy, window, words[..contextLength]);
            start.Success? &&
            CW.Reset(policy, window, Split(obj.initialContext)) == start &&
            DecodeWords(net, window, start.value, obj.words).Success? &&
            var decoded := DecodeWords(net, window, start.value, obj.words).value;
            |decoded| == |words| - contextLength &&
            forall k :: 0 <= k <= |decoded| ==>
              CW.Feed(window, start.value, decoded[..k]) == CW.Feed(window, start.value, words[contextLength..][..k])
  {
    var words := Split(text);
    var head, tail := words[..contextLength], words[contextLength..];
    EncodeTextValue(policy, net, window, contextLength, text);
    var start := CW.Reset(policy, window, head);
    assert Split(Join(head)) == head by {
      SplitWellFormed(text);
      assert AllWellFormed(head);
      SplitJoin(head);
    }
    RoundTripWords(net, window, start.value, tail);
  }

  /** Encoding succeeds exactly when the text has more words than the
      initial context takes and the model accepts that many words on reset
      (GPT-2 always does; the others need them to fit the window). */
  lemma EncodeSucceedsIff(policy: CW.ResetPolicy, net: Network, window: nat, contextLength: nat, text: string)
    requires window > 0
    ensures EncodeText(policy, net, window, contextLength, text).Success?
        <==> |Split(text)| > contextLength && (policy == CW.KeepLast || contextLength <= window)
    ensures |Split(text)| <= contextLength ==>
              EncodeText(policy, net, window, contextLength, text) == Failure(NotEnoughWords)
  {
    var words := Split(text);
    if |words| > contextLength {
      var r := CW.Reset(policy, window, words[..contextLength]);
      if r.Success? {
        EncodeWordsSucceed(net, window, r.value, words[contextLength..]);
      }
    }
  }

  /** A successful encoding stores, as the initial context, the first
      `contextLength` words joined by single spaces, and one entry for each
      later word: an out-of-vocabulary entry holds that word itself, and a
      ranking is never negative. `EncodeWordsSteps` gives each entry
      against the mapping predicted for its position. */
  lemma EncodeTextShape(policy: CW.ResetPolicy, net: Network, window: nat, contextLength: nat, text: string)
    requires EncodeText(policy, net, window, contextLength, text).Success?
    ensures var obj := EncodeText(policy, net, window, contextLength, text).value;
            var words := Split(text);
            |words| > contextLength &&
            obj.initialContext == Join(words[..contextLength]) &&
            |obj.words| == |words| - contextLength &&
            forall k :: 0 <= k < |obj.words| ==>
              (obj.words[k].OutOfVocabulary? ==> obj.words[k].word == words[contextLength + k]) &&
              (obj.words[k].Ranked? ==> 0 <= obj.words[k].ranking)
  {
    var words := Split(text);
    var ctx := CW.Reset(policy, window, words[..contextLength]).value;
    var tail := words[contextLength..];
    EncodeWordsSteps(net, window, ctx, tail);
  }

  /** Every ranking the encoder stores is below any bound on the size of the
      predictor's mappings. */
  lemma {:induction false} RankingsBelowCap(net: Network, window: nat, ctx: seq<Word>, ws: seq<Word>, cap: nat)
    requires forall c :: |net(c)| <= cap
    requires EncodeWords(net, window, ctx, ws).Success?
    ensures forall k :: 0 <= k < |EncodeWords(net, window, ctx, ws).value| ==>
              match EncodeWords(net, window, ctx, ws).value[k]
              case Ranked(r) => 0 <= r < cap
              case OutOfVocabulary(_) => true
  {
    EncodeWordsSteps(net, window, ctx, ws);
  }

  /** When the predictor does not propose any word at the step that reaches
      it, every entry is the literal word and decoding restores the words
      with no condition on the predictor's order. */
  lemma {:induction false} AllOutOfVocabulary(net: Network, window: nat, ctx: seq<Word>, ws: seq<Word>)
    requires 0 < window && |ctx| <= window
    requires forall k :: 0 <= k < |ws| ==>
               CW.Feed(window, ctx, ws[..k]).Success? &&
               !HasKey(net(CW.Feed(window, ctx, ws[..k]).value), ws[k])
    ensures EncodeWords(net, window, ctx, ws).Success?
    ensures EncodeWords(net, window, ctx, ws).value == seq(|ws|, k requires 0 <= k < |ws| => OutOfVocabulary(ws[k]))
    ensures DecodeWords(net, window, ctx, EncodeWords(net, window, ctx, ws).value) == Success(ws)
    decreases |ws|
  {
    if ws != [] {
      var next := CW.AddWord(window, ctx, ws[0]).value;
      var tail := ws[1..];
      forall k | 0 <= k < |tail|
        ensures CW.Feed(window, next, tail[..k]).Success?
        ensures !HasKey(net(CW.Feed(window, next, tail[..k]).value), tail[k])
      {
        var pre := ws[..k + 1];
        assert pre[0] == ws[0] && pre[1..] == tail[..k];
        assert CW.Feed(window, ctx, pre) == CW.Feed(window, next, tail[..k]);
        assert tail[k] == ws[k + 1];
      }
      AllOutOfVocabulary(net, window, next, tail);
      assert ws[..0] == [];
      assert !HasKey(net(ctx), ws[0]);
      var es := EncodeWords(net, window, ctx, ws).value;
      assert es == [OutOfVocabulary(ws[0])] + EncodeWords(net, window, next, tail).value;
      assert es[1..] == EncodeWords(net, window, next, tail).value;
      assert ws == [ws[0]] + tail;
    }
  }

  /** A predictor that proposes "a" before the better-scored "b". */
  function Unordered(c: seq<Word>): Mapping {
    [Candidate("a", 1), Candidate("b", 2)]
  }

  /** Without the ordering condition the round trip fails: "b" is stored as
      ranking 0 (it is first once sorted), but decoding reads position 0 of
      the unsorted keys and gets "a". */
  lemma UnorderedPredictorBreaksRoundTrip()
    ensures EncodeWords(Unordered, 16, [], ["b"]) == Success([Ranked(0)])
    ensures DecodeWords(Unordered, 16, [], [Ranked(0)]) == Success(["a"])
  {
    var m := Unordered([]);
    assert Keys(m) == ["a", "b"];
    assert HasKey(m, "b");
    assert SortByScore(m) == [Candidate("b", 2), Candidate("a", 1)];
    assert EncodeWord(m, "b") == Ranked(0);
    assert CW.AddWord(16, [], "b") == Success(["b"]);
    assert ["b"][1..] == [];
    assert EncodeWords(Unordered, 16, ["b"], []) == Success([]);
    assert Unordered([]) == m;
    assert EncodeWords(Unordered, 16, [], ["b"])
        == Extend([Ranked(0)], EncodeWords(Unordered, 16, ["b"], ["b"][1..]));
    assert [Ranked(0)] + [] == [Ranked(0)];
    assert DecodeEntry(m, Ranked(0)) == Success("a");
    assert CW.AddWord(16, [], "a") == Success(["a"]);
    assert [Ranked(0)][1..] == [];
    assert DecodeWords(Unordered, 16, ["a"], []) == Success([]);
    assert DecodeWords(Unordered, 16, [], [Ranked(0)])
        == Extend(["a"], DecodeWords(Unordered, 16, ["a"], [Ranked(0)][1..]));
    assert ["a"] + [] == ["a"];
  }

  /** A predictor that, after two words of context, proposes "brown"
      before "slow", and after three, "fox" before "dog". */
  function QuickFox(c: seq<Word>): Mapping {
    if |c| == 2 then [Candidate("brown", 9), Candidate("slow", 1)]
    else if |c| == 3 then [Candidate("fox", 7), Candidate("dog", 3)]
    else []
  }

  lemma QuickBrownFoxJoin(text: string, words: seq<Word>)
    requires text == "the quick brown fox"
    requires words == ["the", "quick", "brown", "fox"]
    ensures Join(words) == text
    ensures Join(words[..2]) == "the quick"
  {
    assert Join(words[2..]) == "brown fox" by {
      assert words[2..] == ["brown", "fox"] && words[2..][1..] == ["fox"];
    }
    assert Join(words[1..]) == "quick brown fox" by {
      assert words[1..][1..] == words[2..];
    }
    assert Join(words[..2]) == "the quick" by {
      assert words[..2] == ["the", "quick"] && words[..2][1..] == ["quick"];
    }
  }

  /** The words of "the quick brown fox". */
  lemma QuickBrownFoxWords(text: string, words: seq<Word>)
    requires text == "the quick brown fox"
    requires words == ["the", "quick", "brown", "fox"]
    ensures Join(words) == text && Split(text) == words
    ensures Join(words[..2]) == "the quick"
  {
    QuickBrownFoxJoin(text, words);
    assert AllWellFormed(words) by {
      assert WellFormed(words[0]) && WellFormed(words[1]) && WellFormed(words[2]) && WellFormed(words[3]);
    }
    SplitJoin(words);
  }

  /** In a mapping already in descending order, the first candidate's word
      is stored as ranking 0. */
  lemma FirstChoiceRankedZero(m: Mapping)
    requires m != [] && NonIncreasing(m)
    ensures EncodeWord(m, m[0].word) == Ranked(0)
  {
    assert Keys(m)[0] == m[0].word;
    SortedUnchanged(m);
  }

  /** After "the quick", both "brown" and "fox" are the predictor's first choice. */
  lemma QuickBrownFoxRanks(c2: seq<Word>)
    requires |c2| == 2
    ensures EncodeWords(QuickFox, 16, c2, ["brown", "fox"]) == Success([Ranked(0), Ranked(0)])
  {
    var c3 := CW.AddWord(16, c2, "brown").value;
    var c4 := CW.AddWord(16, c3, "fox").value;
    FirstChoiceRankedZero(QuickFox(c2));
    FirstChoiceRankedZero(QuickFox(c3));
    var last := EncodeWords(QuickFox, 16, c3, ["fox"]);
    assert last == Success([Ranked(0)]) by {
      assert ["fox"][1..] == [];
      assert last == Extend([Ranked(0)], EncodeWords(QuickFox, 16, c4, []));
      assert [Ranked(0)] + [] == [Ranked(0)];
    }
    assert ["brown", "fox"][1..] == ["fox"];
    assert EncodeWords(QuickFox, 16, c2, ["brown", "fox"]) == Extend([Ranked(0)], last);
    assert [Ranked(0)] + [Ranked(0)] == [Ranked(0), Ranked(0)];
  }

  lemma QuickFoxOrdered()
    ensures OrderedPredictor(QuickFox)
  {
    forall c ensures NonIncreasing(QuickFox(c)) {
    }
  }

  /** "the quick brown fox" with two words of initial context: both later
      words are the predictor's first choice, and decoding gives the text. */
  lemma QuickBrownFox(text: string)
    requires text == "the quick brown fox"
    ensures EncodeText(CW.Reject, QuickFox, 16, 2, text)
         == Success(CompressedObject("the quick", [Ranked(0), Ranked(0)]))
    ensures DecodeObject(CW.Reject, QuickFox, 16, CompressedObject("the quick", [Ranked(0), Ranked(0)]))
         == Success(text)
  {
    var words: seq<Word> := ["the", "quick", "brown", "fox"];
    QuickBrownFoxWords(text, words);
    assert words[..2] == ["the", "quick"] && words[2..] == ["brown", "fox"];
    QuickBrownFoxRanks(words[..2]);
    assert CW.Reset(CW.Reject, 16, words[..2]) == Success(words[..2]);
    assert EncodeText(CW.Reject, QuickFox, 16, 2, text)
        == Success(CompressedObject(Join(words[..2]), [Ranked(0), Ranked(0)]));
    QuickFoxOrdered();
    RoundTrip(CW.Reject, QuickFox, 16, 2, text);
    assert Join(Split(text)) == text;
  }
}
