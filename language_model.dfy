/** What a language model hands the codec: an insertion-ordered mapping from
    candidate next words to scores. Scores are integers because only their
    order matters to the codec. */
module LanguageModel {
  import opened Words

  datatype Candidate = Candidate(word: Word, score: int)

  /** A `Dict<word, probability>` in its insertion order. */
  type Mapping = seq<Candidate>

  /** The model's next-word ranking as a function of its current context.
      This stands for the tokenizer, the network and `torch.topk` inside
      `__call__`; being a function, it is deterministic. */
  type Network = seq<Word> -> Mapping

  /** `self.lm()` for a model whose context is `ctx`. */
  function Predicted(net: Network, ctx: seq<Word>): Mapping {
    net(ctx)
  }

  /** `list(mapping.keys())`. */
  function Keys(m: Mapping): (ks: seq<Word>)
    ensures |ks| == |m|
    ensures forall i :: 0 <= i < |m| ==> ks[i] == m[i].word
  {
    seq(|m|, i requires 0 <= i < |m| => m[i].word)
  }

  /** `word in mapping`. */
  predicate HasKey(m: Mapping, w: Word) {
    w in Keys(m)
  }

  /** A Python dict never holds a key twice. */
  predicate DistinctKeys(m: Mapping) {
    forall i, j :: 0 <= i < j < |m| ==> m[i].word != m[j].word
  }
}
