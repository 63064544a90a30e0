/** `_get_ranking_from_probabilities`: a word's position in the mapping once
    it is stably sorted by descending score. */
module Ranking {
  import opened Words
  import opened LanguageModel

  /** Stable insertion into a list sorted by descending score: `c` goes in
      front of every element whose score is not higher than its own. */
  function Insert(c: Candidate, s: Mapping): (r: Mapping)
    ensures |r| == |s| + 1
  {
    if s == [] || c.score >= s[0].score then [c] + s else [s[0]] + Insert(c, s[1..])
  }

  /** `sorted(mapping.items(), key=lambda t: -t[1])`: Python's sort is
      stable, so equal scores keep the mapping's own order. */
  function SortByScore(m: Mapping): (r: Mapping)
    ensures |r| == |m|
  {
    if m == [] then [] else Insert(m[0], SortByScore(m[1..]))
  }

  predicate NonIncreasing(m: Mapping) {
    forall i, j :: 0 <= i < j < |m| ==> m[i].score >= m[j].score
  }

  /** Number of candidates scored strictly above `v`. */
  function CountAbove(m: Mapping, v: int): nat {
    if m == [] then 0 else (if m[0].score > v then 1 else 0) + CountAbove(m[1..], v)
  }

  /** Number of candidates scored exactly `v`. */
  function CountEqual(m: Mapping, v: int): nat {
    if m == [] then 0 else (if m[0].score == v then 1 else 0) + CountEqual(m[1..], v)
  }

  /** Where a stable descending sort must place `m[i]`: after every
      higher-scored candidate and after the equal-scored ones before it. */
  function StablePosition(m: Mapping, i: nat): nat
    requires i < |m|
  {
    CountAbove(m, m[i].score) + CountEqual(m[..i], m[i].score)
  }

  /** `list.index(w)`: the first position holding `w`. */
  function IndexOf(ks: seq<Word>, w: Word): (i: nat)
    requires w in ks
    ensures i < |ks| && ks[i] == w
    ensures forall j :: 0 <= j < i ==> ks[j] != w
  {
    if ks[0] == w then 0 else 1 + IndexOf(ks[1..], w)
  }

  lemma {:induction false} InsertKeys(c: Candidate, s: Mapping, w: Word)
    ensures HasKey(Insert(c, s), w) <==> w == c.word || HasKey(s, w)
  {
    if s != [] && c.score < s[0].score {
      InsertKeys(c, s[1..], w);
      assert Keys(Insert(c, s)) == [s[0].word] + Keys(Insert(c, s[1..]));
      assert Keys(s) == [s[0].word] + Keys(s[1..]);
    } else {
      assert Keys(Insert(c, s)) == [c.word] + Keys(s);
    }
  }

  /** Sorting neither adds nor loses a key. */
  lemma {:induction false} SortKeys(m: Mapping, w: Word)
    ensures HasKey(SortByScore(m), w) <==> HasKey(m, w)
  {
    if m != [] {
      SortKeys(m[1..], w);
      InsertKeys(m[0], SortByScore(m[1..]), w);
      assert Keys(m) == [m[0].word] + Keys(m[1..]);
    }
  }

  /** `ordered_words.keys().index(word)`. The mapping must contain the word,
      which the encoder checks first. */
  function RankingFromProbabilities(m: Mapping, w: Word): (r: nat)
    requires HasKey(m, w)
    ensures r < |m|
    ensures SortByScore(m)[r].word == w
    ensures forall j :: 0 <= j < r ==> SortByScore(m)[j].word != w
  {
    SortKeys(m, w);
    IndexOf(Keys(SortByScore(m)), w)
  }

  lemma {:induction false} InsertNonIncreasing(c: Candidate, s: Mapping)
    requires NonIncreasing(s)
    ensures NonIncreasing(Insert(c, s))
    ensures s != [] ==> Insert(c, s)[0].score == if c.score >= s[0].score then c.score else s[0].score
  {
    if s != [] && c.score < s[0].score {
      InsertNonIncreasing(c, s[1..]);
      var t := Insert(c, s[1..]);
      assert Insert(c, s) == [s[0]] + t;
      forall k | 0 <= k < |t| ensures s[0].score >= t[k].score {
        if s[1..] != [] {
          assert t[k].score <= t[0].score;
        }
      }
    }
  }

  /** The sort produces a list ordered by descending score. */
  lemma {:induction false} SortNonIncreasing(m: Mapping)
    ensures NonIncreasing(SortByScore(m))
  {
    if m != [] {
      SortNonIncreasing(m[1..]);
      InsertNonIncreasing(m[0], SortByScore(m[1..]));
    }
  }

  lemma {:induction false} InsertCountAbove(c: Candidate, s: Mapping, v: int)
    ensures CountAbove(Insert(c, s), v) == CountAbove(s, v) + (if c.score > v then 1 else 0)
  {
    if s != [] && c.score < s[0].score {
      InsertCountAbove(c, s[1..], v);
      assert Insert(c, s)[1..] == Insert(c, s[1..]);
    } else {
      assert Insert(c, s)[1..] == s;
    }
  }

  lemma {:induction false} SortCountAbove(m: Mapping, v: int)
    ensures CountAbove(SortByScore(m), v) == CountAbove(m, v)
  {
    if m != [] {
      SortCountAbove(m[1..], v);
      InsertCountAbove(m[0], SortByScore(m[1..]), v);
    }
  }

  /** In a list sorted by descending score, the candidates above `x` form
      the prefix of length `CountAbove(s, x)`. */
  lemma {:induction false} SortedPrefix(s: Mapping, x: int, k: nat)
    requires NonIncreasing(s)
    requires k < |s|
    ensures k < CountAbove(s, x) <==> s[k].score > x
  {
    if s[0].score > x {
      if k > 0 {
        SortedPrefix(s[1..], x, k - 1);
      }
    } else {
      CountAboveNone(s, x);
    }
  }

  lemma {:induction false} CountAboveNone(s: Mapping, x: int)
    requires NonIncreasing(s)
    requires s != [] && s[0].score <= x
    ensures CountAbove(s, x) == 0
    ensures forall k :: 0 <= k < |s| ==> s[k].score <= x
  {
    if |s| > 1 {
      CountAboveNone(s[1..], x);
    }
  }

  lemma {:induction false} InsertSplit(c: Candidate, s: Mapping)
    requires NonIncreasing(s)
    ensures CountAbove(s, c.score) <= |s|
    ensures Insert(c, s) == s[..CountAbove(s, c.score)] + [c] + s[CountAbove(s, c.score)..]
  {
    if s == [] {
    } else if c.score >= s[0].score {
      CountAboveNone(s, c.score);
    } else {
      InsertSplit(c, s[1..]);
      var q := CountAbove(s[1..], c.score);
      assert s[1..][..q] == s[1..q + 1];
      assert s[1..][q..] == s[q + 1..];
      assert [s[0]] + s[1..q + 1] == s[..q + 1];
    }
  }

  /** The stable descending sort puts `m[i]` exactly at `StablePosition(m, i)`. */
  lemma {:induction false} SortPlaces(m: Mapping, i: nat)
    requires i < |m|
    ensures StablePosition(m, i) < |m|
    ensures SortByScore(m)[StablePosition(m, i)] == m[i]
  {
    var p, t := m[0], m[1..];
    var s := SortByScore(t);
    SortNonIncreasing(t);
    InsertSplit(p, s);
    var q := CountAbove(s, p.score);
    SortCountAbove(t, p.score);
    assert SortByScore(m) == s[..q] + [p] + s[q..];
    if i == 0 {
      assert m[..0] == [];
      assert StablePosition(m, 0) == q;
    } else {
      var v := m[i].score;
      SortPlaces(t, i - 1);
      var r := StablePosition(t, i - 1);
      assert t[i - 1] == m[i];
      assert s[r] == m[i];
      assert m[..i][1..] == t[..i - 1];
      assert CountEqual(m[..i], v) == (if p.score == v then 1 else 0) + CountEqual(t[..i - 1], v);
      assert StablePosition(m, i) == r + (if p.score >= v then 1 else 0);
      SortedPrefix(s, p.score, r);
    }
  }

  lemma {:induction false} InsertElements(c: Candidate, s: Mapping)
    ensures forall x :: x in Insert(c, s) <==> x == c || x in s
  {
    if s != [] && c.score < s[0].score {
      InsertElements(c, s[1..]);
      assert s == [s[0]] + s[1..];
    }
  }

  lemma {:induction false} SortElements(m: Mapping)
    ensures forall x :: x in SortByScore(m) <==> x in m
  {
    if m != [] {
      SortElements(m[1..]);
      InsertElements(m[0], SortByScore(m[1..]));
      assert m == [m[0]] + m[1..];
    }
  }

  lemma {:induction false} InsertPermutation(c: Candidate, s: Mapping)
    ensures multiset(Insert(c, s)) == multiset(s) + multiset{c}
  {
    if s != [] && c.score < s[0].score {
      InsertPermutation(c, s[1..]);
      assert s == [s[0]] + s[1..];
    }
  }

  /** The sort is a permutation of the mapping. */
  lemma {:induction false} SortPermutation(m: Mapping)
    ensures multiset(SortByScore(m)) == multiset(m)
  {
    if m != [] {
      SortPermutation(m[1..]);
      InsertPermutation(m[0], SortByScore(m[1..]));
      assert m == [m[0]] + m[1..];
    }
  }

  /** Putting a candidate whose word is new in front of a list with
      distinct keys keeps the keys distinct. */
  lemma ConsDistinct(c: Candidate, s: Mapping)
    requires DistinctKeys(s)
    requires forall x :: x in s ==> x.word != c.word
    ensures DistinctKeys([c] + s)
  {
    var t := [c] + s;
    forall i, j | 0 <= i < j < |t| ensures t[i].word != t[j].word {
      assert t[j] == s[j - 1];
      if i > 0 {
        assert t[i] == s[i - 1];
      }
    }
  }

  lemma {:induction false} InsertDistinct(c: Candidate, s: Mapping)
    requires DistinctKeys(s)
    requires forall x :: x in s ==> x.word != c.word
    ensures DistinctKeys(Insert(c, s))
  {
    if s == [] || c.score >= s[0].score {
      ConsDistinct(c, s);
    } else {
      var t := Insert(c, s[1..]);
      InsertDistinct(c, s[1..]);
      InsertElements(c, s[1..]);
      forall x | x in t ensures x.word != s[0].word {
        if x != c {
          var j :| 0 <= j < |s| - 1 && s[1..][j] == x;
          assert s[j + 1] == x;
        }
      }
      ConsDistinct(s[0], t);
    }
  }

  lemma {:induction false} SortDistinct(m: Mapping)
    requires DistinctKeys(m)
    ensures DistinctKeys(SortByScore(m))
  {
    if m != [] {
      SortDistinct(m[1..]);
      SortElements(m[1..]);
      forall x | x in SortByScore(m[1..]) ensures x.word != m[0].word {
        var j :| 0 <= j < |m| - 1 && m[1..][j] == x;
        assert m[j + 1] == x;
      }
      InsertDistinct(m[0], SortByScore(m[1..]));
    }
  }

  /** In a mapping with distinct keys, a word's ranking is the number of
      candidates scored above it plus the number of equal-scored candidates
      that come before it in the predictor's order. */
  lemma RankingCounts(m: Mapping, i: nat)
    requires DistinctKeys(m)
    requires i < |m|
    ensures HasKey(m, m[i].word)
    ensures RankingFromProbabilities(m, m[i].word)
         == CountAbove(m, m[i].score) + CountEqual(m[..i], m[i].score)
  {
    assert Keys(m)[i] == m[i].word;
    SortPlaces(m, i);
    SortDistinct(m);
    var r := RankingFromProbabilities(m, m[i].word);
    var s := StablePosition(m, i);
    assert SortByScore(m)[s].word == m[i].word;
  }

  /** A mapping that is already in descending score order is left as it is. */
  lemma {:induction false} SortedUnchanged(m: Mapping)
    requires NonIncreasing(m)
    ensures SortByScore(m) == m
  {
    if m != [] {
      SortedUnchanged(m[1..]);
      assert m == [m[0]] + m[1..];
    }
  }

  /** For an already ordered mapping, the ranking indexes the UNSORTED keys
      correctly too, which is what the decoder relies on. */
  lemma RankingOnOrdered(m: Mapping, w: Word)
    requires NonIncreasing(m)
    requires HasKey(m, w)
    ensures Keys(m)[RankingFromProbabilities(m, w)] == w
  {
    SortedUnchanged(m);
  }
}
