/** Python's `str.split()` (no argument) and `' '.join(...)`, which the codec
    uses to turn text into words and back. */
module Words {

  type Word = string

  /** The characters `str.isspace()` accepts, on which `str.split()` breaks. */
  predicate IsSpace(c: char) {
    var n := c as int;
    (9 <= n <= 13) || (28 <= n <= 32) || n == 0x85 || n == 0xA0 || n == 0x1680 ||
    (0x2000 <= n <= 0x200A) || n == 0x2028 || n == 0x2029 || n == 0x202F ||
    n == 0x205F || n == 0x3000
  }

  /** A word as `str.split()` produces it: non-empty, without whitespace. */
  predicate WellFormed(w: Word) {
    |w| > 0 && forall k :: 0 <= k < |w| ==> !IsSpace(w[k])
  }

  predicate AllWellFormed(ws: seq<Word>) {
    forall i :: 0 <= i < |ws| ==> WellFormed(ws[i])
  }

  /** Length of the longest whitespace-free prefix of `s`. */
  function WordLength(s: string): (n: nat)
    ensures n <= |s|
    ensures forall k :: 0 <= k < n ==> !IsSpace(s[k])
    ensures n == |s| || IsSpace(s[n])
  {
    if s == [] || IsSpace(s[0]) then 0 else 1 + WordLength(s[1..])
  }

  /** `s.split()`: the maximal runs of non-whitespace characters, in order. */
  function Split(s: string): (ws: seq<Word>)
    decreases |s|
  {
    if s == [] then []
    else if IsSpace(s[0]) then Split(s[1..])
    else
      var n := WordLength(s);
      [s[..n]] + Split(s[n..])
  }

  /** `' '.join(ws)`. */
  function Join(ws: seq<Word>): (r: string)
  {
    if ws == [] then ""
    else if |ws| == 1 then ws[0]
    else ws[0] + " " + Join(ws[1..])
  }

  /** Every word `str.split()` returns is non-empty and holds no whitespace. */
  lemma {:induction false} SplitWellFormed(s: string)
    ensures AllWellFormed(Split(s))
    decreases |s|
  {
    if s == [] {
    } else if IsSpace(s[0]) {
      SplitWellFormed(s[1..]);
    } else {
      var n := WordLength(s);
      SplitWellFormed(s[n..]);
      assert Split(s) == [s[..n]] + Split(s[n..]);
    }
  }

  lemma {:induction false} WordLengthOfWord(w: Word, rest: string)
    requires forall k :: 0 <= k < |w| ==> !IsSpace(w[k])
    requires rest == [] || IsSpace(rest[0])
    ensures WordLength(w + rest) == |w|
    decreases |w|
  {
    if w != [] {
      assert (w + rest)[1..] == w[1..] + rest;
      WordLengthOfWord(w[1..], rest);
    }
  }

  /** A word followed by nothing or by whitespace splits off as one word. */
  lemma SplitWord(w: Word, rest: string)
    requires WellFormed(w)
    requires rest == [] || IsSpace(rest[0])
    ensures Split(w + rest) == [w] + Split(rest)
  {
    WordLengthOfWord(w, rest);
    var s := w + rest;
    assert s[0] == w[0];
    assert s[..|w|] == w;
    assert s[|w|..] == rest;
  }

  /** Splitting the space-joined words gives the words back: on the words
      `str.split()` produces, `' '.join` loses nothing. */
  lemma {:induction false} SplitJoin(ws: seq<Word>)
    requires AllWellFormed(ws)
    ensures Split(Join(ws)) == ws
  {
    if |ws| == 1 {
      SplitWord(ws[0], "");
      assert ws[0] + "" == ws[0];
    } else if |ws| > 1 {
      var tail := Join(ws[1..]);
      assert Join(ws) == ws[0] + (" " + tail);
      SplitWord(ws[0], " " + tail);
      assert (" " + tail)[1..] == tail;
      SplitJoin(ws[1..]);
      assert ws == [ws[0]] + ws[1..];
    }
  }

  /** Joining `n` non-empty words takes at least `2n - 1` characters. */
  lemma {:induction false} JoinLength(ws: seq<Word>)
    requires ws != []
    requires AllWellFormed(ws)
    ensures |Join(ws)| >= 2 * |ws| - 1
  {
    if |ws| > 1 {
      JoinLength(ws[1..]);
    }
  }

  /** A text has no more words than characters. */
  lemma {:induction false} SplitShorter(s: string)
    ensures |Split(s)| <= |s|
    decreases |s|
  {
    if s != [] {
      if IsSpace(s[0]) {
        SplitShorter(s[1..]);
      } else {
        SplitShorter(s[WordLength(s)..]);
      }
    }
  }

  /** A text's words survive one more split-and-join unchanged. */
  lemma SplitJoinSplit(s: string)
    ensures Split(Join(Split(s))) == Split(s)
  {
    SplitWellFormed(s);
    SplitJoin(Split(s));
  }
}
