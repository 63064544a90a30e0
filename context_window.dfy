/** The context-window state machine that every language model repeats
    verbatim: `add_word_to_context` and the two flavours of `reset`.
    The functions are generic over the element type because Python's list
    operations are; a context is normally a list of words. */
module ContextWindow {
  import opened Outcomes

  /** `add_word_to_context`: assert the context fits, `pop()` the LAST
      element when the window is full, then append the word. */
  function AddWord<T>(window: nat, ctx: seq<T>, word: T): (r: Result<seq<T>>)
    ensures r == Failure(ContextOverrun) <==> |ctx| > window
    ensures r == Failure(PopFromEmpty) <==> |ctx| == window == 0
    ensures r.Success? <==> |ctx| <= window && window > 0
    ensures r.Success? ==> |r.value| == (if |ctx| < window then |ctx| + 1 else window)
    ensures r.Success? ==> r.value[|r.value| - 1] == word
    ensures r.Success? ==> r.value[..|r.value| - 1] == ctx[..|r.value| - 1]
  {
    if |ctx| > window then Failure(ContextOverrun)
    else if |ctx| == window then
      if ctx == [] then Failure(PopFromEmpty) else Success(ctx[..|ctx| - 1] + [word])
    else Success(ctx + [word])
  }

  /** A method that applies the transition `r` to a context: on success it
      reports `Pass` and installs the new context, on failure it reports the
      error and leaves the context as it was. */
  predicate Applied<T(==)>(r: Result<seq<T>>, outcome: Outcome, before: seq<T>, after: seq<T>) {
    match r
    case Success(c) => outcome == Pass && after == c
    case Failure(e) => outcome == Fail(e) && after == before
  }

  /** How a model's `reset` treats a context longer than its window. */
  datatype ResetPolicy =
    | Reject     // raise (GPT, XLNet, BERT)
    | KeepLast   // keep the trailing words (GPT-2)

  /** `new_context[-window:]`, with Python's reading of `-0` as `0`. */
  function KeepTrailing<T>(window: nat, ctx: seq<T>): (r: seq<T>)
    requires |ctx| > window
    ensures window > 0 ==> |r| == window && r == ctx[|ctx| - window..]
    ensures window == 0 ==> r == ctx
  {
    if window == 0 then ctx else ctx[|ctx| - window..]
  }

  /** `reset(new_context)`: install the new context, applying the model's
      policy to one that does not fit. */
  function Reset<T>(policy: ResetPolicy, window: nat, ctx: seq<T>): (r: Result<seq<T>>)
    ensures |ctx| <= window ==> r == Success(ctx)
    ensures policy == Reject ==> (r.Failure? <==> |ctx| > window)
    ensures r.Failure? ==> r.error == ContextTooLong
    ensures policy == KeepLast ==> r.Success?
    ensures policy == KeepLast && window > 0 ==> |r.value| <= window
    ensures policy == KeepLast && window > 0 && |ctx| > window ==> r.value == ctx[|ctx| - window..]
  {
    if |ctx| <= window then Success(ctx)
    else match policy
      case Reject => Failure(ContextTooLong)
      case KeepLast => Success(KeepTrailing(window, ctx))
  }

  /** The context after feeding every word of `ws` in order. */
  function Feed<T>(window: nat, ctx: seq<T>, ws: seq<T>): Result<seq<T>>
    decreases |ws|
  {
    if ws == [] then Success(ctx)
    else match AddWord(window, ctx, ws[0])
      case Failure(e) => Failure(e)
      case Success(next) => Feed(window, next, ws[1..])
  }

  /** Feeding one more word continues from where the earlier words left off. */
  lemma {:induction false} FeedAppend<T>(window: nat, ctx: seq<T>, ws: seq<T>, w: T)
    requires Feed(window, ctx, ws).Success?
    ensures Feed(window, ctx, ws + [w]) == AddWord(window, Feed(window, ctx, ws).value, w)
    decreases |ws|
  {
    if ws == [] {
      assert [w][1..] == [];
    } else {
      assert (ws + [w])[0] == ws[0];
      assert (ws + [w])[1..] == ws[1..] + [w];
      FeedAppend(window, AddWord(window, ctx, ws[0]).value, ws[1..], w);
    }
  }

  /** On a window of length 0, GPT-2's truncating reset keeps an oversize
      context whole, so the window invariant does not hold after it. */
  lemma ZeroWindowKeepsAll<T>(ctx: seq<T>)
    requires ctx != []
    ensures Reset(KeepLast, 0, ctx) == Success(ctx)
  {
  }

  /** Feeding words into a context that fits a non-empty window never fails,
      and the context keeps fitting. */
  lemma {:induction false} FeedFits<T>(window: nat, ctx: seq<T>, ws: seq<T>)
    requires 0 < window && |ctx| <= window
    ensures Feed(window, ctx, ws).Success?
    ensures |Feed(window, ctx, ws).value| <= window
    decreases |ws|
  {
    if ws != [] {
      FeedFits(window, AddWord(window, ctx, ws[0]).value, ws[1..]);
    }
  }

  /** What the interface documentation describes: evict the OLDEST word. */
  function EvictOldest<T>(window: nat, ctx: seq<T>, word: T): seq<T>
    requires 0 < window && |ctx| <= window
  {
    if |ctx| == window then ctx[1..] + [word] else ctx + [word]
  }

  lemma {:induction false} ShiftInvariantIsConstant<T>(s: seq<T>)
    requires s != []
    requires s[..|s| - 1] == s[1..]
    ensures forall k :: 0 <= k < |s| ==> s[k] == s[0]
  {
    var k := 0;
    while k < |s| - 1
      invariant 0 <= k <= |s| - 1
      invariant forall j :: 0 <= j <= k ==> s[j] == s[0]
    {
      assert s[..|s| - 1][k] == s[1..][k];
      k := k + 1;
    }
  }

  /** The code evicts the NEWEST word instead. It agrees with the documented
      behaviour only while the window is not full, or when every word in the
      full window is the same. */
  lemma {:induction false} EvictsNewestNotOldest<T>(window: nat, ctx: seq<T>, word: T)
    requires 0 < window && |ctx| <= window
    ensures AddWord(window, ctx, word) == Success(EvictOldest(window, ctx, word))
        <==> |ctx| < window || forall k :: 0 <= k < |ctx| ==> ctx[k] == ctx[0]
  {
    if |ctx| == window {
      var a := ctx[..|ctx| - 1] + [word];
      var b := ctx[1..] + [word];
      if a == b {
        assert a[..|ctx| - 1] == ctx[..|ctx| - 1];
        assert b[..|ctx| - 1] == ctx[1..];
        ShiftInvariantIsConstant(ctx);
      }
      if forall k :: 0 <= k < |ctx| ==> ctx[k] == ctx[0] {
        assert ctx[..|ctx| - 1] == ctx[1..];
      }
    }
  }

  /** Once the window is full, no later word ever reaches the first
      `window - 1` slots: the model keeps seeing those words plus the most
      recent one. */
  lemma {:induction false} FullWindowFreezesPrefix<T>(window: nat, ctx: seq<T>, ws: seq<T>)
    requires 0 < window && |ctx| == window
    ensures Feed(window, ctx, ws).Success?
    ensures |Feed(window, ctx, ws).value| == window
    ensures Feed(window, ctx, ws).value[..window - 1] == ctx[..window - 1]
    ensures ws != [] ==> Feed(window, ctx, ws).value[window - 1] == ws[|ws| - 1]
    decreases |ws|
  {
    if ws != [] {
      var next := AddWord(window, ctx, ws[0]).value;
      FullWindowFreezesPrefix(window, next, ws[1..]);
      if |ws| == 1 {
        assert ws[1..] == [];
      } else {
        assert ws[1..][|ws[1..]| - 1] == ws[|ws| - 1];
      }
    }
  }
}
