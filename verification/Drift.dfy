/**
 * The prediction-drift window: `deque(maxlen=100)` of the most recent
 * probabilities, its mean, and the distance of that mean from the mean seen
 * at training time. Probabilities are exact reals rather than IEEE doubles.
 */
module Drift {

  /** `maxlen` of the window. */
  const Capacity: nat := 100

  /** `MEDIA_TREINAMENTO`: the mean probability on the training set. */
  const Baseline: real := 0.62

  function Abs(x: real): (r: real)
    ensures r >= 0.0
    ensures r == x || r == -x
  {
    if x < 0.0 then -x else x
  }

  /** The last `n` elements of `s`, or all of `s` when it is shorter. */
  function LastN<T>(s: seq<T>, n: nat): (r: seq<T>)
    ensures |r| == if |s| <= n then |s| else n
    ensures r == s[|s| - |r|..]
  {
    if |s| <= n then s else s[|s| - n..]
  }

  /** `predicoes.append(p)`: the new probability goes at the right end and,
      when the window would exceed its capacity, the oldest entry at the
      left end is evicted. */
  function Push(w: seq<real>, p: real): (r: seq<real>)
    ensures 0 < |r| <= Capacity
    ensures r[|r| - 1] == p
    ensures |w| < Capacity ==> r == w + [p]
    ensures |w| == Capacity ==> r == w[1..] + [p]
  {
    var r := LastN(w + [p], Capacity);
    assert |w| == Capacity ==> r == (w + [p])[1..] && (w + [p])[1..] == w[1..] + [p];
    r
  }

  /** Python's `sum` over a sequence, added left to right. */
  function Sum(s: seq<real>): real {
    if |s| == 0 then 0.0 else Sum(s[..|s| - 1]) + s[|s| - 1]
  }

  /** `sum(predicoes) / len(predicoes)`. */
  function Mean(s: seq<real>): (m: real)
    requires |s| > 0
    ensures m * (|s| as real) == Sum(s)
  {
    Sum(s) / (|s| as real)
  }

  /** `abs(media_atual - MEDIA_TREINAMENTO)`. */
  function DriftScore(w: seq<real>): (d: real)
    requires |w| > 0
    ensures d >= 0.0
    ensures d == Mean(w) - Baseline || d == Baseline - Mean(w)
  {
    Abs(Mean(w) - Baseline)
  }

  /** The window after a push, and the drift score the handler publishes. */
  datatype Recorded = Recorded(window: seq<real>, score: real)

  /** The drift update of the handler: push, then score the new window. The
      score is taken after the push, so the window is never empty and the
      mean is always defined. */
  function Record(w: seq<real>, p: real): (r: Recorded)
    ensures r.window == Push(w, p)
    ensures 0 < |r.window| <= Capacity
    ensures r.window[|r.window| - 1] == p
    ensures r.score >= 0.0
    ensures r.score == Abs(Mean(r.window) - Baseline)
  {
    var w' := Push(w, p);
    Recorded(w', DriftScore(w'))
  }

  /** The score computed as the handler does, with a left-to-right loop for
      `sum`. */
  method RecordLoop(w: seq<real>, p: real) returns (r: Recorded)
    ensures r == Record(w, p)
  {
    var w' := Push(w, p);
    var total := 0.0;
    var i := 0;
    while i < |w'|
      invariant 0 <= i <= |w'|
      invariant total == Sum(w'[..i])
    {
      assert w'[..i + 1][..i] == w'[..i];
      total := total + w'[i];
      i := i + 1;
    }
    assert w'[..|w'|] == w';
    var mean := total / (|w'| as real);
    var score := if mean - Baseline < 0.0 then Baseline - mean else mean - Baseline;
    r := Recorded(w', score);
  }

  /** The window after the probabilities of `h` were pushed, in order, onto
      `w`. */
  function Feed(w: seq<real>, h: seq<real>): seq<real> {
    if |h| == 0 then w else Push(Feed(w, h[..|h| - 1]), h[|h| - 1])
  }

  /** Keeping the last `n` and then appending is appending and then keeping
      the last `n`. */
  lemma {:induction false} LastNAppend<T>(s: seq<T>, x: T, n: nat)
    requires n > 0
    ensures LastN(LastN(s, n) + [x], n) == LastN(s + [x], n)
  {
    if |s| > n {
      var t := s[|s| - n..];
      assert LastN(s, n) == t;
      assert LastN(t + [x], n) == (t + [x])[1..];
      assert (t + [x])[1..] == s[|s| - n + 1..] + [x];
      assert (s + [x])[|s| + 1 - n..] == s[|s| - n + 1..] + [x];
    } else {
      assert LastN(s, n) == s;
    }
  }

  /** Keeping the last `n` twice keeps the last `n`. */
  lemma LastNIdempotent<T>(s: seq<T>, n: nat)
    ensures LastN(LastN(s, n), n) == LastN(s, n)
  {
  }

  /** FIFO eviction: after any run of pushes the window holds exactly the
      last 100 values fed, oldest first. */
  lemma {:induction false} FeedKeepsLast(w: seq<real>, h: seq<real>)
    requires |w| <= Capacity
    ensures Feed(w, h) == LastN(w + h, Capacity)
  {
    if |h| == 0 {
      assert w + h == w;
    } else {
      var h' := h[..|h| - 1];
      var p := h[|h| - 1];
      FeedKeepsLast(w, h');
      PushIsLastN(Feed(w, h'), p);
      LastNAppend(w + h', p, Capacity);
      AppendLast(w, h);
    }
  }

  lemma PushIsLastN(w: seq<real>, p: real)
    ensures Push(w, p) == LastN(w + [p], Capacity)
  {
  }

  /** Splitting off the last element of `h` after concatenation. */
  lemma AppendLast<T>(w: seq<T>, h: seq<T>)
    requires |h| > 0
    ensures w + h == (w + h[..|h| - 1]) + [h[|h| - 1]]
  {
    assert h == h[..|h| - 1] + [h[|h| - 1]];
  }

  /** From an empty window, the window is the last 100 values fed. */
  lemma {:induction false} FeedFromEmpty(h: seq<real>)
    ensures Feed([], h) == LastN(h, Capacity)
  {
    var e: seq<real> := [];
    FeedKeepsLast(e, h);
    EmptyPrefix(e, h);
  }

  lemma EmptyPrefix<T>(e: seq<T>, h: seq<T>)
    requires |e| == 0
    ensures e + h == h
  {
  }

  /** Up to 100 values: the window is everything fed, so the score is the
      distance of their plain mean from the baseline. */
  lemma {:induction false} ShortHistoryScore(h: seq<real>)
    requires 0 < |h| <= Capacity
    ensures Feed([], h) == h
    ensures DriftScore(Feed([], h)) == Abs(Mean(h) - Baseline)
  {
    FeedFromEmpty(h);
  }

  /** Feeding more than 100 values leaves the oldest ones out of the mean:
      after 105 values, say, the first five no longer count. */
  lemma {:induction false} OldestEvicted(h: seq<real>)
    requires |h| > Capacity
    ensures Feed([], h) == h[|h| - Capacity..]
  {
    FeedFromEmpty(h);
  }

  /** So the score after more than 100 values is that of the last 100. */
  lemma {:induction false} OldestLeaveTheMean(h: seq<real>)
    requires |h| > Capacity
    ensures DriftScore(Feed([], h)) == Abs(Mean(h[|h| - Capacity..]) - Baseline)
  {
    OldestEvicted(h);
  }

  /** A window whose mean is the baseline shows no drift. */
  lemma BaselineMeanNoDrift(w: seq<real>)
    requires |w| > 0 && Mean(w) == Baseline
    ensures DriftScore(w) == 0.0
  {
  }

  /** The window [0.6, 0.64] has mean 0.62 and so no drift. */
  lemma BaselineWindowHasNoDrift()
    ensures DriftScore([0.6, 0.64]) == 0.0
  {
    assert [0.6, 0.64][..1] == [0.6];
    assert Sum([0.6]) == 0.6 by { assert [0.6][..0] == []; }
    assert Sum([0.6, 0.64]) == 1.24;
  }

  /** Every entry is a probability. */
  predicate InUnit(s: seq<real>) {
    forall i :: 0 <= i < |s| ==> 0.0 <= s[i] <= 1.0
  }

  /** Pushing a probability keeps every entry a probability. */
  lemma PushKeepsInUnit(w: seq<real>, p: real)
    requires InUnit(w) && 0.0 <= p <= 1.0
    ensures InUnit(Push(w, p))
  {
    var r := Push(w, p);
    var t := w + [p];
    assert InUnit(t) by {
      forall i | 0 <= i < |t| ensures 0.0 <= t[i] <= 1.0 {
        if i < |w| { assert t[i] == w[i]; }
      }
    }
    forall i | 0 <= i < |r| ensures 0.0 <= r[i] <= 1.0 {
      assert r[i] == t[|t| - |r| + i];
    }
  }

  lemma {:induction false} SumBounds(s: seq<real>)
    requires InUnit(s)
    ensures 0.0 <= Sum(s) <= |s| as real
  {
    if |s| > 0 {
      var s' := s[..|s| - 1];
      assert InUnit(s') by {
        forall i | 0 <= i < |s'| ensures 0.0 <= s'[i] <= 1.0 {
          assert s'[i] == s[i];
        }
      }
      SumBounds(s');
    }
  }

  /** A window of probabilities has its mean in [0, 1], so its score is at
      most max(0.62, 1 - 0.62) = 0.62. */
  lemma DriftBounded(w: seq<real>)
    requires |w| > 0 && InUnit(w)
    ensures 0.0 <= Mean(w) <= 1.0
    ensures DriftScore(w) <= Baseline
  {
    SumBounds(w);
    var n := |w| as real;
    assert Sum(w) / n <= 1.0 by {
      assert Sum(w) <= n;
    }
  }
}
