/**
 The sliding-window chunker of qa_model.py (`split_text_into_chunks`).

 The text is tokenized by an encoder that is a parameter here; an index i
 starts at 0 and moves forward by `step` tokens while it is inside the
 token sequence, and each time the window tokens[i .. i + maxTokens]
 (clipped at the end, as a Python slice is) is decoded back to text.
 The step the source computes as int(maxTokens * (1 - overlap_ratio)) is
 taken as an integer parameter.
 */
module Chunker {
  import opened Sequences

  /** The windows the loop cuts once its index has reached `from`. */
  function WindowsFrom<T>(tokens: seq<T>, maxTokens: nat, step: nat, from: nat): seq<seq<T>>
    requires 1 <= step
    decreases |tokens| - from
  {
    if from >= |tokens| then []
    else [tokens[from..Min(from + maxTokens, |tokens|)]] + WindowsFrom(tokens, maxTokens, step, from + step)
  }

  /** All windows of the token sequence, in document order. */
  function Windows<T>(tokens: seq<T>, maxTokens: nat, step: nat): seq<seq<T>>
    requires 1 <= step
  {
    WindowsFrom(tokens, maxTokens, step, 0)
  }

  /**
   Splits the text into chunks: encode, cut windows while the index is
   inside the token sequence, decode each window. `step >= 1` is what makes
   the source's loop terminate.
   */
  method SplitTextIntoChunks<T, C>(text: string, maxTokens: nat, step: nat,
                                   encode: string -> seq<T>, decode: seq<T> -> C)
    returns (chunks: seq<C>)
    requires 1 <= step
    ensures chunks == Map(decode, Windows(encode(text), maxTokens, step))
  {
    var tokens := encode(text);
    chunks := [];
    var i: nat := 0;
    ghost var cut: seq<seq<T>> := [];
    while i < |tokens|
      invariant Windows(tokens, maxTokens, step) == cut + WindowsFrom(tokens, maxTokens, step, i)
      invariant chunks == Map(decode, cut)
    {
      var window := tokens[i..Min(i + maxTokens, |tokens|)];
      CutStep(tokens, maxTokens, step, i, cut);
      MapSnoc(decode, cut, window);
      chunks := chunks + [decode(window)];
      cut := cut + [window];
      i := i + step;
    }
  }

  /** One turn of the loop: the window at i moves from the windows to come to the windows cut. */
  lemma CutStep<T>(tokens: seq<T>, maxTokens: nat, step: nat, i: nat, cut: seq<seq<T>>)
    requires 1 <= step && i < |tokens|
    requires Windows(tokens, maxTokens, step) == cut + WindowsFrom(tokens, maxTokens, step, i)
    ensures Windows(tokens, maxTokens, step)
         == (cut + [tokens[i..Min(i + maxTokens, |tokens|)]]) + WindowsFrom(tokens, maxTokens, step, i + step)
  {
    var window, rest := tokens[i..Min(i + maxTokens, |tokens|)], WindowsFrom(tokens, maxTokens, step, i + step);
    assert WindowsFrom(tokens, maxTokens, step, i) == [window] + rest;
    assert cut + ([window] + rest) == (cut + [window]) + rest;
  }

  /** Where the loop's index stands after k turns: k steps of `step` from 0. */
  function Start(k: nat, step: nat): nat
  {
    if k == 0 then 0 else Start(k - 1, step) + step
  }

  lemma {:induction false} StartIsProduct(k: nat, step: nat)
    ensures Start(k, step) == k * step
  {
    if k > 0 {
      StartIsProduct(k - 1, step);
      assert (k - 1) * step + step == k * step;
    }
  }

  /** Later turns start no earlier. */
  lemma {:induction false} StartMonotone(a: nat, b: nat, step: nat)
    ensures a <= b ==> Start(a, step) <= Start(b, step)
    decreases b
  {
    if a < b {
      StartMonotone(a, b - 1, step);
    }
  }

  lemma {:induction false} WindowsFromCount<T>(tokens: seq<T>, maxTokens: nat, step: nat, from: nat)
    requires 1 <= step
    ensures var c := |WindowsFrom(tokens, maxTokens, step, from)|;
      if from >= |tokens| then c == 0
      else 0 < c && from + Start(c - 1, step) < |tokens| <= from + Start(c, step)
    decreases |tokens| - from
  {
    if from < |tokens| {
      WindowsFromCount(tokens, maxTokens, step, from + step);
      var c' := |WindowsFrom(tokens, maxTokens, step, from + step)|;
      assert Start(c' + 1, step) == Start(c', step) + step;
      if c' > 0 {
        assert Start(c', step) == Start(c' - 1, step) + step;
      }
    }
  }

  /** a * s < b * s with s positive gives a < b. */
  lemma MulLess(a: int, b: int, s: int)
    requires 0 < s && a * s < b * s
    ensures a < b
  {
    assert (b - a) * s == b * s - a * s;
  }

  /**
   There are ceil(|tokens| / step) chunks: the last window starts inside the
   token sequence and a further step would leave it. No tokens, no chunks.
   */
  lemma WindowCount<T>(tokens: seq<T>, maxTokens: nat, step: nat)
    requires 1 <= step
    ensures var c := |Windows(tokens, maxTokens, step)|;
      && (c == 0 <==> tokens == [])
      && (0 < c ==> Start(c - 1, step) < |tokens| <= Start(c, step))
      && c == (|tokens| + step - 1) / step
  {
    WindowsFromCount(tokens, maxTokens, step, 0);
    var c, n := |Windows(tokens, maxTokens, step)|, |tokens|;
    if n == 0 {
      assert (n + step - 1) / step == 0;
    } else {
      StartIsProduct(c - 1, step);
      StartIsProduct(c, step);
      CeilingDivision(n, step, c);
    }
  }

  /** c multiples of s reach n and c - 1 do not, so c is n / s rounded up. */
  lemma CeilingDivision(n: nat, s: nat, c: nat)
    requires 1 <= s && 0 < c && (c - 1) * s < n <= c * s
    ensures c == (n + s - 1) / s
  {
    var q, r := (n + s - 1) / s, (n + s - 1) % s;
    assert n + s - 1 == q * s + r && 0 <= r < s;
    assert (c + 1) * s == c * s + s;
    assert (q + 1) * s == q * s + s;
    assert (c - 1) * s == c * s - s;
    MulLess(q, c + 1, s);
    MulLess(c, q + 1, s);
  }

  lemma {:induction false} WindowsFromAt<T>(tokens: seq<T>, maxTokens: nat, step: nat, from: nat, k: nat)
    requires 1 <= step && k < |WindowsFrom(tokens, maxTokens, step, from)|
    ensures from + Start(k, step) < |tokens|
    ensures WindowsFrom(tokens, maxTokens, step, from)[k]
         == tokens[from + Start(k, step)..Min(from + Start(k, step) + maxTokens, |tokens|)]
    decreases |tokens| - from
  {
    if k > 0 {
      WindowsFromAt(tokens, maxTokens, step, from + step, k - 1);
      assert Start(k, step) == Start(k - 1, step) + step;
    }
  }

  /**
   Chunk k is exactly the tokens from Start(k) = k * step up to
   Start(k) + maxTokens, clipped at the end, so it is never empty and never
   longer than maxTokens.
   */
  lemma WindowAt<T>(tokens: seq<T>, maxTokens: nat, step: nat, k: nat)
    requires 1 <= step && k < |Windows(tokens, maxTokens, step)|
    ensures Start(k, step) < |tokens|
    ensures Windows(tokens, maxTokens, step)[k]
         == tokens[Start(k, step)..Min(Start(k, step) + maxTokens, |tokens|)]
    ensures |Windows(tokens, maxTokens, step)[k]| <= maxTokens
    ensures 0 < maxTokens ==> 0 < |Windows(tokens, maxTokens, step)[k]|
  {
    WindowsFromAt(tokens, maxTokens, step, 0, k);
  }

  /**
   When consecutive windows overlap (step <= maxTokens), every token lies in
   a window: token j lies in window j / step, at offset j % step.
   */
  lemma Coverage<T>(tokens: seq<T>, maxTokens: nat, step: nat, j: nat)
    requires 1 <= step <= maxTokens && j < |tokens|
    ensures var w, k := Windows(tokens, maxTokens, step), j / step;
      k < |w| && k * step <= j && j - k * step < |w[k]| && w[k][j - k * step] == tokens[j]
  {
    var w, k := Windows(tokens, maxTokens, step), j / step;
    DivBounds(j, step);
    StartIsProduct(k, step);
    WindowCount(tokens, maxTokens, step);
    StartMonotone(|w|, k, step);
    WindowAt(tokens, maxTokens, step, k);
  }

  /** Token j lies in the step-long stretch that starts at (j / step) * step. */
  lemma DivBounds(j: nat, step: nat)
    requires 1 <= step
    ensures (j / step) * step <= j < (j / step) * step + step
  {
    assert j == (j / step) * step + j % step;
  }

  /**
   Consecutive windows overlap: what is left of window k after its first
   `step` tokens is the beginning of window k + 1, and unless window k was
   clipped at the end that shared part is maxTokens - step tokens long.
   */
  lemma Overlap<T>(tokens: seq<T>, maxTokens: nat, step: nat, k: nat)
    requires 1 <= step <= maxTokens && k + 1 < |Windows(tokens, maxTokens, step)|
    ensures var w := Windows(tokens, maxTokens, step);
      step <= |w[k]| && w[k][step..] <= w[k + 1] &&
      (|w[k]| == maxTokens ==> |w[k][step..]| == maxTokens - step)
  {
    var w, n := Windows(tokens, maxTokens, step), |tokens|;
    WindowAt(tokens, maxTokens, step, k);
    WindowAt(tokens, maxTokens, step, k + 1);
    var a := Start(k, step);
    assert Start(k + 1, step) == a + step;
    var endK, endNext := Min(a + maxTokens, n), Min(a + step + maxTokens, n);
    SliceTailIsPrefix(tokens, a, step, endK, endNext);
  }

  /** Dropping the first `step` entries of s[a..e] leaves a prefix of s[a + step..e'] when e <= e'. */
  lemma SliceTailIsPrefix<T>(s: seq<T>, a: nat, step: nat, e: nat, e': nat)
    requires a + step <= e <= e' <= |s|
    ensures s[a..e][step..] <= s[a + step..e']
  {
    var left, right := s[a..e][step..], s[a + step..e'];
    assert |left| == e - a - step <= |right|;
    forall i | 0 <= i < |left| ensures left[i] == right[i] {
      assert left[i] == s[a + step + i];
    }
    assert left == right[..|left|];
  }
  /**
   The loop does not stop once a window has reached the end of the tokens:
   while the index is still inside them it cuts another window, which is
   then the previous window without its first `step` tokens.
   */
  lemma ClippedWindowRepeats<T>(tokens: seq<T>, maxTokens: nat, step: nat, k: nat)
    requires 1 <= step <= maxTokens && k + 1 < |Windows(tokens, maxTokens, step)|
    requires |tokens| <= Start(k, step) + maxTokens
    ensures var w := Windows(tokens, maxTokens, step);
      step < |w[k]| && w[k + 1] == w[k][step..]
  {
    var n := |tokens|;
    WindowAt(tokens, maxTokens, step, k);
    WindowAt(tokens, maxTokens, step, k + 1);
    var a := Start(k, step);
    assert Start(k + 1, step) == a + step;
    assert tokens[a..n][step..] == tokens[a + step..n];
  }
}
