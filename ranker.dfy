/**
 The top-N selection of qa_model.py (`find_relevant_chunks`).

 The source scores each chunk by the dot product of its embedding with the
 question's, sorts the chunk indices by score with numpy's argsort, keeps
 the last top_n indices (`[-top_n:]`) and reverses them. Here the scores
 are given integers, one per chunk, and the argsort is any index order that
 lists every index once in non-decreasing score order: numpy's default sort
 is not stable, so the order among equal scores is left open.
 */
module Ranker {
  import opened Sequences

  /** `order` is an argsort of `scores`: each index once, scores non-decreasing along it. */
  ghost predicate IsArgSort(scores: seq<int>, order: seq<nat>)
  {
    && IsPermutation(order, |scores|)
    && forall i, j :: 0 <= i < j < |order| ==> scores[order[i]] <= scores[order[j]]
  }

  /**
   An argsort routine such as numpy's: for every score sequence it returns
   an argsort, breaking ties in whatever way it does.
   */
  ghost predicate SortsEvery(argsort: seq<int> -> seq<nat>)
  {
    forall scores :: IsArgSort(scores, argsort(scores))
  }

  /** How many indices `order[-topN:]` keeps of n: `-0` is 0, so topN = 0 keeps all. */
  function TakeCount(topN: nat, n: nat): nat
  {
    if topN == 0 || n <= topN then n else topN
  }

  function Reverse<T>(s: seq<T>): (r: seq<T>)
    ensures |r| == |s|
    ensures forall k :: 0 <= k < |s| ==> r[k] == s[|s| - 1 - k]
  {
    if s == [] then [] else Reverse(s[1..]) + [s[0]]
  }

  /** `argsort()[-topN:][::-1]`: the indices that are kept, highest score first. */
  function TopIndices(order: seq<nat>, topN: nat): seq<nat>
  {
    Reverse(order[|order| - TakeCount(topN, |order|)..])
  }

  /** The chunks at the kept indices, in the order TopIndices gives. */
  function FindRelevantChunks<C>(chunks: seq<C>, scores: seq<int>, order: seq<nat>, topN: nat): (r: seq<C>)
    requires |scores| == |chunks| && IsArgSort(scores, order)
    ensures |r| == TakeCount(topN, |chunks|)
  {
    PermutationEntries(order, |chunks|);
    Permute(chunks, TopIndices(order, topN))
  }

  lemma TopIndicesAt(order: seq<nat>, topN: nat)
    ensures |TopIndices(order, topN)| == TakeCount(topN, |order|)
    ensures forall k :: 0 <= k < |TopIndices(order, topN)| ==>
      TopIndices(order, topN)[k] == order[|order| - 1 - k]
  {
  }

  /**
   What find_relevant_chunks returns: min(topN, |chunks|) chunks (all of them
   for topN = 0), taken at distinct indices, in non-increasing score order.
   */
  lemma TopSelection<C>(chunks: seq<C>, scores: seq<int>, order: seq<nat>, topN: nat)
    requires |scores| == |chunks| && IsArgSort(scores, order)
    ensures var sel, r := TopIndices(order, topN), FindRelevantChunks(chunks, scores, order, topN);
      && |sel| == |r| == TakeCount(topN, |chunks|)
      && AllBelow(sel, |chunks|)
      && (forall k :: 0 <= k < |r| ==> r[k] == chunks[sel[k]])
      && (forall i, j :: 0 <= i < j < |sel| ==> sel[i] != sel[j])
      && (forall i, j :: 0 <= i < j < |sel| ==> scores[sel[i]] >= scores[sel[j]])
  {
    PermutationEntries(order, |chunks|);
    TopIndicesAt(order, topN);
  }

  /** No chunk that find_relevant_chunks leaves out scores higher than one it returns. */
  lemma TopIsMaximal(scores: seq<int>, order: seq<nat>, topN: nat, x: nat, k: nat)
    requires IsArgSort(scores, order)
    requires x < |scores| && x !in TopIndices(order, topN) && k < |TopIndices(order, topN)|
    ensures scores[x] <= scores[TopIndices(order, topN)[k]]
  {
    var n := |scores|;
    PermutationEntries(order, n);
    TopIndicesAt(order, topN);
    var sel, c := TopIndices(order, topN), TakeCount(topN, n);
    forall q | n - c <= q < n ensures order[q] in sel {
      assert sel[n - 1 - q] == order[q];
    }
    PermutationCovers(order, n, x);
    var p :| 0 <= p < n && order[p] == x;
    assert p < n - 1 - k;
  }

  /** With topN = 0 or topN at least the number of chunks, every chunk is returned once. */
  lemma AllChunksWhenTopNCoversThem<C>(chunks: seq<C>, scores: seq<int>, order: seq<nat>, topN: nat)
    requires |scores| == |chunks| && IsArgSort(scores, order)
    requires topN == 0 || |chunks| <= topN
    ensures multiset(FindRelevantChunks(chunks, scores, order, topN)) == multiset(chunks)
  {
    var n := |chunks|;
    var sel := TopIndices(order, topN);
    PermutationEntries(order, n);
    assert order[n - n..] == order;
    assert multiset(sel) == multiset(order) by {
      ReverseMultiset(order);
    }
    PermuteMultiset(chunks, sel, Range(n));
    PermuteRange(chunks);
  }

  lemma {:induction false} ReverseMultiset<T>(s: seq<T>)
    ensures multiset(Reverse(s)) == multiset(s)
  {
    if s != [] {
      ReverseMultiset(s[1..]);
      assert s == [s[0]] + s[1..];
    }
  }

  // A reference argsort: insertion by score, which shows that every score
  // sequence has an argsort. It places a later index after the earlier ones
  // with the same score.

  /** The score of the index at position i of `order`. */
  function ScoreAt(scores: seq<int>, order: seq<nat>, i: nat): int
    requires AllBelow(order, |scores|) && i < |order|
  {
    scores[order[i]]
  }

  /** Along `order`, scores never go down. */
  ghost predicate SortedByScore(scores: seq<int>, order: seq<nat>)
    requires AllBelow(order, |scores|)
  {
    forall i, j :: 0 <= i < j < |order| ==> ScoreAt(scores, order, i) <= ScoreAt(scores, order, j)
  }

  /** Inserts index x into an index sequence, after the leading indices that do not score higher than x. */
  function InsertByScore(scores: seq<int>, sorted: seq<nat>, x: nat): (r: seq<nat>)
    requires AllBelow(sorted, |scores|) && x < |scores|
    ensures multiset(r) == multiset(sorted) + multiset{x}
    ensures AllBelow(r, |scores|)
    ensures |r| == |sorted| + 1
  {
    if sorted == [] then [x]
    else if scores[x] < scores[sorted[0]] then [x] + sorted
    else
      assert sorted == [sorted[0]] + sorted[1..];
      [sorted[0]] + InsertByScore(scores, sorted[1..], x)
  }

  /** Every entry of the insertion's result is x or an entry of the input. */
  lemma InsertedEntries(scores: seq<int>, sorted: seq<nat>, x: nat, k: nat)
    requires AllBelow(sorted, |scores|) && x < |scores|
    requires k < |InsertByScore(scores, sorted, x)|
    ensures InsertByScore(scores, sorted, x)[k] == x || InsertByScore(scores, sorted, x)[k] in sorted
  {
    var r := InsertByScore(scores, sorted, x);
    assert r[k] in multiset(r);
  }

  /** Insertion keeps an index sequence sorted by score. */
  lemma {:induction false} InsertKeepsSorted(scores: seq<int>, sorted: seq<nat>, x: nat)
    requires AllBelow(sorted, |scores|) && x < |scores| && SortedByScore(scores, sorted)
    ensures SortedByScore(scores, InsertByScore(scores, sorted, x))
  {
    var r := InsertByScore(scores, sorted, x);
    if sorted == [] {
    } else if scores[x] < scores[sorted[0]] {
      assert r == [x] + sorted;
      forall i, j | 0 <= i < j < |r| ensures ScoreAt(scores, r, i) <= ScoreAt(scores, r, j) {
        assert r[j] == sorted[j - 1];
        if i == 0 {
          assert ScoreAt(scores, sorted, 0) <= ScoreAt(scores, sorted, j - 1);
        } else {
          assert r[i] == sorted[i - 1];
          assert ScoreAt(scores, sorted, i - 1) <= ScoreAt(scores, sorted, j - 1);
        }
      }
    } else {
      var head, tail := sorted[0], sorted[1..];
      assert AllBelow(tail, |scores|);
      assert SortedByScore(scores, tail) by {
        forall i, j | 0 <= i < j < |tail| ensures ScoreAt(scores, tail, i) <= ScoreAt(scores, tail, j) {
          assert tail[i] == sorted[i + 1] && tail[j] == sorted[j + 1];
          assert ScoreAt(scores, sorted, i + 1) <= ScoreAt(scores, sorted, j + 1);
        }
      }
      InsertKeepsSorted(scores, tail, x);
      var rest := InsertByScore(scores, tail, x);
      assert r == [head] + rest;
      forall i, j | 0 <= i < j < |r| ensures ScoreAt(scores, r, i) <= ScoreAt(scores, r, j) {
        assert r[j] == rest[j - 1];
        if i == 0 {
          InsertedEntries(scores, tail, x, j - 1);
          if rest[j - 1] != x {
            var q :| 0 <= q < |tail| && tail[q] == rest[j - 1];
            assert tail[q] == sorted[q + 1];
            assert ScoreAt(scores, sorted, 0) <= ScoreAt(scores, sorted, q + 1);
          }
        } else {
          assert r[i] == rest[i - 1];
          assert ScoreAt(scores, rest, i - 1) <= ScoreAt(scores, rest, j - 1);
        }
      }
    }
  }

  /**
   The indices below n, inserted one by one in increasing order: each of
   them once, sorted by score.
   */
  function ArgSortPrefix(scores: seq<int>, n: nat): (r: seq<nat>)
    requires n <= |scores|
    ensures AllBelow(r, |scores|)
    ensures multiset(r) == multiset(Range(n))
    ensures SortedByScore(scores, r)
  {
    if n == 0 then []
    else
      var prev := ArgSortPrefix(scores, n - 1);
      InsertStep(scores, prev, n);
      InsertByScore(scores, prev, n - 1)
  }

  /**
   Inserting n - 1 into the indices below n - 1, sorted by score, gives the
   indices below n, sorted by score.
   */
  lemma InsertStep(scores: seq<int>, prev: seq<nat>, n: nat)
    requires 0 < n <= |scores| && AllBelow(prev, |scores|)
    requires multiset(prev) == multiset(Range(n - 1)) && SortedByScore(scores, prev)
    ensures var r := InsertByScore(scores, prev, n - 1);
      AllBelow(r, |scores|) && multiset(r) == multiset(Range(n)) && SortedByScore(scores, r)
  {
    var r := InsertByScore(scores, prev, n - 1);
    assert multiset(r) == multiset(Range(n)) by {
      RangeSnoc(n);
    }
    assert SortedByScore(scores, r) by {
      InsertKeepsSorted(scores, prev, n - 1);
    }
  }

  /** Every score sequence has an argsort. */
  function ArgSort(scores: seq<int>): (r: seq<nat>)
    ensures IsArgSort(scores, r)
  {
    var r := ArgSortPrefix(scores, |scores|);
    assert forall i, j :: 0 <= i < j < |r| ==> scores[r[i]] <= scores[r[j]] by {
      forall i, j | 0 <= i < j < |r| ensures scores[r[i]] <= scores[r[j]] {
        assert ScoreAt(scores, r, i) <= ScoreAt(scores, r, j);
      }
    }
    r
  }

  /** Argsort routines exist: ArgSort is one. */
  lemma ArgSortSortsEvery()
    ensures SortsEvery(ArgSort)
  {
  }
}
