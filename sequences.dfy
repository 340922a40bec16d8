/**
 Sequence helpers shared by the chunker, the ranker and the pipeline:
 index ranges, reordering by an index sequence, mapping, filtering out
 empty strings, joining with a separator and substring search, each with
 the facts the other modules need about it.
 */
module Sequences {

  function Min(a: int, b: int): int
  {
    if a <= b then a else b
  }

  /** The indices 0, 1, ..., n - 1 in increasing order. */
  function Range(n: nat): (r: seq<nat>)
    ensures |r| == n
    ensures forall k :: 0 <= k < n ==> r[k] == k
  {
    if n == 0 then [] else Range(n - 1) + [n - 1]
  }

  /** Every entry of `order` is an index below n. */
  predicate AllBelow(order: seq<nat>, n: nat)
  {
    forall k :: 0 <= k < |order| ==> order[k] < n
  }

  /** `order` lists every index below n exactly once. */
  ghost predicate IsPermutation(order: seq<nat>, n: nat)
  {
    AllBelow(order, n) && multiset(order) == multiset(Range(n))
  }

  lemma {:induction false} RangeCount(n: nat, x: nat)
    ensures multiset(Range(n))[x] == if x < n then 1 else 0
  {
    if n > 0 {
      var m: nat := n - 1;
      var before := multiset(Range(m));
      assert multiset(Range(n)) == before + multiset{m} by {
        RangeSnoc(n);
      }
      assert before[x] == if x < m then 1 else 0 by {
        RangeCount(m, x);
      }
    }
  }

  lemma RangeSnoc(n: nat)
    requires 0 < n
    ensures multiset(Range(n)) == multiset(Range(n - 1)) + multiset{(n - 1) as nat}
  {
    var m: nat := n - 1;
    var prefix := Range(m);
    assert Range(n) == prefix + [m];
    assert multiset(prefix + [m]) == multiset(prefix) + multiset{m};
  }

  /** The entries of a permutation of the indices below n are below n and pairwise distinct. */
  lemma PermutationEntries(order: seq<nat>, n: nat)
    requires IsPermutation(order, n)
    ensures |order| == n
    ensures AllBelow(order, n)
    ensures forall j, k :: 0 <= j < k < |order| ==> order[j] != order[k]
  {
    assert |order| == |multiset(order)| == |multiset(Range(n))| == n;
    forall j, k | 0 <= j < k < |order|
      ensures order[j] != order[k]
    {
      if order[j] == order[k] {
        RepeatedEntry(order, j, k);
        RangeCount(n, order[j]);
        assert false;
      }
    }
  }

  /** An entry that occurs at two positions occurs at least twice in the multiset. */
  lemma RepeatedEntry<T>(s: seq<T>, j: nat, k: nat)
    requires j < k < |s| && s[j] == s[k]
    ensures multiset(s)[s[j]] >= 2
  {
    var front, back := s[..k], s[k..];
    assert s == front + back;
    assert front[j] == s[j] && back[0] == s[k];
    assert s[j] in multiset(front) && s[j] in multiset(back);
  }

  /** Every index below n occurs in a permutation of the indices below n. */
  lemma PermutationCovers(order: seq<nat>, n: nat, x: nat)
    requires IsPermutation(order, n) && x < n
    ensures x in order
  {
    RangeCount(n, x);
    assert x in multiset(order);
  }

  /** The entries of xs taken in the order the indices of `order` give. */
  function Permute<T>(xs: seq<T>, order: seq<nat>): (r: seq<T>)
    requires AllBelow(order, |xs|)
    ensures |r| == |order|
    ensures forall k :: 0 <= k < |order| ==> r[k] == xs[order[k]]
  {
    if order == [] then [] else [xs[order[0]]] + Permute(xs, order[1..])
  }

  lemma {:induction false} PermuteAppend<T>(xs: seq<T>, a: seq<nat>, b: seq<nat>)
    requires AllBelow(a, |xs|)
    requires AllBelow(b, |xs|)
    ensures Permute(xs, a + b) == Permute(xs, a) + Permute(xs, b)
  {
    if a != [] {
      assert (a + b)[1..] == a[1..] + b;
      PermuteAppend(xs, a[1..], b);
    }
  }

  /** Reordering by one more index appends the element at that index. */
  lemma PermuteSnoc<T>(xs: seq<T>, order: seq<nat>, i: nat)
    requires AllBelow(order, |xs|) && i < |order|
    ensures AllBelow(order[..i], |xs|) && AllBelow(order[..i + 1], |xs|)
    ensures Permute(xs, order[..i + 1]) == Permute(xs, order[..i]) + [xs[order[i]]]
  {
    assert order[..i + 1] == order[..i] + [order[i]];
    PermuteAppend(xs, order[..i], [order[i]]);
  }

  /** Taking one occurrence of x out of two sequences with equal multisets leaves equal multisets. */
  lemma RemoveOne<T>(x: T, rest: seq<T>, pre: seq<T>, post: seq<T>)
    requires multiset([x] + rest) == multiset(pre + [x] + post)
    ensures multiset(rest) == multiset(pre + post)
  {
    forall y ensures multiset(rest)[y] == multiset(pre + post)[y] {
      assert multiset([x] + rest)[y] == multiset([x])[y] + multiset(rest)[y];
      assert multiset(pre + [x] + post)[y] == multiset(pre)[y] + multiset([x])[y] + multiset(post)[y];
    }
  }

  lemma PermuteSplit<T>(xs: seq<T>, pre: seq<nat>, x: nat, post: seq<nat>)
    requires AllBelow(pre, |xs|) && x < |xs| && AllBelow(post, |xs|)
    ensures AllBelow(pre + [x] + post, |xs|) && AllBelow(pre + post, |xs|)
    ensures multiset(Permute(xs, pre + [x] + post)) == multiset(Permute(xs, pre + post)) + multiset{xs[x]}
  {
    var mid := [x] + post;
    assert AllBelow(mid, |xs|);
    var front, single, back := Permute(xs, pre), Permute(xs, [x]), Permute(xs, post);
    assert Permute(xs, pre + [x] + post) == front + (single + back) by {
      assert pre + [x] + post == pre + mid;
      PermuteAppend(xs, pre, mid);
      PermuteAppend(xs, [x], post);
    }
    assert Permute(xs, pre + post) == front + back by {
      PermuteAppend(xs, pre, post);
    }
    assert single == [xs[x]];
    assert multiset(front + (single + back)) == multiset(front + back) + multiset{xs[x]};
  }

  /** One step of PermuteMultiset: put x in front of `rest` and between pre and post. */
  lemma PermuteStep<T>(xs: seq<T>, x: nat, rest: seq<nat>, pre: seq<nat>, post: seq<nat>)
    requires x < |xs| && AllBelow(rest, |xs|) && AllBelow(pre, |xs|) && AllBelow(post, |xs|)
    requires multiset(Permute(xs, rest)) == multiset(Permute(xs, pre + post))
    ensures multiset(Permute(xs, [x] + rest)) == multiset(Permute(xs, pre + [x] + post))
  {
    var tail := Permute(xs, rest);
    assert multiset(Permute(xs, pre + [x] + post)) == multiset(Permute(xs, pre + post)) + multiset{xs[x]} by {
      PermuteSplit(xs, pre, x, post);
    }
    assert Permute(xs, [x] + rest) == [xs[x]] + tail by {
      PermuteAppend(xs, [x], rest);
      assert Permute(xs, [x]) == [xs[x]];
    }
    assert multiset([xs[x]] + tail) == multiset{xs[x]} + multiset(tail);
  }

  lemma AllBelowParts(pre: seq<nat>, x: nat, post: seq<nat>, n: nat)
    requires AllBelow(pre + [x] + post, n)
    ensures AllBelow(pre, n) && x < n && AllBelow(post, n)
  {
    var s := pre + [x] + post;
    assert forall k :: 0 <= k < |pre| ==> pre[k] == s[k];
    assert s[|pre|] == x;
    assert forall k :: 0 <= k < |post| ==> post[k] == s[|pre| + 1 + k];
  }

  /** Splits b around one occurrence of x. */
  lemma SplitAround<T>(b: seq<T>, x: T) returns (pre: seq<T>, post: seq<T>)
    requires x in multiset(b)
    ensures b == pre + [x] + post
  {
    var j :| 0 <= j < |b| && b[j] == x;
    pre, post := b[..j], b[j+1..];
    assert b == pre + [x] + post;
  }

  /** Reordering xs by two index sequences that hold the same indices yields the same multiset. */
  lemma {:induction false} PermuteMultiset<T>(xs: seq<T>, a: seq<nat>, b: seq<nat>)
    requires AllBelow(a, |xs|)
    requires AllBelow(b, |xs|)
    requires multiset(a) == multiset(b)
    ensures multiset(Permute(xs, a)) == multiset(Permute(xs, b))
    decreases |a|
  {
    if a == [] {
      assert |b| == |multiset(b)| == 0;
    } else {
      var x, rest := a[0], a[1..];
      assert a == [] + [x] + rest;
      AllBelowParts([], x, rest, |xs|);
      var pre, post := SplitAround(b, x);
      AllBelowParts(pre, x, post, |xs|);
      RemoveOne(x, rest, pre, post);
      PermuteSplit(xs, pre, x, post);
      PermuteMultiset(xs, rest, pre + post);
      PermuteStep(xs, x, rest, pre, post);
    }
  }

  lemma PermuteRange<T>(xs: seq<T>)
    ensures Permute(xs, Range(|xs|)) == xs
  {
  }

  /** A permutation of the indices of xs rearranges xs without losing or adding entries. */
  lemma PermutationPreservesMultiset<T>(xs: seq<T>, order: seq<nat>)
    requires IsPermutation(order, |xs|)
    ensures AllBelow(order, |xs|)
    ensures multiset(Permute(xs, order)) == multiset(xs)
  {
    PermutationEntries(order, |xs|);
    PermuteMultiset(xs, order, Range(|xs|));
    PermuteRange(xs);
  }

  function Map<A, B>(f: A -> B, xs: seq<A>): (r: seq<B>)
    ensures |r| == |xs|
    ensures forall k :: 0 <= k < |xs| ==> r[k] == f(xs[k])
  {
    if xs == [] then [] else [f(xs[0])] + Map(f, xs[1..])
  }

  lemma MapSnoc<A, B>(f: A -> B, xs: seq<A>, x: A)
    ensures Map(f, xs + [x]) == Map(f, xs) + [f(x)]
  {
  }

  lemma MapPermute<A, B>(f: A -> B, xs: seq<A>, order: seq<nat>)
    requires AllBelow(order, |xs|)
    ensures Map(f, Permute(xs, order)) == Permute(Map(f, xs), order)
  {
  }

  /** The strings of xs that are not empty, in their order in xs. */
  function NonEmpty(xs: seq<string>): (r: seq<string>)
    ensures |r| <= |xs|
    ensures forall k :: 0 <= k < |r| ==> r[k] != [] && r[k] in xs
    ensures forall k :: 0 <= k < |xs| && xs[k] != [] ==> xs[k] in r
  {
    if xs == [] then []
    else (if xs[0] != [] then [xs[0]] else []) + NonEmpty(xs[1..])
  }

  lemma {:induction false} NonEmptyCount(xs: seq<string>, x: string)
    ensures multiset(NonEmpty(xs))[x] == if x == [] then 0 else multiset(xs)[x]
  {
    if xs != [] {
      var head, tail := xs[0], xs[1..];
      var kept := if head != [] then [head] else [];
      NonEmptyCount(tail, x);
      assert multiset(NonEmpty(xs)) == multiset(kept) + multiset(NonEmpty(tail));
      assert multiset(xs) == multiset{head} + multiset(tail) by {
        assert xs == [head] + tail;
      }
    }
  }

  lemma {:induction false} NonEmptyAppend(xs: seq<string>, x: string)
    ensures NonEmpty(xs + [x]) == NonEmpty(xs) + (if x != [] then [x] else [])
  {
    if xs != [] {
      assert (xs + [x])[1..] == xs[1..] + [x];
      NonEmptyAppend(xs[1..], x);
    }
  }

  /** Filtering out empty strings does not depend on the order of its input. */
  lemma NonEmptyMultiset(xs: seq<string>, ys: seq<string>)
    requires multiset(xs) == multiset(ys)
    ensures multiset(NonEmpty(xs)) == multiset(NonEmpty(ys))
  {
    forall x ensures multiset(NonEmpty(xs))[x] == multiset(NonEmpty(ys))[x] {
      NonEmptyCount(xs, x);
      NonEmptyCount(ys, x);
    }
  }

  /** Python's `sep.join(parts)`. */
  function Join(sep: string, parts: seq<string>): string
  {
    if parts == [] then []
    else if |parts| == 1 then parts[0]
    else parts[0] + sep + Join(sep, parts[1..])
  }

  /**
   Joining two non-empty runs of parts is joining each of them and putting
   one separator between the results.
   */
  lemma {:induction false} JoinAppend(sep: string, a: seq<string>, b: seq<string>)
    requires a != [] && b != []
    ensures Join(sep, a + b) == Join(sep, a) + sep + Join(sep, b)
    decreases |a|
  {
    assert (a + b)[1..] == a[1..] + b;
    if |a| > 1 {
      JoinAppend(sep, a[1..], b);
    }
  }

  /** The number of characters in all the parts together. */
  function TotalLength(parts: seq<string>): nat
  {
    if parts == [] then 0 else |parts[0]| + TotalLength(parts[1..])
  }

  /**
   The joined text holds every character of every part, empty parts
   included, and one separator between each two neighbouring parts.
   */
  lemma {:induction false} JoinLength(sep: string, parts: seq<string>)
    requires parts != []
    ensures |Join(sep, parts)| == TotalLength(parts) + (|parts| - 1) * |sep|
    decreases |parts|
  {
    if |parts| > 1 {
      JoinLength(sep, parts[1..]);
    }
  }

  /** `t` occurs in `s` as a contiguous piece (Python's `t in s` on strings). */
  predicate Contains(s: string, t: string)
    decreases |s|
  {
    t <= s || (s != [] && Contains(s[1..], t))
  }

  /** `t` sits in `s` starting at position i. */
  ghost predicate OccursAt(s: string, t: string, i: nat)
  {
    i + |t| <= |s| && s[i..i + |t|] == t
  }

  /** Contains holds exactly when t sits at some position of s. */
  lemma {:induction false} ContainsIff(s: string, t: string)
    ensures Contains(s, t) <==> exists i: nat :: OccursAt(s, t, i)
    decreases |s|
  {
    if t <= s {
      assert OccursAt(s, t, 0);
    } else if s == [] {
    } else {
      ContainsIff(s[1..], t);
      if exists i: nat :: OccursAt(s, t, i) {
        var i: nat :| OccursAt(s, t, i);
        assert i != 0;
        assert OccursAt(s[1..], t, i - 1);
      }
      if Contains(s[1..], t) {
        var i: nat :| OccursAt(s[1..], t, i);
        assert OccursAt(s, t, i + 1);
      }
    }
  }

  lemma ContainsAt(s: string, t: string, i: nat)
    requires OccursAt(s, t, i)
    ensures Contains(s, t)
  {
    ContainsIff(s, t);
  }

  /** A piece of a piece of s is a piece of s. */
  lemma ContainsTransitive(s: string, u: string, t: string)
    requires Contains(s, u) && Contains(u, t)
    ensures Contains(s, t)
  {
    ContainsIff(s, u);
    ContainsIff(u, t);
    var i: nat :| OccursAt(s, u, i);
    var j: nat :| OccursAt(u, t, j);
    forall k | 0 <= k < |t| ensures s[i + j + k] == t[k] {
      assert t[k] == u[j + k] == s[i + j + k];
    }
    assert s[i + j..i + j + |t|] == t;
    ContainsAt(s, t, i + j);
  }

  lemma ContainsInfix(p: string, t: string, q: string)
    ensures Contains(p + t + q, t)
  {
    assert (p + t + q)[|p|..] == t + q;
    assert (t + q)[..|t|] == t;
    ContainsAt(p + t + q, t, |p|);
  }

  /** Every part occurs in the joined text. */
  lemma {:induction false} JoinContainsParts(sep: string, parts: seq<string>, k: nat)
    requires k < |parts|
    ensures Contains(Join(sep, parts), parts[k])
    decreases |parts|
  {
    if |parts| == 1 {
      ContainsInfix([], parts[0], []);
    } else if k == 0 {
      ContainsInfix([], parts[0], sep + Join(sep, parts[1..]));
      assert parts[0] + sep + Join(sep, parts[1..]) == [] + parts[0] + (sep + Join(sep, parts[1..]));
    } else {
      JoinContainsParts(sep, parts[1..], k - 1);
      var rest := Join(sep, parts[1..]);
      ContainsIff(rest, parts[k]);
      var i: nat :| OccursAt(rest, parts[k], i);
      var pre := parts[0] + sep;
      assert Join(sep, parts) == pre + rest;
      assert (pre + rest)[|pre| + i..|pre| + i + |parts[k]|] == rest[i..i + |parts[k]|];
      ContainsAt(pre + rest, parts[k], |pre| + i);
    }
  }
}
