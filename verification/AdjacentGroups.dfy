/** Chunking of sorted tablet identifiers under the task limit. */
module AdjacentGroups {
  import opened Sequences
  import WeightedGroups

  predicate IdLeq(a: int, b: int) { a <= b }

  /** `s[i : i + size] for i in range(0, len(s), size)`. */
  function Chunks(s: seq<int>, size: nat): seq<seq<int>>
    requires size >= 1
  {
    if s == [] then []
    else if |s| <= size then [s]
    else [s[..size]] + Chunks(s[size..], size)
  }

  function GroupSize(n: nat, count: nat): (size: nat)
    requires n >= 1 && count >= 1
  {
    (n + count - 1) / count
  }

  function Groups(values: seq<int>, target: nat, max: nat): seq<seq<int>>
    requires target >= 1 && max >= 1
  {
    if values == [] then []
    else
      var count := WeightedGroups.GroupCount(|values|, target, max);
      GroupSizeCovers(|values|, count);
      Chunks(Sort(values, IdLeq), GroupSize(|values|, count))
  }

  /** Rounding up leaves room for all values in `count` groups. */
  lemma GroupSizeCovers(n: nat, count: nat)
    requires n >= 1 && count >= 1
    ensures GroupSize(n, count) >= 1 && count * GroupSize(n, count) >= n
  {
    var q, r := (n + count - 1) / count, (n + count - 1) % count;
    assert n + count - 1 == count * q + r;
    assert count * q > 0;
    PositiveFactors(count, q);
  }

  lemma PositiveFactors(a: nat, b: nat)
    requires a * b > 0
    ensures a >= 1 && b >= 1
  {
  }

  lemma {:induction false} ChunksConcatenate(s: seq<int>, size: nat)
    requires size >= 1
    ensures Flatten(Chunks(s, size)) == s
  {
    if |s| > size {
      ChunksConcatenate(s[size..], size);
    }
  }

  ghost predicate EvenlySized(parts: seq<seq<int>>, size: nat) {
    && (forall i | 0 <= i < |parts| :: 1 <= |parts[i]| <= size)
    && (forall i | 0 <= i < |parts| - 1 :: |parts[i]| == size)
  }

  lemma {:induction false} ChunkSizes(s: seq<int>, size: nat)
    requires size >= 1
    ensures EvenlySized(Chunks(s, size), size)
  {
    if |s| > size {
      ChunkSizes(s[size..], size);
    }
  }

  lemma {:induction false} ChunkCount(s: seq<int>, size: nat, count: nat)
    requires size >= 1 && |s| <= count * size
    ensures |Chunks(s, size)| <= count
  {
    if s != [] {
      PositiveFactors(count, size);
      if |s| > size {
        MulSuccessor(count - 1, size);
        ChunkCount(s[size..], size, count - 1);
      }
    }
  }

  /** A smaller size than the chosen one does not cover all values. */
  lemma GroupSizeLeast(n: nat, count: nat, smaller: nat)
    requires n >= 1 && count >= 1 && smaller < GroupSize(n, count)
    ensures count * smaller < n
  {
    var q, r := (n + count - 1) / count, (n + count - 1) % count;
    assert n + count - 1 == count * q + r;
    MulOrder(count, smaller, q - 1);
    assert count * (q - 1) == count * q - count;
  }

  lemma MulOrder(c: nat, a: nat, b: nat)
    requires a <= b
    ensures c * a <= c * b
  {
  }

  /** Non-empty groups which read in order are the sorted identifiers, equal in size except a smaller
      last one, and at most as many as values, wanted and allowed tasks. */
  lemma GroupsChunkSorted(values: seq<int>, target: nat, max: nat)
    requires target >= 1 && max >= 1
    ensures var g := Groups(values, target, max);
            && multiset(Flatten(g)) == multiset(values)
            && (forall i, j | 0 <= i < j < |Flatten(g)| :: Flatten(g)[i] <= Flatten(g)[j])
            && |g| <= |values| && |g| <= target && |g| <= max
            && (forall i | 0 <= i < |g| :: 1 <= |g[i]| <= |g[0]|)
            && (forall i | 0 <= i < |g| - 1 :: |g[i]| == |g[0]|)
  {
    SortPermutes(values, IdLeq);
    SortSorts(values, IdLeq);
    if values != [] {
      var count := WeightedGroups.GroupCount(|values|, target, max);
      var ordered, size := Sort(values, IdLeq), GroupSize(|values|, count);
      GroupSizeCovers(|values|, count);
      ChunksConcatenate(ordered, size);
      ChunkSizes(ordered, size);
      ChunkCount(ordered, size, count);
      Ascending(ordered);
    }
  }

  lemma Ascending(s: seq<int>)
    requires SortedBy(s, IdLeq)
    ensures forall i, j | 0 <= i < j < |s| :: s[i] <= s[j]
  {
    forall i, j | 0 <= i < j < |s| ensures s[i] <= s[j] {
      assert IdLeq(s[i], s[j]);
    }
  }

  /** The groups are as small as possible: with `k` the least of values, wanted and allowed tasks, there
      are at most `k` groups, and no smaller size would let `k` groups hold all values. */
  lemma GroupSizeIsLeast(values: seq<int>, target: nat, max: nat, k: nat, smaller: nat)
    requires values != [] && target >= 1 && max >= 1 && WeightedGroups.LeastOf(k, |values|, target, max)
    ensures Groups(values, target, max) != [] && |Groups(values, target, max)| <= k
    ensures smaller < |Groups(values, target, max)[0]| ==> k * smaller < |values|
  {
    SortPermutes(values, IdLeq);
    var ordered, size := Sort(values, IdLeq), GroupSize(|values|, k);
    GroupSizeCovers(|values|, k);
    ChunkCount(ordered, size, k);
    FirstChunk(ordered, size);
    if smaller < |Chunks(ordered, size)[0]| {
      GroupSizeLeast(|values|, k, smaller);
    }
  }

  lemma FirstChunk(s: seq<int>, size: nat)
    requires size >= 1 && s != []
    ensures Chunks(s, size) != [] && |Chunks(s, size)[0]| <= size
  {
  }

  /** The groups do not depend on the order in which tablets were listed. */
  lemma GroupsOrderIndependent(a: seq<int>, b: seq<int>, target: nat, max: nat)
    requires target >= 1 && max >= 1
    requires multiset(a) == multiset(b)
    ensures Groups(a, target, max) == Groups(b, target, max)
  {
    SortCanonical(a, b, IdLeq);
    assert |a| == |multiset(a)| == |multiset(b)| == |b|;
  }
}
