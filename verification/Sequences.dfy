/** Sums, concatenation and ordering of finite sequences.

    Sorting is by insertion; what matters is that it forgets the order of its input. */
module Sequences {

  /** The sum of `f` over the elements of `s`. */
  function Sum<T>(s: seq<T>, f: T -> nat): nat {
    if s == [] then 0 else f(s[0]) + Sum(s[1..], f)
  }

  function Flatten<T>(parts: seq<seq<T>>): seq<T> {
    if parts == [] then [] else parts[0] + Flatten(parts[1..])
  }

  predicate Distinct<T(==)>(s: seq<T>) {
    forall i, j | 0 <= i < j < |s| :: s[i] != s[j]
  }

  /** `", ".join(parts)`. */
  function Join(parts: seq<string>): string {
    if parts == [] then []
    else if |parts| == 1 then parts[0]
    else parts[0] + ", " + Join(parts[1..])
  }

  lemma {:induction false} SumConcat<T>(a: seq<T>, b: seq<T>, f: T -> nat)
    ensures Sum(a + b, f) == Sum(a, f) + Sum(b, f)
  {
    if a == [] {
      assert a + b == b;
    } else {
      assert (a + b)[1..] == a[1..] + b;
      SumConcat(a[1..], b, f);
    }
  }

  lemma SumAppend<T>(a: seq<T>, x: T, f: T -> nat)
    ensures Sum(a + [x], f) == Sum(a, f) + f(x)
  {
    SumConcat(a, [x], f);
  }

  function Without<T>(s: seq<T>, i: nat): seq<T>
    requires i < |s|
  {
    s[..i] + s[i + 1..]
  }

  lemma WithoutMultiset<T>(s: seq<T>, i: nat)
    requires i < |s|
    ensures multiset(Without(s, i)) == multiset(s) - multiset{s[i]}
  {
    assert s == s[..i] + [s[i]] + s[i + 1..];
  }

  lemma WithoutSum<T>(s: seq<T>, i: nat, f: T -> nat)
    requires i < |s|
    ensures Sum(s, f) == f(s[i]) + Sum(Without(s, i), f)
  {
    assert s == s[..i] + ([s[i]] + s[i + 1..]);
    SumConcat(s[..i], [s[i]] + s[i + 1..], f);
    SumConcat(s[..i], s[i + 1..], f);
  }

  /** A sum depends only on which elements occur and how often. */
  lemma {:induction false} SumPermutation<T>(a: seq<T>, b: seq<T>, f: T -> nat)
    requires multiset(a) == multiset(b)
    ensures Sum(a, f) == Sum(b, f)
  {
    if a == [] {
      assert |b| == |multiset(b)| == 0;
    } else {
      assert a[0] in multiset(b);
      var j :| 0 <= j < |b| && b[j] == a[0];
      WithoutMultiset(a, 0);
      WithoutMultiset(b, j);
      assert Without(a, 0) == a[1..];
      SumPermutation(a[1..], Without(b, j), f);
      WithoutSum(b, j, f);
    }
  }

  lemma {:induction false} FlattenConcat<T>(a: seq<seq<T>>, b: seq<seq<T>>)
    ensures Flatten(a + b) == Flatten(a) + Flatten(b)
  {
    if a == [] {
      assert a + b == b;
    } else {
      assert (a + b)[1..] == a[1..] + b;
      FlattenConcat(a[1..], b);
    }
  }

  lemma FlattenAppend<T>(parts: seq<seq<T>>, last: seq<T>)
    ensures Flatten(parts + [last]) == Flatten(parts) + last
  {
    FlattenConcat(parts, [last]);
    assert Flatten([last]) == last;
  }

  lemma MulSuccessor(n: nat, m: nat)
    ensures (n + 1) * m == n * m + m
  {
  }

  /** Bucket sums bounded above by `bound` bound the sum over all buckets. */
  lemma {:induction false} FlattenSumAtMost<T>(parts: seq<seq<T>>, f: T -> nat, bound: nat)
    requires forall i | 0 <= i < |parts| :: Sum(parts[i], f) <= bound
    ensures Sum(Flatten(parts), f) <= |parts| * bound
  {
    if parts != [] {
      SumConcat(parts[0], Flatten(parts[1..]), f);
      FlattenSumAtMost(parts[1..], f, bound);
      MulSuccessor(|parts[1..]|, bound);
    }
  }

  /** Bucket sums bounded below by `bound` bound the sum over all buckets. */
  lemma {:induction false} FlattenSumAtLeast<T>(parts: seq<seq<T>>, f: T -> nat, bound: nat)
    requires forall i | 0 <= i < |parts| :: Sum(parts[i], f) >= bound
    ensures Sum(Flatten(parts), f) >= |parts| * bound
  {
    if parts != [] {
      SumConcat(parts[0], Flatten(parts[1..]), f);
      FlattenSumAtLeast(parts[1..], f, bound);
      MulSuccessor(|parts[1..]|, bound);
    }
  }

  /** Replacing one bucket by an extension of it adds exactly the new elements. */
  lemma FlattenUpdate<T>(parts: seq<seq<T>>, i: nat, x: T)
    requires i < |parts|
    ensures multiset(Flatten(parts[i := parts[i] + [x]])) == multiset(Flatten(parts)) + multiset{x}
  {
    var updated := parts[i := parts[i] + [x]];
    assert parts == parts[..i] + ([parts[i]] + parts[i + 1..]);
    assert updated == parts[..i] + ([parts[i] + [x]] + parts[i + 1..]);
    FlattenConcat(parts[..i], [parts[i]] + parts[i + 1..]);
    FlattenConcat(parts[..i], [parts[i] + [x]] + parts[i + 1..]);
  }

  // ----- ordering ---------------------------------------------------------

  ghost predicate TotalOrder<T(!new)>(leq: (T, T) -> bool) {
    && (forall x, y :: leq(x, y) || leq(y, x))
    && (forall x, y :: leq(x, y) && leq(y, x) ==> x == y)
    && (forall x, y, z :: leq(x, y) && leq(y, z) ==> leq(x, z))
  }

  ghost predicate SortedBy<T>(s: seq<T>, leq: (T, T) -> bool) {
    forall i, j | 0 <= i < j < |s| :: leq(s[i], s[j])
  }

  function Insert<T>(x: T, s: seq<T>, leq: (T, T) -> bool): seq<T> {
    if s == [] || leq(x, s[0]) then [x] + s else [s[0]] + Insert(x, s[1..], leq)
  }

  /** Python's `sorted`: the ordered rearrangement of `s`. */
  function Sort<T>(s: seq<T>, leq: (T, T) -> bool): seq<T> {
    if s == [] then [] else Insert(s[0], Sort(s[1..], leq), leq)
  }

  lemma {:induction false} InsertPermutes<T>(x: T, s: seq<T>, leq: (T, T) -> bool)
    ensures multiset(Insert(x, s, leq)) == multiset(s) + multiset{x}
  {
    if s != [] && !leq(x, s[0]) {
      InsertPermutes(x, s[1..], leq);
      assert s == [s[0]] + s[1..];
    }
  }

  lemma {:induction false} SortPermutes<T>(s: seq<T>, leq: (T, T) -> bool)
    ensures multiset(Sort(s, leq)) == multiset(s)
    ensures |Sort(s, leq)| == |s|
  {
    if s != [] {
      SortPermutes(s[1..], leq);
      InsertPermutes(s[0], Sort(s[1..], leq), leq);
      assert s == [s[0]] + s[1..];
    }
    assert |multiset(Sort(s, leq))| == |Sort(s, leq)|;
    assert |multiset(s)| == |s|;
  }

  lemma {:induction false} InsertSorted<T(!new)>(x: T, s: seq<T>, leq: (T, T) -> bool)
    requires TotalOrder(leq) && SortedBy(s, leq)
    ensures SortedBy(Insert(x, s, leq), leq)
  {
    if s != [] && !leq(x, s[0]) {
      var tail := Insert(x, s[1..], leq);
      InsertSorted(x, s[1..], leq);
      InsertPermutes(x, s[1..], leq);
      forall j | 0 <= j < |tail| ensures leq(s[0], tail[j]) {
        assert tail[j] in multiset(tail);
        assert tail[j] == x || tail[j] in s[1..];
      }
    } else if s != [] {
      forall j | 0 <= j < |s| ensures leq(x, s[j]) {
        assert leq(x, s[0]);
      }
    }
  }

  lemma {:induction false} SortSorts<T(!new)>(s: seq<T>, leq: (T, T) -> bool)
    requires TotalOrder(leq)
    ensures SortedBy(Sort(s, leq), leq)
  {
    if s != [] {
      SortSorts(s[1..], leq);
      InsertSorted(s[0], Sort(s[1..], leq), leq);
    }
  }

  /** Under a total order two insertions commute. */
  lemma {:induction false} InsertsCommute<T(!new)>(x: T, y: T, s: seq<T>, leq: (T, T) -> bool)
    requires TotalOrder(leq)
    ensures Insert(x, Insert(y, s, leq), leq) == Insert(y, Insert(x, s, leq), leq)
  {
    assert ([x] + s)[1..] == s && ([y] + s)[1..] == s;
    if s != [] && !leq(x, s[0]) && !leq(y, s[0]) {
      InsertsCommute(x, y, s[1..], leq);
      assert Insert(x, s, leq)[1..] == Insert(x, s[1..], leq);
      assert Insert(y, s, leq)[1..] == Insert(y, s[1..], leq);
    } else if s != [] && !leq(y, s[0]) {
      assert Insert(y, s, leq)[0] == s[0] && !leq(y, x);
    } else if s != [] && !leq(x, s[0]) {
      assert Insert(x, s, leq)[0] == s[0] && !leq(x, y);
    }
  }

  /** Any element may be the last one inserted. */
  lemma {:induction false} SortWithout<T(!new)>(s: seq<T>, j: nat, leq: (T, T) -> bool)
    requires TotalOrder(leq) && j < |s|
    ensures Sort(s, leq) == Insert(s[j], Sort(Without(s, j), leq), leq)
  {
    if j == 0 {
      assert Without(s, 0) == s[1..];
    } else {
      SortWithout(s[1..], j - 1, leq);
      assert Without(s, j)[1..] == Without(s[1..], j - 1);
      InsertsCommute(s[0], s[j], Sort(Without(s[1..], j - 1), leq), leq);
    }
  }

  /** Sorting forgets the order of its input. */
  lemma {:induction false} SortCanonical<T(!new)>(a: seq<T>, b: seq<T>, leq: (T, T) -> bool)
    requires TotalOrder(leq)
    requires multiset(a) == multiset(b)
    ensures Sort(a, leq) == Sort(b, leq)
  {
    assert |a| == |multiset(a)| && |b| == |multiset(b)|;
    if a != [] {
      assert a[0] in multiset(b);
      var j :| 0 <= j < |b| && b[j] == a[0];
      assert Without(a, 0) == a[1..];
      WithoutMultiset(a, 0);
      WithoutMultiset(b, j);
      SortCanonical(a[1..], Without(b, j), leq);
      SortWithout(b, j, leq);
    }
  }

  /** Python's order on text: by code point, a proper prefix first. */
  predicate TextLeq(a: string, b: string) {
    a == [] || (b != [] && (a[0] < b[0] || (a[0] == b[0] && TextLeq(a[1..], b[1..]))))
  }

  lemma {:induction false} TextLeqTotal(a: string, b: string)
    ensures TextLeq(a, b) || TextLeq(b, a)
    ensures TextLeq(a, b) && TextLeq(b, a) ==> a == b
  {
    if a != [] && b != [] {
      TextLeqTotal(a[1..], b[1..]);
      assert a == [a[0]] + a[1..] && b == [b[0]] + b[1..];
    }
  }

  lemma {:induction false} TextLeqTransitive(a: string, b: string, c: string)
    requires TextLeq(a, b) && TextLeq(b, c)
    ensures TextLeq(a, c)
  {
    if a != [] && a[0] == b[0] == c[0] {
      TextLeqTransitive(a[1..], b[1..], c[1..]);
    }
  }

  /** The first difference is at `i`, where `a` has the smaller character. */
  ghost predicate SmallerAt(a: string, b: string, i: int) {
    0 <= i < |a| && i < |b| && a[..i] == b[..i] && a[i] < b[i]
  }

  lemma SmallerAtTail(a: string, b: string, i: int)
    requires a != [] && b != [] && a[0] == b[0]
    ensures SmallerAt(a, b, i) <==> SmallerAt(a[1..], b[1..], i - 1)
  {
    if 0 < i < |a| && i < |b| {
      var x, y := a[1..][..i - 1], b[1..][..i - 1];
      assert a[..i] == [a[0]] + x && b[..i] == [b[0]] + y;
      assert ([a[0]] + x)[1..] == x && ([b[0]] + y)[1..] == y;
    }
  }

  /** The order compares the first characters that differ; a prefix comes first. */
  lemma {:induction false} TextLeqMeaning(a: string, b: string)
    ensures TextLeq(a, b) <==> a <= b || exists i :: SmallerAt(a, b, i)
  {
    if a != [] && b != [] {
      if a[0] == b[0] {
        TextLeqMeaning(a[1..], b[1..]);
        assert a <= b <==> a[1..] <= b[1..] by { assert a == [a[0]] + a[1..] && b == [b[0]] + b[1..]; }
        forall i ensures SmallerAt(a, b, i) <==> SmallerAt(a[1..], b[1..], i - 1) {
          SmallerAtTail(a, b, i);
        }
        if exists i :: SmallerAt(a[1..], b[1..], i) {
          var i :| SmallerAt(a[1..], b[1..], i);
          assert SmallerAt(a, b, i + 1) by { SmallerAtTail(a, b, i + 1); }
        }
      } else if a[0] < b[0] {
        assert SmallerAt(a, b, 0);
      } else {
        forall i ensures !SmallerAt(a, b, i) {
          if i > 0 && i < |a| && i < |b| {
            assert a[..i][0] != b[..i][0];
          }
        }
      }
    }
  }

  lemma TextOrder()
    ensures TotalOrder(TextLeq)
  {
    forall a, b ensures TextLeq(a, b) || TextLeq(b, a) { TextLeqTotal(a, b); }
    forall a, b | TextLeq(a, b) && TextLeq(b, a) ensures a == b { TextLeqTotal(a, b); }
    forall a, b, c | TextLeq(a, b) && TextLeq(b, c) ensures TextLeq(a, c) {
      TextLeqTransitive(a, b, c);
    }
  }
}
