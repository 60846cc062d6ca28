/** Greedy balancing of weighted partitions over a bounded number of tasks. */
module WeightedGroups {
  import opened Sequences

  datatype Item = Item(name: string, weight: int)

  /** A weight never counts as negative. */
  function Cost(item: Item): nat {
    if item.weight > 0 then item.weight else 0
  }

  /** Heaviest first, ties by name: the key `(-weight, name)`. */
  predicate HeavierFirst(a: Item, b: Item) {
    a.weight > b.weight || (a.weight == b.weight && TextLeq(a.name, b.name))
  }

  lemma HeavierFirstOrder()
    ensures TotalOrder(HeavierFirst)
  {
    TextOrder();
  }

  function Load(bucket: seq<Item>): nat {
    Sum(bucket, Cost)
  }

  ghost predicate LoadsAtMost(buckets: seq<seq<Item>>, bound: nat) {
    forall i | 0 <= i < |buckets| :: Load(buckets[i]) <= bound
  }

  /** The first bucket of least load among the first `n`. */
  function LightestOf(buckets: seq<seq<Item>>, n: nat): (r: nat)
    requires 1 <= n <= |buckets|
    ensures r < n
    ensures forall i | 0 <= i < n :: Load(buckets[r]) <= Load(buckets[i])
    ensures forall i | 0 <= i < r :: Load(buckets[r]) < Load(buckets[i])
  {
    if n == 1 then 0
    else
      var best := LightestOf(buckets, n - 1);
      if Load(buckets[n - 1]) < Load(buckets[best]) then n - 1 else best
  }

  function Place(buckets: seq<seq<Item>>, item: Item): (r: seq<seq<Item>>)
    requires |buckets| >= 1
    ensures |r| == |buckets|
  {
    var b := LightestOf(buckets, |buckets|);
    buckets[b := buckets[b] + [item]]
  }

  /** Buckets after placing `items` one after another. */
  function Distribute(items: seq<Item>, k: nat): (buckets: seq<seq<Item>>)
    requires k >= 1
    ensures |buckets| == k
  {
    if items == [] then seq(k, _ => [])
    else Place(Distribute(items[..|items| - 1], k), items[|items| - 1])
  }

  function GroupCount(n: nat, target: nat, max: nat): nat {
    if n <= target && n <= max then n else if target <= max then target else max
  }

  /** The buckets before empty ones are dropped and names are sorted. */
  function Buckets(items: seq<Item>, target: nat, max: nat): (buckets: seq<seq<Item>>)
    requires items != [] && target >= 1 && max >= 1
  {
    Distribute(Sort(items, HeavierFirst), GroupCount(|items|, target, max))
  }

  function Names(bucket: seq<Item>): (names: seq<string>)
    ensures |names| == |bucket|
  {
    if bucket == [] then [] else [bucket[0].name] + Names(bucket[1..])
  }

  /** Each non-empty bucket as its sorted names. */
  function Published(buckets: seq<seq<Item>>): seq<seq<string>> {
    if buckets == [] then []
    else if buckets[0] == [] then Published(buckets[1..])
    else [Sort(Names(buckets[0]), TextLeq)] + Published(buckets[1..])
  }

  function Groups(items: seq<Item>, target: nat, max: nat): seq<seq<string>>
    requires target >= 1 && max >= 1
  {
    if items == [] then [] else Published(Buckets(items, target, max))
  }

  // ----- the loop of the source -------------------------------------------

  /** `min(range(n), key=lambda i: (weights[i], i))`. */
  method LightestBucket(buckets: seq<seq<Item>>, weights: seq<nat>) returns (lightest: nat)
    requires 1 <= |buckets| == |weights|
    requires forall b | 0 <= b < |buckets| :: weights[b] == Load(buckets[b])
    ensures lightest == LightestOf(buckets, |buckets|)
  {
    lightest := 0;
    for b := 1 to |weights|
      invariant lightest == LightestOf(buckets, b)
    {
      if weights[b] < weights[lightest] {
        lightest := b;
      }
    }
  }

  method Publish(buckets: seq<seq<Item>>) returns (groups: seq<seq<string>>)
    ensures groups == Published(buckets)
  {
    groups := [];
    for b := 0 to |buckets|
      invariant groups + Published(buckets[b..]) == Published(buckets)
    {
      assert buckets[b..][1..] == buckets[b + 1..];
      if buckets[b] != [] {
        groups := groups + [Sort(Names(buckets[b]), TextLeq)];
      }
    }
  }

  method FillBuckets(ordered: seq<Item>, count: nat) returns (buckets: seq<seq<Item>>)
    requires count >= 1
    ensures buckets == Distribute(ordered, count)
  {
    buckets := seq(count, _ => []);
    var weights: seq<nat> := seq(count, _ => 0);
    for i := 0 to |ordered|
      invariant |buckets| == |weights| == count
      invariant buckets == Distribute(ordered[..i], count)
      invariant forall b | 0 <= b < count :: weights[b] == Load(buckets[b])
    {
      var lightest := LightestBucket(buckets, weights);
      SumAppend(buckets[lightest], ordered[i], Cost);
      assert ordered[..i + 1][..i] == ordered[..i];
      buckets := buckets[lightest := buckets[lightest] + [ordered[i]]];
      weights := weights[lightest := weights[lightest] + Cost(ordered[i])];
    }
    assert ordered[..|ordered|] == ordered;
  }

  method GroupWeightedItems(items: seq<Item>, target: nat, max: nat) returns (groups: seq<seq<string>>)
    requires target >= 1 && max >= 1
    ensures groups == Groups(items, target, max)
  {
    if items == [] {
      return [];
    }
    var buckets := FillBuckets(Sort(items, HeavierFirst), GroupCount(|items|, target, max));
    groups := Publish(buckets);
  }

  // ----- the groups partition the items ------------------------------------

  lemma {:induction false} EmptyBuckets(k: nat)
    ensures Flatten<Item>(seq(k, _ => [])) == []
  {
    if k > 0 {
      var all: seq<seq<Item>> := seq(k, _ => []);
      assert all[1..] == seq(k - 1, _ => []);
      EmptyBuckets(k - 1);
    }
  }

  lemma {:induction false} DistributeKeepsItems(items: seq<Item>, k: nat)
    requires k >= 1
    ensures multiset(Flatten(Distribute(items, k))) == multiset(items)
  {
    hide LightestOf, Load, Flatten;
    if items == [] {
      EmptyBuckets(k);
    } else {
      var n := |items| - 1;
      var before := Distribute(items[..n], k);
      DistributeKeepsItems(items[..n], k);
      FlattenUpdate(before, LightestOf(before, k), items[n]);
      assert items == items[..n] + [items[n]];
    }
  }

  lemma {:induction false} NamesConcat(a: seq<Item>, b: seq<Item>)
    ensures Names(a + b) == Names(a) + Names(b)
  {
    if a == [] {
      assert a + b == b;
    } else {
      assert (a + b)[1..] == a[1..] + b;
      NamesConcat(a[1..], b);
    }
  }

  lemma {:induction false} NamesPermutation(a: seq<Item>, b: seq<Item>)
    requires multiset(a) == multiset(b)
    ensures multiset(Names(a)) == multiset(Names(b))
  {
    if a == [] {
      assert |b| == |multiset(b)| == 0;
    } else {
      assert a[0] in multiset(b);
      var j :| 0 <= j < |b| && b[j] == a[0];
      WithoutMultiset(a, 0);
      WithoutMultiset(b, j);
      assert Without(a, 0) == a[1..];
      NamesPermutation(a[1..], Without(b, j));
      NamesWithout(a, 0);
      NamesWithout(b, j);
    }
  }

  lemma NamesWithout(a: seq<Item>, j: nat)
    requires j < |a|
    ensures multiset(Names(a)) == multiset(Names(Without(a, j))) + multiset{Names([a[j]])[0]}
  {
    var front, back := a[..j], a[j + 1..];
    assert a == front + ([a[j]] + back);
    NamesConcat(front, [a[j]] + back);
    NamesConcat([a[j]], back);
    NamesConcat(front, back);
    var one := Names([a[j]]);
    assert one == [one[0]];
    assert Names(a) == Names(front) + ([one[0]] + Names(back));
  }

  lemma {:induction false} PublishedNames(buckets: seq<seq<Item>>)
    ensures multiset(Flatten(Published(buckets))) == multiset(Names(Flatten(buckets)))
  {
    if buckets != [] {
      PublishedNames(buckets[1..]);
      NamesConcat(buckets[0], Flatten(buckets[1..]));
      SortPermutes(Names(buckets[0]), TextLeq);
    }
  }

  lemma {:induction false} PublishedShape(buckets: seq<seq<Item>>)
    ensures |Published(buckets)| <= |buckets|
    ensures forall i | 0 <= i < |Published(buckets)| ::
              Published(buckets)[i] != [] && SortedBy(Published(buckets)[i], TextLeq)
  {
    if buckets != [] {
      PublishedShape(buckets[1..]);
      SortPermutes(Names(buckets[0]), TextLeq);
      TextOrder();
      SortSorts(Names(buckets[0]), TextLeq);
    }
  }

  /** No name is lost, invented or repeated, and the task cap is respected. */
  lemma GroupsPartition(items: seq<Item>, target: nat, max: nat)
    requires target >= 1 && max >= 1
    ensures multiset(Flatten(Groups(items, target, max))) == multiset(Names(items))
    ensures var n := |Groups(items, target, max)|; n <= |items| && n <= target && n <= max
    ensures forall i | 0 <= i < |Groups(items, target, max)| ::
              Groups(items, target, max)[i] != [] && SortedBy(Groups(items, target, max)[i], TextLeq)
  {
    if items != [] {
      var ordered := Sort(items, HeavierFirst);
      SortPermutes(items, HeavierFirst);
      DistributeKeepsItems(ordered, GroupCount(|items|, target, max));
      PublishedNames(Buckets(items, target, max));
      PublishedShape(Buckets(items, target, max));
      NamesPermutation(Flatten(Buckets(items, target, max)), items);
    }
  }

  /** The groups do not depend on the order in which items were discovered. */
  lemma GroupsOrderIndependent(a: seq<Item>, b: seq<Item>, target: nat, max: nat)
    requires target >= 1 && max >= 1
    requires multiset(a) == multiset(b)
    ensures Groups(a, target, max) == Groups(b, target, max)
  {
    HeavierFirstOrder();
    SortCanonical(a, b, HeavierFirst);
    assert |a| == |multiset(a)| == |multiset(b)| == |b|;
  }

  // ----- near-optimal balance ----------------------------------------------

  /** `rival` is some way of putting the same items into equally many buckets. */
  ghost predicate Rival(rival: seq<seq<Item>>, items: seq<Item>, k: nat) {
    |rival| == k && multiset(Flatten(rival)) == multiset(items)
  }

  /** `load` is at most (4/3 - 1/(3k)) times `t`. */
  ghost predicate WithinRatio(load: nat, k: nat, t: nat) {
    3 * k * load <= (4 * k - 1) * t
  }

  /** How much of a rival bucket of capacity `t` an item uses up when no item is lighter than `w`:
      both halves when it leaves no room for a second one, one half otherwise. */
  function Halves(item: Item, w: nat, t: nat): nat {
    if Cost(item) < w then 0 else if Cost(item) + w > t then 2 else 1
  }

  /** Within capacity, a bucket holds at most two halves. */
  lemma {:induction false} TwoHalvesFit(bucket: seq<Item>, w: nat, t: nat)
    requires 3 * w > t
    ensures var h := Sum(bucket, (x: Item) => Halves(x, w, t));
            && (h == 1 ==> Load(bucket) >= w)
            && (h == 2 ==> Load(bucket) >= 2 * w || Load(bucket) + w > t)
            && (h >= 3 ==> Load(bucket) > t)
  {
    if bucket != [] {
      TwoHalvesFit(bucket[1..], w, t);
    }
  }

  /** A bucket too full for `w` more already holds two halves. */
  lemma {:induction false} FullBucketHasTwoHalves(bucket: seq<Item>, w: nat, t: nat)
    requires w <= t
    requires forall x | x in bucket :: Cost(x) >= w
    ensures var h := Sum(bucket, (x: Item) => Halves(x, w, t));
            && (h == 0 ==> Load(bucket) == 0)
            && (h == 1 ==> Load(bucket) + w <= t)
  {
    if bucket != [] {
      FullBucketHasTwoHalves(bucket[1..], w, t);
      assert bucket[0] in bucket;
    }
  }

  /** Placing one more item on the lightest bucket keeps the ratio 4/3 - 1/(3k). */
  lemma PlacementBound(before: seq<seq<Item>>, placed: seq<Item>, x: Item, later: seq<Item>,
                       k: nat, rival: seq<seq<Item>>, t: nat)
    requires k >= 1 && |before| == k
    requires multiset(Flatten(before)) == multiset(placed)
    requires forall y | y in placed :: Cost(y) >= Cost(x)
    requires Rival(rival, placed + [x] + later, k) && LoadsAtMost(rival, t)
    ensures WithinRatio(Load(before[LightestOf(before, k)]) + Cost(x), k, t)
  {
    var l, w := Load(before[LightestOf(before, k)]), Cost(x);
    TotalBound(before, placed, x, later, k, rival, t, l);
    if 3 * w <= t {
      SmallItemArithmetic(k, l, w, t);
    } else {
      LargeItemFits(before, placed, x, later, k, rival, t, l);
      LargeItemArithmetic(k, l, w, t);
    }
  }

  lemma SmallItemArithmetic(k: nat, l: nat, w: nat, t: nat)
    requires k >= 1 && k * l + w <= k * t && 3 * w <= t
    ensures WithinRatio(l + w, k, t)
  {
    assert 3 * k * (l + w) == 3 * (k * l) + 3 * k * w;
    assert 3 * k * w == (k - 1) * (3 * w) + 3 * w;
    assert (k - 1) * (3 * w) <= (k - 1) * t;
    assert (4 * k - 1) * t == 3 * (k * t) + (k - 1) * t;
  }

  lemma LargeItemArithmetic(k: nat, l: nat, w: nat, t: nat)
    requires k >= 1 && l + w <= t
    ensures WithinRatio(l + w, k, t)
  {
    assert 3 * k * (l + w) <= 3 * k * t;
    assert (4 * k - 1) * t == 3 * k * t + (k - 1) * t;
  }

  /** The lightest load and the new item together are at most an average rival load each. */
  lemma TotalBound(before: seq<seq<Item>>, placed: seq<Item>, x: Item, later: seq<Item>,
                   k: nat, rival: seq<seq<Item>>, t: nat, l: nat)
    requires k >= 1 && |before| == k && l == Load(before[LightestOf(before, k)])
    requires multiset(Flatten(before)) == multiset(placed)
    requires Rival(rival, placed + [x] + later, k) && LoadsAtMost(rival, t)
    ensures k * l + Cost(x) <= k * t
  {
    FlattenSumAtLeast(before, Cost, l);
    SumPermutation(Flatten(before), placed, Cost);
    FlattenSumAtMost(rival, Cost, t);
    SumPermutation(Flatten(rival), placed + [x] + later, Cost);
    SumConcat(placed + [x], later, Cost);
    SumAppend(placed, x, Cost);
  }

  /** An item above a third of the rival capacity still fits beside the lightest load. */
  lemma LargeItemFits(before: seq<seq<Item>>, placed: seq<Item>, x: Item, later: seq<Item>,
                      k: nat, rival: seq<seq<Item>>, t: nat, l: nat)
    requires k >= 1 && |before| == k && l == Load(before[LightestOf(before, k)])
    requires multiset(Flatten(before)) == multiset(placed)
    requires forall y | y in placed :: Cost(y) >= Cost(x)
    requires Rival(rival, placed + [x] + later, k) && LoadsAtMost(rival, t)
    requires 3 * Cost(x) > t
    ensures l + Cost(x) <= t
  {
    var w := Cost(x);
    var halves := (y: Item) => Halves(y, w, t);
    TotalBound(before, placed, x, later, k, rival, t, l);
    if l + w > t {
      ItemWithinCapacity(x, placed + [x] + later, k, rival, t);
      forall i | 0 <= i < k ensures Sum(rival[i], halves) <= 2 {
        TwoHalvesFit(rival[i], w, t);
      }
      FlattenSumAtMost(rival, halves, 2);
      SumPermutation(Flatten(rival), placed + [x] + later, halves);
      forall i | 0 <= i < k ensures Sum(before[i], halves) >= 2 {
        BucketItemsPlaced(before, placed, i);
        FullBucketHasTwoHalves(before[i], w, t);
      }
      FlattenSumAtLeast(before, halves, 2);
      SumPermutation(Flatten(before), placed, halves);
      SumConcat(placed + [x], later, halves);
      SumAppend(placed, x, halves);
      assert false;
    }
  }

  lemma {:induction false} InFlatten<T>(parts: seq<seq<T>>, i: nat, x: T)
    requires i < |parts| && x in parts[i]
    ensures x in Flatten(parts)
  {
    if i > 0 {
      InFlatten(parts[1..], i - 1, x);
    }
  }

  lemma {:induction false} FlattenMember<T>(parts: seq<seq<T>>, x: T) returns (i: nat)
    requires x in Flatten(parts)
    ensures i < |parts| && x in parts[i]
  {
    if x in parts[0] {
      i := 0;
    } else {
      var j := FlattenMember(parts[1..], x);
      i := j + 1;
    }
  }

  lemma BucketItemsPlaced(before: seq<seq<Item>>, placed: seq<Item>, i: nat)
    requires i < |before| && multiset(Flatten(before)) == multiset(placed)
    ensures forall y | y in before[i] :: y in placed
  {
    forall y | y in before[i] ensures y in placed {
      InFlatten(before, i, y);
      assert y in multiset(Flatten(before));
    }
  }

  lemma {:induction false} MemberLoad(bucket: seq<Item>, x: Item)
    requires x in bucket
    ensures Cost(x) <= Load(bucket)
  {
    if x != bucket[0] {
      MemberLoad(bucket[1..], x);
    }
  }

  lemma ItemWithinCapacity(x: Item, items: seq<Item>, k: nat, rival: seq<seq<Item>>, t: nat)
    requires x in items && Rival(rival, items, k) && LoadsAtMost(rival, t)
    ensures Cost(x) <= t
  {
    assert x in multiset(Flatten(rival));
    var i := FlattenMember(rival, x);
    MemberLoad(rival[i], x);
  }

  /** Every load is within 4/3 - 1/(3k) of the capacity `t`. */
  ghost predicate Balanced(buckets: seq<seq<Item>>, t: nat) {
    forall b | 0 <= b < |buckets| :: WithinRatio(Load(buckets[b]), |buckets|, t)
  }

  lemma LoadsStayBalanced(before: seq<seq<Item>>, x: Item, t: nat)
    requires |before| >= 1 && Balanced(before, t)
    requires WithinRatio(Load(before[LightestOf(before, |before|)]) + Cost(x), |before|, t)
    ensures Balanced(Place(before, x), t)
  {
    hide Place, Load, WithinRatio, Cost;
    forall b | 0 <= b < |before| ensures WithinRatio(Load(Place(before, x)[b]), |before|, t) {
      PlaceLoad(before, x, b);
    }
  }

  lemma PlaceLoad(before: seq<seq<Item>>, x: Item, b: nat)
    requires b < |before|
    ensures var l := LightestOf(before, |before|);
            Load(Place(before, x)[b]) == if b == l then Load(before[l]) + Cost(x) else Load(before[b])
  {
    SumAppend(before[b], x, Cost);
  }

  lemma HeavierCostsMore(ordered: seq<Item>, n: nat)
    requires n < |ordered| && SortedBy(ordered, HeavierFirst)
    ensures forall y | y in ordered[..n] :: Cost(y) >= Cost(ordered[n])
  {
    forall y | y in ordered[..n] ensures Cost(y) >= Cost(ordered[n]) {
      var i :| 0 <= i < n && ordered[i] == y;
      assert HeavierFirst(ordered[i], ordered[n]);
    }
  }

  lemma {:induction false} DistributeBound(ordered: seq<Item>, n: nat, k: nat, rival: seq<seq<Item>>, t: nat)
    requires k >= 1 && n <= |ordered| && SortedBy(ordered, HeavierFirst)
    requires Rival(rival, ordered, k) && LoadsAtMost(rival, t)
    ensures Balanced(Distribute(ordered[..n], k), t)
  {
    hide Balanced, WithinRatio, Load, Place, Cost, LightestOf, Flatten, LoadsAtMost;
    if n == 0 {
      EmptyBalanced(k, t);
    } else {
      var m := n - 1;
      DistributeBound(ordered, m, k, rival, t);
      assert ordered[..n][..m] == ordered[..m];
      assert ordered == ordered[..m] + [ordered[m]] + ordered[n..];
      DistributeKeepsItems(ordered[..m], k);
      HeavierCostsMore(ordered, m);
      PlacementBound(Distribute(ordered[..m], k), ordered[..m], ordered[m], ordered[n..], k, rival, t);
      LoadsStayBalanced(Distribute(ordered[..m], k), ordered[m], t);
    }
  }

  lemma EmptyBalanced(k: nat, t: nat)
    requires k >= 1
    ensures Balanced(Distribute([], k), t)
  {
    assert forall b | 0 <= b < k :: Load(Distribute([], k)[b]) == 0;
    assert WithinRatio(0, k, t);
  }

  /** `k` is the least of three numbers. */
  ghost predicate LeastOf(k: nat, a: nat, b: nat, c: nat) {
    k <= a && k <= b && k <= c && (k == a || k == b || k == c)
  }

  /** There are as many buckets as items, wanted tasks and allowed tasks permit. */
  lemma BucketCount(items: seq<Item>, target: nat, max: nat)
    requires items != [] && target >= 1 && max >= 1
    ensures LeastOf(|Buckets(items, target, max)|, |items|, target, max)
  {
  }

  /** The items are handled by falling weight, equal weights by name. */
  lemma HandlingOrder(items: seq<Item>, i: nat, j: nat)
    requires i < j < |items|
    ensures var ordered := Sort(items, HeavierFirst);
            && multiset(ordered) == multiset(items) && |ordered| == |items|
            && (ordered[i].weight > ordered[j].weight
                || (ordered[i].weight == ordered[j].weight && TextLeq(ordered[i].name, ordered[j].name)))
  {
    SortPermutes(items, HeavierFirst);
    HeavierFirstOrder();
    SortSorts(items, HeavierFirst);
    assert HeavierFirst(Sort(items, HeavierFirst)[i], Sort(items, HeavierFirst)[j]);
  }

  /** What a bucket weighs: the sum of its weights, negative ones counting as nothing. */
  function Weight(bucket: seq<Item>): nat {
    if bucket == [] then 0
    else (if bucket[0].weight < 0 then 0 else bucket[0].weight) + Weight(bucket[1..])
  }

  lemma {:induction false} LoadIsWeight(bucket: seq<Item>)
    ensures Load(bucket) == Weight(bucket)
  {
    if bucket != [] {
      LoadIsWeight(bucket[1..]);
    }
  }

  function NonEmpty(buckets: seq<seq<Item>>): seq<seq<Item>> {
    if buckets == [] then [] else if buckets[0] == [] then NonEmpty(buckets[1..])
      else [buckets[0]] + NonEmpty(buckets[1..])
  }

  /** `groups` are the names of `parts`, part by part. */
  ghost predicate NamesOf(groups: seq<seq<string>>, parts: seq<seq<Item>>) {
    |groups| == |parts| && forall i | 0 <= i < |parts| :: multiset(groups[i]) == multiset(Names(parts[i]))
  }

  /** Publishing keeps the buckets apart. */
  lemma {:induction false} PublishedMatches(buckets: seq<seq<Item>>)
    ensures NamesOf(Published(buckets), NonEmpty(buckets))
    ensures Flatten(NonEmpty(buckets)) == Flatten(buckets) && |NonEmpty(buckets)| <= |buckets|
    ensures forall p | p in NonEmpty(buckets) :: p in buckets
  {
    if buckets != [] {
      PublishedMatches(buckets[1..]);
      SortPermutes(Names(buckets[0]), TextLeq);
    }
  }

  /** Longest-first greedy balancing is within 4/3 - 1/(3k) of every other distribution of the same
      items over `k` buckets, where `k` is the least of the number of items, the wanted and the
      allowed number of tasks: `parts` are the items behind the groups. */
  lemma BalanceBound(items: seq<Item>, target: nat, max: nat, k: nat, rival: seq<seq<Item>>, t: nat)
    returns (parts: seq<seq<Item>>)
    requires items != [] && target >= 1 && max >= 1 && LeastOf(k, |items|, target, max)
    requires |rival| == k && multiset(Flatten(rival)) == multiset(items)
    requires forall i | 0 <= i < k :: Weight(rival[i]) <= t
    ensures |parts| <= k && multiset(Flatten(parts)) == multiset(items)
    ensures NamesOf(Groups(items, target, max), parts)
    ensures forall i | 0 <= i < |parts| :: 3 * k * Weight(parts[i]) <= (4 * k - 1) * t
  {
    hide Buckets, NonEmpty, NamesOf, Weight, Balanced, Flatten, LoadsAtMost;
    var buckets := Buckets(items, target, max);
    BucketCount(items, target, max);
    RivalLoads(rival, t);
    BucketsBalanced(items, target, max, rival, t);
    parts := NonEmpty(buckets);
    PublishedMatches(buckets);
    PartsBalanced(buckets, parts, k, t);
  }

  lemma PartsBalanced(buckets: seq<seq<Item>>, parts: seq<seq<Item>>, k: nat, t: nat)
    requires Balanced(buckets, t) && |buckets| == k && forall p | p in parts :: p in buckets
    ensures forall i | 0 <= i < |parts| :: 3 * k * Weight(parts[i]) <= (4 * k - 1) * t
  {
    hide Weight, Load;
    forall i | 0 <= i < |parts| ensures 3 * k * Weight(parts[i]) <= (4 * k - 1) * t {
      assert parts[i] in parts;
      var b :| 0 <= b < |buckets| && buckets[b] == parts[i];
      LoadIsWeight(buckets[b]);
      assert WithinRatio(Load(buckets[b]), k, t);
    }
  }

  lemma RivalLoads(rival: seq<seq<Item>>, t: nat)
    requires forall i | 0 <= i < |rival| :: Weight(rival[i]) <= t
    ensures LoadsAtMost(rival, t)
  {
    forall i | 0 <= i < |rival| ensures Load(rival[i]) <= t {
      LoadIsWeight(rival[i]);
    }
  }

  lemma BucketsBalanced(items: seq<Item>, target: nat, max: nat, rival: seq<seq<Item>>, t: nat)
    requires items != [] && target >= 1 && max >= 1
    requires Rival(rival, items, GroupCount(|items|, target, max)) && LoadsAtMost(rival, t)
    ensures Balanced(Buckets(items, target, max), t)
    ensures multiset(Flatten(Buckets(items, target, max))) == multiset(items)
  {
    var ordered := Sort(items, HeavierFirst);
    SortPermutes(items, HeavierFirst);
    HeavierFirstOrder();
    SortSorts(items, HeavierFirst);
    DistributeKeepsItems(ordered, GroupCount(|items|, target, max));
    DistributeBound(ordered, |ordered|, GroupCount(|items|, target, max), rival, t);
    assert ordered[..|ordered|] == ordered;
  }
}
