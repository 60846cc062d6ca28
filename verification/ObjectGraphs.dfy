/** The snapshot validator and the query-parameter check: two walks over object graphs. */
module ObjectGraphs {
  import opened Sequences

  type Id = nat

  datatype Kind =
    | Scalar
    | AwareTemporal
    | Mapping(entries: seq<(Id, Id)>)
    | Collection(members: seq<Id>)

  datatype Object = Object(callable: bool, kind: Kind) {
    predicate Container() { kind.Mapping? || kind.Collection? }
  }

  /** Python objects by identity. */
  type Heap = map<Id, Object>

  function KeysAndValues(entries: seq<(Id, Id)>): seq<Id> {
    if entries == [] then [] else [entries[0].0, entries[0].1] + KeysAndValues(entries[1..])
  }

  function ValuesOnly(entries: seq<(Id, Id)>): seq<Id> {
    if entries == [] then [] else [entries[0].1] + ValuesOnly(entries[1..])
  }

  /** What the snapshot validator descends into: mapping keys and values, collection members. */
  function Contents(o: Object): seq<Id> {
    match o.kind
    case Mapping(entries) => KeysAndValues(entries)
    case Collection(members) => members
    case _ => []
  }

  /** What the parameter check descends into: mapping values, collection members. */
  function NestedValues(o: Object): seq<Id> {
    match o.kind
    case Mapping(entries) => ValuesOnly(entries)
    case Collection(members) => members
    case _ => []
  }

  lemma {:induction false} EntriesHold(entries: seq<(Id, Id)>, v: Id)
    ensures v in KeysAndValues(entries) <==> exists e :: e in entries && (e.0 == v || e.1 == v)
    ensures v in ValuesOnly(entries) <==> exists e :: e in entries && e.1 == v
  {
    if entries != [] {
      EntriesHold(entries[1..], v);
      assert entries == [entries[0]] + entries[1..];
      assert entries[0] in entries && forall e | e in entries[1..] :: e in entries;
    }
  }

  /** A mapping contains its keys and values and nests its values; other collections do both for their
      members, and nothing else contains anything. */
  lemma ContainedObjects(o: Object, v: Id)
    ensures v in Contents(o) <==>
            || (o.kind.Mapping? && exists e :: e in o.kind.entries && (e.0 == v || e.1 == v))
            || (o.kind.Collection? && v in o.kind.members)
    ensures v in NestedValues(o) <==>
            || (o.kind.Mapping? && exists e :: e in o.kind.entries && e.1 == v)
            || (o.kind.Collection? && v in o.kind.members)
  {
    if o.kind.Mapping? {
      EntriesHold(o.kind.entries, v);
    }
  }

  /** Every object mentioned by another one exists. */
  ghost predicate Closed(h: Heap) {
    forall v | v in h ::
      && (forall c | c in Contents(h[v]) :: c in h)
      && (forall c | c in NestedValues(h[v]) :: c in h)
  }

  ghost predicate AllIn(h: Heap, vs: seq<Id>) {
    forall v | v in vs :: v in h
  }

  // ----- snapshot validation -------------------------------------------------

  datatype Verdict = Accepted | CallableFound | CycleFound

  /** What the validator decides for `v` while the containers in `active` are being visited. */
  function Validate(h: Heap, v: Id, active: set<Id>): Verdict
    requires Closed(h) && v in h
    decreases h.Keys - active, 0
  {
    if h[v].callable then CallableFound
    else if !h[v].Container() then Accepted
    else if v in active then CycleFound
    else ValidateAll(h, Contents(h[v]), active + {v})
  }

  /** The first failure among `vs`, if any. */
  function ValidateAll(h: Heap, vs: seq<Id>, active: set<Id>): Verdict
    requires Closed(h) && AllIn(h, vs)
    decreases h.Keys - active, |vs|
  {
    if vs == [] then Accepted
    else
      var first := Validate(h, vs[0], active);
      if first.Accepted? then ValidateAll(h, vs[1..], active) else first
  }

  /** The recursive validator with its shared set of active containers. */
  class SnapshotValidator {
    const heap: Heap
    var active: set<Id>

    constructor (heap: Heap)
      ensures this.heap == heap && active == {}
    {
      this.heap := heap;
      active := {};
    }

    /** Every exit, normal or not, restores the active set. */
    method Check(v: Id) returns (verdict: Verdict)
      requires Closed(heap) && v in heap
      modifies this
      ensures verdict == Validate(heap, v, old(active))
      ensures active == old(active)
      decreases heap.Keys - active, 0
    {
      if heap[v].callable {
        return CallableFound;
      }
      if !heap[v].Container() {
        return Accepted;
      }
      if v in active {
        return CycleFound;
      }
      active := active + {v};
      verdict := CheckAll(Contents(heap[v]));
      active := active - {v};
    }

    method CheckAll(vs: seq<Id>) returns (verdict: Verdict)
      requires Closed(heap) && AllIn(heap, vs)
      modifies this
      ensures verdict == ValidateAll(heap, vs, old(active))
      ensures active == old(active)
      decreases heap.Keys - active, |vs|
    {
      for i := 0 to |vs|
        invariant active == old(active)
        invariant ValidateAll(heap, vs, active) == ValidateAll(heap, vs[i..], active)
      {
        verdict := Check(vs[i]);
        if !verdict.Accepted? {
          return;
        }
        assert vs[i..][1..] == vs[i + 1..];
      }
      verdict := Accepted;
    }
  }

  /** `p` follows references from container to contained object. */
  ghost predicate Walk(h: Heap, p: seq<Id>) {
    && p != []
    && (forall i | 0 <= i < |p| :: p[i] in h)
    && (forall i | 0 <= i < |p| - 1 :: p[i + 1] in Contents(h[p[i]]))
  }

  ghost predicate WalkFrom(h: Heap, v: Id, p: seq<Id>) {
    Walk(h, p) && p[0] == v
  }

  /** The walk ends at a callable, comes back to an object on it, or enters an active container. */
  ghost predicate Offends(h: Heap, p: seq<Id>, active: set<Id>)
    requires Walk(h, p)
  {
    || h[p[|p| - 1]].callable
    || !Distinct(p)
    || (exists i | 0 <= i < |p| :: p[i] in active && h[p[i]].Container())
  }

  lemma WalkCons(h: Heap, v: Id, p: seq<Id>)
    requires v in h && Walk(h, p) && p[0] in Contents(h[v])
    ensures WalkFrom(h, v, [v] + p)
  {
    var q := [v] + p;
    forall i | 0 <= i < |q| - 1 ensures q[i + 1] in Contents(h[q[i]]) {
      if i > 0 {
        assert q[i + 1] == p[i] && q[i] == p[i - 1];
        assert p[(i - 1) + 1] in Contents(h[p[i - 1]]);
      }
    }
  }

  lemma WalkTail(h: Heap, p: seq<Id>)
    requires Walk(h, p) && |p| >= 2
    ensures Walk(h, p[1..]) && p[1] in Contents(h[p[0]])
  {
    var t := p[1..];
    forall i | 0 <= i < |t| - 1 ensures t[i + 1] in Contents(h[t[i]]) {
      assert p[(i + 1) + 1] in Contents(h[p[i + 1]]);
    }
    assert p[0 + 1] in Contents(h[p[0]]);
  }

  /** A rejected value has an offending walk. */
  lemma {:induction false} RejectionWitness(h: Heap, v: Id, active: set<Id>) returns (p: seq<Id>)
    requires Closed(h) && v in h && !Validate(h, v, active).Accepted?
    ensures WalkFrom(h, v, p) && Offends(h, p, active)
    decreases h.Keys - active, 0
  {
    if h[v].callable || v in active {
      p := [v];
      assert p[0] in h;
    } else {
      var q := RejectionAmong(h, Contents(h[v]), active + {v});
      WalkCons(h, v, q);
      p := [v] + q;
      ConsOffends(h, v, q, active);
    }
  }

  lemma ConsOffends(h: Heap, v: Id, q: seq<Id>, active: set<Id>)
    requires v in h && h[v].Container() && Walk(h, q) && q[0] in Contents(h[v])
    requires Offends(h, q, active + {v})
    ensures Walk(h, [v] + q) && Offends(h, [v] + q, active)
  {
    WalkCons(h, v, q);
    var p := [v] + q;
    assert forall i | 0 <= i < |q| :: p[i + 1] == q[i];
    if !Distinct(q) {
      var i, j :| 0 <= i < j < |q| && q[i] == q[j];
      assert p[i + 1] == p[j + 1];
    } else if !h[q[|q| - 1]].callable {
      var i :| 0 <= i < |q| && q[i] in active + {v} && h[q[i]].Container();
      assert p[0] == v && p[i + 1] == q[i];
    }
  }

  lemma {:induction false} RejectionAmong(h: Heap, vs: seq<Id>, active: set<Id>) returns (p: seq<Id>)
    requires Closed(h) && AllIn(h, vs) && !ValidateAll(h, vs, active).Accepted?
    ensures Walk(h, p) && p[0] in vs && Offends(h, p, active)
    decreases h.Keys - active, |vs|
  {
    if !Validate(h, vs[0], active).Accepted? {
      p := RejectionWitness(h, vs[0], active);
    } else {
      p := RejectionAmong(h, vs[1..], active);
    }
  }

  /** An accepted value has none. */
  lemma {:induction false} AcceptanceExcludes(h: Heap, v: Id, active: set<Id>, p: seq<Id>)
    requires Closed(h) && v in h && Validate(h, v, active).Accepted?
    requires WalkFrom(h, v, p)
    ensures !Offends(h, p, active)
    decreases |p|
  {
    if |p| >= 2 {
      WalkTail(h, p);
      AcceptedMember(h, Contents(h[v]), active + {v}, p[1]);
      AcceptanceExcludes(h, p[1], active + {v}, p[1..]);
      ConsHarmless(h, v, p, active);
    }
  }

  lemma ConsHarmless(h: Heap, v: Id, p: seq<Id>, active: set<Id>)
    requires WalkFrom(h, v, p) && |p| >= 2 && Walk(h, p[1..])
    requires v !in active && !Offends(h, p[1..], active + {v})
    ensures !Offends(h, p, active)
  {
    var t := p[1..];
    forall i | 1 <= i < |p|
      ensures p[i] != v && !(p[i] in active && h[p[i]].Container())
    {
      assert p[i] == t[i - 1];
      if p[i] == v {
        RevisitedIsContainer(h, p, i);
      }
    }
    forall i, j | 0 <= i < j < |p| ensures p[i] != p[j] {
      if i > 0 {
        assert p[i] == t[i - 1] && p[j] == t[j - 1];
      }
    }
  }

  /** The first object of a walk with a second step is a container wherever it occurs. */
  lemma RevisitedIsContainer(h: Heap, p: seq<Id>, i: nat)
    requires Walk(h, p) && |p| >= 2 && i < |p| && p[i] == p[0]
    ensures h[p[i]].Container()
  {
    assert p[0 + 1] in Contents(h[p[0]]);
  }

  lemma {:induction false} AcceptedMember(h: Heap, vs: seq<Id>, active: set<Id>, v: Id)
    requires Closed(h) && AllIn(h, vs) && ValidateAll(h, vs, active).Accepted? && v in vs
    ensures Validate(h, v, active).Accepted?
    decreases |vs|
  {
    if v != vs[0] {
      AcceptedMember(h, vs[1..], active, v);
    }
  }

  /** From `v` no walk reaches a callable and none comes back to an object it visited. */
  ghost predicate AcyclicWithoutCallables(h: Heap, v: Id) {
    forall p: seq<Id> | WalkFrom(h, v, p) :: !h[p[|p| - 1]].callable && Distinct(p)
  }

  /** The validator accepts exactly the values whose reachable graph is acyclic and free of
      callables; in particular shared containers are accepted. */
  lemma SnapshotAcceptance(h: Heap, v: Id)
    requires Closed(h) && v in h
    ensures Validate(h, v, {}).Accepted? <==> AcyclicWithoutCallables(h, v)
  {
    if Validate(h, v, {}).Accepted? {
      forall p: seq<Id> | WalkFrom(h, v, p) ensures !h[p[|p| - 1]].callable && Distinct(p) {
        AcceptanceExcludes(h, v, {}, p);
      }
    } else {
      var p := RejectionWitness(h, v, {});
      assert WalkFrom(h, v, p);
    }
  }

  // ----- timezone-aware query parameters ---------------------------------------

  datatype Visit = Rejected | Visited(seen: set<Id>)

  function VisitValue(h: Heap, v: Id, seen: set<Id>): (r: Visit)
    requires Closed(h) && v in h
    ensures r.Visited? ==> seen <= r.seen
    decreases h.Keys - seen, 0
  {
    if h[v].kind.AwareTemporal? then Rejected
    else if !h[v].Container() || v in seen then Visited(seen)
    else VisitAll(h, NestedValues(h[v]), seen + {v})
  }

  function VisitAll(h: Heap, vs: seq<Id>, seen: set<Id>): (r: Visit)
    requires Closed(h) && AllIn(h, vs)
    ensures r.Visited? ==> seen <= r.seen
    decreases h.Keys - seen, |vs|
  {
    if vs == [] then Visited(seen)
    else
      match VisitValue(h, vs[0], seen)
      case Rejected => Rejected
      case Visited(seen') =>
        assert h.Keys - seen' <= h.Keys - seen;
        VisitAll(h, vs[1..], seen')
  }

  /** The recursive check with its shared set of visited containers. */
  class ParameterValidator {
    const heap: Heap
    var visited: set<Id>

    constructor (heap: Heap)
      ensures this.heap == heap && visited == {}
    {
      this.heap := heap;
      visited := {};
    }

    method Check(v: Id) returns (ok: bool)
      requires Closed(heap) && v in heap
      modifies this
      ensures VisitValue(heap, v, old(visited)) == if ok then Visited(visited) else Rejected
      ensures old(visited) <= visited
      decreases heap.Keys - visited, 0
    {
      if heap[v].kind.AwareTemporal? {
        return false;
      }
      if !heap[v].Container() || v in visited {
        return true;
      }
      visited := visited + {v};
      ok := CheckAll(NestedValues(heap[v]));
    }

    method CheckAll(vs: seq<Id>) returns (ok: bool)
      requires Closed(heap) && AllIn(heap, vs)
      modifies this
      ensures VisitAll(heap, vs, old(visited)) == if ok then Visited(visited) else Rejected
      ensures old(visited) <= visited
      decreases heap.Keys - visited, |vs|
    {
      for i := 0 to |vs|
        invariant old(visited) <= visited
        invariant VisitAll(heap, vs, old(visited)) == VisitAll(heap, vs[i..], visited)
      {
        assert heap.Keys - visited <= heap.Keys - old(visited);
        ok := Check(vs[i]);
        if !ok {
          return;
        }
        assert vs[i..][1..] == vs[i + 1..];
      }
      ok := true;
    }
  }

  /** `p` follows mapping values and collection members. */
  ghost predicate ValuePath(h: Heap, p: seq<Id>) {
    && p != []
    && (forall i | 0 <= i < |p| :: p[i] in h)
    && (forall i | 0 <= i < |p| - 1 :: p[i + 1] in NestedValues(h[p[i]]))
  }

  ghost predicate ReachesAware(h: Heap, p: seq<Id>) {
    ValuePath(h, p) && h[p[|p| - 1]].kind.AwareTemporal?
  }

  lemma ValuePathCons(h: Heap, v: Id, p: seq<Id>)
    requires v in h && ReachesAware(h, p) && p[0] in NestedValues(h[v])
    ensures ReachesAware(h, [v] + p)
  {
    var q := [v] + p;
    forall i | 0 <= i < |q| - 1 ensures q[i + 1] in NestedValues(h[q[i]]) {
      if i > 0 {
        assert p[(i - 1) + 1] in NestedValues(h[p[i - 1]]);
      }
    }
  }

  lemma {:induction false} AwareWitness(h: Heap, v: Id, seen: set<Id>) returns (p: seq<Id>)
    requires Closed(h) && v in h && VisitValue(h, v, seen).Rejected?
    ensures ReachesAware(h, p) && p[0] == v
    decreases h.Keys - seen, 0
  {
    if h[v].kind.AwareTemporal? {
      p := [v];
    } else {
      var q := AwareAmong(h, NestedValues(h[v]), seen + {v});
      ValuePathCons(h, v, q);
      p := [v] + q;
    }
  }

  lemma {:induction false} AwareAmong(h: Heap, vs: seq<Id>, seen: set<Id>) returns (p: seq<Id>)
    requires Closed(h) && AllIn(h, vs) && VisitAll(h, vs, seen).Rejected?
    ensures ReachesAware(h, p) && p[0] in vs
    decreases h.Keys - seen, |vs|
  {
    match VisitValue(h, vs[0], seen)
    case Rejected => p := AwareWitness(h, vs[0], seen);
    case Visited(seen') =>
      assert h.Keys - seen' <= h.Keys - seen;
      p := AwareAmong(h, vs[1..], seen');
  }

  /** `v` is settled: not aware, and visited when it is a container. */
  ghost predicate Settled(h: Heap, v: Id, seen: set<Id>) {
    v in h && !h[v].kind.AwareTemporal? && (h[v].Container() ==> v in seen)
  }

  /** Everything nested in a newly visited container is settled. */
  ghost predicate Expanded(h: Heap, before: set<Id>, after: set<Id>) {
    forall v | v in after && v !in before && v in h ::
      forall c | c in NestedValues(h[v]) :: Settled(h, c, after)
  }

  lemma {:induction false} VisitSettles(h: Heap, v: Id, seen: set<Id>)
    requires Closed(h) && v in h && VisitValue(h, v, seen).Visited?
    ensures var after := VisitValue(h, v, seen).seen; Settled(h, v, after) && Expanded(h, seen, after)
    decreases h.Keys - seen, 0
  {
    if h[v].Container() && v !in seen {
      VisitAllSettles(h, NestedValues(h[v]), seen + {v});
    }
  }

  lemma {:induction false} VisitAllSettles(h: Heap, vs: seq<Id>, seen: set<Id>)
    requires Closed(h) && AllIn(h, vs) && VisitAll(h, vs, seen).Visited?
    ensures var after := VisitAll(h, vs, seen).seen;
            (forall v | v in vs :: Settled(h, v, after)) && Expanded(h, seen, after)
    decreases h.Keys - seen, |vs|
  {
    if vs != [] {
      var seen' := VisitValue(h, vs[0], seen).seen;
      VisitSettles(h, vs[0], seen);
      assert h.Keys - seen' <= h.Keys - seen;
      VisitAllSettles(h, vs[1..], seen');
    }
  }

  lemma {:induction false} SettledPath(h: Heap, seen: set<Id>, p: seq<Id>, n: nat)
    requires ValuePath(h, p) && n < |p|
    requires Settled(h, p[0], seen) && Expanded(h, {}, seen)
    ensures Settled(h, p[n], seen)
  {
    if n > 0 {
      SettledPath(h, seen, p, n - 1);
      assert p[(n - 1) + 1] in NestedValues(h[p[n - 1]]);
    }
  }

  /** The check rejects exactly when a timezone-aware temporal is reachable from some parameter. */
  lemma ParameterRejection(h: Heap, vs: seq<Id>)
    requires Closed(h) && AllIn(h, vs)
    ensures VisitAll(h, vs, {}).Rejected? <==> exists p :: ReachesAware(h, p) && p[0] in vs
  {
    if VisitAll(h, vs, {}).Rejected? {
      var p := AwareAmong(h, vs, {});
    } else {
      VisitAllSettles(h, vs, {});
      var after := VisitAll(h, vs, {}).seen;
      forall p | ValuePath(h, p) && p[0] in vs ensures !ReachesAware(h, p) {
        SettledPath(h, after, p, |p| - 1);
      }
    }
  }
}
