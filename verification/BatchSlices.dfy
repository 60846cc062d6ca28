/** Slicing of one decoded batch by row cap and byte target. */
module BatchSlices {
  import opened Sequences

  /** Rows `offset .. offset + rows` of a batch. */
  datatype Slice = Slice(offset: nat, rows: nat)

  /** Validated bounds of one connector invocation. */
  datatype Limits = Limits(batchRows: nat, batchBytes: nat) {
    ghost predicate Valid() { batchRows >= 1 && batchBytes >= 1 }
  }

  /** Bytes of the slice with the given offset and row count. */
  type ByteSize = (nat, nat) -> nat

  /** The slices follow each other without gap or overlap from row `from` to row `to`. */
  ghost predicate Tiles(slices: seq<Slice>, from: nat, to: nat) {
    if slices == [] then from == to
    else slices[0].offset == from && Tiles(slices[1..], from + slices[0].rows, to)
  }

  /** Within both limits, or a single row that no cut could shrink. */
  ghost predicate Admissible(s: Slice, bytes: ByteSize, limits: Limits) {
    && 1 <= s.rows <= limits.batchRows
    && (bytes(s.offset, s.rows) <= limits.batchBytes || s.rows == 1)
  }

  ghost predicate AllAdmissible(slices: seq<Slice>, bytes: ByteSize, limits: Limits) {
    forall i | 0 <= i < |slices| :: Admissible(slices[i], bytes, limits)
  }

  /** A way of slicing a batch of `n` rows within the limits. */
  ghost predicate Slicing(slices: seq<Slice>, n: nat, bytes: ByteSize, limits: Limits) {
    Tiles(slices, 0, n) && AllAdmissible(slices, bytes, limits)
  }

  /** Within a batch of `n` rows a slice contained in another is no larger. */
  ghost predicate Monotone(bytes: ByteSize, n: nat) {
    forall o: nat, r: nat, o': nat, r': nat | o <= o' && o' + r' <= o + r <= n :: bytes(o', r') <= bytes(o, r)
  }

  /** No longer slice at the same offset is within the limits. */
  ghost predicate Longest(s: Slice, n: nat, bytes: ByteSize, limits: Limits) {
    forall r | s.rows < r <= limits.batchRows && s.offset + r <= n :: bytes(s.offset, r) > limits.batchBytes
  }

  ghost predicate AllLongest(slices: seq<Slice>, n: nat, bytes: ByteSize, limits: Limits) {
    forall i | 0 <= i < |slices| :: Longest(slices[i], n, bytes, limits)
  }

  function Cut<T>(rows: seq<T>, s: Slice): seq<T>
    requires s.offset + s.rows <= |rows|
  {
    rows[s.offset..s.offset + s.rows]
  }

  // ----- the loops of the source -------------------------------------------

  /** The binary search for the number of rows to take at `offset`. */
  method SearchSize(offset: nat, upper: nat, bytes: ByteSize, limits: Limits) returns (size: nat)
    requires upper >= 1 && bytes(offset, upper) > limits.batchBytes
    ensures 1 <= size <= upper
    ensures bytes(offset, size) <= limits.batchBytes || size == 1
    ensures Monotone(bytes, offset + upper) ==> forall r | size < r <= upper :: bytes(offset, r) > limits.batchBytes
  {
    var low, high: int := 1, upper;
    size := 1;
    while low <= high
      invariant 1 <= low && 0 <= high <= upper && low <= high + 1
      invariant size == if low == 1 then 1 else low - 1
      invariant size <= upper
      invariant bytes(offset, size) <= limits.batchBytes || size == 1
      invariant Monotone(bytes, offset + upper) ==> forall r | high < r <= upper :: bytes(offset, r) > limits.batchBytes
      decreases high - low
    {
      var candidate := (low + high) / 2;
      if bytes(offset, candidate) <= limits.batchBytes {
        size := candidate;
        low := candidate + 1;
      } else {
        high := candidate - 1;
      }
    }
  }

  /** The row count of the next slice at `offset`. */
  method NextSize(offset: nat, n: nat, bytes: ByteSize, limits: Limits) returns (size: nat)
    requires limits.Valid() && offset < n
    ensures offset + size <= n
    ensures Admissible(Slice(offset, size), bytes, limits)
    ensures Monotone(bytes, n) ==> Longest(Slice(offset, size), n, bytes, limits)
  {
    var upper := if limits.batchRows <= n - offset then limits.batchRows else n - offset;
    if bytes(offset, upper) <= limits.batchBytes {
      size := upper;
    } else {
      size := SearchSize(offset, upper, bytes, limits);
    }
  }

  /** All slices of a batch of `n` rows, in the order in which they are yielded; with monotone
      byte sizes no slicing within the limits is shorter. */
  method IterBatchSlices(n: nat, bytes: ByteSize, limits: Limits) returns (slices: seq<Slice>)
    requires limits.Valid()
    ensures Slicing(slices, n, bytes, limits)
    ensures Monotone(bytes, n) ==>
              forall rival | Slicing(rival, n, bytes, limits) :: |slices| <= |rival|
  {
    slices := [];
    var offset := 0;
    while offset < n
      invariant offset <= n
      invariant Tiles(slices, 0, offset)
      invariant AllAdmissible(slices, bytes, limits)
      invariant Monotone(bytes, n) ==> AllLongest(slices, n, bytes, limits)
    {
      var size := NextSize(offset, n, bytes, limits);
      TilesAppend(slices, 0, offset, Slice(offset, size));
      slices := slices + [Slice(offset, size)];
      offset := offset + size;
    }
    if Monotone(bytes, n) {
      forall rival | Slicing(rival, n, bytes, limits) ensures |slices| <= |rival| {
        FewestFrom(slices, rival, 0, 0, n, bytes, limits);
      }
    }
  }

  lemma {:induction false} TilesAppend(slices: seq<Slice>, from: nat, to: nat, s: Slice)
    requires Tiles(slices, from, to) && s.offset == to
    ensures Tiles(slices + [s], from, to + s.rows)
  {
    if slices == [] {
      assert [s][1..] == [];
    } else {
      assert (slices + [s])[1..] == slices[1..] + [s];
      TilesAppend(slices[1..], from + slices[0].rows, to, s);
    }
  }

  lemma {:induction false} TilesWithin(slices: seq<Slice>, from: nat, to: nat)
    requires Tiles(slices, from, to)
    ensures from <= to
    ensures forall i | 0 <= i < |slices| :: from <= slices[i].offset && slices[i].offset + slices[i].rows <= to
  {
    if slices != [] {
      TilesWithin(slices[1..], from + slices[0].rows, to);
    }
  }

  /** The batches the slices cut out, in slice order. */
  function Cuts<T>(rows: seq<T>, slices: seq<Slice>): (r: seq<seq<T>>)
    requires forall i | 0 <= i < |slices| :: slices[i].offset + slices[i].rows <= |rows|
    ensures |r| == |slices| && forall i | 0 <= i < |slices| :: r[i] == Cut(rows, slices[i])
  {
    if slices == [] then [] else [Cut(rows, slices[0])] + Cuts(rows, slices[1..])
  }

  /** Tiling slices concatenate to the rows they tile. */
  lemma {:induction false} TilesConcatenate<T>(rows: seq<T>, slices: seq<Slice>, from: nat)
    requires from <= |rows| && Tiles(slices, from, |rows|)
    requires forall i | 0 <= i < |slices| :: slices[i].offset + slices[i].rows <= |rows|
    ensures Flatten(Cuts(rows, slices)) == rows[from..]
  {
    if slices != [] {
      TilesConcatenate(rows, slices[1..], from + slices[0].rows);
      assert rows[from..] == Cut(rows, slices[0]) + rows[from + slices[0].rows..];
    }
  }

  /** One greedy slice starting no earlier than a rival slice also ends no earlier. */
  lemma GreedyStaysAhead(s: Slice, r: Slice, n: nat, bytes: ByteSize, limits: Limits)
    requires Monotone(bytes, n)
    requires Admissible(s, bytes, limits) && Longest(s, n, bytes, limits)
    requires Admissible(r, bytes, limits) && r.offset + r.rows <= n
    requires r.offset <= s.offset
    ensures r.offset + r.rows <= s.offset + s.rows
  {
    var end := r.offset + r.rows;
    if end > s.offset {
      assert bytes(s.offset, end - s.offset) <= bytes(r.offset, r.rows);
    }
  }

  lemma {:induction false} FewestFrom(slices: seq<Slice>, rival: seq<Slice>, from: nat, rivalFrom: nat,
                                      n: nat, bytes: ByteSize, limits: Limits)
    requires Monotone(bytes, n)
    requires Tiles(slices, from, n) && AllAdmissible(slices, bytes, limits)
    requires AllLongest(slices, n, bytes, limits)
    requires Tiles(rival, rivalFrom, n) && AllAdmissible(rival, bytes, limits)
    requires rivalFrom <= from
    ensures |slices| <= |rival|
  {
    if slices != [] {
      TilesWithin(slices, from, n);
      TilesWithin(rival, rivalFrom, n);
      assert Admissible(slices[0], bytes, limits);
      assert Admissible(rival[0], bytes, limits);
      GreedyStaysAhead(slices[0], rival[0], n, bytes, limits);
      FewestFrom(slices[1..], rival[1..], from + slices[0].rows, rivalFrom + rival[0].rows, n, bytes, limits);
    }
  }
}
