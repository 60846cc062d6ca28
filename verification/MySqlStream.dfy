/** Demand-driven fetching with an adaptive fetch size, and the stream built from it. */
module MySqlStream {
  import opened Sequences
  import opened BatchSlices

  /** What one fetch gives: a batch, the end of the rows, or an exception. */
  datatype Fetched<T> = Batch(rows: seq<T>) | Exhausted | Raised

  /** The next fetch size after a batch of `n` rows that came to `bytes` bytes. */
  function Adapted(fetchRows: nat, n: nat, bytes: nat, limits: Limits): (r: nat)
    requires n >= 1 && fetchRows >= 1 && limits.Valid()
    ensures 1 <= r <= fetchRows
  {
    if bytes <= limits.batchBytes then fetchRows
    else
      var quotient := n * limits.batchBytes / bytes;
      var next := if quotient >= 1 then quotient else 1;
      if next <= fetchRows then next else fetchRows
  }

  lemma QuotientBelow(n: nat, a: nat, b: nat)
    requires a < b && n >= 1
    ensures n * a / b < n
  {
    var q := n * a / b;
    assert b * q <= n * a;
    MulStrict(n, a, b);
    MulCancel(b, q, n);
  }

  lemma MulCancel(b: nat, q: nat, n: nat)
    requires b * q < n * b
    ensures q < n
  {
    if n <= q {
      MulMonotone(b, n, q);
    }
  }

  lemma MulMonotone(b: nat, n: nat, q: nat)
    requires n <= q
    ensures b * n <= b * q
  {
  }

  lemma MulStrict(n: nat, a: nat, b: nat)
    requires n >= 1 && a < b
    ensures n * a < n * b
  {
  }

  /** An oversized batch of several rows strictly lowers the fetch size. */
  lemma OversizedLowers(fetchRows: nat, n: nat, bytes: nat, limits: Limits)
    requires limits.Valid() && 2 <= n <= fetchRows && bytes > limits.batchBytes
    ensures Adapted(fetchRows, n, bytes, limits) < fetchRows
  {
    QuotientBelow(n, limits.batchBytes, bytes);
  }

  lemma QuotientIsLargest(a: nat, b: nat, q: nat)
    requires b > 0
    ensures q <= a / b <==> q * b <= a
  {
    var d, r := a / b, a % b;
    assert a == b * d + r;
    if q <= d {
      MulMonotone(b, q, d);
    } else {
      MulMonotone(b, d + 1, q);
      assert b * (d + 1) == b * d + b;
    }
  }

  /** After an oversized batch the fetch size is the largest one, up to the old, for which rows of the
      same average size stay within the byte target, and at least one. */
  lemma AdaptedIsLargest(fetchRows: nat, n: nat, bytes: nat, limits: Limits, q: nat)
    requires limits.Valid() && n >= 1 && fetchRows >= 1 && bytes > limits.batchBytes && 1 <= q <= fetchRows
    ensures q <= Adapted(fetchRows, n, bytes, limits) <==> q == 1 || q * bytes <= n * limits.batchBytes
  {
    QuotientIsLargest(n * limits.batchBytes, bytes, q);
  }

  /** Batches within the byte target leave the fetch size alone. */
  lemma AdaptedKeeps(fetchRows: nat, n: nat, bytes: nat, limits: Limits)
    requires limits.Valid() && n >= 1 && fetchRows >= 1 && bytes <= limits.batchBytes
    ensures Adapted(fetchRows, n, bytes, limits) == fetchRows
  {
  }

  /** One for a batch of several rows beyond the byte target, zero for any other. */
  function Oversized<T>(size: seq<T> -> nat, limits: Limits): seq<T> -> nat {
    (batch: seq<T>) => if size(batch) > limits.batchBytes && |batch| >= 2 then 1 else 0
  }

  /** The reader over the rows its cursor will deliver. `size` gives the bytes of a batch. */
  class MySqlBatchReader<T> {
    const rows: seq<T>
    const size: seq<T> -> nat
    const limits: Limits
    var position: nat
    var fetchRows: nat
    ghost var oversized: nat

    /** The fetch size stays within its bounds, and every oversized batch of several rows so far
        has lowered it. */
    ghost predicate Valid()
      reads this
    {
      && limits.Valid()
      && position <= |rows|
      && 1 <= fetchRows <= limits.batchRows
      && oversized + fetchRows <= limits.batchRows
    }

    constructor (rows: seq<T>, size: seq<T> -> nat, limits: Limits)
      requires limits.Valid()
      ensures Valid() && this.rows == rows && this.size == size && this.limits == limits
      ensures position == 0 && fetchRows == limits.batchRows && oversized == 0
    {
      this.rows := rows;
      this.size := size;
      this.limits := limits;
      position := 0;
      fetchRows := limits.batchRows;
      oversized := 0;
    }

    /** `fetchmany` and conversion; `fails` says whether the driver or the conversion raises. */
    method Fetch(fails: bool) returns (fetched: Fetched<T>)
      requires Valid()
      modifies this
      ensures Valid() && fetchRows <= old(fetchRows)
      ensures fetched.Batch? ==>
                && 1 <= |fetched.rows| <= old(fetchRows)
                && (|fetched.rows| == old(fetchRows) || position == |rows|)
                && fetchRows == Adapted(old(fetchRows), |fetched.rows|, size(fetched.rows), limits)
                && position == old(position) + |fetched.rows|
                && fetched.rows == rows[old(position)..position]
                && (size(fetched.rows) > limits.batchBytes && |fetched.rows| >= 2 ==> fetchRows < old(fetchRows))
                && oversized == old(oversized) + Oversized(size, limits)(fetched.rows)
      ensures !fetched.Batch? ==>
              position == old(position) && fetchRows == old(fetchRows)
              && oversized == old(oversized)
      ensures fetched.Exhausted? <==> !fails && old(position) == |rows|
      ensures fetched.Raised? <==> fails
    {
      if fails {
        return Raised;
      }
      var taken := if fetchRows <= |rows| - position then fetchRows else |rows| - position;
      if taken == 0 {
        return Exhausted;
      }
      var batch := rows[position..position + taken];
      position := position + taken;
      if size(batch) > limits.batchBytes {
        if |batch| >= 2 {
          OversizedLowers(fetchRows, |batch|, size(batch), limits);
          oversized := oversized + 1;
        }
        fetchRows := Adapted(fetchRows, |batch|, size(batch), limits);
      }
      fetched := Batch(batch);
    }
  }

  /** Bytes of a slice of `batch`. */
  function SliceSize<T>(batch: seq<T>, size: seq<T> -> nat): ByteSize {
    (offset: nat, count: nat) => if offset + count <= |batch| then size(batch[offset..offset + count]) else 0
  }

  /** A yielded slice: not empty, at most `batchRows` rows, and within the byte target unless it is
      a single row. */
  ghost predicate Bounded<T>(slice: seq<T>, size: seq<T> -> nat, limits: Limits) {
    1 <= |slice| <= limits.batchRows && (size(slice) <= limits.batchBytes || |slice| == 1)
  }

  ghost predicate AllBounded<T>(slices: seq<seq<T>>, size: seq<T> -> nat, limits: Limits) {
    forall i | 0 <= i < |slices| :: Bounded(slices[i], size, limits)
  }

  /** A way of cutting `batch` into bounded parts. */
  ghost predicate Slices<T>(parts: seq<seq<T>>, batch: seq<T>, size: seq<T> -> nat, limits: Limits) {
    Flatten(parts) == batch && AllBounded(parts, size, limits)
  }

  /** No other way of cutting the batch needs fewer parts. */
  ghost predicate Fewest<T(!new)>(parts: seq<seq<T>>, batch: seq<T>, size: seq<T> -> nat, limits: Limits) {
    forall rival | Slices(rival, batch, size, limits) :: |parts| <= |rival|
  }

  /** No part of a slice of `rows` is larger than the slice. */
  ghost predicate GrowsWith<T(!new)>(size: seq<T> -> nat, rows: seq<T>) {
    forall i, j, i', j' | 0 <= i <= i' <= j' <= j <= |rows| :: size(rows[i'..j']) <= size(rows[i..j])
  }

  /** The slices of one batch, in order: together they are the batch, and when bytes grow with the
      rows no other bounded slices are fewer. */
  method SliceBatch<T(!new)>(batch: seq<T>, size: seq<T> -> nat, limits: Limits) returns (slices: seq<seq<T>>)
    requires limits.Valid()
    ensures Slices(slices, batch, size, limits)
    ensures GrowsWith(size, batch) ==> Fewest(slices, batch, size, limits)
  {
    var cuts := IterBatchSlices(|batch|, SliceSize(batch, size), limits);
    TilesWithin(cuts, 0, |batch|);
    TilesConcatenate(batch, cuts, 0);
    CutsBounded(batch, size, limits, cuts);
    slices := Cuts(batch, cuts);
    if GrowsWith(size, batch) {
      SliceSizeMonotone(batch, size);
      forall rival | Slices(rival, batch, size, limits) ensures |slices| <= |rival| {
        RivalSlicing(rival, batch, size, limits);
        assert Slicing(SlicesOf(rival, 0), |batch|, SliceSize(batch, size), limits);
      }
    }
  }

  lemma SliceSizeMonotone<T(!new)>(batch: seq<T>, size: seq<T> -> nat)
    requires GrowsWith(size, batch)
    ensures Monotone(SliceSize(batch, size), |batch|)
  {
  }

  /** The offsets and lengths of consecutive parts. */
  function SlicesOf<T>(parts: seq<seq<T>>, from: nat): (r: seq<Slice>)
    ensures |r| == |parts|
  {
    if parts == [] then [] else [Slice(from, |parts[0]|)] + SlicesOf(parts[1..], from + |parts[0]|)
  }

  lemma {:induction false} PartsTile<T>(parts: seq<seq<T>>, from: nat)
    ensures Tiles(SlicesOf(parts, from), from, from + |Flatten(parts)|)
  {
    if parts != [] {
      PartsTile(parts[1..], from + |parts[0]|);
    }
  }

  lemma {:induction false} PartsAdmissible<T>(parts: seq<seq<T>>, batch: seq<T>, from: nat, size: seq<T> -> nat,
                                              limits: Limits)
    requires from <= |batch| && Flatten(parts) == batch[from..] && AllBounded(parts, size, limits)
    ensures AllAdmissible(SlicesOf(parts, from), SliceSize(batch, size), limits)
  {
    if parts != [] {
      var next := from + |parts[0]|;
      assert batch[from..][..|parts[0]|] == parts[0] && batch[from..][|parts[0]|..] == Flatten(parts[1..]);
      assert batch[from..next] == parts[0] && batch[next..] == Flatten(parts[1..]);
      assert Bounded(parts[0], size, limits);
      PartsAdmissible(parts[1..], batch, next, size, limits);
    }
  }

  lemma RivalSlicing<T>(rival: seq<seq<T>>, batch: seq<T>, size: seq<T> -> nat, limits: Limits)
    requires Slices(rival, batch, size, limits)
    ensures Slicing(SlicesOf(rival, 0), |batch|, SliceSize(batch, size), limits)
  {
    assert batch[0..] == batch;
    PartsTile(rival, 0);
    PartsAdmissible(rival, batch, 0, size, limits);
  }

  lemma CutBounded<T>(batch: seq<T>, size: seq<T> -> nat, limits: Limits, s: Slice)
    requires s.offset + s.rows <= |batch| && Admissible(s, SliceSize(batch, size), limits)
    ensures Bounded(Cut(batch, s), size, limits)
  {
    assert SliceSize(batch, size)(s.offset, s.rows) == size(Cut(batch, s));
  }

  lemma CutsBounded<T>(batch: seq<T>, size: seq<T> -> nat, limits: Limits, cuts: seq<Slice>)
    requires forall i | 0 <= i < |cuts| :: cuts[i].offset + cuts[i].rows <= |batch|
    requires AllAdmissible(cuts, SliceSize(batch, size), limits)
    ensures AllBounded(Cuts(batch, cuts), size, limits)
  {
    forall i | 0 <= i < |cuts| ensures Bounded(Cuts(batch, cuts)[i], size, limits) {
      CutBounded(batch, size, limits, cuts[i]);
    }
  }

  /** Every fetched batch was cut as `parts` says, if bytes grow with the rows as sparingly as
      possible. */
  ghost predicate CutPerBatch<T(!new)>(parts: seq<seq<seq<T>>>, batches: seq<seq<T>>, size: seq<T> -> nat,
                                       limits: Limits,
                                       sparing: bool) {
    && |parts| == |batches|
    && forall k | 0 <= k < |parts| ::
         Slices(parts[k], batches[k], size, limits) && (sparing ==> Fewest(parts[k], batches[k], size, limits))
  }

  lemma SliceOfSlice<T>(rows: seq<T>, from: nat, to: nat, i: nat, j: nat)
    requires from <= to <= |rows| && i <= j <= to - from
    ensures rows[from..to][i..j] == rows[from + i..from + j]
  {
    var part, whole := rows[from..to][i..j], rows[from + i..from + j];
    assert |part| == |whole|;
    forall k | 0 <= k < |part| ensures part[k] == whole[k] {
      assert part[k] == rows[from..to][i + k] == rows[from + (i + k)];
      assert whole[k] == rows[(from + i) + k];
    }
  }

  lemma CutOneMore<T(!new)>(parts: seq<seq<seq<T>>>, batches: seq<seq<T>>, size: seq<T> -> nat, limits: Limits,
                            sparing: bool, slices: seq<seq<T>>, batch: seq<T>)
    requires CutPerBatch(parts, batches, size, limits, sparing)
    requires Slices(slices, batch, size, limits) && (sparing ==> Fewest(slices, batch, size, limits))
    ensures CutPerBatch(parts + [slices], batches + [batch], size, limits, sparing)
  {
  }

  lemma GrowsWithin<T(!new)>(size: seq<T> -> nat, rows: seq<T>, from: nat, to: nat)
    requires GrowsWith(size, rows) && from <= to <= |rows|
    ensures GrowsWith(size, rows[from..to])
  {
    var part := rows[from..to];
    forall i, j, i', j' | 0 <= i <= i' <= j' <= j <= |part| ensures size(part[i'..j']) <= size(part[i..j]) {
      SliceOfSlice(rows, from, to, i', j');
      SliceOfSlice(rows, from, to, i, j);
    }
  }

  /** Everything the stream has done up to `position`. */
  ghost predicate Streamed<T(!new)>(rows: seq<T>, position: nat, yielded: seq<seq<T>>, batches: seq<seq<T>>,
                                    parts: seq<seq<seq<T>>>, oversized: nat, size: seq<T> -> nat, limits: Limits) {
    && position <= |rows| && Flatten(yielded) == rows[..position] && Flatten(batches) == rows[..position]
    && Sum(batches, Oversized(size, limits)) == oversized
    && AllBounded(yielded, size, limits)
    && Flatten(parts) == yielded && CutPerBatch(parts, batches, size, limits, GrowsWith(size, rows))
  }

  lemma StreamStart<T(!new)>(rows: seq<T>, size: seq<T> -> nat, limits: Limits)
    ensures Streamed(rows, 0, [], [], [], 0, size, limits)
  {
  }

  lemma StreamOneMore<T(!new)>(rows: seq<T>, position: nat, yielded: seq<seq<T>>, batches: seq<seq<T>>,
                               parts: seq<seq<seq<T>>>, oversized: nat, size: seq<T> -> nat, limits: Limits,
                               next: nat, slices: seq<seq<T>>)
    requires Streamed(rows, position, yielded, batches, parts, oversized, size, limits) && position <= next <= |rows|
    requires Slices(slices, rows[position..next], size, limits)
    requires GrowsWith(size, rows[position..next]) ==> Fewest(slices, rows[position..next], size, limits)
    ensures var batch := rows[position..next];
            Streamed(rows, next, yielded + slices, batches + [batch], parts + [slices],
                     oversized + Oversized(size, limits)(batch), size, limits)
  {
    hide CutPerBatch, Fewest, GrowsWith;
    var batch := rows[position..next];
    if GrowsWith(size, rows) {
      GrowsWithin(size, rows, position, next);
    }
    FlattenConcat(yielded, slices);
    FlattenAppend(parts, slices);
    FlattenAppend(batches, batch);
    SumAppend(batches, batch, Oversized(size, limits));
    CutOneMore(parts, batches, size, limits, GrowsWith(size, rows), slices, batch);
    assert rows[..next] == rows[..position] + batch;
  }

  /** `stream_query`: `opens` and `closes` say whether opening and closing the reader succeed, `fails(k)`
      whether the k-th fetch raises. Without a failure the stream yields exactly the cursor's rows in
      order, with one a prefix of them; all slices are bounded, and at most `batchRows - 1` of the
      fetched batches were oversized with several rows. */
  method StreamQuery<T(!new)>(rows: seq<T>, size: seq<T> -> nat, limits: Limits, opens: bool, fails: nat -> bool,
                              closes: bool)
    returns (yielded: seq<seq<T>>, ok: bool, ghost batches: seq<seq<T>>, ghost parts: seq<seq<seq<T>>>)
    requires limits.Valid()
    ensures Flatten(yielded) <= rows && AllBounded(yielded, size, limits)
    ensures ok ==> opens && closes && Flatten(yielded) == rows
    ensures opens && (forall k :: !fails(k)) ==> Flatten(yielded) == rows && ok == closes
    ensures !opens ==> yielded == []
    ensures Flatten(batches) == Flatten(yielded)
    ensures Sum(batches, Oversized(size, limits)) <= limits.batchRows - 1
    ensures Flatten(parts) == yielded && CutPerBatch(parts, batches, size, limits, GrowsWith(size, rows))
  {
    yielded, batches, parts := [], [], [];
    StreamStart(rows, size, limits);
    if !opens {
      return yielded, false, batches, parts;
    }
    var reader := new MySqlBatchReader<T>(rows, size, limits);
    var k := 0;
    while true
      invariant reader.Valid() && reader.rows == rows && reader.size == size && reader.limits == limits
      invariant Streamed(rows, reader.position, yielded, batches, parts, reader.oversized, size, limits)
      decreases |rows| - reader.position
    {
      hide Streamed, Fewest, GrowsWith, Adapted, Slices;
      ghost var position, oversized := reader.position, reader.oversized;
      var fetched := reader.Fetch(fails(k));
      k := k + 1;
      match fetched
      case Raised =>
        StreamedFacts(rows, reader.position, yielded, batches, parts, reader.oversized, size, limits);
        return yielded, false, batches, parts;
      case Exhausted =>
        StreamedFacts(rows, reader.position, yielded, batches, parts, reader.oversized, size, limits);
        return yielded, closes, batches, parts;
      case Batch(batch) =>
        var slices := SliceBatch(batch, size, limits);
        StreamOneMore(rows, position, yielded, batches, parts, oversized, size, limits, reader.position, slices);
        yielded, parts, batches := yielded + slices, parts + [slices], batches + [batch];
    }
  }

  lemma StreamedFacts<T(!new)>(rows: seq<T>, position: nat, yielded: seq<seq<T>>, batches: seq<seq<T>>,
                               parts: seq<seq<seq<T>>>, oversized: nat, size: seq<T> -> nat, limits: Limits)
    requires Streamed(rows, position, yielded, batches, parts, oversized, size, limits)
    ensures position <= |rows| && Flatten(yielded) == rows[..position] && Flatten(batches) == rows[..position]
    ensures Sum(batches, Oversized(size, limits)) == oversized && AllBounded(yielded, size, limits)
    ensures Flatten(parts) == yielded && CutPerBatch(parts, batches, size, limits, GrowsWith(size, rows))
  {
  }
}
