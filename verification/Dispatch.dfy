/** Padding, chunking and collecting a batch across workers. */
module Dispatch {
  import opened Arithmetic
  import opened Common
  import opened Concatenation
  import opened DataProto
  import opened Indexing

  // ----- padding to a divisor

  /** The rows repeated from the start until there are `m` of them. */
  ghost function Cycle<R>(rows: seq<R>, m: nat): seq<R>
    requires rows != [] || m == 0
  {
    seq(m, i requires 0 <= i < m => rows[i % |rows|])
  }

  lemma ModShift(m: nat, j: nat, n: nat)
    requires j < n && m % n == 0
    ensures (m + j) % n == j
  {
    ExactQuotient(m, n);
    QuotientUnique(m + j, n, m / n, j);
  }

  lemma CycleExtend<R>(rows: seq<R>, m: nat, take: nat)
    requires rows != [] && m % |rows| == 0 && take <= |rows|
    ensures Cycle(rows, m + take) == Cycle(rows, m) + rows[..take]
  {
    forall j | 0 <= j < take
      ensures Cycle(rows, m + take)[m + j] == rows[j]
    {
      ModShift(m, j, |rows|);
    }
  }

  lemma CycleWhole<R>(rows: seq<R>)
    requires rows != []
    ensures Cycle(rows, |rows|) == rows
  {
    CycleExtend(rows, 0, |rows|);
  }

  lemma PadDivides(n: nat, d: nat, pad: int)
    requires d > 0 && n % d != 0 && pad == d - n % d
    ensures n > 0 && 0 < pad < d && (n + pad) % d == 0
  {
    DivMod(n, d);
    MulSucc(n / d, d);
    QuotientUnique(n + pad, d, n / d + 1, 0);
  }

  lemma AppendPadding<T(!new)>(d: Batch<T>, parts: seq<Batch<T>>, m: nat, take: nat)
    requires Shape(d).Some? && d.size > 0 && take <= d.size && m % d.size == 0
    requires parts != [] && Agree(parts, SchemaOf(d)) && AllRows(parts) == Cycle(Rows(d), m)
    ensures Agree(parts + [Slice(d, 0, take)], SchemaOf(d))
    ensures AllRows(parts + [Slice(d, 0, take)]) == Cycle(Rows(d), m + take)
  {
    SliceRows(d, 0, take);
    CycleExtend(Rows(d), m, take);
    var parts' := parts + [Slice(d, 0, take)];
    assert parts'[..|parts'| - 1] == parts;
  }

  lemma StartPadding<T(!new)>(d: Batch<T>)
    requires Shape(d).Some? && d.size > 0
    ensures Agree([d], SchemaOf(d)) && AllRows([d]) == Cycle(Rows(d), d.size)
  {
    CycleWhole(Rows(d));
    assert [d][..0] == [] && AllRows([d]) == [] + Rows(d);
  }

  /** The loop that collects slices until `pad` rows are found. */
  method PaddingParts<T(!new)>(d: Batch<T>, pad: nat) returns (parts: seq<Batch<T>>)
    requires Shape(d).Some? && d.size > 0
    ensures parts != [] && Agree(parts, SchemaOf(d)) && AllRows(parts) == Cycle(Rows(d), d.size + pad)
  {
    parts := [d];
    var remaining := pad;
    ghost var m := d.size;
    StartPadding(d);
    ModShift(0, 0, d.size);
    NextMultiple(0, d.size);
    while remaining > 0
      invariant 0 <= remaining && m + remaining == d.size + pad && parts != []
      invariant Agree(parts, SchemaOf(d)) && AllRows(parts) == Cycle(Rows(d), m)
      invariant remaining > 0 ==> m % d.size == 0
    {
      var take := Min(remaining, d.size);
      AppendPadding(d, parts, m, take);
      NextMultiple(m, d.size);
      parts := parts + [Slice(d, 0, take)];
      remaining := remaining - take;
      m := m + take;
    }
  }

  method AppendRows<T(!new)>(d: Batch<T>, pad: nat) returns (padded: Batch<T>)
    requires Shape(d).Some? && d.size > 0
    ensures Shape(padded) == Shape(d) && padded.size == d.size + pad
    ensures Rows(padded) == Cycle(Rows(d), d.size + pad)
  {
    var parts := PaddingParts(d, pad);
    padded := ConcatSame(parts, SchemaOf(d));
    assert |Rows(padded)| == d.size + pad;
  }

  /** Pads with copies of the leading rows, as many times round as it takes; dividing by zero raises. */
  method PadToDivisor<T(!new)>(d: Batch<T>, divisor: nat) returns (r: Option<(Batch<T>, nat)>)
    requires Shape(d).Some?
    ensures r == None <==> divisor == 0
    ensures r.Some? ==>
              var (padded, pad) := r.value;
              && Shape(padded) == Shape(d) && padded.size == d.size + pad
              && padded.size % divisor == 0 && pad < divisor
              && (d.size == 0 ==> pad == 0) && Rows(padded) == Cycle(Rows(d), d.size + pad)
  {
    if divisor == 0 {
      return None;
    }
    if d.size % divisor == 0 {
      if d.size > 0 {
        CycleWhole(Rows(d));
      }
      return Some((d, 0));
    }
    var pad := divisor - d.size % divisor;
    PadDivides(d.size, divisor, pad);
    var padded := AppendRows(d, pad);
    return Some((padded, pad));
  }

  /** `data[:-pad]`. */
  function Unpad<T>(d: Batch<T>, pad: nat): Batch<T> {
    if pad == 0 then d else Slice(d, 0, if pad <= d.size then d.size - pad else 0)
  }

  /** The negative bound leaves out the last `pad` rows, or all of them. */
  lemma UnpadIsSlice<T(!new)>(d: Batch<T>, pad: nat)
    requires Shape(d).Some? && !d.Bare() && pad > 0
    ensures SliceBy(d, None, Some(-(pad as int)), None) == Some(Unpad(d, pad))
    ensures Shape(Unpad(d, pad)) == Shape(d) && Rows(Unpad(d, pad)) == Rows(d)[..Max(0, d.size - pad)]
  {
    SliceIsRange(d, None, Some(-(pad as int)));
    SliceRows(d, 0, Max(0, d.size - pad));
  }

  // ----- chunking

  function CumSum(sizes: seq<nat>): (sums: seq<nat>)
    ensures |sums| == |sizes|
  {
    if sizes == [] then []
    else
      var init := CumSum(sizes[..|sizes| - 1]);
      init + [(if init == [] then 0 else init[|init| - 1]) + sizes[|sizes| - 1]]
  }

  lemma {:induction false} CumSumEven(k: nat, s: nat)
    ensures CumSum(seq(k, _ => s)) == seq(k, j requires 0 <= j < k => (j + 1) * s)
  {
    if k == 0 {
    } else {
      CumSumEven(k - 1, s);
      MulSucc(k - 1, s);
      assert seq(k, _ => s)[..k - 1] == seq(k - 1, _ => s);
    }
  }

  /** Part `j` of an array split at the given row numbers. */
  function SplitColumn<T>(bounds: seq<nat>, j: nat): Cells<T> -> Cells<T> {
    (c: Cells<T>) =>
      var lo := if 0 < j <= |bounds| then bounds[j - 1] else 0;
      var hi := if j < |bounds| then bounds[j] else |c|;
      SliceColumn(lo, hi)(c)
  }

  /** Tensor columns are cut into equal pieces; object columns at the running sums of those pieces' sizes. */
  function ChunkAt<T>(d: Batch<T>, k: nat, j: nat): Batch<T>
    requires j < k
  {
    var s := d.size / k;
    var bounds := CumSum(seq(k, _ => s))[..k - 1];
    Lift(d, s, SliceColumn(j * s, (j + 1) * s), SplitColumn(bounds, j))
  }

  /** Only equal chunks are supported; the source asserts it. */
  function Chunk<T>(d: Batch<T>, k: nat): Option<seq<Batch<T>>> {
    if k == 0 || d.size % k != 0 then None
    else Some(seq(k, j requires 0 <= j < k => ChunkAt(d, k, j)))
  }

  lemma SplitGathers<T(!new)>(n: nat, k: nat, s: nat, j: nat)
    requires j < k && n == k * s && j * s <= (j + 1) * s <= n
    ensures Gathers(SplitColumn<T>(CumSum(seq(k, _ => s))[..k - 1], j), n, Range(j * s, (j + 1) * s))
  {
    var bounds := CumSum(seq(k, _ => s))[..k - 1];
    CumSumEven(k, s);
    SliceGathers<T>(j * s, (j + 1) * s, n);
    forall c: Cells<T> | |c| == n
      ensures SplitColumn<T>(bounds, j)(c) == SliceColumn<T>(j * s, (j + 1) * s)(c)
    {
      assert j > 0 ==> bounds[j - 1] == j * s;
      assert j < k - 1 ==> bounds[j] == (j + 1) * s;
    }
  }

  lemma ChunkBounds(n: nat, k: nat, j: nat)
    requires k > 0 && n % k == 0 && j < k
    ensures n == k * (n / k) && j * (n / k) <= (j + 1) * (n / k) <= n
    ensures (j + 1) * (n / k) == j * (n / k) + n / k
  {
    ExactQuotient(n, k);
    MulSucc(j, n / k);
    MulMonotone(j + 1, k, n / k);
  }

  /** Chunk `j` is a run of whole rows: tensors and objects are cut at the same place. */
  lemma ChunkRows<T(!new)>(d: Batch<T>, k: nat, j: nat)
    requires Shape(d).Some? && j < k && d.size % k == 0
    ensures var (c, s) := (ChunkAt(d, k, j), d.size / k);
      && Shape(c) == Shape(d) && c.size == s && 0 <= j * s <= (j + 1) * s <= d.size
      && Rows(c) == Rows(d)[j * s..(j + 1) * s]
  {
    var s := d.size / k;
    ChunkBounds(d.size, k, j);
    SliceGathers<T>(j * s, (j + 1) * s, d.size);
    SplitGathers<T>(d.size, k, s, j);
    LiftRows(d, Range(j * s, (j + 1) * s), SliceColumn(j * s, (j + 1) * s),
             SplitColumn(CumSum(seq(k, _ => s))[..k - 1], j));
    PickRange(Rows(d), j * s, (j + 1) * s);
  }

  lemma ChunksAgree<T(!new)>(d: Batch<T>, k: nat)
    requires Shape(d).Some? && 0 < k && d.size % k == 0
    ensures Agree(Chunk(d, k).value, SchemaOf(d))
  {
    forall i | 0 <= i < k
      ensures Shape(ChunkAt(d, k, i)) == Shape(d)
    {
      ChunkRows(d, k, i);
    }
  }

  lemma SliceJoin<R>(rows: seq<R>, a: nat, b: nat)
    requires a <= b <= |rows|
    ensures rows[..b] == rows[..a] + rows[a..b]
  {
  }

  lemma {:induction false} ChunkPrefix<T(!new)>(d: Batch<T>, k: nat, j: nat)
    requires Shape(d).Some? && 0 < k && j <= k && d.size % k == 0
    ensures Agree(Chunk(d, k).value[..j], SchemaOf(d))
    ensures 0 <= j * (d.size / k) <= d.size && AllRows(Chunk(d, k).value[..j]) == Rows(d)[..j * (d.size / k)]
  {
    var s := d.size / k;
    ChunksAgree(d, k);
    if j > 0 {
      ChunkPrefix(d, k, j - 1);
      ChunkRows(d, k, j - 1);
      SliceJoin(Rows(d), (j - 1) * s, j * s);
      ChunkSnoc(d, k, j - 1);
    }
  }

  lemma ChunkSnoc<T(!new)>(d: Batch<T>, k: nat, j: nat)
    requires Shape(d).Some? && 0 < k && j < k && d.size % k == 0
    requires Agree(Chunk(d, k).value, SchemaOf(d))
    ensures AllRows(Chunk(d, k).value[..j + 1]) == AllRows(Chunk(d, k).value[..j]) + Rows(ChunkAt(d, k, j))
  {
    var chunks := Chunk(d, k).value;
    assert chunks[..j + 1][..j] == chunks[..j];
  }

  /** Chunks taken together are the batch. */
  lemma ChunkAllRows<T(!new)>(d: Batch<T>, k: nat)
    requires Shape(d).Some? && 0 < k && d.size % k == 0
    ensures Agree(Chunk(d, k).value, SchemaOf(d)) && AllRows(Chunk(d, k).value) == Rows(d)
  {
    ChunkPrefix(d, k, k);
    ChunkBounds(d.size, k, k - 1);
    assert Chunk(d, k).value[..k] == Chunk(d, k).value;
  }

  // ----- futures

  /** `DataProtoFuture.get` on the i-th of k chunked futures: collect all outputs, then take chunk i. */
  function FutureGet<T>(outputs: seq<Batch<T>>, i: nat, k: nat): Option<Batch<T>> {
    var whole :- Concat(outputs);
    var chunks :- Chunk(whole, k);
    if i < |chunks| then Some(chunks[i]) else None
  }

  /** The chunked futures, each fetched on its own, share the collected rows out without loss or overlap. */
  lemma FuturesPartition<T(!new)>(outputs: seq<Batch<T>>, k: nat, schema: Schema)
    requires outputs != [] && Agree(outputs, schema) && k > 0 && |AllRows(outputs)| % k == 0
    ensures forall i :: 0 <= i < k ==> FutureGet(outputs, i, k).Some?
    ensures var parts := seq(k, i requires 0 <= i < k => FutureGet(outputs, i, k).Extract());
            Agree(parts, schema) && AllRows(parts) == AllRows(outputs)
  {
    ConcatRows(outputs, schema);
    var whole := Concat(outputs).value;
    ChunkAllRows(whole, k);
    assert seq(k, i requires 0 <= i < k => FutureGet(outputs, i, k).Extract()) == Chunk(whole, k).value;
  }

  // ----- workers

  ghost function MapRows<R, S>(f: R -> S, rows: seq<R>): seq<S> {
    seq(|rows|, i requires 0 <= i < |rows| => f(rows[i]))
  }

  /** A worker whose output row depends on the input row alone. */
  ghost predicate RowWise<T(!new)>(
    worker: Batch<T> -> Batch<T>, f: Row<T> -> Row<T>, inputs: Schema, outputs: Schema)
  {
    forall d: Batch<T> :: Shape(d) == Some(inputs) ==>
      Shape(worker(d)) == Some(outputs) && Rows(worker(d)) == MapRows(f, Rows(d))
  }

  lemma WorkerRows<T(!new)>(
    part: Batch<T>, worker: Batch<T> -> Batch<T>, f: Row<T> -> Row<T>, inputs: Schema, outputs: Schema)
    requires RowWise(worker, f, inputs, outputs) && Shape(part) == Some(inputs)
    ensures Shape(worker(part)) == Some(outputs) && Rows(worker(part)) == MapRows(f, Rows(part))
  {
  }

  lemma {:induction false} WorkersRows<T(!new)>(
    parts: seq<Batch<T>>, outs: seq<Batch<T>>, worker: Batch<T> -> Batch<T>, f: Row<T> -> Row<T>, inputs: Schema,
    outputs: Schema)
    requires RowWise(worker, f, inputs, outputs) && Agree(parts, inputs)
    requires |outs| == |parts| && forall i :: 0 <= i < |parts| ==> outs[i] == worker(parts[i])
    ensures Agree(outs, outputs) && AllRows(outs) == MapRows(f, AllRows(parts))
    decreases |parts|
  {
    if parts == [] {
    } else {
      var n := |parts| - 1;
      WorkersRows(parts[..n], outs[..n], worker, f, inputs, outputs);
      WorkerRows(parts[n], worker, f, inputs, outputs);
      MapAppend(f, AllRows(parts[..n]), Rows(parts[n]));
    }
  }

  lemma MapAppend<R, S>(f: R -> S, a: seq<R>, b: seq<R>)
    ensures MapRows(f, a + b) == MapRows(f, a) + MapRows(f, b)
  {
  }

  method RunEach<T>(parts: seq<Batch<T>>, worker: Batch<T> -> Batch<T>) returns (outs: seq<Batch<T>>)
    ensures |outs| == |parts| && forall i :: 0 <= i < |parts| ==> outs[i] == worker(parts[i])
  {
    outs := [];
    for i := 0 to |parts|
      invariant |outs| == i && forall j :: 0 <= j < i ==> outs[j] == worker(parts[j])
    {
      outs := outs + [worker(parts[i])];
    }
  }

  lemma OutputRows<T(!new)>(
    d: Batch<T>, k: nat, outs: seq<Batch<T>>, worker: Batch<T> -> Batch<T>, f: Row<T> -> Row<T>, outputs: Schema)
    requires Shape(d).Some? && k > 0 && d.size % k == 0 && RowWise(worker, f, SchemaOf(d), outputs)
    requires |outs| == k && forall i :: 0 <= i < k ==> outs[i] == worker(Chunk(d, k).value[i])
    ensures Agree(outs, outputs) && AllRows(outs) == MapRows(f, Rows(d))
  {
    ChunkAllRows(d, k);
    WorkersRows(Chunk(d, k).value, outs, worker, f, SchemaOf(d), outputs);
  }

  lemma UnpadRows<T(!new)>(whole: Batch<T>, pad: nat, f: Row<T> -> Row<T>, rows: seq<Row<T>>)
    requires Shape(whole).Some? && rows != []
    requires Rows(whole) == MapRows(f, Cycle(rows, |rows| + pad))
    ensures var r := Unpad(whole, pad);
            Shape(r) == Shape(whole) && Rows(r) == MapRows(f, rows)
  {
    assert |Rows(whole)| == whole.size == |rows| + pad;
    SliceRows(whole, 0, |rows|);
    forall i | 0 <= i < |rows|
      ensures Cycle(rows, |rows| + pad)[i] == rows[i]
    {
      ModShift(0, i, |rows|);
    }
    assert MapRows(f, Cycle(rows, |rows| + pad))[..|rows|] == MapRows(f, rows);
  }

  /** Chunk, run every worker on its chunk, collect. */
  method RunChunks<T(!new)>(
    d: Batch<T>, k: nat, worker: Batch<T> -> Batch<T>, ghost f: Row<T> -> Row<T>, ghost outputs: Schema)
    returns (r: Batch<T>)
    requires Shape(d).Some? && k > 0 && d.size % k == 0 && RowWise(worker, f, SchemaOf(d), outputs)
    ensures Shape(r) == Some(outputs) && Rows(r) == MapRows(f, Rows(d))
  {
    var outs := RunEach(Chunk(d, k).value, worker);
    OutputRows(d, k, outs, worker, f, outputs);
    r := ConcatSame(outs, outputs);
  }

  /**
   Pad, chunk, run every worker on its chunk, collect and unpad. For any row-wise worker and any batch with rows, the
   result is the worker's function applied row by row.
   */
  method RunWorkers<T(!new)>(
    d: Batch<T>, worldSize: nat, worker: Batch<T> -> Batch<T>, ghost f: Row<T> -> Row<T>, ghost outputs: Schema)
    returns (r: Batch<T>)
    requires Shape(d).Some? && d.size > 0 && worldSize > 0
    requires RowWise(worker, f, SchemaOf(d), outputs)
    ensures Shape(r) == Some(outputs) && Rows(r) == MapRows(f, Rows(d))
  {
    var p := PadToDivisor(d, worldSize);
    var (padded, pad) := p.value;
    var whole := RunChunks(padded, worldSize, worker, f, outputs);
    UnpadRows(whole, pad, f, Rows(d));
    r := Unpad(whole, pad);
  }
}
