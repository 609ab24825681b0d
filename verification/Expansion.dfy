/** Expanding a batch: repeating rows, repeating them unevenly, and unfolding column blocks into rows. */
module Expansion {
  import opened Arithmetic
  import opened Common
  import opened DataProto
  import opened Sequences

  // ----- repeat

  function InterleaveSource(n: nat, k: nat): (source: seq<nat>)
    ensures |source| == n * k && forall i :: 0 <= i < |source| ==> source[i] < n
  {
    seq(n * k, i requires 0 <= i < n * k => Quotient(i, n, k))
  }

  function Quotient(i: nat, n: nat, k: nat): (q: nat)
    requires i < n * k
    ensures q < n
  {
    GroupOfIndex(i, n, k);
    i / k
  }

  function TileSource(n: nat, k: nat): (source: seq<nat>)
    ensures |source| == k * n && forall i :: 0 <= i < |source| ==> source[i] < n
  {
    seq(k * n, i requires 0 <= i < k * n => Rest(i, k, n))
  }

  function Rest(i: nat, k: nat, n: nat): (r: nat)
    requires i < k * n
    ensures r < n
  {
    GroupOfIndex(i, k, n);
    i % n
  }

  /** `repeat`: each row k times in place, or the whole batch k times. */
  function Repeat<T>(d: Batch<T>, k: nat, interleave: bool): Batch<T> {
    var source := if interleave then InterleaveSource(d.size, k) else TileSource(d.size, k);
    Lift(d, |source|, GatherColumn(source, d.size), GatherColumn(source, d.size))
  }

  lemma RepeatRows<T(!new)>(d: Batch<T>, k: nat, interleave: bool)
    requires Shape(d).Some?
    ensures var source := if interleave then InterleaveSource(d.size, k) else TileSource(d.size, k);
            Shape(Repeat(d, k, interleave)) == Shape(d) && Rows(Repeat(d, k, interleave)) == Pick(Rows(d), source)
  {
    var source := if interleave then InterleaveSource(d.size, k) else TileSource(d.size, k);
    LiftRows(d, source, GatherColumn(source, d.size), GatherColumn(source, d.size));
  }

  lemma InterleavedAt<R>(all: seq<R>, rows: seq<R>, k: nat, i: nat, s: nat)
    requires all == Pick(rows, InterleaveSource(|rows|, k)) && i < |rows| && s < k
    ensures |all| == |rows| * k && 0 <= i * k + s < |rows| * k && all[i * k + s] == rows[i]
  {
    GroupIndex(i, s, |rows|, k);
  }

  lemma TiledAt<R>(all: seq<R>, rows: seq<R>, k: nat, i: nat, s: nat)
    requires all == Pick(rows, TileSource(|rows|, k)) && i < |rows| && s < k
    ensures |all| == k * |rows| && 0 <= s * |rows| + i < k * |rows| && all[s * |rows| + i] == rows[i]
  {
    GroupIndex(s, i, k, |rows|);
  }

  lemma RepeatedAt<R>(all: seq<R>, rows: seq<R>, times: seq<nat>, i: nat, s: nat)
    requires |times| == |rows| && all == Pick(rows, RepeatSource(times)) && i < |rows| && s < times[i]
    ensures Sum(times[..i]) + s < |all| == Sum(times) && all[Sum(times[..i]) + s] == rows[i]
  {
    RepeatSourceAt(times, i, s);
  }

  /** Interleaved, copy `s` of row `i` stands at `i * k + s`; otherwise the batch follows itself. */
  lemma RepeatRow<T(!new)>(d: Batch<T>, k: nat, i: nat, s: nat)
    requires Shape(d).Some? && i < d.size && s < k
    ensures |Rows(Repeat(d, k, true))| == d.size * k && 0 <= i * k + s < d.size * k
    ensures Rows(Repeat(d, k, true))[i * k + s] == Rows(d)[i]
    ensures |Rows(Repeat(d, k, false))| == k * d.size && 0 <= s * d.size + i < k * d.size
    ensures Rows(Repeat(d, k, false))[s * d.size + i] == Rows(d)[i]
  {
    InterleavedRow(d, k, i, s);
    TiledRow(d, k, i, s);
  }

  lemma InterleavedRow<T(!new)>(d: Batch<T>, k: nat, i: nat, s: nat)
    requires Shape(d).Some? && i < d.size && s < k
    ensures |Rows(Repeat(d, k, true))| == d.size * k && 0 <= i * k + s < d.size * k
    ensures Rows(Repeat(d, k, true))[i * k + s] == Rows(d)[i]
  {
    RepeatRows(d, k, true);
    InterleavedAt(Rows(Repeat(d, k, true)), Rows(d), k, i, s);
  }

  lemma TiledRow<T(!new)>(d: Batch<T>, k: nat, i: nat, s: nat)
    requires Shape(d).Some? && i < d.size && s < k
    ensures |Rows(Repeat(d, k, false))| == k * d.size && 0 <= s * d.size + i < k * d.size
    ensures Rows(Repeat(d, k, false))[s * d.size + i] == Rows(d)[i]
  {
    var all, rows := Rows(Repeat(d, k, false)), Rows(d);
    RepeatRows(d, k, false);
    assert all == Pick(rows, TileSource(|rows|, k));
    TiledAt(all, rows, k, i, s);
  }

  // ----- sample-level repeat

  /** The source row of every output row. */
  function RepeatSource(times: seq<nat>): (source: seq<nat>)
    ensures |source| == Sum(times) && forall i :: 0 <= i < |source| ==> source[i] < |times|
  {
    if times == [] then []
    else RepeatSource(times[..|times| - 1]) + seq(times[|times| - 1], _ => |times| - 1)
  }

  function RepeatEachColumn<T>(times: seq<nat>): Cells<T> -> Cells<T> {
    (c: Cells<T>) => RepeatEach(c, times)
  }

  function RepeatEach<T>(c: Cells<T>, times: seq<nat>): Cells<T>
    decreases |c|
  {
    if c == [] || |c| != |times| then []
    else RepeatEach(c[..|c| - 1], times[..|c| - 1]) + seq(times[|c| - 1], _ => c[|c| - 1])
  }

  /** As many counts as rows are needed. */
  function SampleLevelRepeat<T>(d: Batch<T>, times: seq<nat>): Option<Batch<T>> {
    if |times| != d.size then None
    else Some(Lift(d, Sum(times), RepeatEachColumn(times), RepeatEachColumn(times)))
  }

  lemma {:induction false} RepeatEachGathers<T>(c: Cells<T>, times: seq<nat>)
    requires |c| == |times|
    ensures RepeatEach(c, times) == seq(Sum(times), i requires 0 <= i < Sum(times) => c[RepeatSource(times)[i]])
    decreases |c|
  {
    if c == [] {
    } else {
      var n := |c| - 1;
      RepeatEachGathers(c[..n], times[..n]);
      forall i | 0 <= i < Sum(times)
        ensures RepeatEach(c, times)[i] == c[RepeatSource(times)[i]]
      {
        if i < Sum(times[..n]) {
          assert RepeatEach(c, times)[i] == RepeatEach(c[..n], times[..n])[i];
        }
      }
    }
  }

  lemma {:induction false} RepeatSourceAt(times: seq<nat>, i: nat, s: nat)
    requires i < |times| && s < times[i]
    ensures Sum(times[..i]) + s < Sum(times) && RepeatSource(times)[Sum(times[..i]) + s] == i
    decreases |times|
  {
    var n := |times| - 1;
    if i < n {
      RepeatSourceAt(times[..n], i, s);
      assert times[..n][..i] == times[..i];
    }
  }

  lemma SampleRows<T(!new)>(d: Batch<T>, times: seq<nat>)
    requires Shape(d).Some? && |times| == d.size
    ensures SampleLevelRepeat(d, times).Some?
    ensures var r := SampleLevelRepeat(d, times).value;
            Shape(r) == Shape(d) && r.size == Sum(times) && Rows(r) == Pick(Rows(d), RepeatSource(times))
  {
    forall c: Cells<T> | |c| == d.size
      ensures RepeatEachColumn<T>(times)(c)
              == seq(Sum(times), i requires 0 <= i < Sum(times) => c[RepeatSource(times)[i]])
    {
      RepeatEachGathers(c, times);
    }
    LiftRows(d, RepeatSource(times), RepeatEachColumn(times), RepeatEachColumn(times));
  }

  /** Row `i` fills the places between consecutive prefix sums of the counts. */
  lemma SampleLevelRows<T(!new)>(d: Batch<T>, times: seq<nat>, i: nat, s: nat)
    requires Shape(d).Some? && |times| == d.size && i < d.size && s < times[i]
    ensures SampleLevelRepeat(d, times).Some?
    ensures var rows := Rows(SampleLevelRepeat(d, times).value);
            Sum(times[..i]) + s < |rows| == Sum(times) && rows[Sum(times[..i]) + s] == Rows(d)[i]
  {
    SampleRows(d, times);
    RepeatedAt(Rows(SampleLevelRepeat(d, times).value), Rows(d), times, i, s);
  }

  lemma {:induction false} ConstantSource(n: nat, k: nat)
    ensures Sum(seq(n, _ => k)) == n * k && RepeatSource(seq(n, _ => k)) == InterleaveSource(n, k)
  {
    var times := seq(n, _ => k);
    if n > 0 {
      assert times[..n - 1] == seq(n - 1, _ => k);
      ConstantSource(n - 1, k);
      MulSucc(n - 1, k);
      forall j | (n - 1) * k <= j < n * k
        ensures j / k == n - 1
      {
        GroupIndex(n - 1, j - (n - 1) * k, n, k);
      }
    }
  }

  /** Equal counts give the interleaved repeat. */
  lemma ConstantCountsInterleave<T(!new)>(d: Batch<T>, k: nat)
    requires Shape(d).Some?
    ensures SampleLevelRepeat(d, seq(d.size, _ => k)).Some?
    ensures Rows(SampleLevelRepeat(d, seq(d.size, _ => k)).value) == Rows(Repeat(d, k, true))
  {
    SampleRows(d, seq(d.size, _ => k));
    ConstantSource(d.size, k);
    RepeatRows(d, k, true);
  }

  // ----- unfolding column chunks

  /** A block of one row, found in the flattened array. */
  lemma {:induction false} JoinSlice<T>(c: Cells<T>, w: nat, i: nat, lo: nat, hi: nat)
    requires forall j :: 0 <= j < |c| ==> |c[j]| == w
    requires i < |c| && lo <= hi <= w
    ensures 0 <= i * w + lo <= i * w + hi <= |Join(c)|
    ensures Join(c)[i * w + lo..i * w + hi] == c[i][lo..hi]
    decreases |c|
  {
    var n := |c| - 1;
    JoinLength(c, w);
    JoinLength(c[..n], w);
    MulMonotone(i + 1, |c|, w);
    MulSucc(i, w);
    if i < n {
      JoinSlice(c[..n], w, i, lo, hi);
      assert Join(c)[i * w + lo..i * w + hi] == Join(c[..n])[i * w + lo..i * w + hi];
    }
  }

  function FlatRow<T>(flat: Cell<T>, w: nat, r: nat): Cell<T> {
    if 0 <= r * w <= (r + 1) * w <= |flat| then flat[r * w..(r + 1) * w] else []
  }

  /** The flattened array cut into n times as many rows of `w` elements. */
  function Reshape<T>(c: Cells<T>, n: nat, w: nat): Cells<T> {
    seq(|c| * n, r requires 0 <= r < |c| * n => FlatRow(Join(c), w, r))
  }

  function InterleaveCells<T>(c: Cells<T>, k: nat): Cells<T> {
    var source := InterleaveSource(|c|, k);
    seq(|source|, i requires 0 <= i < |source| => c[source[i]])
  }

  /** Every row n times in place: `repeat_interleave` and `np.repeat`. */
  function RepeatColumn<T>(c: Column<T>, n: nat): Column<T> {
    Column(c.shape, InterleaveCells(c.cells, n))
  }

  /** The second dimension divided by n: raises when there is none, or when n is zero. */
  function SplitShape(shape: seq<nat>, n: nat): Option<seq<nat>> {
    if shape == [] || n == 0 then None else Some([shape[0] / n] + shape[1..])
  }

  /** `reshape` to n times as many rows raises when the number of elements is not that of the array. */
  function SplitColumn<T>(c: Column<T>, n: nat): Option<Column<T>> {
    var shape :- SplitShape(c.shape, n);
    if |c.cells| * n * Numel(shape) != |c.cells| * Numel(c.shape) then None
    else Some(Column(shape, Reshape(c.cells, n, Numel(shape))))
  }

  /** The tensor loop asks for the keys only when there are some. */
  function TensorLookup(keys: Option<set<string>>, k: string): Option<bool> {
    Some(keys.Some? && k in keys.value)
  }

  /** The object loop looks the key up in any case, which raises when there are none. */
  function ObjectLookup(keys: Option<set<string>>, k: string): Option<bool> {
    var some :- keys;
    Some(k in some)
  }

  /** One turn of either loop. */
  function UnfoldOne<T>(c: Column<T>, n: nat, lookup: Option<bool>): Option<Column<T>> {
    var split :- lookup;
    if split then SplitColumn(c, n) else Some(RepeatColumn(c, n))
  }

  /** All turns of a loop over columns. */
  function UnfoldEach<T>(columns: Columns<T>, n: nat, lookup: string -> Option<bool>): Option<Columns<T>> {
    if forall k :: k in columns ==> UnfoldOne(columns[k], n, lookup(k)).Some?
    then Some(map k | k in columns :: UnfoldOne(columns[k], n, lookup(k)).value)
    else None
  }

  function UnfoldColumnChunks<T>(d: Batch<T>, n: nat, keys: Option<set<string>>): Option<Batch<T>> {
    var tensors :- if d.tensors.None? then Some(None)
                   else var t :- UnfoldEach(d.tensors.value, n, k => TensorLookup(keys, k)); Some(Some(t));
    var objects :- UnfoldEach(d.objects, n, k => ObjectLookup(keys, k));
    Some(Batch(d.size * n, tensors, objects))
  }

  method UnfoldLoop<T>(columns: Columns<T>, n: nat, lookup: string -> Option<bool>) returns (r: Option<Columns<T>>)
    ensures r == UnfoldEach(columns, n, lookup)
  {
    var unfolded: Columns<T> := map[];
    var todo := columns.Keys;
    while todo != {}
      invariant todo <= columns.Keys && unfolded.Keys == columns.Keys - todo
      invariant forall k :: k in unfolded ==> UnfoldOne(columns[k], n, lookup(k)) == Some(unfolded[k])
      decreases todo
    {
      var k :| k in todo;
      var one := UnfoldOne(columns[k], n, lookup(k));
      if one == None {
        return None;
      }
      unfolded := unfolded[k := one.value];
      todo := todo - {k};
    }
    assert unfolded.Keys == columns.Keys;
    assert forall k :: k in columns ==> UnfoldOne(columns[k], n, lookup(k)).Some?;
    assert unfolded == UnfoldEach(columns, n, lookup).value;
    return Some(unfolded);
  }

  /** `unfold_column_chunks`: the tensor columns one after another, then the object columns. */
  method Unfold<T>(d: Batch<T>, n: nat, keys: Option<set<string>>) returns (r: Option<Batch<T>>)
    ensures r == UnfoldColumnChunks(d, n, keys)
  {
    var tensors: Option<Columns<T>> := None;
    if d.tensors.Some? {
      tensors := UnfoldLoop(d.tensors.value, n, k => TensorLookup(keys, k));
      if tensors == None {
        return None;
      }
    }
    var objects := UnfoldLoop(d.objects, n, k => ObjectLookup(keys, k));
    if objects == None {
      return None;
    }
    return Some(Batch(d.size * n, tensors, objects.value));
  }

  /** Row `i * n + s` of an unfolded column: block `s` of row `i` when split, a copy of row `i` otherwise. */
  ghost predicate UnfoldedRow<T>(after: Cells<T>, before: Cells<T>, n: nat, split: bool, w: nat, i: int, s: int) {
    0 <= i < |before| && 0 <= s < n ==>
      && 0 <= i * n + s < |after| && 0 <= s * w <= (s + 1) * w
      && (split ==> (s + 1) * w <= |before[i]|)
      && after[i * n + s] == if split then before[i][s * w..(s + 1) * w] else before[i]
  }

  /** The second dimension is an n-th of what it was, and the others are as before. */
  ghost predicate Divided(after: seq<nat>, before: seq<nat>, n: nat) {
    n > 0 && |after| == |before| > 0 && after[0] == before[0] / n && forall i :: 1 <= i < |before| ==>
        after[i] == before[i]
  }

  /** A split column has blocks of the size of its new shape, another one keeps its shape. */
  ghost predicate UnfoldedFrom<T>(after: Column<T>, before: Column<T>, n: nat, split: bool) {
    && (if split then Divided(after.shape, before.shape, n) else after.shape == before.shape)
    && |after.cells| == |before.cells| * n
    && forall i, s :: UnfoldedRow(after.cells, before.cells, n, split, Numel(after.shape), i, s)
  }

  lemma ReshapeRow<T>(c: Cells<T>, n: nat, w: nat, i: nat, s: nat)
    requires n > 0 && forall j :: 0 <= j < |c| ==> |c[j]| == n * w
    requires i < |c| && s < n
    ensures 0 <= i * n + s < |c| * n && 0 <= s * w <= (s + 1) * w <= |c[i]|
    ensures Reshape(c, n, w)[i * n + s] == c[i][s * w..(s + 1) * w]
  {
    GroupIndex(i, s, |c|, n);
    MulMonotone(s + 1, n, w);
    MulSucc(s, w);
    BlockOffset(i, n, w, s);
    BlockOffset(i, n, w, s + 1);
    JoinSlice(c, n * w, i, s * w, (s + 1) * w);
  }

  /** Where an array has rows, the elements of a row are those of its n blocks. */
  lemma RowElements(rows: nat, n: nat, w: nat, all: nat)
    requires rows * n * w == rows * all
    ensures rows > 0 ==> n * w == all
  {
    if rows > 0 {
      assert rows * n * w == rows * (n * w);
      CancelFactor(rows, n * w, all);
    }
  }

  lemma SplitDivides(shape: seq<nat>, n: nat)
    requires SplitShape(shape, n).Some?
    ensures Divided(SplitShape(shape, n).value, shape, n)
  {
  }

  lemma ReshapedRows<T>(c: Cells<T>, n: nat, w: nat)
    requires n > 0 && forall j :: 0 <= j < |c| ==> |c[j]| == n * w
    ensures |Reshape(c, n, w)| == |c| * n && forall r :: 0 <= r < |c| * n ==> |Reshape(c, n, w)[r]| == w
    ensures forall i, s :: UnfoldedRow(Reshape(c, n, w), c, n, true, w, i, s)
  {
    forall i, s
      ensures UnfoldedRow(Reshape(c, n, w), c, n, true, w, i, s)
    {
      if 0 <= i < |c| && 0 <= s < n {
        ReshapeRow(c, n, w, i, s);
      }
    }
    forall r | 0 <= r < |c| * n
      ensures |Reshape(c, n, w)[r]| == w
    {
      GroupOfIndex(r, |c|, n);
      ReshapeRow(c, n, w, r / n, r % n);
      MulSucc(r % n, w);
    }
  }

  lemma SplitColumnRows<T>(c: Column<T>, n: nat, size: nat)
    requires Shaped(c, size) && SplitColumn(c, n).Some?
    ensures UnfoldedFrom(SplitColumn(c, n).value, c, n, true) && Shaped(SplitColumn(c, n).value, size * n)
  {
    SplitDivides(c.shape, n);
    var r := SplitColumn(c, n).value;
    RowElements(size, n, Numel(r.shape), Numel(c.shape));
    ReshapedRows(c.cells, n, Numel(r.shape));
  }

  lemma RepeatColumnRows<T>(c: Column<T>, n: nat, size: nat)
    requires Shaped(c, size)
    ensures UnfoldedFrom(RepeatColumn(c, n), c, n, false) && Shaped(RepeatColumn(c, n), size * n)
  {
    var w := Numel(c.shape);
    forall i, s
      ensures UnfoldedRow(RepeatColumn(c, n).cells, c.cells, n, false, w, i, s)
    {
      if 0 <= i < size && 0 <= s < n {
        GroupIndex(i, s, size, n);
        MulMonotone(s, s + 1, w);
      }
    }
  }

  predicate Splits(keys: Option<set<string>>, k: string) {
    keys.Some? && k in keys.value
  }

  lemma UnfoldedColumn<T>(c: Column<T>, n: nat, split: bool, size: nat)
    requires Shaped(c, size) && UnfoldOne(c, n, Some(split)).Some?
    ensures UnfoldedFrom(UnfoldOne(c, n, Some(split)).value, c, n, split)
    ensures Shaped(UnfoldOne(c, n, Some(split)).value, size * n)
  {
    if split {
      SplitColumnRows(c, n, size);
    } else {
      RepeatColumnRows(c, n, size);
    }
  }

  ghost predicate AllUnfolded<T>(after: Columns<T>, before: Columns<T>, n: nat, keys: Option<set<string>>) {
    after.Keys == before.Keys && forall k :: k in before ==> UnfoldedFrom(after[k], before[k], n, Splits(keys, k))
  }

  lemma EachUnfolded<T>(
    columns: Columns<T>, n: nat, lookup: string -> Option<bool>, keys: Option<set<string>>, size: nat)
    requires AllShaped(columns, size) && UnfoldEach(columns, n, lookup).Some?
    requires forall k :: k in columns ==> lookup(k) == Some(Splits(keys, k))
    ensures var r := UnfoldEach(columns, n, lookup).value;
            AllUnfolded(r, columns, n, keys) && AllShaped(r, size * n)
  {
    var r := UnfoldEach(columns, n, lookup).value;
    forall k | k in columns
      ensures UnfoldedFrom(r[k], columns[k], n, Splits(keys, k)) && Shaped(r[k], size * n)
    {
      assert Shaped(columns[k], size) && UnfoldOne(columns[k], n, lookup(k)).Some?;
      UnfoldedColumn(columns[k], n, Splits(keys, k), size);
    }
  }

  /** Every column of both kinds unfolds by the same row rule, so rows stay aligned. */
  lemma UnfoldAligned<T>(d: Batch<T>, n: nat, keys: Option<set<string>>)
    requires d.Valid() && UnfoldColumnChunks(d, n, keys).Some?
    ensures var r := UnfoldColumnChunks(d, n, keys).value;
      && r.Valid() && r.size == d.size * n && (r.tensors.Some? <==> d.tensors.Some?)
      && (d.tensors.Some? ==> AllUnfolded(r.tensors.value, d.tensors.value, n, keys))
      && AllUnfolded(r.objects, d.objects, n, keys)
  {
    if d.tensors.Some? {
      EachUnfolded(d.tensors.value, n, k => TensorLookup(keys, k), keys, d.size);
    }
    ObjectsLookedUp(d.objects, n, keys);
    EachUnfolded(d.objects, n, k => ObjectLookup(keys, k), keys, d.size);
  }

  /** When the object loop ends there were keys, or no columns. */
  lemma ObjectsLookedUp<T>(columns: Columns<T>, n: nat, keys: Option<set<string>>)
    requires UnfoldEach(columns, n, k => ObjectLookup(keys, k)).Some?
    ensures forall k :: k in columns ==> ObjectLookup(keys, k) == Some(Splits(keys, k))
  {
    forall k | k in columns
      ensures keys.Some?
    {
      assert UnfoldOne(columns[k], n, ObjectLookup(keys, k)).Some?;
    }
  }

  // ----- when the loops raise

  /** An array can be cut when it has a second dimension that n divides, or no elements. */
  predicate Splittable<T>(c: Column<T>, n: nat) {
    n > 0 && c.shape != [] && (c.shape[0] % n == 0 || Numel(c.shape) == 0 || c.cells == [])
  }

  /** The columns that are to be split. */
  ghost predicate AllSplittable<T>(columns: Columns<T>, n: nat, keys: Option<set<string>>) {
    forall k :: k in columns && Splits(keys, k) ==> Splittable(columns[k], n)
  }

  /**
   Rows of `w * rest` elements make n rows of `(w / n) * rest` elements when n divides `w`, or there is no element.
   */
  lemma SameElements(rows: nat, n: nat, w: nat, rest: nat)
    requires n > 0
    ensures rows * n * ((w / n) * rest) == rows * (w * rest) <==> w % n == 0 || w * rest == 0 || rows == 0
  {
    DivMod(w, n);
    var q, r := w / n, w % n;
    assert rows * n * (q * rest) == rows * (q * n * rest);
    assert w * rest == q * n * rest + r * rest;
    assert rows * (w * rest) == rows * (q * n * rest) + rows * (r * rest);
    if rows * (r * rest) == 0 {
      ZeroProduct(rows, r * rest);
      if rows > 0 {
        ZeroProduct(r, rest);
      }
    }
    if w * rest == 0 {
      ZeroProduct(w, rest);
    }
  }

  lemma ZeroProduct(a: nat, b: nat)
    requires a * b == 0
    ensures a == 0 || b == 0
  {
    if a > 0 && b > 0 {
      MulMonotone(1, a, b);
    }
  }

  lemma SplitColumnExactly<T>(c: Column<T>, n: nat)
    ensures SplitColumn(c, n).Some? <==> Splittable(c, n)
  {
    if n > 0 && c.shape != [] {
      var shape := [c.shape[0] / n] + c.shape[1..];
      assert shape[1..] == c.shape[1..];
      assert Numel(shape) == (c.shape[0] / n) * Numel(c.shape[1..]);
      SameElements(|c.cells|, n, c.shape[0], Numel(c.shape[1..]));
    }
  }

  /** When the loops raise: on a column that cannot be split, or on any object column when there are no keys. */
  lemma UnfoldRaisesExactly<T>(d: Batch<T>, n: nat, keys: Option<set<string>>)
    ensures UnfoldColumnChunks(d, n, keys) == None <==>
              || (d.tensors.Some? && !AllSplittable(d.tensors.value, n, keys))
              || !AllSplittable(d.objects, n, keys) || (keys == None && d.objects.Keys != {})
  {
    if d.tensors.Some? {
      forall k | k in d.tensors.value
        ensures UnfoldOne(d.tensors.value[k], n, TensorLookup(keys, k)).Some? <==>
                  (Splits(keys, k) ==> Splittable(d.tensors.value[k], n))
      {
        SplitColumnExactly(d.tensors.value[k], n);
      }
    }
    forall k | k in d.objects
      ensures UnfoldOne(d.objects[k], n, ObjectLookup(keys, k)).Some? <==>
                keys.Some? && (Splits(keys, k) ==> Splittable(d.objects[k], n))
    {
      SplitColumnExactly(d.objects[k], n);
    }
    if keys == None && d.objects.Keys != {} {
      var k :| k in d.objects.Keys;
      assert UnfoldOne(d.objects[k], n, ObjectLookup(keys, k)) == None;
    }
  }

  /**
   Without split keys every row of every tensor column is copied n times, and none is split; but an object column,
   which the documentation says is repeated like the rest, makes the call raise.
   */
  lemma UnfoldWithoutKeys<T>(d: Batch<T>, n: nat)
    requires d.Valid()
    ensures UnfoldColumnChunks(d, n, None) == None <==> d.objects.Keys != {}
    ensures UnfoldColumnChunks(d, n, None).Some? && d.tensors.Some? ==>
              forall k :: k in d.tensors.value ==>
                var r := UnfoldColumnChunks(d, n, None).value;
                r.tensors.Some? && k in r.tensors.value &&
                    UnfoldedFrom(r.tensors.value[k], d.tensors.value[k], n, false)
  {
    UnfoldRaisesExactly(d, n, None);
    if d.tensors.Some? && d.objects.Keys == {} {
      forall k | k in d.tensors.value
        ensures UnfoldedFrom(RepeatColumn(d.tensors.value[k], n), d.tensors.value[k], n, false)
      {
        assert Shaped(d.tensors.value[k], d.size);
        RepeatColumnRows(d.tensors.value[k], n, d.size);
      }
    }
  }

  /** The blocks of one row, standing together, join to the row. */
  lemma {:induction false} JoinBlocks<T>(blocks: Cells<T>, row: Cell<T>, w: nat, m: nat)
    requires |blocks| == m && m * w <= |row|
    requires forall s :: 0 <= s < m ==> IsBlock(blocks[s], row, w, s)
    ensures Join(blocks) == row[..m * w]
    decreases m
  {
    if m > 0 {
      MulSucc(m - 1, w);
      JoinBlocks(blocks[..m - 1], row, w, m - 1);
      assert IsBlock(blocks[m - 1], row, w, m - 1);
    } else {
      assert 0 * w == 0;
    }
  }

  ghost predicate IsBlock<T>(block: Cell<T>, row: Cell<T>, w: nat, s: int) {
    0 <= s * w <= (s + 1) * w <= |row| && block == row[s * w..(s + 1) * w]
  }

  /** Putting the n blocks of a row back together gives the row. */
  lemma RefoldRow<T>(after: Column<T>, before: Column<T>, n: nat, size: nat, i: nat)
    requires Shaped(before, size) && SplitColumn(before, n) == Some(after) && i < size
    ensures 0 <= i * n <= i * n + n <= |after.cells| && Join(after.cells[i * n..i * n + n]) == before.cells[i]
  {
    var w := Numel(after.shape);
    RowElements(size, n, w, Numel(before.shape));
    SplitColumnRows(before, n, size);
    GroupIndex(i, n - 1, size, n);
    var blocks := after.cells[i * n..i * n + n];
    forall s | 0 <= s < n
      ensures IsBlock(blocks[s], before.cells[i], w, s)
    {
      assert UnfoldedRow(after.cells, before.cells, n, true, w, i, s);
    }
    JoinBlocks(blocks, before.cells[i], w, n);
  }
}
