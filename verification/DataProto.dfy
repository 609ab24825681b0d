/** The batch protocol: named tensor and object columns whose rows must stay aligned. */
module DataProto {
  import opened Common
  import opened Indexing

  /** What one row of a column holds, flattened. */
  type Cell<T> = seq<T>

  type Cells<T> = seq<Cell<T>>

  /** An array: its shape behind the first dimension, and its rows. That shape is empty for one dimension. */
  datatype Column<T> = Column(shape: seq<nat>, cells: Cells<T>)

  type Columns<T> = map<string, Column<T>>

  type Shapes = map<string, seq<nat>>

  function ShapesOf<T>(columns: Columns<T>): Shapes {
    map k | k in columns :: columns[k].shape
  }

  ghost predicate Shaped<T>(c: Column<T>, size: nat) {
    |c.cells| == size && forall i :: 0 <= i < size ==> |c.cells[i]| == Numel(c.shape)
  }

  ghost predicate AllShaped<T>(columns: Columns<T>, size: nat) {
    forall k :: k in columns ==> Shaped(columns[k], size)
  }

  /**
   * `size` is the length of the batch; `tensors` is absent when there is no tensor batch.
   * The length of a batch without columns of either kind means nothing.
   */
  datatype Batch<T> = Batch(size: nat, tensors: Option<Columns<T>>, objects: Columns<T>) {
    ghost predicate Valid() {
      (tensors.Some? ==> AllShaped(tensors.value, size)) && AllShaped(objects, size)
    }

    predicate Bare() {
      tensors.None? && objects.Keys == {}
    }
  }

  datatype Row<T> = Row(tensors: Option<map<string, Cell<T>>>, objects: map<string, Cell<T>>)

  datatype Schema = Schema(tensors: Option<Shapes>, objects: Shapes)

  function SchemaOf<T>(d: Batch<T>): Schema {
    Schema(if d.tensors.Some? then Some(ShapesOf(d.tensors.value)) else None, ShapesOf(d.objects))
  }

  /** The names and shapes of the columns of a consistent batch; nothing when some column has another length. */
  ghost function Shape<T>(d: Batch<T>): Option<Schema> {
    if d.Valid() then Some(SchemaOf(d)) else None
  }

  ghost function RowAt<T>(columns: Columns<T>, i: nat): map<string, Cell<T>>
    requires forall k :: k in columns ==> i < |columns[k].cells|
  {
    map k | k in columns :: columns[k].cells[i]
  }

  /** Row `i` across all columns of both kinds. */
  ghost function RowOf<T>(d: Batch<T>, i: nat): Row<T>
    requires d.Valid() && i < d.size
  {
    Row(if d.tensors.Some? then Some(RowAt(d.tensors.value, i)) else None, RowAt(d.objects, i))
  }

  /** A batch seen row by row. */
  ghost function Rows<T>(d: Batch<T>): (rows: seq<Row<T>>)
    ensures d.Valid() ==> |rows| == d.size
  {
    if d.Valid() then seq(d.size, i requires 0 <= i < d.size => RowOf(d, i)) else []
  }

  ghost function Pick<R>(rows: seq<R>, source: seq<nat>): seq<R>
    requires forall i :: 0 <= i < |source| ==> source[i] < |rows|
  {
    seq(|source|, i requires 0 <= i < |source| => rows[source[i]])
  }

  // ----- operations that treat every column alike

  function MapColumns<T>(columns: Columns<T>, f: Cells<T> -> Cells<T>): Columns<T> {
    map k | k in columns :: Column(columns[k].shape, f(columns[k].cells))
  }

  /** `f` acts on tensor columns, `g` on object columns. */
  function Lift<T>(d: Batch<T>, size: nat, f: Cells<T> -> Cells<T>, g: Cells<T> -> Cells<T>): Batch<T> {
    Batch(size, if d.tensors.Some? then Some(MapColumns(d.tensors.value, f)) else None, MapColumns(d.objects, g))
  }

  ghost predicate Gathers<T(!new)>(f: Cells<T> -> Cells<T>, n: nat, source: seq<nat>) {
    (forall i :: 0 <= i < |source| ==> source[i] < n) &&
    forall c: Cells<T> :: |c| == n ==>
      |f(c)| == |source| && forall i :: 0 <= i < |source| ==> f(c)[i] == c[source[i]]
  }

  lemma MappedColumns<T(!new)>(columns: Columns<T>, n: nat, source: seq<nat>, f: Cells<T> -> Cells<T>)
    requires AllShaped(columns, n) && Gathers(f, n, source)
    ensures AllShaped(MapColumns(columns, f), |source|) && ShapesOf(MapColumns(columns, f)) == ShapesOf(columns)
    ensures forall i :: 0 <= i < |source| ==> RowAt(MapColumns(columns, f), i) == RowAt(columns, source[i])
  {
    var r := MapColumns(columns, f);
    forall k | k in columns
      ensures Shaped(r[k], |source|)
    {
      assert Shaped(columns[k], n);
    }
    forall i | 0 <= i < |source|
      ensures RowAt(r, i) == RowAt(columns, source[i])
    {
    }
  }

  /** When both kinds of column are gathered from the same source rows, whole rows are. */
  lemma LiftRows<T(!new)>(d: Batch<T>, source: seq<nat>, f: Cells<T> -> Cells<T>, g: Cells<T> -> Cells<T>)
    requires Shape(d).Some? && Gathers(f, d.size, source) && Gathers(g, d.size, source)
    ensures Shape(Lift(d, |source|, f, g)) == Shape(d)
    ensures Rows(Lift(d, |source|, f, g)) == Pick(Rows(d), source)
  {
    if d.tensors.Some? {
      MappedColumns(d.tensors.value, d.size, source, f);
    }
    MappedColumns(d.objects, d.size, source, g);
    forall i | 0 <= i < |source|
      ensures Rows(Lift(d, |source|, f, g))[i] == Rows(d)[source[i]]
    {
    }
  }

  // ----- slice, select and reorder

  /** `c[lo:hi]` with Python's clamping of bounds past the end. */
  function SliceColumn<T>(lo: nat, hi: nat): Cells<T> -> Cells<T> {
    (c: Cells<T>) =>
      var b := if hi <= |c| then hi else |c|;
      var a := if lo <= b then lo else b;
      c[a..b]
  }

  function Range(lo: nat, hi: nat): seq<nat>
    requires lo <= hi
  {
    seq(hi - lo, i requires 0 <= i < hi - lo => lo + i)
  }

  lemma PickRange<R>(rows: seq<R>, lo: nat, hi: nat)
    requires lo <= hi <= |rows|
    ensures Pick(rows, Range(lo, hi)) == rows[lo..hi]
  {
  }

  lemma SliceGathers<T(!new)>(lo: nat, hi: nat, n: nat)
    requires lo <= hi <= n
    ensures Gathers(SliceColumn<T>(lo, hi), n, Range(lo, hi))
  {
    forall c: Cells<T> | |c| == n
      ensures SliceColumn<T>(lo, hi)(c) == c[lo..hi]
    {
    }
  }

  function GatherColumn<T>(idxs: seq<nat>, n: nat): Cells<T> -> Cells<T>
    requires forall i :: 0 <= i < |idxs| ==> idxs[i] < n
  {
    (c: Cells<T>) => if |c| == n then seq(|idxs|, i requires 0 <= i < |idxs| => c[idxs[i]]) else []
  }

  /** The rows `idxs` names, in that order. */
  function Gather<T>(d: Batch<T>, idxs: seq<nat>): Batch<T>
    requires forall i :: 0 <= i < |idxs| ==> idxs[i] < d.size
  {
    Lift(d, |idxs|, GatherColumn(idxs, d.size), GatherColumn(idxs, d.size))
  }

  lemma GatherRows<T(!new)>(d: Batch<T>, idxs: seq<nat>)
    requires Shape(d).Some? && forall i :: 0 <= i < |idxs| ==> idxs[i] < d.size
    ensures var r := Gather(d, idxs);
            r.size == |idxs| && Shape(r) == Shape(d) && Rows(r) == Pick(Rows(d), idxs)
  {
    LiftRows(d, idxs, GatherColumn(idxs, d.size), GatherColumn(idxs, d.size));
  }

  function Slice<T>(d: Batch<T>, lo: nat, hi: nat): Batch<T> {
    var b := if hi <= d.size then hi else d.size;
    var a := if lo <= b then lo else b;
    Gather(d, Range(a, b))
  }

  lemma SliceRows<T(!new)>(d: Batch<T>, lo: nat, hi: nat)
    requires Shape(d).Some? && lo <= hi <= d.size
    ensures var r := Slice(d, lo, hi);
            r.size == hi - lo && Shape(r) == Shape(d) && Rows(r) == Rows(d)[lo..hi]
  {
    GatherRows(d, Range(lo, hi));
    PickRange(Rows(d), lo, hi);
  }

  /** `select_idxs`, and `reorder` in place: an index outside, or a mask of another length, raises. */
  function Select<T>(d: Batch<T>, selector: Selector): Option<Batch<T>> {
    if d.Bare() then Some(d)
    else
      var idxs :- Selected(selector, d.size);
      Some(Gather(d, idxs))
  }

  /** Selection by a list with negative indices, or by a mask, takes the same rows of every column. */
  lemma SelectRows<T(!new)>(d: Batch<T>, selector: Selector)
    requires Shape(d).Some? && !d.Bare()
    ensures Select(d, selector).Some? <==>
              if selector.Mask? then |selector.keep| == d.size else InRange(selector.idxs, d.size)
    ensures Select(d, selector).Some? ==>
              var r := Select(d, selector).value;
              Shape(r) == Shape(d) && Rows(r) == Pick(Rows(d), Selected(selector, d.size).value)
  {
    if Select(d, selector).Some? {
      GatherRows(d, Selected(selector, d.size).value);
    }
  }

  /** Row `i` of a selection by indices is the row that index `i` names, counted from the end when it is negative. */
  lemma SelectPositions<T(!new)>(d: Batch<T>, idxs: seq<int>, i: nat)
    requires Shape(d).Some? && !d.Bare() && InRange(idxs, d.size) && i < |idxs|
    ensures Select(d, Positions(idxs)).Some?
    ensures var rows := Rows(Select(d, Positions(idxs)).value);
            |rows| == |idxs| && rows[i] == Rows(d)[if idxs[i] < 0 then d.size + idxs[i] else idxs[i]]
  {
    SelectRows(d, Positions(idxs));
    PickAt(Rows(Select(d, Positions(idxs)).value), Rows(d), Selected(Positions(idxs), d.size).value, i);
  }

  lemma PickAt<R>(picked: seq<R>, rows: seq<R>, source: seq<nat>, i: nat)
    requires (forall k :: 0 <= k < |source| ==> source[k] < |rows|) && picked == Pick(rows, source) && i < |source|
    ensures |picked| == |source| && picked[i] == rows[source[i]]
  {
  }

  /** A selection by a mask keeps the rows where it holds, in order. */
  lemma SelectMask<T(!new)>(d: Batch<T>, keep: seq<bool>) returns (places: seq<nat>)
    requires Shape(d).Some? && !d.Bare() && |keep| == d.size
    ensures forall p: nat :: p in places <==> p < d.size && keep[p]
    ensures forall i, j :: 0 <= i < j < |places| ==> places[i] < places[j]
    ensures forall i :: 0 <= i < |places| ==> places[i] < d.size
    ensures Select(d, Mask(keep)).Some? && Rows(Select(d, Mask(keep)).value) == Pick(Rows(d), places)
  {
    SelectRows(d, Mask(keep));
    KeptExactly(keep, 0);
    places := Kept(keep, 0);
  }

  /** `data[start:stop:step]`: a step of zero raises, and tensors take no negative step. */
  function SliceBy<T>(d: Batch<T>, start: Option<int>, stop: Option<int>, step: Option<int>): Option<Batch<T>> {
    var stride := if step.Some? then step.value else 1;
    if d.Bare() then Some(d)
    else if stride == 0 || (stride < 0 && d.tensors.Some?) then None
    else Some(Gather(d, SliceIndices(d.size, start, stop, stride)))
  }

  /** A slice takes the same rows of every column, whatever its bounds and step. */
  lemma SliceByRows<T(!new)>(d: Batch<T>, start: Option<int>, stop: Option<int>, step: Option<int>)
    requires Shape(d).Some? && !d.Bare()
    ensures SliceBy(d, start, stop, step) == None <==>
              step == Some(0) || (step.Some? && step.value < 0 && d.tensors.Some?)
    ensures SliceBy(d, start, stop, step).Some? ==>
              var r := SliceBy(d, start, stop, step).value;
              var stride := if step.Some? then step.value else 1;
              Shape(r) == Shape(d) && Rows(r) == Pick(Rows(d), SliceIndices(d.size, start, stop, stride))
  {
    if SliceBy(d, start, stop, step).Some? {
      GatherRows(d, SliceIndices(d.size, start, stop, if step.Some? then step.value else 1));
    }
  }

  /** `data[a:b]`: the rows from `a` to before `b`, where a bound past the end is the end. */
  lemma SliceBetween<T(!new)>(d: Batch<T>, a: nat, b: nat)
    requires Shape(d).Some? && !d.Bare() && a <= b
    ensures SliceBy(d, Some(a), Some(b), None).Some?
    ensures var r := SliceBy(d, Some(a), Some(b), None).value;
            Shape(r) == Shape(d) && Rows(r) == Rows(d)[Min(a, d.size)..Min(b, d.size)]
  {
    SliceIsRange(d, Some(a), Some(b));
    SliceRows(d, Min(a, d.size), Min(b, d.size));
  }

  /** `data[:b]`, and `data[-k:]`: the first rows and the last. */
  lemma SliceEnds<T(!new)>(d: Batch<T>, b: nat, k: nat)
    requires Shape(d).Some? && !d.Bare() && k > 0
    ensures SliceBy(d, None, Some(b), None).Some? && SliceBy(d, Some(-(k as int)), None, None).Some?
    ensures Rows(SliceBy(d, None, Some(b), None).value) == Rows(d)[..Min(b, d.size)]
    ensures Rows(SliceBy(d, Some(-(k as int)), None, None).value) == Rows(d)[Max(0, d.size - k)..]
  {
    SliceIsRange(d, None, Some(b));
    SliceRows(d, 0, Min(b, d.size));
    SliceIsRange(d, Some(-(k as int)), None);
    SliceRows(d, Max(0, d.size - k), d.size);
  }

  /** With its bounds in order and no step, a slice is the run of rows between them. */
  lemma SliceIsRange<T(!new)>(d: Batch<T>, start: Option<int>, stop: Option<int>)
    requires Shape(d).Some? && !d.Bare()
    requires Start(start, d.size, 1) <= Stop(stop, d.size, 1)
    ensures SliceBy(d, start, stop, None) == Some(Slice(d, Start(start, d.size, 1), Stop(stop, d.size, 1)))
  {
    var (lo, hi) := (Start(start, d.size, 1), Stop(stop, d.size, 1));
    var idxs := SliceIndices(d.size, start, stop, 1);
    SliceIndicesExactly(d.size, start, stop, 1, |idxs|);
    SliceIndicesExactly(d.size, start, stop, 1, hi - lo);
    forall i | 0 <= i < |idxs|
      ensures idxs[i] == lo + i
    {
      SliceIndicesExactly(d.size, start, stop, 1, i);
    }
    assert idxs == Range(lo, hi);
  }
}
