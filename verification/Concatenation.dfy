/** Concatenating batches: which parts go together, and what becomes of their rows. */
module Concatenation {
  import opened Common
  import opened DataProto

  ghost predicate Agree<T>(parts: seq<Batch<T>>, schema: Schema) {
    forall p :: 0 <= p < |parts| ==> Shape(parts[p]) == Some(schema)
  }

  ghost function AllRows<T>(parts: seq<Batch<T>>): seq<Row<T>> {
    if parts == [] then [] else AllRows(parts[..|parts| - 1]) + Rows(parts[|parts| - 1])
  }

  // ----- concatenating arrays

  function JoinCells<T>(cs: seq<Column<T>>): Cells<T> {
    if cs == [] then [] else JoinCells(cs[..|cs| - 1]) + cs[|cs| - 1].cells
  }

  /** `torch.cat` passes over one-dimensional arrays without elements, whatever the others' shape. */
  predicate PassedOver<T>(c: Column<T>) {
    c.shape == [] && c.cells == []
  }

  /** The shape behind the first dimension that the result of `torch.cat` has. */
  function CatShape<T>(cs: seq<Column<T>>): seq<nat> {
    if cs == [] then []
    else if PassedOver(cs[|cs| - 1]) then CatShape(cs[..|cs| - 1])
    else cs[|cs| - 1].shape
  }

  function TorchCat<T>(cs: seq<Column<T>>): Option<Column<T>> {
    if forall i :: 0 <= i < |cs| ==> PassedOver(cs[i]) || cs[i].shape == CatShape(cs)
    then Some(Column(CatShape(cs), JoinCells(cs))) else None
  }

  /** `np.concatenate` compares all shapes and takes no empty list. */
  function NumpyCat<T>(cs: seq<Column<T>>): Option<Column<T>> {
    if cs != [] && forall i :: 0 <= i < |cs| ==> cs[i].shape == cs[0].shape
    then Some(Column(cs[0].shape, JoinCells(cs))) else None
  }

  // ----- concatenating batches

  /** The columns named `k`; a dictionary without one is passed over. */
  function Named<T>(list: seq<Columns<T>>, k: string): seq<Column<T>> {
    if list == [] then []
    else
      var last := list[|list| - 1];
      Named(list[..|list| - 1], k) + if k in last then [last[k]] else []
  }

  function ObjectsOf<T>(parts: seq<Batch<T>>): seq<Columns<T>> {
    seq(|parts|, p requires 0 <= p < |parts| => parts[p].objects)
  }

  function TensorsOf<T>(parts: seq<Batch<T>>): seq<Columns<T>>
    requires forall p :: 0 <= p < |parts| ==> parts[p].tensors.Some?
  {
    seq(|parts|, p requires 0 <= p < |parts| => parts[p].tensors.value)
  }

  function CatEach<T>(names: set<string>, cat: string -> Option<Column<T>>): Option<Columns<T>> {
    if forall k :: k in names ==> cat(k).Some? then Some(map k | k in names :: cat(k).value) else None
  }

  predicate SameTensors<T>(first: Batch<T>, part: Batch<T>) {
    first.tensors.Some? ==> part.tensors.Some? && part.tensors.value.Keys == first.tensors.value.Keys
  }

  /** The tensor batches: all of them or none, with the same names. */
  function CatTensors<T>(parts: seq<Batch<T>>): Option<Option<Columns<T>>>
    requires parts != []
  {
    if parts[0].tensors == None then Some(None)
    else if forall p :: 0 <= p < |parts| ==> SameTensors(parts[0], parts[p]) then
      var tensors :- CatEach(parts[0].tensors.value.Keys, k => TorchCat(Named(TensorsOf(parts), k)));
      Some(Some(tensors))
    else None
  }

  /** The first dictionary fixes the names: another one raises, a missing one is passed over. */
  function CatObjects<T>(parts: seq<Batch<T>>): Option<Columns<T>>
    requires parts != []
  {
    if forall p :: 0 <= p < |parts| ==> parts[p].objects.Keys <= parts[0].objects.Keys
    then CatEach(parts[0].objects.Keys, k => NumpyCat(Named(ObjectsOf(parts), k)))
    else None
  }

  predicate Aligned<T>(d: Batch<T>) {
    forall k :: k in d.objects ==> |d.objects[k].cells| == d.size
  }

  /** The consistency check compares object columns with the tensor batch, when there is one. */
  function Checked<T>(d: Batch<T>): Option<Batch<T>> {
    if d.tensors.Some? && !Aligned(d) then None else Some(d)
  }

  /**
   * What a part contributes: its tensors only when the first part has some, and no row when no column is left.
   * Of the first part only the names of its columns matter.
   */
  function Contribution<T>(first: Schema, part: Batch<T>): Batch<T> {
    if first.tensors.Some? then part
    else Batch(if part.objects.Keys == {} != first.objects.Keys then 0 else part.size, None, part.objects)
  }

  function TotalSize<T>(first: Schema, parts: seq<Batch<T>>): nat {
    if parts == [] then 0
    else TotalSize(first, parts[..|parts| - 1]) + Contribution(first, parts[|parts| - 1]).size
  }

  predicate SameLengths<T>(columns: Columns<T>) {
    forall k, j :: k in columns && j in columns ==> |columns[k].cells| == |columns[j].cells|
  }

  /** The length of all columns, when they have one length. */
  function CommonLength<T>(columns: Columns<T>): (r: Option<nat>)
    ensures r.Some? ==> columns.Keys != {} && forall k :: k in columns ==> |columns[k].cells| == r.value
    ensures r.None? ==> columns.Keys == {} || !SameLengths(columns)
  {
    var lengths := set k | k in columns :: |columns[k].cells|;
    assert forall k :: k in columns ==> |columns[k].cells| in lengths;
    if columns.Keys != {} && forall m, n :: m in lengths && n in lengths ==> m == n then
      assert exists n :: n in lengths by {
        var k :| k in columns.Keys;
        assert |columns[k].cells| in lengths;
      }
      var n :| n in lengths;
      Some(n)
    else None
  }

  /** With tensors the batch has their length, otherwise that of its object columns, when they agree on one. */
  function LengthOf<T>(tensors: Option<Columns<T>>, objects: Columns<T>, total: nat): nat {
    if tensors.None? && CommonLength(objects).Some? then CommonLength(objects).value else total
  }

  function Concat<T>(parts: seq<Batch<T>>): Option<Batch<T>> {
    if parts == [] then None
    else
      var tensors :- CatTensors(parts);
      var objects :- CatObjects(parts);
      Checked(Batch(LengthOf(tensors, objects, TotalSize(SchemaOf(parts[0]), parts)), tensors, objects))
  }

  // ----- appending columns

  function CellsOf<T>(columns: Columns<T>, k: string): Cells<T> {
    if k in columns then columns[k].cells else []
  }

  function JoinedCells<T>(list: seq<Columns<T>>, k: string): Cells<T> {
    if list == [] then [] else JoinedCells(list[..|list| - 1], k) + CellsOf(list[|list| - 1], k)
  }

  lemma {:induction false} NamedCells<T>(list: seq<Columns<T>>, k: string)
    ensures JoinCells(Named(list, k)) == JoinedCells(list, k)
    decreases |list|
  {
    if list == [] {
    } else {
      var init, last := list[..|list| - 1], list[|list| - 1];
      NamedCells(init, k);
      if k in last {
        assert Named(list, k)[..|Named(list, k)| - 1] == Named(init, k);
      } else {
        assert Named(list, k) == Named(init, k);
      }
    }
  }

  /** The columns under given names and shapes. */
  function Filled<T>(shapes: Shapes, columns: Columns<T>): Columns<T> {
    map k | k in shapes :: Column(shapes[k], CellsOf(columns, k))
  }

  function Joined<T>(shapes: Shapes, list: seq<Columns<T>>): Columns<T> {
    map k | k in shapes :: Column(shapes[k], JoinedCells(list, k))
  }

  function Append<T>(a: Columns<T>, b: Columns<T>): Columns<T>
    requires ShapesOf(a) == ShapesOf(b)
  {
    map k | k in ShapesOf(a) :: Column(a[k].shape, a[k].cells + b[k].cells)
  }

  lemma JoinedSnoc<T>(shapes: Shapes, list: seq<Columns<T>>)
    requires list != []
    ensures var (a, b) := (Joined(shapes, list[..|list| - 1]), Filled(shapes, list[|list| - 1]));
            ShapesOf(a) == ShapesOf(b) == shapes && Joined(shapes, list) == Append(a, b)
  {
    var (a, b) := (Joined(shapes, list[..|list| - 1]), Filled(shapes, list[|list| - 1]));
    assert ShapesOf(a) == shapes && ShapesOf(b) == shapes;
    assert Joined(shapes, list) == Append(a, b);
  }

  lemma AppendShaped<T>(a: Columns<T>, b: Columns<T>, m: nat, n: nat)
    requires AllShaped(a, m) && AllShaped(b, n) && ShapesOf(a) == ShapesOf(b)
    ensures AllShaped(Append(a, b), m + n) && ShapesOf(Append(a, b)) == ShapesOf(a)
  {
    var r := Append(a, b);
    assert ShapesOf(r) == ShapesOf(a);
    forall k | k in r
      ensures Shaped(r[k], m + n)
    {
      assert k in ShapesOf(a) && k in ShapesOf(b) && Shaped(a[k], m) && Shaped(b[k], n);
      assert b[k].shape == ShapesOf(b)[k] == ShapesOf(a)[k] == a[k].shape;
    }
  }

  lemma AppendRow<T>(a: Columns<T>, b: Columns<T>, m: nat, n: nat, i: nat)
    requires AllShaped(a, m) && AllShaped(b, n) && ShapesOf(a) == ShapesOf(b) && i < m + n
    requires AllShaped(Append(a, b), m + n)
    ensures RowAt(Append(a, b), i) == if i < m then RowAt(a, i) else RowAt(b, i - m)
  {
    var r := Append(a, b);
    assert a.Keys == ShapesOf(a).Keys && b.Keys == ShapesOf(b).Keys && r.Keys == a.Keys;
    forall k | k in r
      ensures r[k].cells[i] == if i < m then a[k].cells[i] else b[k].cells[i - m]
    {
      assert Shaped(a[k], m) && Shaped(b[k], n);
    }
  }

  /** Batch `r` has the columns of `a` with those of `b` appended. */
  ghost predicate Appends<T>(a: Batch<T>, b: Batch<T>, r: Batch<T>) {
    && SchemaOf(a) == SchemaOf(b) && r.size == a.size + b.size && r.objects == Append(a.objects, b.objects)
    && (if a.tensors.Some? then r.tensors == Some(Append(a.tensors.value, b.tensors.value)) else r.tensors == None)
  }

  lemma AppendsShape<T>(a: Batch<T>, b: Batch<T>, r: Batch<T>)
    requires a.Valid() && b.Valid() && Appends(a, b, r)
    ensures r.Valid() && SchemaOf(r) == SchemaOf(a)
  {
    AppendShaped(a.objects, b.objects, a.size, b.size);
    if a.tensors.Some? {
      AppendShaped(a.tensors.value, b.tensors.value, a.size, b.size);
    }
  }

  lemma AppendsRow<T>(a: Batch<T>, b: Batch<T>, r: Batch<T>, i: nat)
    requires a.Valid() && b.Valid() && r.Valid() && Appends(a, b, r) && i < r.size
    ensures RowOf(r, i) == if i < a.size then RowOf(a, i) else RowOf(b, i - a.size)
  {
    AppendRow(a.objects, b.objects, a.size, b.size, i);
    if a.tensors.Some? {
      AppendRow(a.tensors.value, b.tensors.value, a.size, b.size, i);
    }
  }

  lemma AppendsRows<T>(a: Batch<T>, b: Batch<T>, r: Batch<T>)
    requires a.Valid() && b.Valid() && Appends(a, b, r)
    ensures Shape(r) == Shape(a) && Rows(r) == Rows(a) + Rows(b)
  {
    AppendsShape(a, b, r);
    var (rows, both) := (Rows(r), Rows(a) + Rows(b));
    forall i | 0 <= i < r.size
      ensures rows[i] == both[i]
    {
      AppendsRow(a, b, r, i);
    }
    assert rows == both;
  }

  // ----- filling a part's columns up

  /** The part's columns are among the given ones, and have their shapes. */
  predicate Fits<T>(target: Schema, part: Batch<T>) {
    && (target.tensors.Some? ==> part.tensors.Some? && FitsTensors(target.tensors.value, part.tensors.value))
    && FitsObjects(target.objects, part.objects)
  }

  predicate FitsTensors<T>(shapes: Shapes, columns: Columns<T>) {
    columns.Keys == shapes.Keys && forall k :: k in columns ==> PassedOver(columns[k]) || columns[k].shape == shapes[k]
  }

  predicate FitsObjects<T>(shapes: Shapes, columns: Columns<T>) {
    forall k :: k in columns ==> k in shapes && columns[k].shape == shapes[k]
  }

  /** A part that contributes rows lacks no object column of the first. */
  predicate Complete<T>(first: Schema, part: Batch<T>) {
    Contribution(first, part).size > 0 ==> part.objects.Keys == first.objects.Keys
  }

  lemma FilledColumns<T>(shapes: Shapes, columns: Columns<T>, size: nat)
    requires AllShaped(columns, size) && (size > 0 ==> columns.Keys == shapes.Keys)
    requires size > 0 ==> forall k :: k in columns ==> columns[k].shape == shapes[k]
    requires columns.Keys <= shapes.Keys
    ensures AllShaped(Filled(shapes, columns), size) && ShapesOf(Filled(shapes, columns)) == shapes
    ensures size > 0 ==> Filled(shapes, columns) == columns
  {
    var r := Filled(shapes, columns);
    forall k | k in r
      ensures Shaped(r[k], size)
    {
      assert k in columns ==> Shaped(columns[k], size);
    }
    if size > 0 {
      forall k | k in shapes
        ensures r[k] == columns[k]
      {
        assert Shaped(columns[k], size);
      }
      assert r == columns;
    }
  }

  function FilledBatch<T>(target: Schema, part: Batch<T>): Batch<T> {
    Batch(Contribution(target, part).size,
          if target.tensors.Some? && part.tensors.Some? then Some(Filled(target.tensors.value, part.tensors.value))
          else None,
          Filled(target.objects, part.objects))
  }

  lemma FilledRows<T>(target: Schema, part: Batch<T>)
    requires Shape(part).Some? && Fits(target, part) && Complete(target, part)
    ensures Shape(FilledBatch(target, part)) == Some(target)
    ensures Rows(FilledBatch(target, part)) == Rows(Contribution(target, part))
  {
    var c := Contribution(target, part);
    if target.tensors.Some? {
      assert forall k :: k in part.tensors.value ==> Shaped(part.tensors.value[k], part.size);
      FilledColumns(target.tensors.value, part.tensors.value, part.size);
    }
    assert AllShaped(c.objects, c.size) by {
      assert part.objects.Keys == {} ==> forall k :: k !in part.objects;
    }
    FilledColumns(target.objects, part.objects, c.size);
  }

  // ----- joining all parts

  function JoinedBatch<T>(target: Schema, parts: seq<Batch<T>>): Batch<T>
    requires AllFit(target, parts)
  {
    Batch(TotalSize(target, parts),
          if target.tensors.Some? then Some(Joined(target.tensors.value, TensorsOf(parts))) else None,
          Joined(target.objects, ObjectsOf(parts)))
  }

  predicate AllFit<T>(target: Schema, parts: seq<Batch<T>>) {
    forall p :: 0 <= p < |parts| ==> Fits(target, parts[p])
  }

  predicate AllComplete<T>(first: Schema, parts: seq<Batch<T>>) {
    forall p :: 0 <= p < |parts| ==> Complete(first, parts[p])
  }

  ghost predicate AllValid<T>(parts: seq<Batch<T>>) {
    forall p :: 0 <= p < |parts| ==> Shape(parts[p]).Some?
  }

  function Contributions<T>(first: Schema, parts: seq<Batch<T>>): seq<Batch<T>> {
    seq(|parts|, p requires 0 <= p < |parts| => Contribution(first, parts[p]))
  }

  lemma JoinedAppends<T>(target: Schema, parts: seq<Batch<T>>)
    requires parts != [] && AllFit(target, parts)
    ensures Appends(JoinedBatch(target, parts[..|parts| - 1]), FilledBatch(target, parts[|parts| - 1]),
                    JoinedBatch(target, parts))
  {
    var n := |parts| - 1;
    assert ObjectsOf(parts)[..n] == ObjectsOf(parts[..n]);
    JoinedSnoc(target.objects, ObjectsOf(parts));
    if target.tensors.Some? {
      assert TensorsOf(parts)[..n] == TensorsOf(parts[..n]);
      JoinedSnoc(target.tensors.value, TensorsOf(parts));
    }
  }

  lemma JoinedNothing<T>(target: Schema)
    ensures Shape(JoinedBatch<T>(target, [])) == Some(target) && Rows(JoinedBatch<T>(target, [])) == []
  {
    var r := JoinedBatch<T>(target, []);
    assert ShapesOf(r.objects) == target.objects;
    assert target.tensors.Some? ==> ShapesOf(r.tensors.value) == target.tensors.value;
  }

  /** One more part appends its rows. */
  lemma JoinedStep<T>(target: Schema, parts: seq<Batch<T>>)
    requires parts != [] && AllFit(target, parts)
    requires Shape(parts[|parts| - 1]).Some? && Complete(target, parts[|parts| - 1])
    requires Shape(JoinedBatch(target, parts[..|parts| - 1])) == Some(target)
    ensures Shape(JoinedBatch(target, parts)) == Some(target)
    ensures Rows(JoinedBatch(target, parts)) ==
            Rows(JoinedBatch(target, parts[..|parts| - 1])) + Rows(Contribution(target, parts[|parts| - 1]))
  {
    var n := |parts| - 1;
    FilledRows(target, parts[n]);
    JoinedAppends(target, parts);
    AppendsRows(JoinedBatch(target, parts[..n]), FilledBatch(target, parts[n]), JoinedBatch(target, parts));
  }

  lemma AllRowsSnoc<T>(first: Schema, parts: seq<Batch<T>>)
    requires parts != []
    ensures AllRows(Contributions(first, parts)) ==
            AllRows(Contributions(first, parts[..|parts| - 1])) + Rows(Contribution(first, parts[|parts| - 1]))
  {
    assert Contributions(first, parts)[..|parts| - 1] == Contributions(first, parts[..|parts| - 1]);
  }

  lemma {:induction false} JoinedRows<T>(target: Schema, parts: seq<Batch<T>>)
    requires AllValid(parts) && AllFit(target, parts) && AllComplete(target, parts)
    ensures Shape(JoinedBatch(target, parts)) == Some(target)
    ensures Rows(JoinedBatch(target, parts)) == AllRows(Contributions(target, parts))
    decreases |parts|
  {
    if parts == [] {
      JoinedNothing<T>(target);
    } else {
      JoinedRows(target, parts[..|parts| - 1]);
      JoinedStep(target, parts);
      AllRowsSnoc(target, parts);
    }
  }

  predicate Provides<T>(first: Schema, part: Batch<T>, k: string) {
    Contribution(first, part).size > 0 ==> k in part.objects
  }

  /** A column is as long as the batch exactly when no part that contributes rows lacks it. */
  lemma {:induction false} JoinedLength<T>(target: Schema, parts: seq<Batch<T>>, k: string)
    requires AllValid(parts) && k in target.objects
    ensures |JoinedCells(ObjectsOf(parts), k)| <= TotalSize(target, parts)
    ensures |JoinedCells(ObjectsOf(parts), k)| == TotalSize(target, parts) <==>
              forall p :: 0 <= p < |parts| ==> Provides(target, parts[p], k)
    decreases |parts|
  {
    if parts == [] {
    } else {
      JoinedLength(target, parts[..|parts| - 1], k);
      JoinedLengthStep(target, parts, k);
    }
  }

  lemma JoinedLengthStep<T>(target: Schema, parts: seq<Batch<T>>, k: string)
    requires parts != [] && Shape(parts[|parts| - 1]).Some? && k in target.objects
    ensures var (n, part) := (|parts| - 1, parts[|parts| - 1]);
      && TotalSize(target, parts) == TotalSize(target, parts[..n]) + Contribution(target, part).size
      && |JoinedCells(ObjectsOf(parts), k)| == |JoinedCells(ObjectsOf(parts[..n]), k)| +
           if k in part.objects then Contribution(target, part).size else 0
  {
    var n := |parts| - 1;
    assert ObjectsOf(parts)[..n] == ObjectsOf(parts[..n]);
    PartLength(target, parts[n], k);
  }

  lemma PartLength<T>(target: Schema, part: Batch<T>, k: string)
    requires Shape(part).Some? && k in target.objects
    ensures |CellsOf(part.objects, k)| == if k in part.objects then Contribution(target, part).size else 0
  {
    assert k in part.objects ==> Shaped(part.objects[k], part.size) && k in part.objects.Keys;
  }

  lemma JoinedAligned<T>(target: Schema, parts: seq<Batch<T>>)
    requires AllValid(parts) && AllFit(target, parts) && Aligned(JoinedBatch(target, parts))
    ensures AllComplete(target, parts)
  {
    var r := JoinedBatch(target, parts);
    forall p | 0 <= p < |parts| && Contribution(target, parts[p]).size > 0
      ensures parts[p].objects.Keys == target.objects.Keys
    {
      assert Fits(target, parts[p]);
      forall k | k in target.objects
        ensures k in parts[p].objects
      {
        JoinedLength(target, parts, k);
        assert Provides(target, parts[p], k) <== |JoinedCells(ObjectsOf(parts), k)| == TotalSize(target, parts);
        assert k in r.objects && r.objects[k].cells == JoinedCells(ObjectsOf(parts), k);
      }
    }
  }

  lemma ShapedAligned<T>(d: Batch<T>)
    requires d.Valid()
    ensures Aligned(d)
  {
    assert forall k :: k in d.objects ==> Shaped(d.objects[k], d.size);
  }

  lemma JoinedShape<T>(target: Schema, parts: seq<Batch<T>>)
    requires AllValid(parts) && AllFit(target, parts)
    ensures Aligned(JoinedBatch(target, parts)) <==> AllComplete(target, parts)
    ensures Shape(JoinedBatch(target, parts)).Some? <==> AllComplete(target, parts)
    ensures AllComplete(target, parts) ==>
              Shape(JoinedBatch(target, parts)) == Some(target) &&
              Rows(JoinedBatch(target, parts)) == AllRows(Contributions(target, parts))
  {
    if AllComplete(target, parts) {
      JoinedRows(target, parts);
      ShapedAligned(JoinedBatch(target, parts));
    } else if Aligned(JoinedBatch(target, parts)) {
      JoinedAligned(target, parts);
    } else if JoinedBatch(target, parts).Valid() {
      ShapedAligned(JoinedBatch(target, parts));
    }
  }

  // ----- when the arrays go together

  lemma {:induction false} CatShapeFound<T>(cs: seq<Column<T>>)
    ensures (exists j :: 0 <= j < |cs| && !PassedOver(cs[j]) && CatShape(cs) == cs[j].shape) ||
            (CatShape(cs) == [] && forall j :: 0 <= j < |cs| ==> PassedOver(cs[j]))
    decreases |cs|
  {
    if cs == [] {
    } else {
      var n := |cs| - 1;
      CatShapeFound(cs[..n]);
      if PassedOver(cs[n]) {
        assert forall j :: 0 <= j < n ==> cs[..n][j] == cs[j];
      }
    }
  }

  ghost predicate Compatible<T>(a: Column<T>, b: Column<T>) {
    PassedOver(a) || PassedOver(b) || a.shape == b.shape
  }

  /** `torch.cat` takes arrays that agree in pairs. */
  lemma TorchCatExactly<T>(cs: seq<Column<T>>)
    ensures TorchCat(cs).Some? <==> forall i, j :: 0 <= i < |cs| && 0 <= j < |cs| ==> Compatible(cs[i], cs[j])
  {
    CatShapeFound(cs);
    if exists j :: 0 <= j < |cs| && !PassedOver(cs[j]) && CatShape(cs) == cs[j].shape {
      var j :| 0 <= j < |cs| && !PassedOver(cs[j]) && CatShape(cs) == cs[j].shape;
      assert forall i :: 0 <= i < |cs| && Compatible(cs[i], cs[j]) ==> PassedOver(cs[i]) || cs[i].shape == CatShape(cs);
    }
  }

  /** The columns named `k` have a shape exactly when those in the dictionaries have. */
  lemma {:induction false} NamedShapes<T>(list: seq<Columns<T>>, k: string, shape: seq<nat>)
    ensures (forall i :: 0 <= i < |Named(list, k)| ==> Named(list, k)[i].shape == shape) <==>
              forall p :: 0 <= p < |list| && k in list[p] ==> list[p][k].shape == shape
    decreases |list|
  {
    if list == [] {
    } else {
      var n := |list| - 1;
      var init := Named(list[..n], k);
      NamedShapes(list[..n], k, shape);
      if k in list[n] {
        assert Named(list, k) == init + [list[n][k]];
        AllAndLast(init, list[n][k], shape);
      } else {
        assert Named(list, k) == init;
      }
    }
  }

  lemma AllAndLast<T>(init: seq<Column<T>>, last: Column<T>, shape: seq<nat>)
    ensures var all := init + [last];
            (forall i :: 0 <= i < |all| ==> all[i].shape == shape) <==>
              (forall i :: 0 <= i < |init| ==> init[i].shape == shape) && last.shape == shape
  {
    var all := init + [last];
    assert all[|init|] == last && forall i :: 0 <= i < |init| ==> all[i] == init[i];
  }

  lemma {:induction false} NamedFirst<T>(list: seq<Columns<T>>, k: string)
    requires list != [] && k in list[0]
    ensures Named(list, k) != [] && Named(list, k)[0] == list[0][k]
    decreases |list|
  {
    if |list| == 1 {
      assert Named(list[..0], k) == [];
    } else {
      NamedFirst(list[..|list| - 1], k);
    }
  }

  /** Under every name, any two parts' tensors agree. */
  ghost predicate TensorsMatch<T>(parts: seq<Batch<T>>)
    requires forall p :: 0 <= p < |parts| ==> parts[p].tensors.Some?
  {
    forall p, q :: 0 <= p < |parts| && 0 <= q < |parts| ==>
      ColumnsMatch(parts[p].tensors.value, parts[q].tensors.value)
  }

  ghost predicate ColumnsMatch<T>(a: Columns<T>, b: Columns<T>) {
    forall k :: k in a && k in b ==> Compatible(a[k], b[k])
  }

  /** Under every name, the others' object arrays have the first part's shape. */
  ghost predicate ObjectsMatch<T>(parts: seq<Batch<T>>)
    requires parts != []
  {
    forall p :: 0 <= p < |parts| ==> SameShapes(parts[p].objects, parts[0].objects)
  }

  ghost predicate SameShapes<T>(a: Columns<T>, b: Columns<T>) {
    forall k :: k in a && k in b ==> a[k].shape == b[k].shape
  }

  /** The part's names are ones the first has: all its tensors', and some of its objects'. */
  predicate Joins<T>(first: Batch<T>, part: Batch<T>) {
    SameTensors(first, part) && part.objects.Keys <= first.objects.Keys
  }

  predicate AllJoin<T>(parts: seq<Batch<T>>) {
    forall p :: 0 <= p < |parts| ==> Joins(parts[0], parts[p])
  }

  /** The names and shapes of the result. */
  function Target<T>(parts: seq<Batch<T>>): Schema
    requires parts != [] && AllJoin(parts)
  {
    Schema(if parts[0].tensors.Some?
           then Some(map k | k in parts[0].tensors.value :: CatShape(Named(TensorsOf(parts), k))) else None,
           ShapesOf(parts[0].objects))
  }

  /** When every dictionary has the name, all their columns are listed. */
  lemma {:induction false} NamedAll<T>(list: seq<Columns<T>>, k: string)
    requires forall p :: 0 <= p < |list| ==> k in list[p]
    ensures |Named(list, k)| == |list| && forall p :: 0 <= p < |list| ==> Named(list, k)[p] == list[p][k]
    decreases |list|
  {
    if list == [] {
    } else {
      NamedAll(list[..|list| - 1], k);
    }
  }

  lemma TensorListed<T>(parts: seq<Batch<T>>, k: string)
    requires parts != [] && AllJoin(parts) && parts[0].tensors.Some? && k in parts[0].tensors.value
    ensures forall p :: 0 <= p < |parts| ==> k in parts[p].tensors.value
    ensures var cs := Named(TensorsOf(parts), k);
            |cs| == |parts| && forall p :: 0 <= p < |parts| ==> cs[p] == parts[p].tensors.value[k]
  {
    forall p | 0 <= p < |parts|
      ensures k in TensorsOf(parts)[p]
    {
      assert Joins(parts[0], parts[p]) && k in parts[0].tensors.value.Keys;
    }
    NamedAll(TensorsOf(parts), k);
    assert forall p :: 0 <= p < |parts| ==> TensorsOf(parts)[p] == parts[p].tensors.value;
  }

  lemma TensorsCatMatch<T>(parts: seq<Batch<T>>)
    requires parts != [] && AllJoin(parts) && parts[0].tensors.Some? && CatTensors(parts).Some?
    ensures TensorsMatch(parts)
  {
    forall p, q | 0 <= p < |parts| && 0 <= q < |parts|
      ensures ColumnsMatch(parts[p].tensors.value, parts[q].tensors.value)
    {
      assert Joins(parts[0], parts[p]) && Joins(parts[0], parts[q]);
      forall k | k in parts[p].tensors.value.Keys
        ensures Compatible(parts[p].tensors.value[k], parts[q].tensors.value[k])
      {
        TensorCats(parts, k, p, q);
      }
    }
  }

  lemma TensorsMatchCat<T>(parts: seq<Batch<T>>, k: string)
    requires parts != [] && AllJoin(parts) && parts[0].tensors.Some? && TensorsMatch(parts)
    requires k in parts[0].tensors.value
    ensures TorchCat(Named(TensorsOf(parts), k)).Some?
  {
    TensorListed(parts, k);
    var cs := Named(TensorsOf(parts), k);
    forall p, q | 0 <= p < |cs| && 0 <= q < |cs|
      ensures Compatible(cs[p], cs[q])
    {
      assert ColumnsMatch(parts[p].tensors.value, parts[q].tensors.value);
    }
    TorchCatExactly(cs);
  }

  lemma TensorsFit<T>(parts: seq<Batch<T>>, p: nat)
    requires parts != [] && AllJoin(parts) && parts[0].tensors.Some? && CatTensors(parts).Some? && p < |parts|
    ensures FitsTensors(Target(parts).tensors.value, parts[p].tensors.value)
  {
    assert Joins(parts[0], parts[p]);
    forall k | k in parts[0].tensors.value.Keys
      ensures var c := parts[p].tensors.value[k]; PassedOver(c) || c.shape == Target(parts).tensors.value[k]
    {
      TensorListed(parts, k);
      assert TorchCat(Named(TensorsOf(parts), k)).Some?;
    }
  }

  lemma TensorsJoined<T>(parts: seq<Batch<T>>)
    requires parts != [] && AllJoin(parts) && parts[0].tensors.Some? && CatTensors(parts).Some?
    ensures CatTensors(parts).value == Some(Joined(Target(parts).tensors.value, TensorsOf(parts)))
  {
    forall k | k in parts[0].tensors.value
      ensures CatTensors(parts).value.value[k] == Joined(Target(parts).tensors.value, TensorsOf(parts))[k]
    {
      NamedCells(TensorsOf(parts), k);
      assert TorchCat(Named(TensorsOf(parts), k)).Some?;
    }
    assert CatTensors(parts).value.value == Joined(Target(parts).tensors.value, TensorsOf(parts));
  }

  lemma TensorsCatExactly<T>(parts: seq<Batch<T>>)
    requires parts != [] && AllJoin(parts) && parts[0].tensors.Some?
    ensures CatTensors(parts).Some? <==> TensorsMatch(parts)
  {
    assert forall p :: 0 <= p < |parts| ==> Joins(parts[0], parts[p]);
    if TensorsMatch(parts) {
      forall k | k in parts[0].tensors.value
        ensures TorchCat(Named(TensorsOf(parts), k)).Some?
      {
        TensorsMatchCat(parts, k);
      }
    } else if CatTensors(parts).Some? {
      TensorsCatMatch(parts);
    }
  }

  lemma TensorCats<T>(parts: seq<Batch<T>>, k: string, p: nat, q: nat)
    requires parts != [] && AllJoin(parts) && parts[0].tensors.Some? && k in parts[0].tensors.value
    requires TorchCat(Named(TensorsOf(parts), k)).Some? && p < |parts| && q < |parts|
    ensures k in parts[p].tensors.value && k in parts[q].tensors.value
    ensures Compatible(parts[p].tensors.value[k], parts[q].tensors.value[k])
  {
    TensorListed(parts, k);
    TorchCatExactly(Named(TensorsOf(parts), k));
  }

  /** One name among the objects. */
  lemma ObjectCats<T>(parts: seq<Batch<T>>, k: string)
    requires parts != [] && k in parts[0].objects
    ensures NumpyCat(Named(ObjectsOf(parts), k)).Some? <==>
              forall p :: 0 <= p < |parts| && k in parts[p].objects ==>
                parts[p].objects[k].shape == parts[0].objects[k].shape
    ensures NumpyCat(Named(ObjectsOf(parts), k)).Some? ==>
              NumpyCat(Named(ObjectsOf(parts), k)).value
              == Column(parts[0].objects[k].shape, JoinedCells(ObjectsOf(parts), k))
  {
    var list := ObjectsOf(parts);
    assert list[0] == parts[0].objects;
    NamedFirst(list, k);
    NamedShapes(list, k, parts[0].objects[k].shape);
    NamedCells(list, k);
    assert forall p :: 0 <= p < |parts| ==> list[p] == parts[p].objects;
  }

  lemma ObjectsCatExactly<T>(parts: seq<Batch<T>>)
    requires parts != [] && AllJoin(parts)
    ensures CatObjects(parts).Some? <==> ObjectsMatch(parts)
    ensures CatObjects(parts).Some? ==>
              CatObjects(parts).value == Joined(ShapesOf(parts[0].objects), ObjectsOf(parts))
  {
    assert forall p :: 0 <= p < |parts| ==> Joins(parts[0], parts[p]);
    if ObjectsMatch(parts) {
      forall k | k in parts[0].objects
        ensures NumpyCat(Named(ObjectsOf(parts), k)).Some?
      {
        assert forall p :: 0 <= p < |parts| ==> SameShapes(parts[p].objects, parts[0].objects);
        ObjectCats(parts, k);
      }
    }
    if CatObjects(parts).Some? {
      forall p | 0 <= p < |parts|
        ensures SameShapes(parts[p].objects, parts[0].objects)
      {
        ObjectsSame(parts, p);
      }
      ObjectsJoined(parts);
    }
  }

  lemma ObjectsSame<T>(parts: seq<Batch<T>>, p: nat)
    requires parts != [] && AllJoin(parts) && CatObjects(parts).Some? && p < |parts|
    ensures SameShapes(parts[p].objects, parts[0].objects)
  {
    forall k | k in parts[p].objects && k in parts[0].objects
      ensures parts[p].objects[k].shape == parts[0].objects[k].shape
    {
      assert NumpyCat(Named(ObjectsOf(parts), k)).Some?;
      ObjectCats(parts, k);
    }
  }

  lemma ObjectsJoined<T>(parts: seq<Batch<T>>)
    requires parts != [] && AllJoin(parts) && CatObjects(parts).Some?
    ensures CatObjects(parts).value == Joined(ShapesOf(parts[0].objects), ObjectsOf(parts))
  {
    forall k | k in parts[0].objects
      ensures CatObjects(parts).value[k] == Joined(ShapesOf(parts[0].objects), ObjectsOf(parts))[k]
    {
      assert NumpyCat(Named(ObjectsOf(parts), k)).Some?;
      ObjectCats(parts, k);
    }
    assert CatObjects(parts).value == Joined(ShapesOf(parts[0].objects), ObjectsOf(parts));
  }

  // ----- the exact condition

  /** The names are the first part's, and the shapes agree. */
  ghost predicate Concatenable<T>(parts: seq<Batch<T>>)
    requires parts != []
  {
    AllJoin(parts) && ObjectsMatch(parts) && (parts[0].tensors.Some? ==> TensorsMatch(parts))
  }

  /** The joined columns with the length that the result has. */
  function Measured<T>(d: Batch<T>): Batch<T> {
    d.(size := LengthOf(d.tensors, d.objects, d.size))
  }

  lemma ConcatJoined<T>(parts: seq<Batch<T>>)
    requires parts != [] && Concatenable(parts)
    ensures AllFit(Target(parts), parts) && Concat(parts) == Checked(Measured(JoinedBatch(Target(parts), parts)))
  {
    ObjectsCatExactly(parts);
    if parts[0].tensors.Some? {
      TensorsCatExactly(parts);
      TensorsJoined(parts);
    }
    forall p | 0 <= p < |parts|
      ensures Fits(Target(parts), parts[p])
    {
      if parts[0].tensors.Some? {
        TensorsFit(parts, p);
      }
      assert Joins(parts[0], parts[p]) && SameShapes(parts[p].objects, parts[0].objects);
    }
    SameSizes(parts);
  }

  lemma MeasuredValid<T>(d: Batch<T>)
    requires d.Valid()
    ensures Measured(d) == d
  {
    forall k | k in d.objects
      ensures |d.objects[k].cells| == d.size
    {
      assert Shaped(d.objects[k], d.size);
    }
  }

  lemma {:induction false} AllRowsCount<T>(first: Schema, parts: seq<Batch<T>>)
    requires AllValid(parts)
    ensures |AllRows(Contributions(first, parts))| == TotalSize(first, parts)
    decreases |parts|
  {
    if parts == [] {
    } else {
      var n := |parts| - 1;
      AllRowsCount(first, parts[..n]);
      AllRowsSnoc(first, parts);
      ContributionValid(first, parts[n]);
    }
  }

  lemma ContributionValid<T>(first: Schema, part: Batch<T>)
    requires Shape(part).Some?
    ensures Shape(Contribution(first, part)).Some?
  {
    assert part.objects.Keys == {} ==> forall k :: k !in part.objects;
  }

  /** A part that lacks a column leaves that column shorter than all rows together. */
  lemma IncompleteShorter<T>(target: Schema, parts: seq<Batch<T>>)
    requires AllValid(parts) && AllFit(target, parts) && !AllComplete(target, parts) && target.tensors == None
    ensures var r := Measured(JoinedBatch(target, parts));
            Shape(r).Some? ==> r.size < TotalSize(target, parts)
  {
    var d := JoinedBatch(target, parts);
    if Aligned(d) {
      JoinedAligned(target, parts);
    }
    var k :| k in d.objects && |d.objects[k].cells| != d.size;
    JoinedLength(target, parts, k);
    if Shape(Measured(d)).Some? {
      assert Shaped(Measured(d).objects[k], Measured(d).size);
    }
  }

  lemma {:induction false} TotalSizeSame<T>(a: Schema, b: Schema, parts: seq<Batch<T>>)
    requires a.tensors.Some? == b.tensors.Some? && a.objects == b.objects
    ensures TotalSize(a, parts) == TotalSize(b, parts)
    decreases |parts|
  {
    if parts == [] {
    } else {
      TotalSizeSame(a, b, parts[..|parts| - 1]);
    }
  }

  lemma SameSizes<T>(parts: seq<Batch<T>>)
    requires parts != [] && AllJoin(parts)
    ensures TotalSize(SchemaOf(parts[0]), parts) == TotalSize(Target(parts), parts)
    ensures Contributions(SchemaOf(parts[0]), parts) == Contributions(Target(parts), parts)
    ensures AllComplete(SchemaOf(parts[0]), parts) <==> AllComplete(Target(parts), parts)
  {
    TotalSizeSame(SchemaOf(parts[0]), Target(parts), parts);
    forall p | 0 <= p < |parts|
      ensures Complete(SchemaOf(parts[0]), parts[p]) <==> Complete(Target(parts), parts[p])
    {
    }
  }

  /**
   * Concatenation of any parts. It succeeds exactly when every part's columns are ones the first has, arrays under one
   * name have one shape and, if the first has tensors, no part lacks an object column for its rows. The result is a
   * consistent batch of the parts' rows, in order and without the tensors the first does not have, exactly when no part
   * lacks one; otherwise rows are lost or torn apart.
   */
  lemma ConcatExactly<T>(parts: seq<Batch<T>>)
    requires parts != [] && AllValid(parts)
    ensures Concat(parts).Some? <==>
              Concatenable(parts) && (parts[0].tensors.Some? ==> AllComplete(SchemaOf(parts[0]), parts))
    ensures Concat(parts).Some? ==>
              var r := Concat(parts).value;
              && (Shape(r).Some? && Rows(r) == AllRows(Contributions(SchemaOf(parts[0]), parts)) <==>
                  AllComplete(SchemaOf(parts[0]), parts))
              && (AllComplete(SchemaOf(parts[0]), parts) ==> Shape(r) == Some(Target(parts)))
  {
    if Concatenable(parts) {
      ConcatJoined(parts);
      SameSizes(parts);
      JoinedShape(Target(parts), parts);
      if AllComplete(Target(parts), parts) {
        JoinedKept(parts);
      } else {
        IncompleteLost(parts);
      }
    } else if AllJoin(parts) {
      ObjectsCatExactly(parts);
      if parts[0].tensors.Some? {
        TensorsCatExactly(parts);
      }
    }
  }

  lemma JoinedKept<T>(parts: seq<Batch<T>>)
    requires parts != [] && AllValid(parts) && Concatenable(parts)
    requires AllFit(Target(parts), parts) && AllComplete(Target(parts), parts)
    ensures Measured(JoinedBatch(Target(parts), parts)) == JoinedBatch(Target(parts), parts)
  {
    JoinedShape(Target(parts), parts);
    MeasuredValid(JoinedBatch(Target(parts), parts));
  }

  lemma IncompleteLost<T>(parts: seq<Batch<T>>)
    requires parts != [] && AllValid(parts) && Concatenable(parts)
    requires AllFit(Target(parts), parts) && !AllComplete(Target(parts), parts)
    ensures var r := Measured(JoinedBatch(Target(parts), parts));
            if parts[0].tensors.Some? then !Aligned(r)
            else Shape(r).Some? ==> Rows(r) != AllRows(Contributions(Target(parts), parts))
  {
    JoinedShape(Target(parts), parts);
    if parts[0].tensors.None? {
      IncompleteShorter(Target(parts), parts);
      AllRowsCount(Target(parts), parts);
    }
  }

  lemma AgreeConcatenable<T>(parts: seq<Batch<T>>, schema: Schema)
    requires parts != [] && Agree(parts, schema)
    ensures Concatenable(parts) && AllComplete(schema, parts)
    ensures Target(parts) == schema
  {
    forall p | 0 <= p < |parts|
      ensures Joins(parts[0], parts[p]) && SameShapes(parts[p].objects, parts[0].objects)
      ensures Complete(schema, parts[p])
    {
      SameSchema(parts[p], parts[0]);
    }
    if parts[0].tensors.Some? {
      forall p, q | 0 <= p < |parts| && 0 <= q < |parts|
        ensures ColumnsMatch(parts[p].tensors.value, parts[q].tensors.value)
      {
        SameSchema(parts[p], parts[q]);
      }
      forall k | k in parts[0].tensors.value
        ensures CatShape(Named(TensorsOf(parts), k)) == schema.tensors.value[k]
      {
        SharedShape(parts, schema, k);
      }
      assert Target(parts).tensors.value == schema.tensors.value;
    }
  }

  lemma SameSchema<T>(a: Batch<T>, b: Batch<T>)
    requires SchemaOf(a) == SchemaOf(b)
    ensures Joins(a, b) && SameShapes(a.objects, b.objects) && a.objects.Keys == SchemaOf(b).objects.Keys
    ensures a.tensors.Some? ==> b.tensors.Some? && SameShapes(a.tensors.value, b.tensors.value)
  {
    assert a.objects.Keys == ShapesOf(a.objects).Keys && b.objects.Keys == ShapesOf(b.objects).Keys;
    assert forall k :: k in a.objects ==> ShapesOf(a.objects)[k] == a.objects[k].shape;
    if a.tensors.Some? {
      var (s, t) := (ShapesOf(a.tensors.value), ShapesOf(b.tensors.value));
      assert a.tensors.value.Keys == s.Keys && b.tensors.value.Keys == t.Keys;
      assert forall k :: k in a.tensors.value ==> s[k] == a.tensors.value[k].shape;
    }
  }

  lemma SharedShape<T>(parts: seq<Batch<T>>, schema: Schema, k: string)
    requires parts != [] && Agree(parts, schema) && AllJoin(parts)
    requires parts[0].tensors.Some? && k in parts[0].tensors.value
    ensures k in schema.tensors.value && CatShape(Named(TensorsOf(parts), k)) == schema.tensors.value[k]
  {
    TensorListed(parts, k);
    var cs := Named(TensorsOf(parts), k);
    forall p | 0 <= p < |parts|
      ensures cs[p].shape == schema.tensors.value[k]
    {
      assert Shape(parts[p]) == Some(schema);
      assert ShapesOf(parts[p].tensors.value)[k] == parts[p].tensors.value[k].shape;
    }
    CatShapeFound(cs);
  }

  /** Concatenating parts with the same columns appends whole rows. */
  lemma ConcatRows<T>(parts: seq<Batch<T>>, schema: Schema)
    requires parts != [] && Agree(parts, schema)
    ensures Concat(parts).Some?
    ensures Shape(Concat(parts).value) == Some(schema) && Rows(Concat(parts).value) == AllRows(parts)
  {
    AgreeConcatenable(parts, schema);
    SameSizes(parts);
    ConcatExactly(parts);
    forall p | 0 <= p < |parts|
      ensures Contribution(SchemaOf(parts[0]), parts[p]) == parts[p]
    {
      SameSchema(parts[p], parts[0]);
    }
    assert Contributions(SchemaOf(parts[0]), parts) == parts;
  }

  /** `DataProto.concat` where all parts have the same columns. */
  method ConcatSame<T>(parts: seq<Batch<T>>, ghost schema: Schema) returns (r: Batch<T>)
    requires parts != [] && Agree(parts, schema)
    ensures Shape(r) == Some(schema) && Rows(r) == AllRows(parts)
  {
    ConcatRows(parts, schema);
    r := Concat(parts).value;
  }
}
