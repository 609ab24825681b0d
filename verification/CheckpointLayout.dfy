/** Fused weight layouts: how rows are packed for training, sharded, and taken apart again by the mergers. */
module CheckpointLayout {
  import opened Arithmetic
  import opened Common
  import opened Sequences

  /** A weight is the sequence of its rows. */
  type Rows<R> = seq<R>

  /** `x` viewed as `n` groups of `size` rows. */
  function Groups<R>(x: Rows<R>, n: nat, size: nat): seq<Rows<R>>
    requires |x| == n * size
  {
    seq(n, g requires 0 <= g < n => GroupRows(x, n, size, g))
  }

  function GroupRows<R>(x: Rows<R>, n: nat, size: nat, g: nat): (r: Rows<R>)
    requires |x| == n * size && g < n
    ensures |r| == size
  {
    MulMonotone(g, g + 1, size);
    MulMonotone(g + 1, n, size);
    MulSucc(g, size);
    x[g * size..(g + 1) * size]
  }

  lemma {:induction false} JoinGroupsPrefix<R>(x: Rows<R>, n: nat, size: nat, m: nat)
    requires |x| == n * size && m <= n
    ensures 0 <= m * size <= |x| && Join(Groups(x, n, size)[..m]) == x[..m * size]
  {
    MulMonotone(m, n, size);
    if m > 0 {
      JoinGroupsPrefix(x, n, size, m - 1);
      MulSucc(m - 1, size);
      MulMonotone(m - 1, m, size);
      assert Groups(x, n, size)[..m][..m - 1] == Groups(x, n, size)[..m - 1];
    }
  }

  /** Viewing as groups and flattening again changes nothing. */
  lemma JoinGroups<R>(x: Rows<R>, n: nat, size: nat)
    requires |x| == n * size
    ensures Join(Groups(x, n, size)) == x
  {
    JoinGroupsPrefix(x, n, size, n);
    assert Groups(x, n, size)[..n] == Groups(x, n, size);
  }

  lemma JoinAllGroups<R>(x: Rows<R>, n: nat, size: nat)
    requires |x| == n * size
    ensures Join(Groups(x, n, size)[..n]) == x
  {
    JoinGroupsPrefix(x, n, size, n);
  }

  /** Flattening equal groups and viewing again gives the groups back. */
  lemma {:induction false} GroupsOfJoin<R>(parts: seq<Rows<R>>, size: nat)
    requires forall i :: 0 <= i < |parts| ==> |parts[i]| == size
    ensures |Join(parts)| == |parts| * size && Groups(Join(parts), |parts|, size) == parts
    decreases |parts|
  {
    JoinLength(parts, size);
    var n := |parts| - 1;
    if parts != [] {
      GroupsOfJoin(parts[..n], size);
      MulSucc(n, size);
      forall g | 0 <= g < |parts|
        ensures GroupRows(Join(parts), |parts|, size, g) == parts[g]
      {
        MulMonotone(g + 1, |parts|, size);
        MulSucc(g, size);
        if g < n {
          MulMonotone(g + 1, n, size);
          assert GroupRows(Join(parts[..n]), n, size, g) == Groups(Join(parts[..n]), n, size)[g];
        }
      }
    }
  }

  // ----- torch.chunk

  function CeilDiv(a: nat, b: nat): nat
    requires b > 0
  {
    (a + b - 1) / b
  }

  function Pieces<R>(x: Rows<R>, size: nat): seq<Rows<R>>
    requires size > 0
  {
    if |x| <= size then [x] else [x[..size]] + Pieces(x[size..], size)
  }

  /** `x.chunk(n)`: pieces of ceil(len / n) rows, the last one possibly shorter, possibly fewer than n. */
  function TorchChunk<R>(x: Rows<R>, n: nat): Option<seq<Rows<R>>> {
    if n == 0 then None
    else if x == [] then Some(seq(n, _ => []))
    else
      CeilPositive(|x|, n);
      Some(Pieces(x, CeilDiv(|x|, n)))
  }

  lemma CeilPositive(a: nat, b: nat)
    requires a > 0 && b > 0
    ensures CeilDiv(a, b) > 0
  {
    var q := (a + b - 1) / b;
    DivMod(a + b - 1, b);
    assert q <= 0 ==> q * b <= 0;
  }

  lemma CeilExact(n: nat, size: nat)
    requires n > 0
    ensures CeilDiv(n * size, n) == size
  {
    QuotientUnique(n * size + n - 1, n, size, n - 1);
  }

  lemma {:induction false} PiecesAreGroups<R>(x: Rows<R>, n: nat, size: nat)
    requires n > 0 && size > 0 && |x| == n * size
    ensures Pieces(x, size) == Groups(x, n, size)
    decreases n
  {
    MulMonotone(1, n, size);
    if n == 1 {
      assert x[..1 * size] == x;
    } else {
      MulSucc(n - 1, size);
      MulMonotone(2, n, size);
      PiecesAreGroups(x[size..], n - 1, size);
      forall g | 0 < g < n
        ensures GroupRows(x, n, size, g) == GroupRows(x[size..], n - 1, size, g - 1)
      {
        MulSucc(g - 1, size);
        MulSucc(g, size);
        MulMonotone(g, g + 1, size);
        MulMonotone(g + 1, n, size);
        MulMonotone(g - 1, g, size);
        MulMonotone(g, n - 1, size);
      }
      assert 1 * size == size;
    }
  }

  /** When the length divides evenly, chunking is viewing as groups. */
  lemma ChunkEven<R>(x: Rows<R>, n: nat, size: nat)
    requires n > 0 && |x| == n * size
    ensures TorchChunk(x, n) == Some(Groups(x, n, size))
  {
    MulMonotone(1, n, size);
    if size == 0 {
      assert x == [] && forall g :: 0 <= g < n ==> GroupRows(x, n, size, g) == [];
      assert Groups(x, n, size) == seq(n, _ => []);
    } else {
      CeilExact(n, size);
      PiecesAreGroups(x, n, size);
    }
  }

  /** The pieces of any tensor: all but the last have the rounded-up share, the last has what is left. */
  lemma ChunkPieces<R>(x: Rows<R>, n: nat)
    requires n > 0 && x != []
    ensures TorchChunk(x, n).Some?
    ensures var pieces := TorchChunk(x, n).value;
      && Join(pieces) == x && pieces != [] && 0 < |pieces[|pieces| - 1]| <= CeilDiv(|x|, n)
      && forall i :: 0 <= i < |pieces| - 1 ==> |pieces[i]| == CeilDiv(|x|, n)
  {
    CeilPositive(|x|, n);
    PiecesJoin(x, CeilDiv(|x|, n));
  }

  lemma {:induction false} PiecesJoin<R>(x: Rows<R>, size: nat)
    requires size > 0 && x != []
    ensures var pieces := Pieces(x, size);
      && Join(pieces) == x && pieces != [] && 0 < |pieces[|pieces| - 1]| <= size
      && forall i :: 0 <= i < |pieces| - 1 ==> |pieces[i]| == size
    decreases |x|
  {
    if |x| <= size {
      JoinOne(x);
    } else {
      PiecesJoin(x[size..], size);
      JoinCons(x[..size], Pieces(x[size..], size));
      assert x == x[..size] + x[size..];
      OneMorePiece(x[..size], Pieces(x[size..], size), size);
    }
  }

  lemma OneMorePiece<R>(first: Rows<R>, rest: seq<Rows<R>>, size: nat)
    requires |first| == size && rest != [] && forall i :: 0 <= i < |rest| - 1 ==> |rest[i]| == size
    ensures var all := [first] + rest;
            all[|all| - 1] == rest[|rest| - 1] && forall i :: 0 <= i < |all| - 1 ==> |all[i]| == size
  {
  }

  lemma JoinOne<R>(x: Rows<R>)
    ensures Join([x]) == x
  {
    assert [x][..0] == [];
  }

  lemma JoinCons<R>(x: Rows<R>, rest: seq<Rows<R>>)
    ensures Join([x] + rest) == x + Join(rest)
  {
    JoinAppend([x], rest);
    JoinOne(x);
  }

  // ----- attention weights

  datatype Qkv<R> = Qkv(q: Rows<R>, k: Rows<R>, v: Rows<R>)

  /** `groups` key-value groups, `perKv` query heads each, `head` rows a head. */
  predicate Fits<R>(w: Qkv<R>, groups: nat, perKv: nat, head: nat) {
    |w.q| == groups * (perKv * head) && |w.k| == groups * head && |w.v| == groups * head
  }

  /** One key-value group after another: its query rows, its key rows, its value rows. */
  function PackGroup<R>(w: Qkv<R>, groups: nat, perKv: nat, head: nat, g: nat): (r: Rows<R>)
    requires Fits(w, groups, perKv, head) && g < groups
    ensures |r| == perKv * head + head + head
  {
    GroupRows(w.q, groups, perKv * head, g) + GroupRows(w.k, groups, head, g) + GroupRows(w.v, groups, head, g)
  }

  function PackGroups<R>(w: Qkv<R>, groups: nat, perKv: nat, head: nat): seq<Rows<R>>
    requires Fits(w, groups, perKv, head)
  {
    seq(groups, g requires 0 <= g < groups => PackGroup(w, groups, perKv, head, g))
  }

  /** The converter: view q, k, v by group, concatenate within the group, flatten. */
  function Pack<R>(w: Qkv<R>, groups: nat, perKv: nat, head: nat): Rows<R>
    requires Fits(w, groups, perKv, head)
  {
    Join(PackGroups(w, groups, perKv, head))
  }

  /** Splitting every chunk in three, which fails on a chunk of another size, and concatenating each kind. */
  function SplitChunks<R>(chunks: seq<Rows<R>>, qSize: nat, kvSize: nat): Option<Qkv<R>> {
    if chunks == [] then Some(Qkv([], [], []))
    else
      var c := chunks[|chunks| - 1];
      var init :- SplitChunks(chunks[..|chunks| - 1], qSize, kvSize);
      if |c| != qSize + kvSize + kvSize then None
      else
        var split := SplitOne(c, qSize, kvSize);
        Some(Qkv(init.q + split.q, init.k + split.k, init.v + split.v))
  }

  function SplitOne<R>(c: Rows<R>, qSize: nat, kvSize: nat): Qkv<R>
    requires |c| == qSize + kvSize + kvSize
  {
    Qkv(c[..qSize], c[qSize..qSize + kvSize], c[qSize + kvSize..])
  }

  lemma SplitPackedGroup<R>(w: Qkv<R>, groups: nat, perKv: nat, head: nat, g: nat)
    requires Fits(w, groups, perKv, head) && g < groups
    ensures SplitOne(PackGroup(w, groups, perKv, head, g), perKv * head, head)
            == Qkv(GroupRows(w.q, groups, perKv * head, g), GroupRows(w.k, groups, head, g),
                   GroupRows(w.v, groups, head, g))
  {
  }

  function Prefix<R>(w: Qkv<R>, groups: nat, perKv: nat, head: nat, m: nat): Qkv<R>
    requires Fits(w, groups, perKv, head) && m <= groups
  {
    Qkv(Join(Groups(w.q, groups, perKv * head)[..m]), Join(Groups(w.k, groups, head)[..m]),
        Join(Groups(w.v, groups, head)[..m]))
  }

  lemma JoinStep<R>(x: Rows<R>, n: nat, size: nat, m: nat)
    requires |x| == n * size && 0 < m <= n
    ensures Join(Groups(x, n, size)[..m]) == Join(Groups(x, n, size)[..m - 1]) + GroupRows(x, n, size, m - 1)
  {
    assert Groups(x, n, size)[..m][..m - 1] == Groups(x, n, size)[..m - 1];
  }

  lemma {:induction false} SplitPackedChunks<R>(w: Qkv<R>, groups: nat, perKv: nat, head: nat, m: nat)
    requires Fits(w, groups, perKv, head) && m <= groups
    ensures SplitChunks(PackGroups(w, groups, perKv, head)[..m], perKv * head, head)
            == Some(Prefix(w, groups, perKv, head, m))
  {
    if m == 0 {
    } else {
      var chunks := PackGroups(w, groups, perKv, head);
      SplitPackedChunks(w, groups, perKv, head, m - 1);
      assert chunks[..m][..m - 1] == chunks[..m - 1];
      SplitPackedGroup(w, groups, perKv, head, m - 1);
      JoinStep(w.q, groups, perKv * head, m);
      JoinStep(w.k, groups, head, m);
      JoinStep(w.v, groups, head, m);
    }
  }

  /** Sizes the mergers derive from a tensor's row count; the assertions of the source are the failing cases. */
  datatype Sizes = Sizes(chunks: nat, q: nat, kv: nat)

  function Share(size: nat, perKv: nat, groups: nat): nat
    requires groups > 0
  {
    size * perKv / groups
  }

  /** Query heads for each key-value head. */
  function PerKv(heads: nat, kvHeads: nat): nat
    requires kvHeads > 0
  {
    heads / kvHeads
  }

  function SplitSizes(rows: nat, heads: nat, kvHeads: nat, parts: nat): Option<Sizes> {
    if kvHeads == 0 || heads % kvHeads != 0 then None
    else
      var perKv := PerKv(heads, kvHeads);
      if rows % (perKv + 2) != 0 || parts == 0 || kvHeads / parts == 0 then None
      else
        var kvSize, groups := rows / (perKv + 2), kvHeads / parts;
        Some(Sizes(groups, Share(kvSize, perKv, groups), kvSize / groups))
  }

  /** All chunks of all shards, in order. */
  function AllChunks<R>(shards: seq<Rows<R>>, n: nat): Option<seq<Rows<R>>> {
    if shards == [] then Some([])
    else
      var init :- AllChunks(shards[..|shards| - 1], n);
      var chunks :- TorchChunk(shards[|shards| - 1], n);
      Some(init + chunks)
  }

  function MergeAcross<R>(shards: seq<Rows<R>>, heads: nat, kvHeads: nat, tp: nat): Option<Qkv<R>> {
    if shards == [] then None
    else
      var sizes :- SplitSizes(|shards[0]|, heads, kvHeads, tp);
      var chunks :- AllChunks(shards, sizes.chunks);
      SplitChunks(chunks, sizes.q, sizes.kv)
  }

  lemma {:induction false} SplitChunksFails<R>(chunks: seq<Rows<R>>, more: seq<Rows<R>>, q: nat, kv: nat)
    requires SplitChunks(chunks, q, kv) == None
    ensures SplitChunks(chunks + more, q, kv) == None
    decreases |more|
  {
    if more == [] {
      assert chunks + more == chunks;
    } else {
      SplitChunksFails(chunks, more[..|more| - 1], q, kv);
      assert (chunks + more)[..|chunks + more| - 1] == chunks + more[..|more| - 1];
    }
  }

  lemma {:induction false} AllChunksPrefix<R>(shards: seq<Rows<R>>, n: nat, i: nat)
    requires n > 0 && i <= |shards|
    ensures AllChunks(shards, n).Some? && AllChunks(shards[..i], n).Some?
    ensures AllChunks(shards[..i], n).value <= AllChunks(shards, n).value
    decreases |shards| - i
  {
    if i == |shards| {
      AllChunksSome(shards, n);
      assert shards[..i] == shards;
    } else {
      AllChunksPrefix(shards, n, i + 1);
      assert shards[..i + 1][..i] == shards[..i];
    }
  }

  lemma {:induction false} AllChunksSome<R>(shards: seq<Rows<R>>, n: nat)
    requires n > 0
    ensures AllChunks(shards, n).Some?
    decreases |shards|
  {
    if shards == [] {
    } else {
      AllChunksSome(shards[..|shards| - 1], n);
    }
  }

  /** One more chunk: it is split and appended, or has another size and the whole fails. */
  lemma SplitChunksStep<R>(seen: seq<Rows<R>>, chunks: seq<Rows<R>>, j: nat, q: nat, kv: nat)
    requires j < |chunks| && SplitChunks(seen + chunks[..j], q, kv).Some?
    ensures var (w, c) := (SplitChunks(seen + chunks[..j], q, kv).value, chunks[j]);
            if |c| == q + kv + kv
            then SplitChunks(seen + chunks[..j + 1], q, kv)
                 == Some(Qkv(w.q + c[..q], w.k + c[q..q + kv], w.v + c[q + kv..]))
            else SplitChunks(seen + chunks, q, kv) == None
  {
    assert seen + chunks[..j + 1] == seen + chunks[..j] + [chunks[j]];
    SplitSnoc(seen + chunks[..j], chunks[j], q, kv);
    if |chunks[j]| != q + kv + kv {
      SplitChunksFails(seen + chunks[..j] + [chunks[j]], chunks[j + 1..], q, kv);
      assert seen + chunks[..j] + [chunks[j]] + chunks[j + 1..] == seen + chunks;
    }
  }

  lemma SplitSnoc<R>(init: seq<Rows<R>>, c: Rows<R>, q: nat, kv: nat)
    requires SplitChunks(init, q, kv).Some?
    ensures var w := SplitChunks(init, q, kv).value;
            SplitChunks(init + [c], q, kv) ==
              if |c| == q + kv + kv then Some(Qkv(w.q + c[..q], w.k + c[q..q + kv], w.v + c[q + kv..])) else None
  {
    assert (init + [c])[..|init|] == init;
  }

  /** The inner loop: one shard's chunks, split and appended. A chunk of another size raises. */
  method AppendChunks<R>(chunks: seq<Rows<R>>, qSize: nat, kvSize: nat, soFar: Qkv<R>, ghost seen: seq<Rows<R>>)
    returns (r: Option<Qkv<R>>)
    requires SplitChunks(seen, qSize, kvSize) == Some(soFar)
    ensures r == SplitChunks(seen + chunks, qSize, kvSize)
  {
    var q, k, v := soFar.q, soFar.k, soFar.v;
    assert seen + chunks[..0] == seen;
    for j := 0 to |chunks|
      invariant SplitChunks(seen + chunks[..j], qSize, kvSize) == Some(Qkv(q, k, v))
    {
      var c := chunks[j];
      SplitChunksStep(seen, chunks, j, qSize, kvSize);
      if |c| != qSize + kvSize + kvSize {
        return None;
      }
      q, k, v := q + c[..qSize], k + c[qSize..qSize + kvSize], v + c[qSize + kvSize..];
    }
    assert chunks[..|chunks|] == chunks;
    return Some(Qkv(q, k, v));
  }

  /** `_merge_across_tp` on a fused attention weight: chunk every shard, split every chunk, collect. */
  method MergeAcrossTp<R>(shards: seq<Rows<R>>, heads: nat, kvHeads: nat, tp: nat) returns (r: Option<Qkv<R>>)
    ensures r == MergeAcross(shards, heads, kvHeads, tp)
  {
    if shards == [] {
      return None;
    }
    var sizes := SplitSizes(|shards[0]|, heads, kvHeads, tp);
    if sizes == None {
      return None;
    }
    var Sizes(n, qSize, kvSize) := sizes.value;
    var soFar: Qkv<R> := Qkv([], [], []);
    assert shards[..0] == [];
    for i := 0 to |shards|
      invariant AllChunks(shards[..i], n).Some?
      invariant SplitChunks(AllChunks(shards[..i], n).value, qSize, kvSize) == Some(soFar)
    {
      var chunks := TorchChunk(shards[i], n).value;
      assert shards[..i + 1][..i] == shards[..i];
      ghost var seen := AllChunks(shards[..i], n).value;
      var more := AppendChunks(chunks, qSize, kvSize, soFar, seen);
      AllChunksPrefix(shards, n, i + 1);
      if more == None {
        ghost var all := AllChunks(shards, n).value;
        assert seen + chunks == AllChunks(shards[..i + 1], n).value;
        SplitChunksFails(seen + chunks, all[|seen + chunks|..], qSize, kvSize);
        assert (seen + chunks) + all[|seen + chunks|..] == all;
        return None;
      }
      soFar := more.value;
    }
    assert shards[..|shards|] == shards;
    return Some(soFar);
  }

  lemma SingleShard<R>(x: Rows<R>, n: nat)
    requires n > 0
    ensures AllChunks([x], n) == TorchChunk(x, n)
  {
    assert [x][..0] == [];
    assert TorchChunk(x, n).Some? ==> [] + TorchChunk(x, n).value == TorchChunk(x, n).value;
  }

  /** `_split_tensors` on a fused attention weight: the one-rank case, without shards. */
  method SplitTensors<R>(x: Rows<R>, heads: nat, kvHeads: nat) returns (r: Option<Qkv<R>>)
    ensures r == MergeAcross([x], heads, kvHeads, 1)
  {
    var sizes := SplitSizes(|x|, heads, kvHeads, 1);
    if sizes == None {
      return None;
    }
    var Sizes(n, qSize, kvSize) := sizes.value;
    SingleShard(x, n);
    var chunks := TorchChunk(x, n).value;
    r := AppendChunks(chunks, qSize, kvSize, Qkv([], [], []), []);
    assert [] + chunks == chunks;
  }

  // ----- round trips

  lemma SizesOfPacked(
    groups: nat, perKv: nat, head: nat, q: nat, rows: nat, heads: nat, tp: nat, local: nat)
    requires groups == tp * local && local > 0 && tp > 0 && heads == groups * perKv
    requires q == perKv * head && rows == local * (q + head + head)
    ensures SplitSizes(rows, heads, groups, tp) == Some(Sizes(local, q, head))
  {
    MulMonotone(1, tp, local);
    QuotientUnique(heads, groups, perKv, 0) by {
      assert groups * perKv == perKv * groups;
    }
    var kvSize := local * head;
    assert rows == kvSize * (perKv + 2);
    QuotientUnique(rows, perKv + 2, kvSize, 0);
    QuotientUnique(groups, tp, local, 0) by {
      assert groups == local * tp;
    }
    assert kvSize * perKv == q * local;
    QuotientUnique(kvSize * perKv, local, q, 0);
    QuotientUnique(kvSize, local, head, 0) by {
      assert kvSize == head * local;
    }
  }

  lemma PackGroupsShape<R>(w: Qkv<R>, groups: nat, perKv: nat, head: nat)
    requires Fits(w, groups, perKv, head)
    ensures |Pack(w, groups, perKv, head)| == groups * (perKv * head + head + head)
    ensures Groups(Pack(w, groups, perKv, head), groups, perKv * head + head + head) ==
              PackGroups(w, groups, perKv, head)
  {
    GroupsOfJoin(PackGroups(w, groups, perKv, head), perKv * head + head + head);
  }

  /** Where the rows of group `g` stand in the packed weight: its queries, then its key, then its value. */
  lemma PackAt<R>(w: Qkv<R>, groups: nat, perKv: nat, head: nat, q: nat, size: nat, g: nat, j: nat)
    requires Fits(w, groups, perKv, head) && q == perKv * head && size == q + head + head && g < groups && j < size
    ensures 0 <= g * size + j < |Pack(w, groups, perKv, head)|
    ensures Pack(w, groups, perKv, head)[g * size + j] == PackGroup(w, groups, perKv, head, g)[j]
    ensures j < q ==>
              0 <= g * q + j < |w.q| && PackGroup(w, groups, perKv, head, g)[j] == w.q[g * q + j]
    ensures q <= j < q + head ==>
              0 <= g * head + (j - q) < |w.k| && PackGroup(w, groups, perKv, head, g)[j] == w.k[g * head + (j - q)]
    ensures q + head <= j ==>
              0 <= g * head + (j - q - head) < |w.v| &&
              PackGroup(w, groups, perKv, head, g)[j] == w.v[g * head + (j - q - head)]
  {
    PackedElement(w, groups, perKv, head, size, g, j);
    if j < q {
      GroupElement(w.q, groups, q, g, j);
    } else if j < q + head {
      GroupElement(w.k, groups, head, g, j - q);
    } else {
      GroupElement(w.v, groups, head, g, j - q - head);
    }
  }

  lemma PackedElement<R>(w: Qkv<R>, groups: nat, perKv: nat, head: nat, size: nat, g: nat, j: nat)
    requires Fits(w, groups, perKv, head) && size == perKv * head + head + head && g < groups && j < size
    ensures 0 <= g * size + j < |Pack(w, groups, perKv, head)|
    ensures Pack(w, groups, perKv, head)[g * size + j] == PackGroup(w, groups, perKv, head, g)[j]
  {
    PackGroupsShape(w, groups, perKv, head);
    GroupElement(Pack(w, groups, perKv, head), groups, size, g, j);
    assert Groups(Pack(w, groups, perKv, head), groups, size)[g] == PackGroups(w, groups, perKv, head)[g];
  }

  lemma GroupElement<R>(x: Rows<R>, n: nat, size: nat, g: nat, j: nat)
    requires |x| == n * size && g < n && j < size
    ensures 0 <= g * size + j < |x| && GroupRows(x, n, size, g)[j] == x[g * size + j]
  {
    GroupIndex(g, j, n, size);
  }

  /** What merging computes once the sizes are known and the chunks are the packed groups. */
  lemma SplitPacked<R>(w: Qkv<R>, groups: nat, perKv: nat, head: nat)
    requires Fits(w, groups, perKv, head)
    ensures SplitChunks(PackGroups(w, groups, perKv, head), perKv * head, head) == Some(w)
  {
    SplitPackedChunks(w, groups, perKv, head, groups);
    assert PackGroups(w, groups, perKv, head)[..groups] == PackGroups(w, groups, perKv, head);
    JoinAllGroups(w.q, groups, perKv * head);
    JoinAllGroups(w.k, groups, head);
    JoinAllGroups(w.v, groups, head);
  }

  /** The whole tensor: its chunks are its groups. */
  lemma MergeWhole<R>(x: Rows<R>, groups: nat, perKv: nat, head: nat, q: nat, size: nat, heads: nat)
    requires q == perKv * head && size == q + head + head && heads == groups * perKv
    requires groups > 0 && |x| == groups * size
    ensures MergeAcross([x], heads, groups, 1) == SplitChunks(Groups(x, groups, size), q, head)
  {
    SizesOfPacked(groups, perKv, head, q, |x|, heads, 1, groups);
    ChunkEven(x, groups, size);
    SingleShard(x, groups);
  }

  /** Splitting undoes packing, for every number of key-value groups and of query heads a group. */
  lemma SplitInvertsPack<R>(w: Qkv<R>, groups: nat, perKv: nat, head: nat)
    requires Fits(w, groups, perKv, head) && groups > 0
    ensures MergeAcross([Pack(w, groups, perKv, head)], groups * perKv, groups, 1) == Some(w)
  {
    PackGroupsShape(w, groups, perKv, head);
    MergeWhole(Pack(w, groups, perKv, head), groups, perKv, head, perKv * head, perKv * head + head + head,
               groups * perKv);
    SplitPacked(w, groups, perKv, head);
  }

  lemma SubSlice<R>(x: Rows<R>, a: nat, b: nat, c: nat, d: nat)
    requires a <= b <= |x| && c <= d && a + d <= b
    ensures x[a..b][c..d] == x[a + c..a + d]
  {
    var y, z := x[a..b][c..d], x[a + c..a + d];
    assert |y| == |z| && forall i :: 0 <= i < |y| ==> y[i] == x[a + (c + i)] == z[i];
  }

  /** Group `j` of shard `t` is group `t * local + j` of the whole. */
  lemma ShardGroup<R>(x: Rows<R>, tp: nat, local: nat, size: nat, block: nat, groups: nat, t: nat, j: nat)
    requires block == local * size && groups == tp * local && |x| == tp * block == groups * size
    requires t < tp && j < local
    ensures 0 <= t * local + j < groups
    ensures GroupRows(GroupRows(x, tp, block, t), local, size, j) == GroupRows(x, groups, size, t * local + j)
  {
    GroupIndex(t, j, tp, local);
    BlockOffset(t, local, size, j);
    BlockOffset(t, local, size, j + 1);
    MulMonotone(j, j + 1, size);
    MulMonotone(j + 1, local, size);
    MulMonotone(t + 1, tp, block);
    MulSucc(t, block);
    var a := t * block;
    SubSlice(x, a, a + block, j * size, (j + 1) * size);
  }

  /** The groups of a shard are the whole's groups `t * local` up to `(t + 1) * local`. */
  lemma ShardGroups<R>(x: Rows<R>, tp: nat, local: nat, size: nat, block: nat, groups: nat, t: nat)
    requires block == local * size && groups == tp * local && |x| == tp * block == groups * size && t < tp
    ensures 0 <= t * local <= (t + 1) * local <= groups
    ensures Groups(GroupRows(x, tp, block, t), local, size) == Groups(x, groups, size)[t * local..(t + 1) * local]
  {
    MulMonotone(t, t + 1, local);
    MulMonotone(t + 1, tp, local);
    MulSucc(t, local);
    forall j | 0 <= j < local
      ensures GroupRows(GroupRows(x, tp, block, t), local, size, j)
              == Groups(x, groups, size)[t * local..(t + 1) * local][j]
    {
      ShardGroup(x, tp, local, size, block, groups, t, j);
    }
  }

  lemma {:induction false} AllShardChunks<R>(
    x: Rows<R>, tp: nat, local: nat, size: nat, block: nat, groups: nat, m: nat)
    requires block == local * size && groups == tp * local && |x| == tp * block == groups * size
    requires local > 0 && m <= tp
    ensures 0 <= m * local <= groups
    ensures AllChunks(Groups(x, tp, block)[..m], local) == Some(Groups(x, groups, size)[..m * local])
  {
    MulMonotone(m, tp, local);
    if m > 0 {
      AllShardChunks(x, tp, local, size, block, groups, m - 1);
      ShardGroups(x, tp, local, size, block, groups, m - 1);
      ChunkEven(GroupRows(x, tp, block, m - 1), local, size);
      AppendShard(Groups(x, tp, block), Groups(x, groups, size), local, m, (m - 1) * local, m * local);
    }
  }

  lemma AppendShard<R>(shards: seq<Rows<R>>, all: seq<Rows<R>>, local: nat, m: nat, lo: nat, hi: nat)
    requires 0 < m <= |shards| && lo <= hi <= |all|
    requires AllChunks(shards[..m - 1], local) == Some(all[..lo])
    requires TorchChunk(shards[m - 1], local) == Some(all[lo..hi])
    ensures AllChunks(shards[..m], local) == Some(all[..hi])
  {
    assert shards[..m][..m - 1] == shards[..m - 1];
    assert all[..lo] + all[lo..hi] == all[..hi];
  }

  lemma {:induction false} SplitGroupsSome<R>(chunks: seq<Rows<R>>, q: nat, kv: nat)
    ensures SplitChunks(chunks, q, kv).Some? <==> forall i :: 0 <= i < |chunks| ==> |chunks[i]| == q + kv + kv
    decreases |chunks|
  {
    if chunks == [] {
    } else {
      var n := |chunks| - 1;
      SplitGroupsSome(chunks[..n], q, kv);
      assert forall i :: 0 <= i < n ==> chunks[..n][i] == chunks[i];
    }
  }

  lemma GroupsSplit<R>(x: Rows<R>, groups: nat, size: nat, q: nat, kv: nat)
    requires |x| == groups * size && size == q + kv + kv
    ensures SplitChunks(Groups(x, groups, size), q, kv).Some?
  {
    SplitGroupsSome(Groups(x, groups, size), q, kv);
  }

  /** Merging equal contiguous shards is splitting the whole, when the groups of whole heads divide evenly. */
  lemma MergeEvenShards<R>(
    x: Rows<R>, tp: nat, local: nat, perKv: nat, head: nat, q: nat, size: nat, block: nat, groups: nat, heads: nat)
    requires q == perKv * head && size == q + head + head && heads == groups * perKv
    requires block == local * size && groups == tp * local && |x| == tp * block == groups * size && groups > 0
    ensures MergeAcross(Groups(x, tp, block), heads, groups, tp) == SplitChunks(Groups(x, groups, size), q, head)
    ensures MergeAcross([x], heads, groups, 1) == SplitChunks(Groups(x, groups, size), q, head)
    ensures SplitChunks(Groups(x, groups, size), q, head).Some?
  {
    GroupsSplit(x, groups, size, q, head);
    ProductPositive(tp, local);
    MergeWhole(x, groups, perKv, head, q, size, heads);
    SizesOfPacked(groups, perKv, head, q, block, heads, tp, local);
    AllShardChunks(x, tp, local, size, block, groups, tp);
    assert Groups(x, tp, block)[..tp] == Groups(x, tp, block);
    assert Groups(x, groups, size)[..groups] == Groups(x, groups, size);
  }

  lemma ProductPositive(a: nat, b: nat)
    requires a * b > 0
    ensures a > 0 && b > 0
  {
  }

  /** The first piece of a chunked tensor has the rounded-up share of the rows. */
  lemma FirstPiece<R>(x: Rows<R>, n: nat)
    requires n > 0 && x != []
    ensures TorchChunk(x, n).value != [] && |TorchChunk(x, n).value[0]| == CeilDiv(|x|, n)
    ensures CeilDiv(|x|, n) * n >= |x|
  {
    CeilPositive(|x|, n);
    CeilAtMost(|x|, n);
  }

  lemma CeilAtMost(a: nat, n: nat)
    requires a > 0 && n > 0
    ensures CeilDiv(a, n) <= a <= CeilDiv(a, n) * n
  {
    DivMod(a + n - 1, n);
    SumBelowProduct(a, n);
    AtMostQuotient(CeilDiv(a, n), a, n);
  }

  lemma SumBelowProduct(a: nat, n: nat)
    requires a > 0 && n > 0
    ensures a + n - 1 <= a * n
  {
    MulMonotone(1, a, n - 1);
    assert a * (n - 1) == a * n - a;
  }

  lemma AtMostQuotient(q: nat, a: nat, n: nat)
    requires n > 0 && q * n <= a * n
    ensures q <= a
  {
    MultipleAtLeast(q - a, n);
    assert (q - a) * n == q * n - a * n;
  }

  /** Shares rounded down add up to a share rounded up only when nothing is rounded. */
  lemma NothingRounded(rows: nat, local: nat, perKv: nat, kvSize: nat, q: nat, kv: nat, piece: nat)
    requires local > 0 && rows == kvSize * (perKv + 2) && piece * local >= rows
    requires q == Share(kvSize, perKv, local) && kv == kvSize / local && piece == q + kv + kv
    ensures kvSize == kv * local
  {
    DivMod(kvSize * perKv, local);
    DivMod(kvSize, local);
    assert kvSize * (perKv + 2) == kvSize * perKv + kvSize + kvSize;
    assert piece * local == q * local + kv * local + kv * local;
  }

  /** In a successful merge the first piece of the first shard has the three sizes. */
  lemma FirstChunkSplits<R>(shards: seq<Rows<R>>, local: nat, q: nat, kv: nat)
    requires shards != [] && shards[0] != [] && local > 0
    requires AllChunks(shards, local).Some? && SplitChunks(AllChunks(shards, local).value, q, kv).Some?
    ensures CeilDiv(|shards[0]|, local) == q + kv + kv && CeilDiv(|shards[0]|, local) * local >= |shards[0]|
  {
    FirstPiece(shards[0], local);
    AllChunksPrefix(shards, local, 1);
    SingleShard(shards[0], local);
    assert shards[..1] == [shards[0]];
    var chunks := AllChunks(shards, local).value;
    assert chunks[0] == TorchChunk(shards[0], local).value[0];
    SplitGroupsSome(chunks, q, kv);
  }

  /** What a successful merge says about the sizes. */
  lemma MergeNeeds<R>(shards: seq<Rows<R>>, heads: nat, groups: nat, tp: nat, local: nat)
    requires shards != [] && groups == tp * local && groups > 0 && MergeAcross(shards, heads, groups, tp).Some?
    ensures heads % groups == 0 && Whole(|shards[0]|, local, PerKv(heads, groups))
  {
    ProductPositive(tp, local);
    QuotientUnique(groups, tp, local, 0) by {
      assert groups == local * tp;
    }
    var rows, perKv := |shards[0]|, PerKv(heads, groups);
    var kvSize := rows / (perKv + 2);
    ExactQuotient(rows, perKv + 2);
    var Sizes(_, q, kv) := SplitSizes(rows, heads, groups, tp).value;
    if rows == 0 {
      assert HeadRows(0, local, perKv) == 0;
    } else {
      FirstChunkSplits(shards, local, q, kv);
      NothingRounded(rows, local, perKv, kvSize, q, kv, CeilDiv(rows, local));
      assert rows == HeadRows(kv, local, perKv);
    }
  }

  /** The rows of `local` groups of whole heads. */
  function HeadRows(head: nat, local: nat, perKv: nat): nat {
    head * local * (perKv + 2)
  }

  ghost predicate Whole(rows: nat, local: nat, perKv: nat) {
    exists head: nat :: rows == HeadRows(head, local, perKv)
  }

  lemma WholeExactly(rows: nat, local: nat, perKv: nat)
    requires local * (perKv + 2) > 0
    ensures Whole(rows, local, perKv) <==> rows % (local * (perKv + 2)) == 0
  {
    var d := local * (perKv + 2);
    if head: nat :| rows == HeadRows(head, local, perKv) {
      assert rows == head * d;
      QuotientUnique(rows, d, head, 0);
    }
    if rows % d == 0 {
      ExactQuotient(rows, d);
      assert rows == HeadRows(rows / d, local, perKv);
    }
  }

  lemma WholeShard(tp: nat, local: nat, perKv: nat, rows: nat)
    requires tp > 0 && Whole(tp * rows, tp * local, perKv)
    ensures Whole(rows, local, perKv)
  {
    var head: nat :| tp * rows == HeadRows(head, tp * local, perKv);
    assert HeadRows(head, tp * local, perKv) == tp * HeadRows(head, local, perKv);
    CancelFactor(tp, rows, HeadRows(head, local, perKv));
  }

  lemma WholeSizes(tp: nat, local: nat, perKv: nat, head: nat, size: nat, block: nat, groups: nat)
    requires size == perKv * head + head + head && block == HeadRows(head, local, perKv) && groups == tp * local
    ensures block == local * size && tp * block == groups * size
  {
    assert head * (perKv + 2) == perKv * head + head + head;
    assert head * local * (perKv + 2) == local * (head * (perKv + 2));
    MulAssoc(tp, local, size);
  }

  /** When every shard holds whole heads, both ways succeed and agree. */
  lemma MergeWholeHeads<R>(x: Rows<R>, tp: nat, local: nat, perKv: nat, block: nat, groups: nat, heads: nat)
    requires groups == tp * local && groups > 0 && heads == groups * perKv
    requires |x| == tp * block && Whole(block, local, perKv)
    ensures MergeAcross(Groups(x, tp, block), heads, groups, tp).Some?
    ensures MergeAcross([x], heads, groups, 1) == MergeAcross(Groups(x, tp, block), heads, groups, tp)
  {
    var head: nat :| block == HeadRows(head, local, perKv);
    var q := perKv * head;
    WholeSizes(tp, local, perKv, head, q + head + head, block, groups);
    MergeEvenShards(x, tp, local, perKv, head, q, q + head + head, block, groups, heads);
  }

  /**
   Merging the tp equal contiguous shards of any tensor and splitting the whole give the same, for any number of rows
   and heads: both succeed exactly when every shard holds whole heads of `local` groups.
   */
  lemma MergeShardsIsSplitWhole<R>(x: Rows<R>, tp: nat, local: nat, heads: nat, block: nat, groups: nat)
    requires groups == tp * local && groups > 0 && |x| == tp * block
    ensures local * (PerKv(heads, groups) + 2) > 0
    ensures MergeAcross(Groups(x, tp, block), heads, groups, tp).Some? <==>
              heads % groups == 0 && block % (local * (PerKv(heads, groups) + 2)) == 0
    ensures MergeAcross([x], heads, groups, 1) == MergeAcross(Groups(x, tp, block), heads, groups, tp)
  {
    var perKv, shards := PerKv(heads, groups), Groups(x, tp, block);
    ProductPositive(tp, local);
    MulMonotone(1, local, perKv + 2);
    WholeExactly(block, local, perKv);
    assert |shards[0]| == block;
    if heads % groups == 0 && Whole(block, local, perKv) {
      ExactQuotient(heads, groups);
      MergeWholeHeads(x, tp, local, perKv, block, groups, heads);
    } else {
      if MergeAcross(shards, heads, groups, tp).Some? {
        MergeNeeds(shards, heads, groups, tp, local);
      }
      if MergeAcross([x], heads, groups, 1).Some? {
        MergeNeeds([x], heads, groups, 1, groups);
        WholeShard(tp, local, perKv, block);
      }
    }
  }

  /** Pack, shard over tp ranks, merge: the original q, k and v. */
  lemma MergeInvertsShardedPack<R>(
    w: Qkv<R>, tp: nat, local: nat, perKv: nat, head: nat, size: nat, block: nat, groups: nat)
    requires size == perKv * head + head + head && block == local * size && groups == tp * local
    requires Fits(w, groups, perKv, head) && groups > 0
    ensures |Pack(w, groups, perKv, head)| == tp * block
    ensures MergeAcross(Groups(Pack(w, groups, perKv, head), tp, block), groups * perKv, groups, tp) == Some(w)
  {
    PackGroupsShape(w, groups, perKv, head);
    MulAssoc(tp, local, size);
    MergeEvenShards(Pack(w, groups, perKv, head), tp, local, perKv, head, perKv * head, size, block, groups,
                    groups * perKv);
    SplitInvertsPack(w, groups, perKv, head);
  }

  // ----- gate and up projections

  datatype GateUp<R> = GateUp(gate: Rows<R>, up: Rows<R>)

  /** Every shard is chunked in two; a shard that does not give two chunks raises. */
  function MergeHalves<R>(shards: seq<Rows<R>>): Option<GateUp<R>> {
    if shards == [] then Some(GateUp([], []))
    else
      var init :- MergeHalves(shards[..|shards| - 1]);
      var halves :- TorchChunk(shards[|shards| - 1], 2);
      if |halves| != 2 then None else Some(GateUp(init.gate + halves[0], init.up + halves[1]))
  }

  lemma {:induction false} MergeHalvesFails<R>(shards: seq<Rows<R>>, i: nat)
    requires i <= |shards| && MergeHalves(shards[..i]) == None
    ensures MergeHalves(shards) == None
    decreases |shards| - i
  {
    if i == |shards| {
      assert shards[..i] == shards;
    } else {
      assert shards[..i + 1][..i] == shards[..i];
      MergeHalvesFails(shards, i + 1);
    }
  }

  method MergeGateUp<R>(shards: seq<Rows<R>>) returns (r: Option<GateUp<R>>)
    ensures r == MergeHalves(shards)
  {
    var gate, up := [], [];
    assert shards[..0] == [];
    for i := 0 to |shards|
      invariant MergeHalves(shards[..i]) == Some(GateUp(gate, up))
    {
      assert shards[..i + 1][..i] == shards[..i];
      var halves := TorchChunk(shards[i], 2).value;
      if |halves| != 2 {
        MergeHalvesFails(shards, i + 1);
        return None;
      }
      gate, up := gate + halves[0], up + halves[1];
    }
    assert shards[..|shards|] == shards;
    return Some(GateUp(gate, up));
  }

  /** What a rank holds: its part of the gate rows above its part of the up rows. */
  function GateUpShards<R>(w: GateUp<R>, tp: nat, h: nat): seq<Rows<R>>
    requires |w.gate| == tp * h && |w.up| == tp * h
  {
    seq(tp, t requires 0 <= t < tp => GroupRows(w.gate, tp, h, t) + GroupRows(w.up, tp, h, t))
  }

  lemma Halves<R>(a: Rows<R>, b: Rows<R>)
    requires |a| == |b|
    ensures TorchChunk(a + b, 2) == Some([a, b])
  {
    if a == [] {
      assert seq(2, _ => []) == [a, b];
    } else {
      ChunkEven(a + b, 2, |a|);
      assert GroupRows(a + b, 2, |a|, 0) == a;
      assert GroupRows(a + b, 2, |a|, 1) == b;
      assert Groups(a + b, 2, |a|) == [a, b];
    }
  }

  lemma {:induction false} MergeHalvesPrefix<R>(w: GateUp<R>, tp: nat, h: nat, m: nat)
    requires |w.gate| == tp * h && |w.up| == tp * h && m <= tp
    ensures MergeHalves(GateUpShards(w, tp, h)[..m])
            == Some(GateUp(Join(Groups(w.gate, tp, h)[..m]), Join(Groups(w.up, tp, h)[..m])))
  {
    if m == 0 {
    } else {
      var shards := GateUpShards(w, tp, h);
      MergeHalvesPrefix(w, tp, h, m - 1);
      assert shards[..m][..m - 1] == shards[..m - 1];
      Halves(GroupRows(w.gate, tp, h, m - 1), GroupRows(w.up, tp, h, m - 1));
      JoinStep(w.gate, tp, h, m);
      JoinStep(w.up, tp, h, m);
    }
  }

  /** Merging the ranks' shards gives the gate and up weights back. */
  lemma GateUpMerged<R>(w: GateUp<R>, tp: nat, h: nat)
    requires |w.gate| == tp * h && |w.up| == tp * h
    ensures MergeHalves(GateUpShards(w, tp, h)) == Some(w)
  {
    MergeHalvesPrefix(w, tp, h, tp);
    assert GateUpShards(w, tp, h)[..tp] == GateUpShards(w, tp, h);
    JoinAllGroups(w.gate, tp, h);
    JoinAllGroups(w.up, tp, h);
  }

  /** Every second block, from `first` on. */
  function EverySecond<R>(blocks: seq<Rows<R>>, tp: nat, first: nat): seq<Rows<R>>
    requires |blocks| == tp * 2 && first < 2
  {
    seq(tp, t requires 0 <= t < tp => blocks[t * 2 + first])
  }

  /** Row blocks `2 * t` and `2 * t + 1` make up plain shard `t`. */
  lemma PlainShard<R>(x: Rows<R>, tp: nat, h: nat, block: nat, all: nat, t: nat)
    requires block == 2 * h && all == tp * 2 && |x| == tp * block == all * h && t < tp
    ensures GroupRows(x, tp, block, t) == GroupRows(x, all, h, t * 2) + GroupRows(x, all, h, t * 2 + 1)
  {
    var shard := GroupRows(x, tp, block, t);
    ShardGroup(x, tp, 2, h, block, all, t, 0);
    ShardGroup(x, tp, 2, h, block, all, t, 1);
    assert GroupRows(shard, 2, h, 0) == shard[..h] && GroupRows(shard, 2, h, 1) == shard[h..];
  }

  /** Merging plain shards collects the even blocks and the odd blocks. */
  lemma PlainCutMerged<R>(x: Rows<R>, tp: nat, h: nat, block: nat, all: nat)
    requires block == 2 * h && all == tp * 2 && |x| == tp * block == all * h
    ensures var blocks := Groups(x, all, h);
            MergeHalves(Groups(x, tp, block))
            == Some(GateUp(Join(EverySecond(blocks, tp, 0)), Join(EverySecond(blocks, tp, 1))))
  {
    var blocks := Groups(x, all, h);
    var evens, odds := EverySecond(blocks, tp, 0), EverySecond(blocks, tp, 1);
    GroupsOfJoin(evens, h);
    GroupsOfJoin(odds, h);
    var w := GateUp(Join(evens), Join(odds));
    forall t | 0 <= t < tp
      ensures GateUpShards(w, tp, h)[t] == Groups(x, tp, block)[t]
    {
      PlainShard(x, tp, h, block, all, t);
      assert Groups(w.gate, tp, h)[t] == evens[t] && Groups(w.up, tp, h)[t] == odds[t];
    }
    assert GateUpShards(w, tp, h) == Groups(x, tp, block);
    GateUpMerged(w, tp, h);
  }

  lemma SameJoin<R>(a: seq<Rows<R>>, b: seq<Rows<R>>, n: nat, h: nat)
    requires |a| == |b| == n && forall i :: 0 <= i < n ==> |a[i]| == h && |b[i]| == h
    ensures Join(a) == Join(b) <==> a == b
  {
    GroupsOfJoin(a, h);
    GroupsOfJoin(b, h);
  }

  /** The gate half of the blocks. */
  lemma GateBlocks<R>(x: Rows<R>, tp: nat, h: nat, half: nat, all: nat)
    requires half == tp * h && all == tp * 2 && |x| == 2 * half == all * h
    ensures var blocks := Groups(x, all, h);
            x[..half] == Join(blocks[..tp]) && x[half..] == Join(blocks[tp..])
  {
    var blocks := Groups(x, all, h);
    JoinGroupsPrefix(x, all, h, tp);
    JoinGroups(x, all, h);
    JoinAppend(blocks[..tp], blocks[tp..]);
    assert blocks[..tp] + blocks[tp..] == blocks;
    assert x == x[..half] + x[half..];
  }

  lemma SameBlocks<R>(blocks: seq<Rows<R>>, tp: nat)
    requires |blocks| == tp * 2
    ensures blocks[..tp] == EverySecond(blocks, tp, 0) && blocks[tp..] == EverySecond(blocks, tp, 1) <==>
              forall i :: 0 <= i < tp ==> blocks[i] == blocks[i * 2] && blocks[tp + i] == blocks[i * 2 + 1]
  {
    forall i | 0 <= i < tp
      ensures blocks[..tp][i] == blocks[i] && blocks[tp..][i] == blocks[tp + i]
      ensures EverySecond(blocks, tp, 0)[i] == blocks[i * 2] && EverySecond(blocks, tp, 1)[i] == blocks[i * 2 + 1]
    {
    }
  }

  /** With an even number of rows a shard, each block has to stand where the merger puts it. */
  lemma EvenCutMerges<R>(x: Rows<R>, tp: nat, h: nat, block: nat, half: nat, all: nat)
    requires block == 2 * h && half == tp * h && all == tp * 2 && |x| == tp * block == 2 * half == all * h
    ensures var blocks := Groups(x, all, h);
            MergeHalves(Groups(x, tp, block)) == Some(GateUp(x[..half], x[half..])) <==>
              forall i :: 0 <= i < tp ==> blocks[i] == blocks[i * 2] && blocks[tp + i] == blocks[i * 2 + 1]
  {
    var blocks := Groups(x, all, h);
    var evens, odds := EverySecond(blocks, tp, 0), EverySecond(blocks, tp, 1);
    PlainCutMerged(x, tp, h, block, all);
    GateBlocks(x, tp, h, half, all);
    SameJoin(blocks[..tp], evens, tp, h);
    SameJoin(blocks[tp..], odds, tp, h);
    SameBlocks(blocks, tp);
  }

  /** A shard with an odd number of rows gives the gate the larger half. */
  lemma {:induction false} OddGateRows<R>(shards: seq<Rows<R>>, h: nat)
    requires forall i :: 0 <= i < |shards| ==> |shards[i]| == 2 * h + 1
    requires MergeHalves(shards).Some?
    ensures |MergeHalves(shards).value.gate| == |shards| * (h + 1)
    decreases |shards|
  {
    if shards == [] {
    } else {
      var n := |shards| - 1;
      OddGateRows(shards[..n], h);
      FirstPiece(shards[n], 2);
      MulSucc(n, h + 1);
    }
  }

  lemma LargerHalves(tp: nat, h: nat, block: nat, half: nat)
    requires block == 2 * h + 1 && tp > 0 && tp * block == 2 * half
    ensures tp * (h + 1) > half
  {
    assert tp * block == 2 * (tp * h) + tp;
    assert tp * (h + 1) == tp * h + tp;
  }

  lemma OddCutFails<R>(x: Rows<R>, tp: nat, h: nat, block: nat, half: nat)
    requires block == 2 * h + 1 && tp > 0 && |x| == tp * block == 2 * half
    ensures MergeHalves(Groups(x, tp, block)) != Some(GateUp(x[..half], x[half..]))
  {
    if MergeHalves(Groups(x, tp, block)).Some? {
      OddGateRows(Groups(x, tp, block), h);
      LargerHalves(tp, h, block, half);
    }
  }

  /**
   The packed weight is not a plain matrix: cut into tp plain shards it survives the merger exactly when a shard has an
   even number of rows and each block of the gate half is the even block, and each of the up half the odd block, that
   the merger puts in its place.
   */
  lemma PlainCutMergesExactly<R>(x: Rows<R>, tp: nat, h: nat, block: nat, half: nat, all: nat)
    requires tp > 0 && all == tp * 2 && |x| == tp * block == 2 * half && (block == 2 * h || block == 2 * h + 1)
    requires block == 2 * h ==> half == tp * h && |x| == all * h
    ensures MergeHalves(Groups(x, tp, block)) == Some(GateUp(x[..half], x[half..])) <==>
              block == 2 * h && var blocks := Groups(x, all, h);
              forall i :: 0 <= i < tp ==> blocks[i] == blocks[i * 2] && blocks[tp + i] == blocks[i * 2 + 1]
  {
    if block == 2 * h {
      EvenCutMerges(x, tp, h, block, half, all);
    } else {
      OddCutFails(x, tp, h, block, half);
    }
  }

  // ----- column-parallel weights

  /** Rank `t` holds a block of columns of every row; the merger concatenates along columns. */
  function ColumnShard<E>(m: seq<seq<E>>, tp: nat, w: nat, t: nat): seq<seq<E>>
    requires t < tp && forall i :: 0 <= i < |m| ==> |m[i]| == tp * w
  {
    seq(|m|, i requires 0 <= i < |m| => GroupRows(m[i], tp, w, t))
  }

  function RowPieces<E>(shards: seq<seq<seq<E>>>, rows: nat, i: nat): seq<seq<E>>
    requires i < rows && forall t :: 0 <= t < |shards| ==> |shards[t]| == rows
  {
    seq(|shards|, t requires 0 <= t < |shards| => shards[t][i])
  }

  function CatColumns<E>(shards: seq<seq<seq<E>>>, rows: nat): seq<seq<E>>
    requires forall t :: 0 <= t < |shards| ==> |shards[t]| == rows
  {
    seq(rows, i requires 0 <= i < rows => Join(RowPieces(shards, rows, i)))
  }

  lemma ColumnsMerged<E>(m: seq<seq<E>>, tp: nat, w: nat)
    requires forall i :: 0 <= i < |m| ==> |m[i]| == tp * w
    ensures CatColumns(seq(tp, t requires 0 <= t < tp => ColumnShard(m, tp, w, t)), |m|) == m
  {
    var shards := seq(tp, t requires 0 <= t < tp => ColumnShard(m, tp, w, t));
    forall i | 0 <= i < |m|
      ensures Join(RowPieces(shards, |m|, i)) == m[i]
    {
      assert RowPieces(shards, |m|, i) == Groups(m[i], tp, w);
      JoinGroups(m[i], tp, w);
    }
  }
}
