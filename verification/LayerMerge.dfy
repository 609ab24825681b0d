/** Merging the pipeline stages of a checkpoint into one dictionary with global layer numbers. */
module LayerMerge {
  import opened Arithmetic
  import opened Common
  import opened Sequences

  /**
   One key of a stage, its name already translated: the local layer it belongs to, if any, and the named tensors that
   its value is split into.
   */
  datatype Piece<V> = Piece(layer: Option<nat>, outs: map<string, V>)

  /** A stage's dictionary in iteration order. */
  type Stage<V> = seq<Piece<V>>

  datatype Key = InLayer(no: nat, name: string) | Global(name: string)

  function KeyOf<V>(piece: Piece<V>, name: string, cum: nat): Key {
    if piece.layer.Some? then InLayer(piece.layer.value + cum, name) else Global(name)
  }

  function Put<V>(state: map<Key, V>, piece: Piece<V>, cum: nat): map<Key, V> {
    state + map name | name in piece.outs :: KeyOf(piece, name, cum) := piece.outs[name]
  }

  /** The largest local layer number seen; zero for a stage without layers. */
  function Handled<V>(stage: Stage<V>): nat {
    if stage == [] then 0
    else
      var init, piece := Handled(stage[..|stage| - 1]), stage[|stage| - 1];
      if piece.layer.Some? then Max(piece.layer.value, init) else init
  }

  function PutStage<V>(state: map<Key, V>, stage: Stage<V>, cum: nat): map<Key, V> {
    if stage == [] then state
    else Put(PutStage(state, stage[..|stage| - 1], cum), stage[|stage| - 1], cum)
  }

  /** The running `layers_cum` before each stage. */
  function LayersBefore<V>(stages: seq<Stage<V>>): nat {
    if stages == [] then 0
    else LayersBefore(stages[..|stages| - 1]) + Handled(stages[|stages| - 1]) + 1
  }

  function Merge<V>(stages: seq<Stage<V>>): map<Key, V> {
    if stages == [] then map[]
    else
      var init := stages[..|stages| - 1];
      PutStage(Merge(init), stages[|stages| - 1], LayersBefore(init))
  }

  /** Virtual stages in the outer loop, pipeline ranks in the inner one. */
  function InOrder<V>(model: seq<seq<Stage<V>>>, vpp: nat): seq<Stage<V>>
    requires forall p :: 0 <= p < |model| ==> |model[p]| == vpp
  {
    seq(vpp * |model|, s requires 0 <= s < vpp * |model| => StageAt(model, vpp, s))
  }

  function StageAt<V>(model: seq<seq<Stage<V>>>, vpp: nat, s: nat): Stage<V>
    requires forall p :: 0 <= p < |model| ==> |model[p]| == vpp
    requires s < vpp * |model|
  {
    GroupOfIndex(s, vpp, |model|);
    model[s % |model|][s / |model|]
  }

  method MergeStage<V>(state: map<Key, V>, stage: Stage<V>, cum: nat) returns (r: map<Key, V>, handled: nat)
    ensures r == PutStage(state, stage, cum) && handled == Handled(stage)
  {
    r, handled := state, 0;
    for i := 0 to |stage|
      invariant r == PutStage(state, stage[..i], cum) && handled == Handled(stage[..i])
    {
      var piece := stage[i];
      assert stage[..i + 1][..i] == stage[..i];
      if piece.layer.Some? {
        handled := Max(piece.layer.value, handled);
      }
      r := Put(r, piece, cum);
    }
    assert stage[..|stage|] == stage;
  }

  /** `_merge_state_dicts`; `model[pp][vpp]` is a stage. */
  method MergeStateDicts<V>(model: seq<seq<Stage<V>>>, vpp: nat) returns (state: map<Key, V>)
    requires forall p :: 0 <= p < |model| ==> |model[p]| == vpp
    ensures state == Merge(InOrder(model, vpp))
  {
    state := map[];
    var layersCum := 0;
    ghost var all := InOrder(model, vpp);
    ghost var s := 0;
    for v := 0 to vpp
      invariant s == v * |model| && s <= |all|
      invariant state == Merge(all[..s]) && layersCum == LayersBefore(all[..s])
    {
      MulMonotone(v + 1, vpp, |model|);
      MulSucc(v, |model|);
      for p := 0 to |model|
        invariant s == v * |model| + p && s <= |all|
        invariant state == Merge(all[..s]) && layersCum == LayersBefore(all[..s])
      {
        GroupIndex(v, p, vpp, |model|);
        var handled: nat;
        state, handled := MergeStage(state, model[p][v], layersCum);
        assert all[..s + 1][..s] == all[..s] && all[s] == model[p][v];
        layersCum := layersCum + handled + 1;
        s := s + 1;
      }
    }
    assert all[..s] == all;
  }

  // ----- renumbering

  /** The stage holds exactly the local layers 0 .. k-1, and no two of its keys name the same tensor of a layer. */
  ghost predicate Holds<V>(stage: Stage<V>, k: nat) {
    && (forall i :: 0 <= i < |stage| && stage[i].layer.Some? ==> stage[i].layer.value < k)
    && (forall j :: 0 <= j < k ==> exists i :: 0 <= i < |stage| && stage[i].layer == Some(j))
    && Separate(stage)
  }

  ghost predicate Separate<V>(stage: Stage<V>) {
    forall i, j :: 0 <= i < j < |stage| && stage[i].layer == stage[j].layer ==> stage[i].outs.Keys !! stage[j].outs.Keys
  }

  ghost predicate HoldsAll<V>(stages: seq<Stage<V>>, sizes: seq<nat>) {
    |stages| == |sizes| && forall s :: 0 <= s < |stages| ==> Holds(stages[s], sizes[s])
  }

  lemma {:induction false} HandledIsMax<V>(stage: Stage<V>)
    ensures forall i :: 0 <= i < |stage| && stage[i].layer.Some? ==> stage[i].layer.value <= Handled(stage)
    ensures Handled(stage) == 0 || exists i :: 0 <= i < |stage| && stage[i].layer == Some(Handled(stage))
  {
    if stage == [] {
    } else {
      var n := |stage| - 1;
      HandledIsMax(stage[..n]);
      forall i | 0 <= i < |stage| && stage[i].layer.Some?
        ensures stage[i].layer.value <= Handled(stage)
      {
        if i < n { assert stage[..n][i] == stage[i]; }
      }
      if Handled(stage) != 0 {
        if Handled(stage) == Handled(stage[..n]) {
          var i :| 0 <= i < n && stage[..n][i].layer == Some(Handled(stage[..n]));
          assert stage[i].layer == Some(Handled(stage));
        } else {
          assert stage[n].layer == Some(Handled(stage));
        }
      }
    }
  }

  /** A stage of k layers is counted as k, except that an empty one is counted as one. */
  lemma HandledCounts<V>(stage: Stage<V>, k: nat)
    requires Holds(stage, k)
    ensures Handled(stage) + 1 == if k == 0 then 1 else k
  {
    HandledIsMax(stage);
    if k > 0 {
      var i :| 0 <= i < |stage| && stage[i].layer == Some(k - 1);
    }
  }

  function EmptyStages(sizes: seq<nat>): nat {
    if sizes == [] then 0
    else EmptyStages(sizes[..|sizes| - 1]) + if sizes[|sizes| - 1] == 0 then 1 else 0
  }

  /**
   The number under which stage `s` starts: its earlier layers, and one more for every earlier stage without layers.
   */
  function StartOf(sizes: seq<nat>, s: nat): nat
    requires s <= |sizes|
  {
    Sum(sizes[..s]) + EmptyStages(sizes[..s])
  }

  lemma {:induction false} CountedLayers<V>(stages: seq<Stage<V>>, sizes: seq<nat>)
    requires HoldsAll(stages, sizes)
    ensures LayersBefore(stages) == Sum(sizes) + EmptyStages(sizes)
    decreases |stages|
  {
    if stages == [] {
    } else {
      var n := |stages| - 1;
      CountedLayers(stages[..n], sizes[..n]);
      HandledCounts(stages[n], sizes[n]);
    }
  }

  lemma {:induction false} NoEmptyStages(sizes: seq<nat>)
    ensures EmptyStages(sizes) == 0 <==> forall s :: 0 <= s < |sizes| ==> sizes[s] > 0
    decreases |sizes|
  {
    if sizes == [] {
    } else {
      var n := |sizes| - 1;
      NoEmptyStages(sizes[..n]);
      assert (forall s :: 0 <= s < |sizes| ==> sizes[s] > 0) <==>
             (forall s :: 0 <= s < n ==> sizes[..n][s] > 0) && sizes[n] > 0;
    }
  }

  /** `layers_cum` is the true count of earlier layers exactly when no earlier stage is empty. */
  lemma RenumberingExact<V>(stages: seq<Stage<V>>, sizes: seq<nat>)
    requires HoldsAll(stages, sizes)
    ensures LayersBefore(stages) == StartOf(sizes, |sizes|) >= Sum(sizes)
    ensures LayersBefore(stages) == Sum(sizes) <==> forall s :: 0 <= s < |sizes| ==> sizes[s] > 0
  {
    assert sizes[..|sizes|] == sizes;
    CountedLayers(stages, sizes);
    NoEmptyStages(sizes);
  }

  // ----- nothing is overwritten

  /** Every tensor of the stage's layers stands in the dictionary under its global number. */
  ghost predicate Present<V>(state: map<Key, V>, piece: Piece<V>, cum: nat) {
    piece.layer.Some? ==>
      forall name :: name in piece.outs ==>
        InLayer(piece.layer.value + cum, name) in state &&
            state[InLayer(piece.layer.value + cum, name)] == piece.outs[name]
  }

  /** A key of the dictionary that a piece can touch. */
  ghost predicate Touches<V>(piece: Piece<V>, key: Key, cum: nat) {
    exists name :: name in piece.outs && KeyOf(piece, name, cum) == key
  }

  lemma PutOther<V>(state: map<Key, V>, piece: Piece<V>, cum: nat, key: Key)
    ensures Touches(piece, key, cum) ==> key in Put(state, piece, cum)
    ensures !Touches(piece, key, cum) ==>
              (key in Put(state, piece, cum) <==> key in state)
              && (key in state ==> Put(state, piece, cum)[key] == state[key])
  {
  }

  lemma {:induction false} StagePresent<V>(state: map<Key, V>, stage: Stage<V>, cum: nat, i: nat)
    requires Separate(stage) && i < |stage|
    ensures Present(PutStage(state, stage, cum), stage[i], cum)
    decreases |stage|
  {
    var n := |stage| - 1;
    if i < n {
      StagePresent(state, stage[..n], cum, i);
      var before := PutStage(state, stage[..n], cum);
      assert stage[..n][i] == stage[i];
      forall name | stage[i].layer.Some? && name in stage[i].outs
        ensures var key := InLayer(stage[i].layer.value + cum, name);
                key in PutStage(state, stage, cum) && PutStage(state, stage, cum)[key] == stage[i].outs[name]
      {
        PutOther(before, stage[n], cum, InLayer(stage[i].layer.value + cum, name));
      }
    }
  }

  /** A stage leaves the layers numbered below its own alone. */
  lemma {:induction false} StageKeeps<V>(state: map<Key, V>, stage: Stage<V>, cum: nat, key: Key)
    requires key.InLayer? && key.no < cum
    ensures key in PutStage(state, stage, cum) <==> key in state
    ensures key in state ==> PutStage(state, stage, cum)[key] == state[key]
    decreases |stage|
  {
    if stage == [] {
    } else {
      var n := |stage| - 1;
      StageKeeps(state, stage[..n], cum, key);
      PutOther(PutStage(state, stage[..n], cum), stage[n], cum, key);
    }
  }

  lemma StageKeepsPiece<V>(state: map<Key, V>, stage: Stage<V>, cum: nat, piece: Piece<V>, earlier: nat)
    requires Present(state, piece, earlier) && (piece.layer.Some? ==> piece.layer.value + earlier < cum)
    ensures Present(PutStage(state, stage, cum), piece, earlier)
  {
    forall name | piece.layer.Some? && name in piece.outs
      ensures var key := InLayer(piece.layer.value + earlier, name);
              key in PutStage(state, stage, cum) && PutStage(state, stage, cum)[key] == piece.outs[name]
    {
      StageKeeps(state, stage, cum, InLayer(piece.layer.value + earlier, name));
    }
  }

  /** Layer `j` of stage `s` ends up under the running count before stage `s`, plus `j`, with its own tensors. */
  lemma {:induction false} MergedLayer<V>(stages: seq<Stage<V>>, s: nat, i: nat)
    requires s < |stages| && i < |stages[s]| && forall t :: 0 <= t < |stages| ==> Separate(stages[t])
    ensures Present(Merge(stages), stages[s][i], LayersBefore(stages[..s]))
    decreases |stages|
  {
    var n := |stages| - 1;
    var init := stages[..n];
    if s == n {
      StagePresent(Merge(init), stages[n], LayersBefore(init), i);
    } else {
      MergedLayer(init, s, i);
      assert init[..s] == stages[..s];
      LayersGrow(stages, s, n);
      HandledIsMax(stages[s]);
      StageKeepsPiece(Merge(init), stages[n], LayersBefore(init), stages[s][i], LayersBefore(stages[..s]));
    }
  }

  lemma {:induction false} LayersGrow<V>(stages: seq<Stage<V>>, s: nat, t: nat)
    requires s < t <= |stages|
    ensures LayersBefore(stages[..s]) + Handled(stages[s]) + 1 <= LayersBefore(stages[..t])
    decreases t
  {
    assert stages[..t][..t - 1] == stages[..t - 1];
    if s < t - 1 {
      LayersGrow(stages, s, t - 1);
    }
  }

  /** Every layer entry of the result comes from some stage's own layer. */
  lemma {:induction false} MergedFrom<V>(stages: seq<Stage<V>>, key: Key)
    requires key.InLayer? && key in Merge(stages)
    ensures exists s, i :: 0 <= s < |stages| && 0 <= i < |stages[s]| &&
              Touches(stages[s][i], key, LayersBefore(stages[..s]))
    decreases |stages|
  {
    var n := |stages| - 1;
    var init := stages[..n];
    if exists i :: 0 <= i < |stages[n]| && Touches(stages[n][i], key, LayersBefore(init)) {
    } else {
      StageUntouched(Merge(init), stages[n], LayersBefore(init), key);
      MergedFrom(init, key);
      var s, i :| 0 <= s < |init| && 0 <= i < |init[s]| && Touches(init[s][i], key, LayersBefore(init[..s]));
      assert init[..s] == stages[..s] && init[s] == stages[s];
    }
  }

  lemma {:induction false} StageUntouched<V>(state: map<Key, V>, stage: Stage<V>, cum: nat, key: Key)
    requires forall i :: 0 <= i < |stage| ==> !Touches(stage[i], key, cum)
    ensures key in PutStage(state, stage, cum) <==> key in state
    decreases |stage|
  {
    if stage == [] {
    } else {
      var n := |stage| - 1;
      StageUntouched(state, stage[..n], cum, key);
      PutOther(PutStage(state, stage[..n], cum), stage[n], cum, key);
    }
  }

  // ----- the numbering is a bijection

  lemma {:induction false} SumGrows(sizes: seq<nat>, s: nat, t: nat)
    requires s < t <= |sizes|
    ensures Sum(sizes[..s]) + sizes[s] <= Sum(sizes[..t])
    decreases t
  {
    assert sizes[..t][..t - 1] == sizes[..t - 1];
    if s < t - 1 {
      SumGrows(sizes, s, t - 1);
    }
  }

  /** Without empty stages, stage `s` starts at the number of layers before it, and its layers end below the total. */
  lemma GlobalNumber(sizes: seq<nat>, s: nat, j: nat)
    requires s < |sizes| && j < sizes[s]
    requires forall t :: 0 <= t < |sizes| ==> sizes[t] > 0
    ensures StartOf(sizes, s) + j == Sum(sizes[..s]) + j < Sum(sizes)
  {
    NoEmptyStages(sizes[..s]);
    SumGrows(sizes, s, |sizes|);
    assert sizes[..|sizes|] == sizes;
  }

  /** Two stages never share a number. */
  lemma NumbersDiffer(sizes: seq<nat>, s: nat, j: nat, t: nat, k: nat)
    requires s < |sizes| && t < |sizes| && j < sizes[s] && k < sizes[t]
    requires Sum(sizes[..s]) + j == Sum(sizes[..t]) + k
    ensures s == t && j == k
  {
    if s < t { SumGrows(sizes, s, t); }
    if t < s { SumGrows(sizes, t, s); }
  }

  /** Every number below the total is taken. */
  lemma {:induction false} NumberTaken(sizes: seq<nat>, no: nat) returns (s: nat, j: nat)
    requires no < Sum(sizes)
    ensures s < |sizes| && j < sizes[s] && no == Sum(sizes[..s]) + j
    decreases |sizes|
  {
    var n := |sizes| - 1;
    if no < Sum(sizes[..n]) {
      s, j := NumberTaken(sizes[..n], no);
      assert sizes[..n][..s] == sizes[..s];
    } else {
      s, j := n, no - Sum(sizes[..n]);
    }
  }

  /**
   The layer entries of the merged dictionary are exactly the stages' own: layer `j` of stage `s` under number
   `StartOf(sizes, s) + j`, each name with its own tensor.
   */
  lemma MergeRenumbers<V>(stages: seq<Stage<V>>, sizes: seq<nat>, no: nat, name: string)
    requires HoldsAll(stages, sizes)
    ensures InLayer(no, name) in Merge(stages) <==>
              exists s, i :: 0 <= s < |stages| && 0 <= i < |stages[s]| &&
                  Owns(stages[s][i], no, name, StartOf(sizes, s))
    ensures forall s, i ::
              0 <= s < |stages| && 0 <= i < |stages[s]| && Owns(stages[s][i], no, name, StartOf(sizes, s)) ==>
              InLayer(no, name) in Merge(stages) && Merge(stages)[InLayer(no, name)] == stages[s][i].outs[name]
  {
    forall s | 0 <= s < |stages|
      ensures LayersBefore(stages[..s]) == StartOf(sizes, s)
    {
      CountedLayers(stages[..s], sizes[..s]);
    }
    forall s, i | 0 <= s < |stages| && 0 <= i < |stages[s]| && Owns(stages[s][i], no, name, StartOf(sizes, s))
      ensures InLayer(no, name) in Merge(stages) && Merge(stages)[InLayer(no, name)] == stages[s][i].outs[name]
    {
      MergedLayer(stages, s, i);
    }
    if InLayer(no, name) in Merge(stages) {
      MergedFrom(stages, InLayer(no, name));
      var s, i :| 0 <= s < |stages| && 0 <= i < |stages[s]|
                  && Touches(stages[s][i], InLayer(no, name), LayersBefore(stages[..s]));
      assert Owns(stages[s][i], no, name, StartOf(sizes, s));
    }
  }

  ghost predicate Owns<V>(piece: Piece<V>, no: nat, name: string, before: nat) {
    piece.layer.Some? && no == before + piece.layer.value && name in piece.outs
  }

  lemma StartTooHigh(sizes: seq<nat>, t: nat, s: nat)
    requires t < s < |sizes| && sizes[t] == 0
    ensures StartOf(sizes, s) > Sum(sizes[..s])
  {
    NoEmptyStages(sizes[..s]);
    assert sizes[..s][t] == 0;
  }

  /** Behind an empty stage every layer stands under a number that is too high. */
  lemma EmptyStageShifts<V>(stages: seq<Stage<V>>, sizes: seq<nat>, t: nat, s: nat, i: nat, name: string)
    requires HoldsAll(stages, sizes) && t < s < |stages| && sizes[t] == 0
    requires i < |stages[s]| && stages[s][i].layer.Some? && name in stages[s][i].outs
    ensures var no := StartOf(sizes, s) + stages[s][i].layer.value;
      && no > Sum(sizes[..s]) + stages[s][i].layer.value
      && InLayer(no, name) in Merge(stages) && Merge(stages)[InLayer(no, name)] == stages[s][i].outs[name]
  {
    var no := StartOf(sizes, s) + stages[s][i].layer.value;
    StartTooHigh(sizes, t, s);
    MergeRenumbers(stages, sizes, no, name);
    assert Owns(stages[s][i], no, name, StartOf(sizes, s));
  }

  /** No layer has an empty stage before it. */
  ghost predicate EmptyOnlyLast(sizes: seq<nat>) {
    forall t, s :: 0 <= t < s < |sizes| && sizes[t] == 0 ==> sizes[s] == 0
  }

  ghost predicate NumberedRight(sizes: seq<nat>, s: nat)
    requires s < |sizes|
  {
    sizes[s] > 0 ==> StartOf(sizes, s) == Sum(sizes[..s])
  }

  /** All layers get their true numbers exactly when empty stages come last. */
  lemma NumbersRightExactly(sizes: seq<nat>)
    ensures (forall s :: 0 <= s < |sizes| ==> NumberedRight(sizes, s)) <==> EmptyOnlyLast(sizes)
  {
    forall s | 0 <= s < |sizes|
      ensures StartOf(sizes, s) == Sum(sizes[..s]) <==> forall t :: 0 <= t < s ==> sizes[t] > 0
    {
      NoEmptyStages(sizes[..s]);
      assert forall t :: 0 <= t < s ==> sizes[..s][t] == sizes[t];
    }
    if !EmptyOnlyLast(sizes) {
      var t, s :| 0 <= t < s < |sizes| && sizes[t] == 0 && sizes[s] != 0;
      assert !NumberedRight(sizes, s);
    }
  }

  // ----- numbers in the model

  /** The layers that pipeline ranks before `p` hold in virtual stage `v`. */
  function RankLayers(k: seq<seq<nat>>, v: nat, p: nat): nat
    requires p <= |k| && forall q :: 0 <= q < |k| ==> v < |k[q]|
  {
    if p == 0 then 0 else RankLayers(k, v, p - 1) + k[p - 1][v]
  }

  /** The layers of all virtual stages before `v`. */
  function VirtualLayers(k: seq<seq<nat>>, v: nat): nat
    requires forall q :: 0 <= q < |k| ==> v <= |k[q]|
  {
    if v == 0 then 0 else VirtualLayers(k, v - 1) + RankLayers(k, v - 1, |k|)
  }

  /** Rank `p` holds `k[p][v]` layers, at least one, in its virtual stage `v`. */
  ghost predicate ModelHolds<V>(model: seq<seq<Stage<V>>>, k: seq<seq<nat>>, vpp: nat) {
    && |model| == |k| && (forall p :: 0 <= p < |k| ==> |model[p]| == |k[p]| == vpp)
    && forall p, v :: 0 <= p < |k| && 0 <= v < vpp ==> k[p][v] > 0 && Holds(model[p][v], k[p][v])
  }

  /** The sizes of the stages in the order in which they are merged. */
  function SizesInOrder(k: seq<seq<nat>>, vpp: nat): seq<nat>
    requires forall p :: 0 <= p < |k| ==> |k[p]| == vpp
  {
    seq(vpp * |k|, s requires 0 <= s < vpp * |k| => SizeAt(k, vpp, s))
  }

  function SizeAt(k: seq<seq<nat>>, vpp: nat, s: nat): nat
    requires (forall p :: 0 <= p < |k| ==> |k[p]| == vpp) && s < vpp * |k|
  {
    GroupOfIndex(s, vpp, |k|);
    k[s % |k|][s / |k|]
  }

  lemma {:induction false} LayersAhead(k: seq<seq<nat>>, vpp: nat, v: nat, p: nat)
    requires (forall q :: 0 <= q < |k| ==> |k[q]| == vpp) && v < vpp && p <= |k|
    ensures 0 <= v * |k| + p <= vpp * |k|
    ensures Sum(SizesInOrder(k, vpp)[..v * |k| + p]) == VirtualLayers(k, v) + RankLayers(k, v, p)
    decreases v, p
  {
    var sizes := SizesInOrder(k, vpp);
    MulMonotone(v + 1, vpp, |k|);
    MulSucc(v, |k|);
    if p > 0 {
      LayersAhead(k, vpp, v, p - 1);
      GroupIndex(v, p - 1, vpp, |k|);
      var s := v * |k| + p - 1;
      assert sizes[..s + 1][..s] == sizes[..s] && sizes[s] == k[p - 1][v];
    } else if v > 0 {
      LayersAhead(k, vpp, v - 1, |k|);
      MulSucc(v - 1, |k|);
      assert (v - 1) * |k| + |k| == v * |k|;
    } else {
      assert 0 * |k| == 0;
    }
  }

  lemma ModelInOrder<V>(model: seq<seq<Stage<V>>>, k: seq<seq<nat>>, vpp: nat)
    requires ModelHolds(model, k, vpp)
    ensures HoldsAll(InOrder(model, vpp), SizesInOrder(k, vpp))
    ensures forall s :: 0 <= s < vpp * |k| ==> SizesInOrder(k, vpp)[s] > 0
  {
    forall s | 0 <= s < vpp * |k|
      ensures SizeAt(k, vpp, s) > 0 && Holds(StageAt(model, vpp, s), SizeAt(k, vpp, s))
    {
      GroupOfIndex(s, vpp, |k|);
    }
  }

  /** Layer `j` of rank `p`'s virtual stage `v` starts after all earlier virtual stages and the ranks before `p`. */
  lemma ModelStart<V>(model: seq<seq<Stage<V>>>, k: seq<seq<nat>>, vpp: nat, p: nat, v: nat)
    requires ModelHolds(model, k, vpp) && p < |model| && v < vpp
    ensures 0 <= v * |k| + p < vpp * |k| && InOrder(model, vpp)[v * |k| + p] == model[p][v]
    ensures StartOf(SizesInOrder(k, vpp), v * |k| + p) == VirtualLayers(k, v) + RankLayers(k, v, p)
  {
    var sizes, s := SizesInOrder(k, vpp), v * |k| + p;
    ModelInOrder(model, k, vpp);
    GroupIndex(v, p, vpp, |k|);
    LayersAhead(k, vpp, v, p);
    NoEmptyStages(sizes[..s]);
  }

  /** The i-th key of rank `p`'s virtual stage `v` is for this name in layer `no` of the model. */
  ghost predicate ModelOwns<V>(
    model: seq<seq<Stage<V>>>, k: seq<seq<nat>>, vpp: nat, p: int, v: int, i: int, no: nat, name: string)
    requires ModelHolds(model, k, vpp)
  {
    && 0 <= p < |model| && 0 <= v < vpp && 0 <= i < |model[p][v]|
    && Owns(model[p][v][i], no, name, VirtualLayers(k, v) + RankLayers(k, v, p))
  }

  lemma ModelOwner<V>(
    model: seq<seq<Stage<V>>>, k: seq<seq<nat>>, vpp: nat, p: nat, v: nat, i: nat, no: nat, name: string)
    requires ModelHolds(model, k, vpp) && ModelOwns(model, k, vpp, p, v, i, no, name)
    ensures InLayer(no, name) in Merge(InOrder(model, vpp))
    ensures Merge(InOrder(model, vpp))[InLayer(no, name)] == model[p][v][i].outs[name]
  {
    var stages, sizes := InOrder(model, vpp), SizesInOrder(k, vpp);
    ModelInOrder(model, k, vpp);
    ModelStart(model, k, vpp, p, v);
    MergeRenumbers(stages, sizes, no, name);
    assert Owns(stages[v * |k| + p][i], no, name, StartOf(sizes, v * |k| + p));
  }

  lemma FlatOwned<V>(stages: seq<Stage<V>>, sizes: seq<nat>, no: nat, name: string) returns (s: nat, i: nat)
    requires HoldsAll(stages, sizes) && InLayer(no, name) in Merge(stages)
    ensures s < |stages| && i < |stages[s]| && Owns(stages[s][i], no, name, StartOf(sizes, s))
  {
    MergeRenumbers(stages, sizes, no, name);
    s, i :| 0 <= s < |stages| && 0 <= i < |stages[s]| && Owns(stages[s][i], no, name, StartOf(sizes, s));
  }

  lemma ModelOwned<V>(model: seq<seq<Stage<V>>>, k: seq<seq<nat>>, vpp: nat, no: nat, name: string)
    returns (p: nat, v: nat, i: nat)
    requires ModelHolds(model, k, vpp) && InLayer(no, name) in Merge(InOrder(model, vpp))
    ensures ModelOwns(model, k, vpp, p, v, i, no, name)
  {
    ModelInOrder(model, k, vpp);
    var s: nat;
    s, i := FlatOwned(InOrder(model, vpp), SizesInOrder(k, vpp), no, name);
    p, v := PlaceOf(s, |k|, vpp);
    ModelStart(model, k, vpp, p, v);
  }

  lemma PlaceOf(s: nat, ranks: nat, vpp: nat) returns (p: nat, v: nat)
    requires s < vpp * ranks
    ensures p < ranks && v < vpp && s == v * ranks + p
  {
    GroupOfIndex(s, vpp, ranks);
    p, v := s % ranks, s / ranks;
  }

  /**
   The layer entries of the merged model: layer `j` of rank `p`'s virtual stage `v` has as number the layers of all
   virtual stages before `v`, on all ranks, and of the ranks before `p` in stage `v`, plus `j`. There are no others.
   */
  lemma ModelNumbers<V>(model: seq<seq<Stage<V>>>, k: seq<seq<nat>>, vpp: nat, no: nat, name: string)
    requires ModelHolds(model, k, vpp)
    ensures InLayer(no, name) in Merge(InOrder(model, vpp)) <==>
              exists p, v, i :: ModelOwns(model, k, vpp, p, v, i, no, name)
    ensures forall p, v, i :: ModelOwns(model, k, vpp, p, v, i, no, name) ==>
              Merge(InOrder(model, vpp))[InLayer(no, name)] == model[p][v][i].outs[name]
  {
    forall p, v, i | ModelOwns(model, k, vpp, p, v, i, no, name)
      ensures InLayer(no, name) in Merge(InOrder(model, vpp))
      ensures Merge(InOrder(model, vpp))[InLayer(no, name)] == model[p][v][i].outs[name]
    {
      ModelOwner(model, k, vpp, p, v, i, no, name);
    }
    if InLayer(no, name) in Merge(InOrder(model, vpp)) {
      var p, v, i := ModelOwned(model, k, vpp, no, name);
    }
  }

  // ----- tensors outside the layers

  /** Of the tensors of one name outside the layers the one merged last stays. */
  lemma {:induction false} StageGlobal<V>(state: map<Key, V>, stage: Stage<V>, cum: nat, i: nat, name: string)
    requires i < |stage| && stage[i].layer == None && name in stage[i].outs
    requires forall j :: i < j < |stage| ==> stage[j].layer.Some? || name !in stage[j].outs
    ensures Global(name) in PutStage(state, stage, cum)
    ensures PutStage(state, stage, cum)[Global(name)] == stage[i].outs[name]
    decreases |stage|
  {
    var n := |stage| - 1;
    if i < n {
      StageGlobal(state, stage[..n], cum, i, name);
      PutOther(PutStage(state, stage[..n], cum), stage[n], cum, Global(name));
    }
  }

  lemma {:induction false} StageKeepsGlobal<V>(state: map<Key, V>, stage: Stage<V>, cum: nat, name: string)
    requires forall j :: 0 <= j < |stage| ==> stage[j].layer.Some? || name !in stage[j].outs
    ensures Global(name) in PutStage(state, stage, cum) <==> Global(name) in state
    ensures Global(name) in state ==> PutStage(state, stage, cum)[Global(name)] == state[Global(name)]
    decreases |stage|
  {
    if stage == [] {
    } else {
      var n := |stage| - 1;
      StageKeepsGlobal(state, stage[..n], cum, name);
      PutOther(PutStage(state, stage[..n], cum), stage[n], cum, Global(name));
    }
  }

  ghost predicate HasGlobal<V>(stage: Stage<V>, name: string) {
    exists i :: 0 <= i < |stage| && stage[i].layer == None && name in stage[i].outs
  }

  /** A tensor outside the layers is in the result exactly when some stage has it. */
  lemma {:induction false} MergedGlobals<V>(stages: seq<Stage<V>>, name: string)
    ensures Global(name) in Merge(stages) <==> exists s :: 0 <= s < |stages| && HasGlobal(stages[s], name)
    decreases |stages|
  {
    if stages == [] {
    } else {
      var n := |stages| - 1;
      MergedGlobals(stages[..n], name);
      if HasGlobal(stages[n], name) {
        var i := LastGlobal(stages[n], name);
        StageGlobal(Merge(stages[..n]), stages[n], LayersBefore(stages[..n]), i, name);
      } else {
        StageKeepsGlobal(Merge(stages[..n]), stages[n], LayersBefore(stages[..n]), name);
        if s :| 0 <= s < n && HasGlobal(stages[..n][s], name) {
          assert HasGlobal(stages[s], name);
        }
        if s :| 0 <= s < |stages| && HasGlobal(stages[s], name) {
          assert stages[..n][s] == stages[s];
        }
      }
    }
  }

  lemma {:induction false} LastGlobal<V>(stage: Stage<V>, name: string) returns (i: nat)
    requires HasGlobal(stage, name)
    ensures i < |stage| && stage[i].layer == None && name in stage[i].outs
    ensures forall j :: i < j < |stage| ==> stage[j].layer.Some? || name !in stage[j].outs
    decreases |stage|
  {
    var n := |stage| - 1;
    if stage[n].layer == None && name in stage[n].outs {
      i := n;
    } else {
      assert HasGlobal(stage[..n], name) by {
        var k :| 0 <= k < |stage| && stage[k].layer == None && name in stage[k].outs;
        assert stage[..n][k] == stage[k];
      }
      i := LastGlobal(stage[..n], name);
    }
  }

  /** And then it is the one of the last stage that has it, there the last. */
  lemma {:induction false} MergedGlobal<V>(stages: seq<Stage<V>>, s: nat, i: nat, name: string)
    requires s < |stages| && i < |stages[s]| && stages[s][i].layer == None && name in stages[s][i].outs
    requires forall j :: i < j < |stages[s]| ==> stages[s][j].layer.Some? || name !in stages[s][j].outs
    requires forall t :: s < t < |stages| ==> !HasGlobal(stages[t], name)
    ensures Global(name) in Merge(stages) && Merge(stages)[Global(name)] == stages[s][i].outs[name]
    decreases |stages|
  {
    var n := |stages| - 1;
    if s == n {
      StageGlobal(Merge(stages[..n]), stages[n], LayersBefore(stages[..n]), i, name);
    } else {
      MergedGlobal(stages[..n], s, i, name);
      assert !HasGlobal(stages[n], name);
      StageKeepsGlobal(Merge(stages[..n]), stages[n], LayersBefore(stages[..n]), name);
    }
  }
}
