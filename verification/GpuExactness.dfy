/** The several-pool check accepts exactly what fits, on every cluster, exactly for good pools. */
module GpuExactness {
  import opened Common
  import opened Arithmetic
  import opened GpuCheck
  import opened GpuCompleteness
  import opened GpuIncompleteness
  import opened Sequences

  // ----- packing single-node jobs

  /** The active jobs that stand on node `v`. */
  function OnNode(active: seq<bool>, f: seq<nat>, v: nat): seq<bool>
    requires |f| == |active|
  {
    seq(|active|, i requires 0 <= i < |active| => active[i] && f[i] == v)
  }

  ghost predicate Packed(ds: seq<nat>, active: seq<bool>, f: seq<nat>, caps: seq<nat>) {
    && |active| == |f| == |ds|
    && (forall i :: 0 <= i < |ds| && active[i] ==> ds[i] > 0 && f[i] < |caps|)
    && forall v :: 0 <= v < |caps| ==> SumWhere(ds, OnNode(active, f, v)) <= caps[v]
  }

  /** Taking one job off its node. */
  lemma WithoutOne(ds: seq<nat>, active: seq<bool>, f: seq<nat>, i: nat)
    requires |active| == |f| == |ds| && i < |ds| && active[i]
    ensures SumWhere(ds, OnNode(active, f, f[i])) == ds[i] + SumWhere(ds, OnNode(active[i := false], f, f[i]))
  {
    var one := seq(|ds|, k => k == i);
    SumOnly(ds, one, i);
    SumSplit(ds, one, OnNode(active[i := false], f, f[i]), OnNode(active, f, f[i]));
  }

  /** What stood on node `b` moves to where job `i` was. */
  function Replace(active: seq<bool>, f: seq<nat>, b: nat, c: nat): seq<nat>
    requires |f| == |active|
  {
    seq(|f|, k requires 0 <= k < |f| => if active[k] && f[k] == b then c else f[k])
  }

  lemma ReplaceLoads(ds: seq<nat>, active: seq<bool>, f: seq<nat>, i: nat, b: nat, v: nat)
    requires |active| == |f| == |ds| && i < |ds| && active[i] && f[i] != b
    ensures var (rest, moved) := (active[i := false], Replace(active, f, b, f[i]));
      && (v == b ==> SumWhere(ds, OnNode(rest, moved, v)) == 0)
      && (v == f[i] ==> SumWhere(ds, OnNode(rest, moved, v)) + ds[i]
                        == SumWhere(ds, OnNode(active, f, v)) + SumWhere(ds, OnNode(active, f, b)))
      && (v != b && v != f[i] ==> SumWhere(ds, OnNode(rest, moved, v)) == SumWhere(ds, OnNode(active, f, v)))
  {
    var (rest, moved) := (active[i := false], Replace(active, f, b, f[i]));
    if v == b {
      SumNone(ds, OnNode(rest, moved, v));
    } else if v == f[i] {
      WithoutOne(ds, active, f, i);
      SumSplit(ds, OnNode(rest, f, v), OnNode(active, f, b), OnNode(rest, moved, v));
    } else {
      assert OnNode(rest, moved, v) == OnNode(active, f, v);
    }
  }

  /** A job and a node of just its size can both be left out. */
  lemma Cancel(ds: seq<nat>, active: seq<bool>, f: seq<nat>, caps: seq<nat>, i: nat, b: nat) returns (f': seq<nat>)
    requires Packed(ds, active, f, caps) && i < |ds| && active[i] && b < |caps| && caps[b] == ds[i]
    ensures Packed(ds, active[i := false], f', caps[b := 0])
  {
    var rest := active[i := false];
    if f[i] == b {
      f' := f;
      WithoutOne(ds, active, f, i);
      forall v | 0 <= v < |caps|
        ensures SumWhere(ds, OnNode(rest, f, v)) <= caps[b := 0][v]
      {
        if v != b {
          assert OnNode(rest, f, v) == OnNode(active, f, v);
        }
      }
    } else {
      f' := Replace(active, f, b, f[i]);
      forall v | 0 <= v < |caps|
        ensures SumWhere(ds, OnNode(rest, f', v)) <= caps[b := 0][v]
      {
        ReplaceLoads(ds, active, f, i, b, v);
      }
    }
  }

  // ----- jobs that cannot be exchanged for the first

  /** The positive jobs that are not yet left out, of which all but the chosen ones go in turn. */
  function StillThere(ds: seq<nat>, t: seq<bool>, k: nat): seq<bool>
    requires |t| == |ds|
  {
    seq(|ds|, i requires 0 <= i < |ds| => ds[i] > 0 && (t[i] || i >= k))
  }

  /** Node 0, then job 0's nodes, then one for every job not chosen that is still there, then spare nodes. */
  function Caps(ds: seq<nat>, t: seq<bool>, k: nat, first: nat, n: nat, middle: nat, last: nat, spare: nat): seq<nat>
    requires |t| == |ds|
  {
    seq(1 + n + |ds| + spare, v requires v >= 0 =>
      if v == 0 then first else if v < n then middle else if v == n then last
      else if v < 1 + n + |ds| && StillThere(ds, t, k)[v - 1 - n] && !t[v - 1 - n] then ds[v - 1 - n] else 0)
  }

  lemma {:induction false} CancelAll(
    ds: seq<nat>, t: seq<bool>, f: seq<nat>, k: nat, first: nat, n: nat, last: nat, spare: nat)
    returns (f': seq<nat>)
    requires |t| == |ds| && k <= |ds| && Packed(ds, StillThere(ds, t, k), f, Caps(ds, t, k, first, n, 0, last, spare))
    ensures Packed(ds, StillThere(ds, t, |ds|), f', Caps(ds, t, |ds|, first, n, 0, last, spare))
    decreases |ds| - k
  {
    if k == |ds| {
      f' := f;
    } else {
      var (active, caps) := (StillThere(ds, t, k), Caps(ds, t, k, first, n, 0, last, spare));
      var next := f;
      if active[k] && !t[k] {
        next := Cancel(ds, active, f, caps, k, 1 + n + k);
        assert active[k := false] == StillThere(ds, t, k + 1);
        assert caps[1 + n + k := 0] == Caps(ds, t, k + 1, first, n, 0, last, spare);
      } else {
        assert active == StillThere(ds, t, k + 1);
        assert caps == Caps(ds, t, k + 1, first, n, 0, last, spare);
      }
      f' := CancelAll(ds, t, next, k + 1, first, n, last, spare);
    }
  }

  lemma NodeHoldsJob(ds: seq<nat>, active: seq<bool>, f: seq<nat>, caps: seq<nat>, i: nat)
    requires Packed(ds, active, f, caps) && i < |ds| && active[i]
    ensures caps[f[i]] >= ds[i] > 0
  {
    var one := seq(|ds|, k => k == i);
    SumOnly(ds, one, i);
    SumMono(ds, one, OnNode(active, f, f[i]));
  }

  /** Chosen jobs on two nodes of just their total size: those on the second fill it. */
  lemma TwoNodes(ds: seq<nat>, t: seq<bool>, f: seq<nat>, d: nat, n: nat, spare: nat) returns (u: seq<bool>)
    requires |t| == |ds| && n >= 1 && SumWhere(ds, t) > d
    requires Packed(ds, StillThere(ds, t, |ds|), f, Caps(ds, t, |ds|, SumWhere(ds, t) - d, n, 0, d, spare))
    ensures Sub(u, t) && SumWhere(ds, u) == d
  {
    var (active, caps) := (StillThere(ds, t, |ds|), Caps(ds, t, |ds|, SumWhere(ds, t) - d, n, 0, d, spare));
    u := OnNode(active, f, n);
    var w := OnNode(active, f, 0);
    forall i | 0 <= i < |ds| && active[i]
      ensures f[i] == 0 || f[i] == n
    {
      NodeHoldsJob(ds, active, f, caps, i);
    }
    SumSplit(ds, u, w, active);
    SumMono(ds, t, active);
  }

  /** Room for exactly the chosen jobs on node 0, for job 0 behind it, and for every other job. */
  function Tight(jobs: seq<Job>, t: seq<bool>): seq<nat>
    requires jobs != [] && |t| == |jobs| - 1
  {
    var ds := Gpus(jobs[1..]);
    Caps(ds, t, 0, SumWhere(ds, t), jobs[0].count, jobs[0].gpus, jobs[0].gpus, AllNodes(jobs))
  }

  ghost function TightPlacement(jobs: seq<Job>, t: seq<bool>): seq<set<nat>>
    requires jobs != [] && |t| == |jobs| - 1
  {
    var n := jobs[0].count;
    seq(|jobs|, i requires 0 <= i < |jobs| =>
      if i == 0 then Nodes(1, n + 1)
      else if jobs[i].gpus == 0 then Nodes(0, jobs[i].count)
      else if t[i - 1] then Nodes(0, 1) else Nodes(n + i, n + i + 1))
  }

  ghost predicate Singles(jobs: seq<Job>) {
    forall i :: 0 <= i < |jobs| && jobs[i].gpus > 0 ==> jobs[i].count == 1
  }

  lemma TightPlaces(jobs: seq<Job>, t: seq<bool>)
    requires jobs != [] && |t| == |jobs| - 1 && Counted(jobs) && Singles(jobs[1..]) && jobs[0].gpus > 0
    ensures Places(jobs, TightPlacement(jobs, t), Tight(jobs, t))
  {
    var n := jobs[0].count;
    var (ds, x, placement) := (Gpus(jobs[1..]), Tight(jobs, t), TightPlacement(jobs, t));
    AllNodesRoomy(jobs, |x|);
    forall i | 0 <= i < |jobs|
      ensures |placement[i]| == jobs[i].count && forall v :: v in placement[i] ==> v < |x|
    {
      if i > 0 {
        assert jobs[1..][i - 1] == jobs[i];
      }
    }
    forall v | 0 <= v < |x|
      ensures SumWhere(Gpus(jobs), At(placement, v)) <= x[v]
    {
      LoadSplit(jobs, placement, v);
      TightLoad(jobs, t, v);
    }
  }

  /** A later job that wants processes stands on node 0 if chosen, on its own node otherwise. */
  lemma TightAt(jobs: seq<Job>, t: seq<bool>, i: nat, v: nat)
    requires jobs != [] && |t| == |jobs| - 1 && i < |t| && jobs[i + 1].gpus > 0
    ensures v in TightPlacement(jobs, t)[1..][i] <==> v == if t[i] then 0 else jobs[0].count + i + 1
  {
    assert TightPlacement(jobs, t)[1..][i] == TightPlacement(jobs, t)[i + 1];
  }

  lemma TightLoad(jobs: seq<Job>, t: seq<bool>, v: nat)
    requires jobs != [] && |t| == |jobs| - 1 && jobs[0].gpus > 0 && v < |Tight(jobs, t)|
    ensures SumWhere(Gpus(jobs[1..]), At(TightPlacement(jobs, t)[1..], v)) <=
              if 1 <= v <= jobs[0].count then 0 else Tight(jobs, t)[v]
  {
    var (ds, at) := (Gpus(jobs[1..]), At(TightPlacement(jobs, t)[1..], v));
    forall i | 0 <= i < |ds| && ds[i] > 0
      ensures at[i] <==> v == if t[i] then 0 else jobs[0].count + i + 1
    {
      assert jobs[1..][i] == jobs[i + 1];
      TightAt(jobs, t, i, v);
    }
    TightSum(ds, t, at, v, SumWhere(ds, t), jobs[0].count, jobs[0].gpus, AllNodes(jobs));
  }

  lemma TightSum(ds: seq<nat>, t: seq<bool>, at: seq<bool>, v: nat, first: nat, n: nat, d: nat, spare: nat)
    requires |t| == |at| == |ds| && first == SumWhere(ds, t) && n >= 0
    requires v < |Caps(ds, t, 0, first, n, d, d, spare)|
    requires forall i :: 0 <= i < |ds| && ds[i] > 0 ==> (at[i] <==> v == if t[i] then 0 else n + i + 1)
    ensures SumWhere(ds, at) <= if 1 <= v <= n then 0 else Caps(ds, t, 0, first, n, d, d, spare)[v]
  {
    if v == 0 {
      SumMono(ds, at, t);
    } else if n < v < 1 + n + |ds| && !t[v - 1 - n] {
      var j := v - 1 - n;
      SumOnly(ds, at, j);
      assert StillThere(ds, t, 0)[j] <==> ds[j] > 0;
      assert Caps(ds, t, 0, first, n, d, d, spare)[v] == if StillThere(ds, t, 0)[j] && !t[j] then ds[j] else 0;
    } else {
      SumNone(ds, at);
    }
  }

  lemma CapsTaken(ds: seq<nat>, t: seq<bool>, first: nat, n: nat, d: nat, spare: nat)
    requires |t| == |ds| && first >= d && n >= 1
    ensures Take(Caps(ds, t, 0, first, n, d, d, spare), d, n, 0) == (Caps(ds, t, 0, first - d, n, 0, d, spare), 0)
  {
    var x := Caps(ds, t, 0, first, n, d, d, spare);
    TakeFirst(x, d, n, 0);
    assert Take(x, d, n, 0).0 == Caps(ds, t, 0, first - d, n, 0, d, spare);
  }

  /** First fit puts job 0 on node 0, and then the chosen jobs would have to fill what is left exactly. */
  lemma TightMissed(jobs: seq<Job>, t: seq<bool>)
    requires jobs != [] && |t| == |jobs| - 1 && Counted(jobs) && Singles(jobs[1..]) && jobs[0].gpus > 0
    requires SumWhere(Gpus(jobs[1..]), t) > jobs[0].gpus
    requires forall u :: Sub(u, t) ==> SumWhere(Gpus(jobs[1..]), u) != jobs[0].gpus
    ensures FirstFit(jobs, Tight(jobs, t)) == None
  {
    var (n, d, ds, spare) := (jobs[0].count, jobs[0].gpus, Gpus(jobs[1..]), AllNodes(jobs));
    var left := Caps(ds, t, 0, SumWhere(ds, t) - d, n, 0, d, spare);
    CapsTaken(ds, t, SumWhere(ds, t), n, d, spare);
    if FirstFit(jobs[1..], left).Some? {
      var placement := FirstFitPlaces(jobs[1..], left);
      var f := OneNodeEach(jobs[1..], placement, left, t);
      var f' := CancelAll(ds, t, f, 0, SumWhere(ds, t) - d, n, d, spare);
      var u := TwoNodes(ds, t, f', d, n, spare);
      assert false;
    }
  }

  /** A placement of single-node jobs as a packing. */
  lemma OneNodeEach(jobs: seq<Job>, placement: seq<set<nat>>, available: seq<nat>, t: seq<bool>) returns (f: seq<nat>)
    requires Places(jobs, placement, available) && Singles(jobs) && |t| == |jobs|
    ensures Packed(Gpus(jobs), StillThere(Gpus(jobs), t, 0), f, available)
  {
    var ds := Gpus(jobs);
    f := NodeOf(jobs, placement);
    forall v | 0 <= v < |available|
      ensures SumWhere(ds, OnNode(StillThere(ds, t, 0), f, v)) <= available[v]
    {
      SumMono(ds, OnNode(StillThere(ds, t, 0), f, v), At(placement, v));
    }
    forall i | 0 <= i < |ds| && StillThere(ds, t, 0)[i]
      ensures f[i] < |available|
    {
      assert f[i] in placement[i];
    }
  }

  lemma {:induction false} NodeOf(jobs: seq<Job>, placement: seq<set<nat>>) returns (f: seq<nat>)
    requires |placement| == |jobs| && Singles(jobs)
    requires forall i :: 0 <= i < |jobs| ==> |placement[i]| == jobs[i].count
    ensures |f| == |jobs| && forall i :: 0 <= i < |jobs| && jobs[i].gpus > 0 ==> f[i] in placement[i]
    decreases |jobs|
  {
    if jobs == [] {
      f := [];
    } else {
      var node := 0;
      if jobs[0].gpus > 0 {
        assert placement[0] != {};
        node :| node in placement[0];
      }
      forall i | 0 <= i < |jobs[1..]| && jobs[1..][i].gpus > 0
        ensures jobs[1..][i].count == 1
      {
        assert jobs[1..][i] == jobs[i + 1];
      }
      var rest := NodeOf(jobs[1..], placement[1..]);
      f := [node] + rest;
      forall i | 0 <= i < |jobs| && jobs[i].gpus > 0
        ensures f[i] in placement[i]
      {
        if i > 0 {
          assert jobs[1..][i - 1] == jobs[i] && placement[1..][i - 1] == placement[i];
        }
      }
    }
  }

  // ----- the exact condition

  /** Jobs that are not good fit on some cluster where first fit fails. */
  lemma {:induction false} BadIsIncomplete(jobs: seq<Job>) returns (placement: seq<set<nat>>, available: seq<nat>)
    requires Counted(jobs) && !Good(jobs)
    ensures Missed(jobs, placement, available)
    decreases |jobs|
  {
    var rest := jobs[1..];
    forall i | 0 <= i < |rest|
      ensures rest[i].count >= 1
    {
      assert rest[i] == jobs[i + 1];
    }
    if !Good(rest) {
      var placement1, available1 := BadIsIncomplete(rest);
      placement, available := OwnNodes(jobs, placement1, available1);
    } else if Singles(rest) {
      var t :| |t| == |rest| && SumWhere(Gpus(rest), t) > jobs[0].gpus
               && forall u :: Sub(u, t) ==> SumWhere(Gpus(rest), u) != jobs[0].gpus;
      TightPlaces(jobs, t);
      TightMissed(jobs, t);
      placement, available := TightPlacement(jobs, t), Tight(jobs, t);
    } else {
      placement, available := SpreadMissed(jobs);
    }
  }

  // ----- pools

  function JobsOf(pools: seq<Pool>): seq<Job>
    requires forall p :: 0 <= p < |pools| ==> pools[p] != []
  {
    seq(|pools|, p requires 0 <= p < |pools| => Job(|pools[p]|, pools[p][0]))
  }

  lemma {:induction false} FirstFitSnoc(jobs: seq<Job>, last: Job, available: seq<nat>)
    ensures FirstFit(jobs + [last], available) ==
            match FirstFit(jobs, available)
            case None => None
            case Some(before) => var (left, missing) := Take(before, last.gpus, last.count, 0);
                                 if missing > 0 then None else Some(left)
    decreases |jobs|
  {
    var all := jobs + [last];
    if jobs == [] {
      assert all[1..] == [];
    } else {
      assert all[1..] == jobs[1..] + [last];
      var (left, missing) := Take(available, jobs[0].gpus, jobs[0].count, 0);
      if missing == 0 {
        FirstFitSnoc(jobs[1..], last, left);
      }
    }
  }

  /** The check's loop is first fit. */
  lemma {:induction false} GreedyIsFirstFit(pools: seq<Pool>, available: seq<nat>)
    requires forall p :: 0 <= p < |pools| ==> pools[p] != []
    ensures Greedy(pools, available) == FirstFit(JobsOf(pools), available)
    decreases |pools|
  {
    if pools == [] {
    } else {
      var n := |pools| - 1;
      GreedyIsFirstFit(pools[..n], available);
      assert JobsOf(pools) == JobsOf(pools[..n]) + [Job(|pools[n]|, pools[n][0])];
      FirstFitSnoc(JobsOf(pools[..n]), Job(|pools[n]|, pools[n][0]), available);
    }
  }

  lemma {:induction false} SumWhereSnoc(ds: seq<nat>, a: seq<bool>, d: nat, b: bool)
    requires |a| == |ds|
    ensures SumWhere(ds + [d], a + [b]) == SumWhere(ds, a) + if b then d else 0
    decreases |ds|
  {
    if ds == [] {
      assert (ds + [d])[1..] == [] && (a + [b])[1..] == [];
    } else {
      assert (ds + [d])[1..] == ds[1..] + [d] && (a + [b])[1..] == a[1..] + [b];
      SumWhereSnoc(ds[1..], a[1..], d, b);
    }
  }

  lemma {:induction false} LoadIsSum(pools: seq<Pool>, placement: seq<set<nat>>, v: nat)
    requires |placement| == |pools| && forall p :: 0 <= p < |pools| ==> pools[p] != []
    ensures Load(pools, placement, v) == SumWhere(Gpus(JobsOf(pools)), At(placement, v))
    decreases |pools|
  {
    if pools == [] {
    } else {
      var n := |pools| - 1;
      LoadIsSum(pools[..n], placement[..n], v);
      assert Gpus(JobsOf(pools)) == Gpus(JobsOf(pools[..n])) + [pools[n][0]];
      assert At(placement, v) == At(placement[..n], v) + [v in placement[n]];
      SumWhereSnoc(Gpus(JobsOf(pools[..n])), At(placement[..n], v), pools[n][0], v in placement[n]);
    }
  }

  lemma FitsIsPlaces(pools: seq<Pool>, placement: seq<set<nat>>, available: seq<nat>)
    requires forall p :: 0 <= p < |pools| ==> pools[p] != []
    ensures Fits(pools, placement, available) <==> Places(JobsOf(pools), placement, available)
  {
    if |placement| == |pools| {
      forall v | 0 <= v < |available|
        ensures Load(pools, placement, v) == SumWhere(Gpus(JobsOf(pools)), At(placement, v))
      {
        LoadIsSum(pools, placement, v);
      }
    }
  }

  ghost predicate AllUniform(pools: seq<Pool>) {
    forall p :: 0 <= p < |pools| ==> Uniform(pools[p])
  }

  /** What the greedy loop takes is the demand. */
  lemma {:induction false} GreedyDeducts(pools: seq<Pool>, available: seq<nat>)
    requires AllUniform(pools) && Greedy(pools, available).Some?
    ensures Sum(Greedy(pools, available).value) + Demand(pools) == Sum(available)
    decreases |pools|
  {
    if pools == [] {
    } else {
      var n := |pools| - 1;
      GreedyDeducts(pools[..n], available);
      TakeDeducts(Greedy(pools[..n], available).value, pools[n]);
    }
  }

  lemma TakeDeducts(before: seq<nat>, pool: Pool)
    requires Uniform(pool) && Take(before, pool[0], |pool|, 0).1 == 0
    ensures Sum(Take(before, pool[0], |pool|, 0).0) + Sum(pool) == Sum(before)
  {
    var nodes := TakeTakes(before, pool[0], |pool|, 0);
    DeductedSum(before, Take(before, pool[0], |pool|, 0).0, nodes, pool[0]);
    UniformSum(pool);
  }

  ghost predicate Accepts(pools: seq<Pool>, available: seq<nat>) {
    Sum(available) >= Demand(pools) && Greedy(pools, available).Some?
  }

  ghost predicate Placeable(pools: seq<Pool>, available: seq<nat>) {
    exists placement :: Fits(pools, placement, available)
  }

  /** Where the loop finds places there is a placement. */
  lemma GreedySound(pools: seq<Pool>, available: seq<nat>)
    requires (forall p :: 0 <= p < |pools| ==> pools[p] != []) && Greedy(pools, available).Some?
    ensures Placeable(pools, available)
  {
    GreedyIsFirstFit(pools, available);
    var placement := FirstFitPlaces(JobsOf(pools), available);
    FitsIsPlaces(pools, placement, available);
  }

  /**
   For all pools, each counted with its first entry on every node: the loop finds places exactly when there is a
   placement, on every cluster, if and only if every pool that wants processes is followed only by pools on single
   nodes, and any of these that together want more than it does include some that together want exactly as much.
   */
  lemma PlacingExactly(pools: seq<Pool>)
    requires forall p :: 0 <= p < |pools| ==> pools[p] != []
    ensures (forall available :: Greedy(pools, available).Some? <==> Placeable(pools, available)) <==>
              Good(JobsOf(pools))
  {
    var jobs := JobsOf(pools);
    if Good(jobs) {
      forall available
        ensures Greedy(pools, available).Some? <==> Placeable(pools, available)
      {
        if Greedy(pools, available).Some? {
          GreedySound(pools, available);
        } else if placement :| Fits(pools, placement, available) {
          FitsIsPlaces(pools, placement, available);
          GoodIsComplete(jobs, placement, available);
          GreedyIsFirstFit(pools, available);
        }
      }
    } else {
      var placement, available := BadIsIncomplete(jobs);
      FitsIsPlaces(pools, placement, available);
      GreedyIsFirstFit(pools, available);
      assert Placeable(pools, available) && Greedy(pools, available) == None;
    }
  }

  /** For uniform pools the same holds of the whole check, and a placement serves every entry. */
  lemma SeveralPoolsExactly(pools: seq<Pool>)
    requires AllUniform(pools)
    ensures (forall available :: Accepts(pools, available) <==> Placeable(pools, available)) <==> Good(JobsOf(pools))
  {
    forall available
      ensures Accepts(pools, available) <==> Greedy(pools, available).Some?
    {
      if Greedy(pools, available).Some? {
        GreedyDeducts(pools, available);
      }
    }
    PlacingExactly(pools);
  }

  // ----- simple sufficient conditions

  /** Equal demands, and only the first pool on several nodes. */
  lemma {:induction false} EqualDemandsGood(jobs: seq<Job>, d: nat)
    requires forall i :: 0 <= i < |jobs| ==> jobs[i].gpus == d
    requires forall i :: 1 <= i < |jobs| ==> jobs[i].count == 1
    ensures Good(jobs)
    decreases |jobs|
  {
    if jobs == [] {
    } else {
      var later := jobs[1..];
      EqualDemandsGood(later, d);
      forall t: seq<bool> | |t| == |later| && SumWhere(Gpus(later), t) > d
        ensures exists u :: Sub(u, t) && SumWhere(Gpus(later), u) == d
      {
        if forall i :: 0 <= i < |t| ==> !t[i] {
          SumNone(Gpus(later), t);
        }
        var i :| 0 <= i < |t| && t[i];
        var u := seq(|t|, k => k == i);
        SumOnly(Gpus(later), u, i);
        assert Sub(u, t);
      }
    }
  }
}
