/** The greedy check that resource pools fit the nodes of a cluster. */
module GpuCheck {
  import opened Arithmetic
  import opened Common
  import opened Sequences
  import opened Sets

  /** The processes a pool wants on each of its nodes. */
  type Pool = seq<nat>

  function Demand(pools: seq<Pool>): nat {
    if pools == [] then 0 else Demand(pools[..|pools| - 1]) + Sum(pools[|pools| - 1])
  }

  // ----- one pool

  ghost predicate Deducted(before: seq<nat>, after: seq<nat>, nodes: set<nat>, gpus: nat) {
    && |after| == |before|
    && (forall v :: v in nodes ==> v < |before|)
    && forall v :: 0 <= v < |before| ==>
         if v in nodes then before[v] >= gpus && after[v] == before[v] - gpus else after[v] == before[v]
  }

  /** From node `v` on, take `gpus` wherever they are free, until `count` nodes are found; also how many are missing. */
  function Take(available: seq<nat>, gpus: nat, count: nat, v: nat): (seq<nat>, nat)
    requires v <= |available|
    decreases |available| - v
  {
    if v == |available| || count == 0 then (available, count)
    else if available[v] >= gpus then Take(available[v := available[v] - gpus], gpus, count - 1, v + 1)
    else Take(available, gpus, count, v + 1)
  }

  method PlacePool(available: seq<nat>, gpus: nat, count: nat)
    returns (left: seq<nat>, missing: nat, ghost nodes: set<nat>)
    requires count > 0
    ensures (left, missing) == Take(available, gpus, count, 0)
    ensures Deducted(available, left, nodes, gpus) && missing <= count && |nodes| == count - missing
    ensures missing > 0 ==> nodes == set v | 0 <= v < |available| && available[v] >= gpus
    ensures forall v, w :: v in nodes && 0 <= w < v && available[w] >= gpus ==> w in nodes
  {
    left, missing, nodes := available, count, {};
    for v := 0 to |available|
      invariant Deducted(available, left, nodes, gpus) && 0 < missing <= count && |nodes| == count - missing
      invariant nodes == set u | 0 <= u < v && available[u] >= gpus
      invariant Take(available, gpus, count, 0) == Take(left, gpus, missing, v)
    {
      if left[v] >= gpus {
        left := left[v := left[v] - gpus];
        nodes := nodes + {v};
        missing := missing - 1;
        if missing == 0 {
          return;
        }
      }
    }
  }

  lemma {:induction false} DeductedSum(before: seq<nat>, after: seq<nat>, nodes: set<nat>, gpus: nat)
    requires Deducted(before, after, nodes, gpus)
    ensures Sum(after) + |nodes| * gpus == Sum(before)
    decreases |before|
  {
    if before == [] {
      assert nodes == {};
    } else {
      var n := |before| - 1;
      var others := nodes - {n};
      DeductedSum(before[..n], after[..n], others, gpus);
      if n in nodes {
        assert |nodes| == |others| + 1;
        MulSucc(|others|, gpus);
      } else {
        assert others == nodes;
      }
    }
  }

  // ----- all pools

  /** Every node of the pool gets the same number of processes. */
  predicate Uniform(pool: Pool) {
    pool != [] && forall i :: 0 <= i < |pool| ==> pool[i] == pool[0]
  }

  /** What the pools placed on node `v` take from it. */
  ghost function Load(pools: seq<Pool>, placement: seq<set<nat>>, v: nat): nat
    requires |placement| == |pools| && forall p :: 0 <= p < |pools| ==> pools[p] != []
    decreases |pools|
  {
    if pools == [] then 0
    else
      var n := |pools| - 1;
      Load(pools[..n], placement[..n], v) + if v in placement[n] then pools[n][0] else 0
  }

  /** Each pool has as many distinct nodes as it asks for, and no node gives more than it has. */
  ghost predicate Fits(pools: seq<Pool>, placement: seq<set<nat>>, available: seq<nat>) {
    && |placement| == |pools| && (forall p :: 0 <= p < |pools| ==> pools[p] != [])
    && (forall p :: 0 <= p < |pools| ==>
          |placement[p]| == |pools[p]| && forall v :: v in placement[p] ==> v < |available|)
    && forall v :: 0 <= v < |available| ==> Load(pools, placement, v) <= available[v]
  }

  ghost predicate Remaining(pools: seq<Pool>, placement: seq<set<nat>>, available: seq<nat>, left: seq<nat>) {
    && |placement| == |pools| && |left| == |available| && (forall p :: 0 <= p < |pools| ==> pools[p] != [])
    && (forall p :: 0 <= p < |pools| ==>
          |placement[p]| == |pools[p]| && forall v :: v in placement[p] ==> v < |available|)
    && forall v :: 0 <= v < |available| ==> left[v] + Load(pools, placement, v) == available[v]
  }

  lemma {:induction false} UniformSum(pool: Pool)
    requires Uniform(pool)
    ensures Sum(pool) == |pool| * pool[0]
    decreases |pool|
  {
    var n := |pool| - 1;
    if n > 0 {
      UniformSum(pool[..n]);
      assert |pool| * pool[0] == n * pool[0] + pool[0];
    } else {
      assert pool[..n] == [];
    }
  }

  lemma AddPool(pools: seq<Pool>, pool: Pool, placement: seq<set<nat>>, nodes: set<nat>, available: seq<nat>,
                before: seq<nat>, after: seq<nat>)
    requires Remaining(pools, placement, available, before) && pool != []
    requires Deducted(before, after, nodes, pool[0]) && |nodes| == |pool|
    ensures Remaining(pools + [pool], placement + [nodes], available, after)
  {
    var pools', placement' := pools + [pool], placement + [nodes];
    assert pools'[..|pools|] == pools && placement'[..|pools|] == placement;
  }

  lemma DemandSnoc(pools: seq<Pool>, pool: Pool)
    ensures Demand(pools + [pool]) == Demand(pools) + Sum(pool)
  {
    assert (pools + [pool])[..|pools|] == pools;
  }

  function Greedy(pools: seq<Pool>, available: seq<nat>): Option<seq<nat>> {
    if pools == [] then Some(available)
    else
      var n := |pools| - 1;
      var before :- Greedy(pools[..n], available);
      if pools[n] == [] then None
      else
        var (left, missing) := Take(before, pools[n][0], |pools[n]|, 0);
        if missing > 0 then None else Some(left)
  }

  lemma {:induction false} GreedyFails(pools: seq<Pool>, available: seq<nat>, p: nat)
    requires p <= |pools| && Greedy(pools[..p], available) == None
    ensures Greedy(pools, available) == None
    decreases |pools| - p
  {
    if p == |pools| {
      assert pools[..p] == pools;
    } else {
      assert pools[..p + 1][..p] == pools[..p];
      GreedyFails(pools, available, p + 1);
    }
  }

  /**
   `_check_resource_available`: the total first, then each pool greedily. When it passes there is a placement, and on
   uniform pools the free processes fall by exactly the demand. An empty pool raises.
   */
  method CheckResourceAvailable(pools: seq<Pool>, available: seq<nat>)
    returns (ok: bool, left: seq<nat>, ghost placement: seq<set<nat>>)
    ensures ok <==> Sum(available) >= Demand(pools) && Greedy(pools, available).Some?
    ensures ok ==> left == Greedy(pools, available).value
    ensures ok ==> Remaining(pools, placement, available, left) && Fits(pools, placement, available)
    ensures ok && (forall p :: 0 <= p < |pools| ==> Uniform(pools[p])) ==> Sum(left) + Demand(pools) == Sum(available)
  {
    left, placement := available, [];
    if Sum(available) < Demand(pools) {
      return false, left, placement;
    }
    ghost var uniform := forall p :: 0 <= p < |pools| ==> Uniform(pools[p]);
    for p := 0 to |pools|
      invariant Remaining(pools[..p], placement, available, left)
      invariant Greedy(pools[..p], available) == Some(left)
      invariant uniform ==> Sum(left) + Demand(pools[..p]) == Sum(available)
    {
      assert pools[..p + 1] == pools[..p] + [pools[p]] && pools[..p + 1][..p] == pools[..p];
      if pools[p] == [] {
        GreedyFails(pools, available, p + 1);
        return false, left, placement;
      }
      var gpus, count := pools[p][0], |pools[p]|;
      var rest, missing;
      ghost var nodes;
      rest, missing, nodes := PlacePool(left, gpus, count);
      if missing > 0 {
        GreedyFails(pools, available, p + 1);
        return false, left, placement;
      }
      AddPool(pools[..p], pools[p], placement, nodes, available, left, rest);
      DeductedSum(left, rest, nodes, gpus);
      DemandSnoc(pools[..p], pools[p]);
      if uniform {
        UniformSum(pools[p]);
      }
      left, placement := rest, placement + [nodes];
    }
    assert pools[..|pools|] == pools;
    ok := true;
  }

  // ----- a single pool

  ghost function Suitable(available: seq<nat>, gpus: nat, v: nat): set<nat> {
    set u | v <= u < |available| && available[u] >= gpus
  }

  /** Greedy misses nodes only when too few have enough. */
  lemma {:induction false} TakeMissing(available: seq<nat>, gpus: nat, count: nat, v: nat)
    requires v <= |available|
    ensures Take(available, gpus, count, v).1 == if |Suitable(available, gpus, v)| >= count then 0
                                                 else count - |Suitable(available, gpus, v)|
    decreases |available| - v
  {
    if v < |available| && count > 0 {
      var rest := Suitable(available, gpus, v + 1);
      if available[v] >= gpus {
        var after := available[v := available[v] - gpus];
        assert Suitable(after, gpus, v + 1) == rest && Suitable(available, gpus, v) == rest + {v};
        TakeMissing(after, gpus, count - 1, v + 1);
      } else {
        assert Suitable(available, gpus, v) == rest;
        TakeMissing(available, gpus, count, v + 1);
      }
    } else if v == |available| {
      assert Suitable(available, gpus, v) == {};
    }
  }

  lemma GreedyOne(pool: Pool, available: seq<nat>)
    requires pool != []
    ensures Greedy([pool], available).Some? <==> |Suitable(available, pool[0], 0)| >= |pool|
  {
    var pools := [pool];
    assert pools[..0] == [];
    TakeMissing(available, pool[0], |pool|, 0);
  }

  lemma LoadOne(pool: Pool, nodes: set<nat>, v: nat)
    requires pool != []
    ensures Load([pool], [nodes], v) == if v in nodes then pool[0] else 0
  {
    var pools, placement := [pool], [nodes];
    assert pools[..0] == [] && placement[..0] == [];
  }

  /** For one uniform pool the check passes exactly when a placement exists. */
  lemma SinglePoolExact(pool: Pool, available: seq<nat>)
    requires Uniform(pool)
    ensures (Sum(available) >= Demand([pool]) && Greedy([pool], available).Some?)
            <==> exists nodes :: Fits([pool], [nodes], available)
  {
    GreedyOne(pool, available);
    DemandSnoc([], pool);
    assert [] + [pool] == [pool];
    UniformSum(pool);
    var suitable := Suitable(available, pool[0], 0);
    if |suitable| >= |pool| {
      var nodes := SubsetOfSize(suitable, |pool|);
      forall v | 0 <= v < |available|
        ensures Load([pool], [nodes], v) <= available[v]
      {
        LoadOne(pool, nodes, v);
      }
      assert Fits([pool], [nodes], available);
    }
    forall nodes | Fits([pool], [nodes], available)
      ensures |suitable| >= |pool| && Sum(available) >= Demand([pool])
    {
      SinglePlacement(pool, available, nodes);
    }
  }

  lemma SinglePlacement(pool: Pool, available: seq<nat>, nodes: set<nat>)
    requires Uniform(pool) && Fits([pool], [nodes], available)
    ensures |Suitable(available, pool[0], 0)| >= |pool| && Sum(available) >= |pool| * pool[0]
  {
    var pools, placement := [pool], [nodes];
    assert nodes == placement[0] && pool == pools[0];
    forall v | v in nodes
      ensures v < |available| && available[v] >= pool[0]
    {
      LoadOne(pool, nodes, v);
    }
    SubsetSize(nodes, Suitable(available, pool[0], 0));
    var after := seq(|available|, v requires 0 <= v < |available| =>
      if v in nodes then available[v] - pool[0] else available[v]);
    DeductedSum(available, after, nodes, pool[0]);
  }

  lemma {:induction false} SubsetOfSize(s: set<nat>, n: nat) returns (r: set<nat>)
    requires n <= |s|
    ensures r <= s && |r| == n
    decreases n
  {
    if n == 0 {
      r := {};
    } else {
      var x :| x in s;
      r := SubsetOfSize(s - {x}, n - 1);
      r := r + {x};
    }
  }

  // ----- what the check does not promise

  ghost predicate Passes(pool: Pool, available: seq<nat>) {
    Sum(available) >= Demand([pool]) && Greedy([pool], available).Some?
  }

  /** A node for every entry of the pool, all different, each with what its own entry asks for. */
  ghost predicate Hosts(pool: Pool, available: seq<nat>, nodes: seq<nat>) {
    && |nodes| == |pool|
    && (forall i :: 0 <= i < |nodes| ==> nodes[i] < |available| && available[nodes[i]] >= pool[i])
    && forall i, j :: 0 <= i < j < |nodes| ==> nodes[i] != nodes[j]
  }

  ghost predicate Hostable(pool: Pool, available: seq<nat>) {
    exists nodes :: Hosts(pool, available, nodes)
  }

  lemma PassesExactly(pool: Pool, available: seq<nat>)
    requires pool != []
    ensures Passes(pool, available) <==> Sum(available) >= Sum(pool) && |Suitable(available, pool[0], 0)| >= |pool|
  {
    DemandSnoc([], pool);
    assert [] + [pool] == [pool];
    GreedyOne(pool, available);
  }

  lemma {:induction false} Enumerate(s: set<nat>, n: nat) returns (r: seq<nat>)
    requires n <= |s|
    ensures |r| == n && (forall i :: 0 <= i < n ==> r[i] in s) && forall i, j :: 0 <= i < j < n ==> r[i] != r[j]
    decreases n
  {
    if n == 0 {
      r := [];
    } else {
      var x :| x in s;
      r := Enumerate(s - {x}, n - 1);
      r := r + [x];
    }
  }

  lemma SumOfSame(n: nat, x: nat)
    ensures Sum(seq(n, _ => x)) == n * x
  {
    if n > 0 {
      SumOfSame(n - 1, x);
      assert seq(n, _ => x)[..n - 1] == seq(n - 1, _ => x);
      assert n * x == (n - 1) * x + x;
    }
  }

  lemma {:induction false} EntryAtMostSum(ns: seq<nat>, i: nat)
    requires i < |ns|
    ensures ns[i] <= Sum(ns)
    ensures forall j :: 0 <= j < |ns| && j != i ==> ns[i] + ns[j] <= Sum(ns)
    decreases |ns|
  {
    var n := |ns| - 1;
    if i < n {
      EntryAtMostSum(ns[..n], i);
      forall j | 0 <= j < |ns| && j != i
        ensures ns[i] + ns[j] <= Sum(ns)
      {
        assert j < n ==> ns[..n][j] == ns[j];
      }
    } else {
      forall j | 0 <= j < n
        ensures ns[..n][j] <= Sum(ns[..n])
      {
        EntryAtMostSum(ns[..n], j);
      }
    }
  }

  lemma {:induction false} SomePositive(ns: seq<nat>) returns (i: nat)
    requires Sum(ns) > 0
    ensures i < |ns| && ns[i] > 0
    decreases |ns|
  {
    i := |ns| - 1;
    if ns[i] == 0 {
      i := SomePositive(ns[..i]);
    }
  }

  /** When the first entry is the largest, enough nodes for it are enough for all. */
  lemma LargestFirstHostable(pool: Pool, available: seq<nat>)
    requires pool != [] && Passes(pool, available) && forall i :: 0 <= i < |pool| ==> pool[i] <= pool[0]
    ensures Hostable(pool, available)
  {
    PassesExactly(pool, available);
    var nodes := Enumerate(Suitable(available, pool[0], 0), |pool|);
    assert Hosts(pool, available, nodes);
  }

  lemma InsertDistinct(rest: seq<nat>, k: nat, v: nat, nodes: seq<nat>)
    requires k <= |rest| && nodes == rest[..k] + [v] + rest[k..] && v !in rest
    requires forall i, j :: 0 <= i < j < |rest| ==> rest[i] != rest[j]
    ensures forall i, j :: 0 <= i < j < |nodes| ==> nodes[i] != nodes[j]
    ensures nodes[k] == v && forall i :: 0 <= i < |nodes| && i != k ==> nodes[i] in rest
  {
    assert forall i :: 0 <= i < |nodes| && i != k ==> nodes[i] == rest[if i < k then i else i - 1];
  }

  /** A pool that wants a single process finds a node for it whenever the total suffices. */
  lemma SingleProcessHostable(pool: Pool, available: seq<nat>)
    requires pool != [] && Passes(pool, available) && Sum(pool) == 1 && pool[0] == 0
    ensures Hostable(pool, available)
  {
    PassesExactly(pool, available);
    var k := SomePositive(pool);
    var v := SomePositive(available);
    EntryAtMostSum(pool, k);
    var others := Suitable(available, pool[0], 0) - {v};
    var rest := Enumerate(others, |pool| - 1);
    var nodes := rest[..k] + [v] + rest[k..];
    InsertDistinct(rest, k, v, nodes);
    forall i | 0 <= i < |pool|
      ensures nodes[i] < |available| && available[nodes[i]] >= pool[i]
    {
      if i != k {
        assert nodes[i] in rest;
        assert pool[k] + pool[i] <= 1;
      }
    }
    assert Hosts(pool, available, nodes);
  }

  lemma SumAtLeast(n: nat, x: nat)
    requires x >= 1
    ensures Sum(seq(n, _ => x)) >= n
  {
    SumOfSame(n, x);
    MulMonotone(1, x, n);
  }

  /** Many nodes, each one process short of entry `i`. */
  lemma ShortNodesPass(pool: Pool, i: nat, x: nat, available: seq<nat>)
    requires i < |pool| && pool[i] == x + 1 && x >= pool[0] && x >= 1
    requires available == seq(|pool| + Sum(pool), _ => x)
    ensures Passes(pool, available) && !Hostable(pool, available)
  {
    SumAtLeast(|available|, x);
    RangeSize(Suitable(available, pool[0], 0), |available|);
    PassesExactly(pool, available);
  }

  lemma {:induction false} RangeSize(s: set<nat>, n: nat)
    requires forall v :: v in s <==> 0 <= v < n
    ensures |s| == n
    decreases n
  {
    if n == 0 {
      assert s == {};
    } else {
      RangeSize(s - {n - 1}, n - 1);
    }
  }

  /** All free processes on one node, while two entries want one each. */
  lemma OneNodePasses(pool: Pool, i: nat, j: nat, available: seq<nat>)
    requires i < j < |pool| && pool[i] >= 1 && pool[j] >= 1 && pool[0] == 0
    requires available == [Sum(pool)] + seq(|pool|, _ => 0)
    ensures Passes(pool, available) && !Hostable(pool, available)
  {
    SumFront(Sum(pool), |pool|);
    RangeSize(Suitable(available, pool[0], 0), |available|);
    PassesExactly(pool, available);
  }

  lemma {:induction false} SumFront(x: nat, n: nat)
    ensures Sum([x] + seq(n, _ => 0)) == x
  {
    var ns := [x] + seq(n, _ => 0);
    if n == 0 {
      assert ns[..0] == [];
    } else {
      SumFront(x, n - 1);
      assert ns[..n] == [x] + seq(n - 1, _ => 0);
    }
  }

  /** Two entries want a process when the pool's total exceeds what one entry of one accounts for. */
  lemma {:induction false} TwoPositive(ns: seq<nat>) returns (i: nat, j: nat)
    requires Sum(ns) >= 2 && forall k :: 0 <= k < |ns| ==> ns[k] <= 1
    ensures i < j < |ns| && ns[i] >= 1 && ns[j] >= 1
    decreases |ns|
  {
    var n := |ns| - 1;
    if ns[n] == 1 {
      i := SomePositive(ns[..n]);
      j := n;
    } else {
      i, j := TwoPositive(ns[..n]);
    }
  }

  /** A pool the check accepts although it cannot be placed, unless its first entry is its largest. */
  lemma UnsoundFor(pool: Pool, i: nat) returns (available: seq<nat>)
    requires i < |pool| && pool[i] > pool[0] && Sum(pool) >= 2
    ensures Passes(pool, available) && !Hostable(pool, available)
  {
    if k :| 0 <= k < |pool| && pool[k] > pool[0] && pool[k] >= 2 {
      var x: nat := pool[k] - 1;
      available := seq(|pool| + Sum(pool), _ => x);
      ShortNodesPass(pool, k, x, available);
    } else {
      assert pool[0] == 0;
      var a, b := TwoPositive(pool);
      available := [Sum(pool)] + seq(|pool|, _ => 0);
      OneNodePasses(pool, a, b, available);
    }
  }

  /**
   Only the first entry of a pool is compared with the nodes. Passing guarantees a node for every entry, on every
   cluster, exactly when no entry exceeds the first (or the pool wants at most one process).
   */
  lemma SinglePoolSoundExactly(pool: Pool)
    requires pool != []
    ensures (forall available :: Passes(pool, available) ==> Hostable(pool, available))
            <==> Sum(pool) <= 1 || forall i :: 0 <= i < |pool| ==> pool[i] <= pool[0]
  {
    if forall i :: 0 <= i < |pool| ==> pool[i] <= pool[0] {
      forall available | Passes(pool, available)
        ensures Hostable(pool, available)
      {
        LargestFirstHostable(pool, available);
      }
    } else {
      var i :| 0 <= i < |pool| && pool[i] > pool[0];
      if Sum(pool) <= 1 {
        EntryAtMostSum(pool, i);
        forall available | Passes(pool, available)
          ensures Hostable(pool, available)
        {
          SingleProcessHostable(pool, available);
        }
      } else {
        var available := UnsoundFor(pool, i);
      }
    }
  }

  /** With several pools the greedy order matters: the first pool may take from the only node that fits the second. */
  lemma GreedyIsIncomplete(pools: seq<Pool>, placement: seq<set<nat>>, available: seq<nat>)
    requires pools == [[1], [2]] && placement == [{1}, {0}] && available == [2, 1]
    ensures Fits(pools, placement, available) && Greedy(pools, available) == None
  {
    assert pools[..1] == [[1]] && placement[..1] == [{1}];
    forall v | 0 <= v < |available|
      ensures Load(pools, placement, v) == (if v == 1 then 1 else 0) + (if v == 0 then 2 else 0)
    {
      LoadOne([1], {1}, v);
    }
    assert placement[0] == {1} && placement[1] == {0};
    var after := available[0 := 1];
    assert after == [1, 1];
    assert Take(available, 1, 1, 0) == Take(after, 1, 0, 1) == (after, 0);
    assert pools[..1][..0] == [] && Greedy(pools[..1], available) == Some(after);
    TakeMissing(after, 2, 1, 0);
    assert Suitable(after, 2, 0) == {};
  }
}
