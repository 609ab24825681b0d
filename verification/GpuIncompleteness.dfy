/** For jobs that are not good: clusters on which they fit and first fit fails. */
module GpuIncompleteness {
  import opened Common
  import opened GpuCheck
  import opened GpuCompleteness
  import opened Sequences
  import opened Sets

  // ----- what first fit does on clusters of a known shape

  function Same(n: nat, x: nat): seq<nat> {
    seq(n, _ => x)
  }

  /** A node set `lo .. hi - 1`. */
  ghost function Nodes(lo: nat, hi: nat): (r: set<nat>)
    requires lo <= hi
    ensures (forall v :: v in r <==> lo <= v < hi) && |r| == hi - lo
    decreases hi
  {
    if lo == hi then {} else Nodes(lo, hi - 1) + {hi - 1}
  }

  /** When the next nodes all have enough, they are taken. */
  lemma {:induction false} TakeFirst(x: seq<nat>, gpus: nat, count: nat, v: nat)
    requires v + count <= |x| && forall u :: v <= u < v + count ==> x[u] >= gpus
    ensures Take(x, gpus, count, v) ==
            (seq(|x|, u requires 0 <= u < |x| => if v <= u < v + count then x[u] - gpus else x[u]), 0)
    decreases count
  {
    if count == 0 {
      assert seq(|x|, u requires 0 <= u < |x| => if v <= u < v + count then x[u] - gpus else x[u]) == x;
    } else {
      var y := x[v := x[v] - gpus];
      TakeFirst(y, gpus, count - 1, v + 1);
      assert seq(|x|, u requires 0 <= u < |x| => if v <= u < v + count then x[u] - gpus else x[u])
          == seq(|y|, u requires 0 <= u < |y| => if v + 1 <= u < v + count then y[u] - gpus else y[u]);
    }
  }

  lemma TakeNothing(x: seq<nat>, count: nat)
    requires count <= |x|
    ensures Take(x, 0, count, 0) == (x, 0)
  {
    TakeFirst(x, 0, count, 0);
    assert seq(|x|, u requires 0 <= u < |x| => if 0 <= u < 0 + count then x[u] - 0 else x[u]) == x;
  }

  /** Nodes in front that are behind the current position do not matter. */
  lemma {:induction false} TakeShift(front: seq<nat>, x: seq<nat>, gpus: nat, count: nat, v: nat)
    requires v <= |x|
    ensures var (left, missing) := Take(x, gpus, count, v);
            Take(front + x, gpus, count, |front| + v) == (front + left, missing)
    decreases |x| - v
  {
    if v == |x| || count == 0 {
    } else if x[v] >= gpus {
      var y := x[v := x[v] - gpus];
      assert (front + x)[|front| + v := x[v] - gpus] == front + y;
      TakeShift(front, y, gpus, count - 1, v + 1);
    } else {
      TakeShift(front, x, gpus, count, v + 1);
    }
  }

  /** Empty nodes in front are passed over. */
  lemma {:induction false} TakePast(z: nat, x: seq<nat>, gpus: nat, count: nat, v: nat)
    requires gpus > 0 && v <= z
    ensures Take(Same(z, 0) + x, gpus, count, v) == Take(Same(z, 0) + x, gpus, count, z)
    decreases z - v
  {
    if v == z {
    } else {
      TakePast(z, x, gpus, count, v + 1);
    }
  }

  /** A cluster with enough nodes for jobs that need only nodes. */
  ghost predicate Roomy(jobs: seq<Job>, size: nat) {
    forall i :: 0 <= i < |jobs| ==> jobs[i].count <= size
  }

  lemma {:induction false} TakeLength(x: seq<nat>, gpus: nat, count: nat, v: nat)
    requires v <= |x|
    ensures |Take(x, gpus, count, v).0| == |x|
    decreases |x| - v
  {
    if v == |x| || count == 0 {
    } else if x[v] >= gpus {
      TakeLength(x[v := x[v] - gpus], gpus, count - 1, v + 1);
    } else {
      TakeLength(x, gpus, count, v + 1);
    }
  }

  /** Empty nodes in front change nothing. */
  lemma {:induction false} EmptyInFront(jobs: seq<Job>, z: nat, x: seq<nat>)
    requires Roomy(jobs, |x|) && FirstFit(jobs, x) == None
    ensures FirstFit(jobs, Same(z, 0) + x) == None
    decreases |jobs|
  {
    var (gpus, count) := (jobs[0].gpus, jobs[0].count);
    var (left, missing) := Take(x, gpus, count, 0);
    if gpus == 0 {
      TakeNothing(x, count);
      TakeNothing(Same(z, 0) + x, count);
    } else {
      TakePast(z, x, gpus, count, 0);
      TakeShift(Same(z, 0), x, gpus, count, 0);
      assert |Same(z, 0)| + 0 == z;
    }
    if missing == 0 {
      TakeLength(x, gpus, count, 0);
      EmptyInFront(jobs[1..], z, left);
    }
  }

  /** First fit stops at a job for which too few nodes have enough, when the jobs before it take nothing. */
  lemma {:induction false} StuckAt(jobs: seq<Job>, j: nat, x: seq<nat>)
    requires j < |jobs| && Roomy(jobs, |x|) && forall i :: 0 <= i < j ==> jobs[i].gpus == 0
    requires |Suitable(x, jobs[j].gpus, 0)| < jobs[j].count
    ensures FirstFit(jobs, x) == None
    decreases j
  {
    if j == 0 {
      TakeMissing(x, jobs[0].gpus, jobs[0].count, 0);
    } else {
      TakeNothing(x, jobs[0].count);
      StuckAt(jobs[1..], j - 1, x);
    }
  }

  // ----- a witness

  /** A cluster on which the jobs fit, and first fit fails. */
  ghost predicate Missed(jobs: seq<Job>, placement: seq<set<nat>>, available: seq<nat>) {
    Places(jobs, placement, available) && FirstFit(jobs, available) == None
  }

  ghost predicate Counted(jobs: seq<Job>) {
    forall i :: 0 <= i < |jobs| ==> jobs[i].count >= 1
  }

  // ----- jobs in front of a witness get nodes of their own

  ghost function ShiftNodes(s: set<nat>, n: nat): (r: set<nat>)
    ensures forall v :: v in r <==> v >= n && v - n in s
  {
    set v: nat | v in s :: v + n
  }

  lemma {:induction false} ShiftSize(s: set<nat>, n: nat)
    ensures |ShiftNodes(s, n)| == |s|
    decreases |s|
  {
    if s == {} {
      assert ShiftNodes(s, n) == {};
    } else {
      var x :| x in s;
      ShiftSize(s - {x}, n);
      assert ShiftNodes(s, n) == ShiftNodes(s - {x}, n) + {x + n};
      assert x + n !in ShiftNodes(s - {x}, n);
    }
  }

  lemma RoomyPlaces(jobs: seq<Job>, placement: seq<set<nat>>, available: seq<nat>)
    requires Places(jobs, placement, available)
    ensures Roomy(jobs, |available|)
  {
    forall i | 0 <= i < |jobs|
      ensures jobs[i].count <= |available|
    {
      SubsetSize(placement[i], Nodes(0, |available|));
    }
  }

  lemma OwnNodes(jobs: seq<Job>, placement: seq<set<nat>>, available: seq<nat>)
    returns (placement': seq<set<nat>>, available': seq<nat>)
    requires jobs != [] && Missed(jobs[1..], placement, available)
    ensures Missed(jobs, placement', available')
  {
    var (n, d) := (jobs[0].count, jobs[0].gpus);
    available' := Same(n, d) + available;
    var shifted := seq(|placement|, i requires 0 <= i < |placement| => ShiftNodes(placement[i], n));
    placement' := [Nodes(0, n)] + shifted;
    assert placement'[1..] == shifted;
    forall v | 0 <= v < |available'|
      ensures SumWhere(Gpus(jobs), At(placement', v)) <= available'[v]
    {
      LoadSplit(jobs, placement', v);
      if v < n {
        SumNone(Gpus(jobs[1..]), At(shifted, v));
      } else {
        ShiftAt(placement, shifted, n, v);
      }
    }
    forall i | 0 <= i < |jobs|
      ensures |placement'[i]| == jobs[i].count && forall v :: v in placement'[i] ==> v < |available'|
    {
      if i > 0 {
        assert placement'[i] == ShiftNodes(placement[i - 1], n) && jobs[1..][i - 1] == jobs[i];
        ShiftSize(placement[i - 1], n);
      }
    }
    OwnTaken(n, d, available);
    RoomyPlaces(jobs[1..], placement, available);
    EmptyInFront(jobs[1..], n, available);
  }

  lemma OwnTaken(n: nat, d: nat, available: seq<nat>)
    ensures Take(Same(n, d) + available, d, n, 0) == (Same(n, 0) + available, 0)
  {
    TakeFirst(Same(n, d) + available, d, n, 0);
    assert Take(Same(n, d) + available, d, n, 0).0 == Same(n, 0) + available;
  }

  lemma ShiftAt(placement: seq<set<nat>>, shifted: seq<set<nat>>, n: nat, v: nat)
    requires |shifted| == |placement| && n <= v
    requires forall i :: 0 <= i < |placement| ==> shifted[i] == ShiftNodes(placement[i], n)
    ensures At(shifted, v) == At(placement, v - n)
  {
    forall i | 0 <= i < |placement|
      ensures v in shifted[i] <==> v - n in placement[i]
    {
    }
  }

  // ----- a later job on several nodes

  function AllNodes(jobs: seq<Job>): nat {
    if jobs == [] then 0 else jobs[0].count + AllNodes(jobs[1..])
  }

  lemma {:induction false} AllNodesRoomy(jobs: seq<Job>, size: nat)
    requires size >= AllNodes(jobs)
    ensures Roomy(jobs, size)
    decreases |jobs|
  {
    if jobs == [] {
    } else {
      AllNodesRoomy(jobs[1..], size);
      forall i | 0 <= i < |jobs|
        ensures jobs[i].count <= size
      {
        assert i > 0 ==> jobs[i] == jobs[1..][i - 1];
      }
    }
  }

  function Everything(n: nat): seq<bool> {
    seq(n, _ => true)
  }

  /** What the jobs want of one node each. */
  function Total(jobs: seq<Job>): nat {
    SumWhere(Gpus(jobs), Everything(|jobs|))
  }

  /** Job `j` is the next one that wants processes, wants them on several nodes, and is the last such. */
  ghost predicate Spread(jobs: seq<Job>, j: nat) {
    && 0 < j < |jobs| && jobs[0].gpus > 0 && jobs[0].count >= 1 && jobs[j].gpus > 0 && jobs[j].count >= 2
    && forall i :: 0 < i < |jobs| && i != j && jobs[i].gpus > 0 ==> j < i && jobs[i].count == 1
  }

  /** First fit gives job 0 the nodes that job `j` should have with its own demand, and leaves it a big one. */
  function LargeFirst(jobs: seq<Job>, j: nat): seq<nat>
    requires 0 < j < |jobs| && jobs[j].count >= 2
  {
    var (n, d, m, e) := (jobs[0].count, jobs[0].gpus, jobs[j].count, jobs[j].gpus);
    seq(n + m - 1 + AllNodes(jobs), v requires v >= 0 =>
      if v < n then d else if v == n then Total(jobs) else if v < n + m - 1 then e else 0)
  }

  ghost function LargeFirstPlacement(jobs: seq<Job>, j: nat): seq<set<nat>>
    requires 0 < j < |jobs| && jobs[j].count >= 2
  {
    var (n, m) := (jobs[0].count, jobs[j].count);
    seq(|jobs|, i requires 0 <= i < |jobs| =>
      if i == 0 then Nodes(1, n + 1)
      else if i == j then Nodes(0, 1) + Nodes(n, n + m - 1)
      else if jobs[i].gpus > 0 then Nodes(n, n + 1) else Nodes(0, jobs[i].count))
  }

  lemma LargeFirstPlaces(jobs: seq<Job>, j: nat)
    requires Spread(jobs, j) && jobs[0].gpus >= jobs[j].gpus
    ensures Places(jobs, LargeFirstPlacement(jobs, j), LargeFirst(jobs, j))
  {
    var (n, m) := (jobs[0].count, jobs[j].count);
    var (ds, x, placement) := (Gpus(jobs), LargeFirst(jobs, j), LargeFirstPlacement(jobs, j));
    AllNodesRoomy(jobs, |x|);
    forall i | 0 <= i < |jobs|
      ensures |placement[i]| == jobs[i].count && forall v :: v in placement[i] ==> v < |x|
    {
      assert Nodes(0, 1) * Nodes(n, n + m - 1) == {};
    }
    forall v | 0 <= v < |x|
      ensures SumWhere(ds, At(placement, v)) <= x[v]
    {
      LargeFirstLoad(jobs, j, v);
    }
  }

  lemma LargeFirstLoad(jobs: seq<Job>, j: nat, v: nat)
    requires Spread(jobs, j) && jobs[0].gpus >= jobs[j].gpus && v < |LargeFirst(jobs, j)|
    ensures SumWhere(Gpus(jobs), At(LargeFirstPlacement(jobs, j), v)) <= LargeFirst(jobs, j)[v]
  {
    var (n, m) := (jobs[0].count, jobs[j].count);
    var (ds, at) := (Gpus(jobs), At(LargeFirstPlacement(jobs, j), v));
    if v == n {
      SumMono(ds, at, Everything(|jobs|));
    } else if 1 <= v < n {
      SumOnly(ds, at, 0);
    } else if v == 0 || v < n + m - 1 {
      SumOnly(ds, at, j);
    } else {
      SumNone(ds, at);
    }
  }

  lemma LargeFirstMissed(jobs: seq<Job>, j: nat)
    requires Spread(jobs, j) && jobs[0].gpus >= jobs[j].gpus
    ensures FirstFit(jobs, LargeFirst(jobs, j)) == None
  {
    var (n, d, m, e) := (jobs[0].count, jobs[0].gpus, jobs[j].count, jobs[j].gpus);
    var x := LargeFirst(jobs, j);
    TakeFirst(x, d, n, 0);
    var left := Take(x, d, n, 0).0;
    AllNodesRoomy(jobs[1..], |left|);
    SubsetSize(Suitable(left, e, 0), Nodes(n, n + m - 1));
    assert jobs[1..][j - 1] == jobs[j];
    forall i | 0 <= i < j - 1
      ensures jobs[1..][i].gpus == 0
    {
      assert jobs[1..][i] == jobs[i + 1];
    }
    StuckAt(jobs[1..], j - 1, left);
  }

  /** First fit spoils, for a small job, a node that the large one needs. */
  function SmallFirst(jobs: seq<Job>, j: nat): seq<nat>
    requires 0 < j < |jobs| && jobs[j].count >= 2
  {
    var (n, d, m, e) := (jobs[0].count, jobs[0].gpus, jobs[j].count, jobs[j].gpus);
    seq(m + n + AllNodes(jobs), v requires v >= 0 =>
      if v == 1 then Total(jobs[1..]) else if v < m then e else if v < m + n then d else 0)
  }

  ghost function SmallFirstPlacement(jobs: seq<Job>, j: nat): seq<set<nat>>
    requires 0 < j < |jobs| && jobs[j].count >= 2
  {
    var (n, m) := (jobs[0].count, jobs[j].count);
    seq(|jobs|, i requires 0 <= i < |jobs| =>
      if i == 0 then Nodes(m, m + n)
      else if i == j then Nodes(0, m)
      else if jobs[i].gpus > 0 then Nodes(1, 2) else Nodes(0, jobs[i].count))
  }

  lemma SmallFirstPlaces(jobs: seq<Job>, j: nat)
    requires Spread(jobs, j) && jobs[0].gpus < jobs[j].gpus
    ensures Places(jobs, SmallFirstPlacement(jobs, j), SmallFirst(jobs, j))
  {
    var (n, m) := (jobs[0].count, jobs[j].count);
    var (ds, x, placement) := (Gpus(jobs), SmallFirst(jobs, j), SmallFirstPlacement(jobs, j));
    AllNodesRoomy(jobs, |x|);
    forall v | 0 <= v < |x|
      ensures SumWhere(ds, At(placement, v)) <= x[v]
    {
      SmallFirstLoad(jobs, j, v);
    }
  }

  /** A node without the first job holds at most all others. */
  lemma LaterLoad(jobs: seq<Job>, placement: seq<set<nat>>, v: nat)
    requires jobs != [] && |placement| == |jobs| && v !in placement[0]
    ensures SumWhere(Gpus(jobs), At(placement, v)) <= Total(jobs[1..])
  {
    LoadSplit(jobs, placement, v);
    SumMono(Gpus(jobs[1..]), At(placement[1..], v), Everything(|jobs| - 1));
  }

  lemma SmallFirstLoad(jobs: seq<Job>, j: nat, v: nat)
    requires Spread(jobs, j) && jobs[0].gpus < jobs[j].gpus && v < |SmallFirst(jobs, j)|
    ensures SumWhere(Gpus(jobs), At(SmallFirstPlacement(jobs, j), v)) <= SmallFirst(jobs, j)[v]
  {
    var (n, m) := (jobs[0].count, jobs[j].count);
    var (ds, at) := (Gpus(jobs), At(SmallFirstPlacement(jobs, j), v));
    if v == 1 {
      LaterLoad(jobs, SmallFirstPlacement(jobs, j), v);
    } else if v < m {
      SumOnly(ds, at, j);
    } else if v < m + n {
      SumOnly(ds, at, 0);
    } else {
      SumNone(ds, at);
    }
  }

  lemma TotalAtLeast(jobs: seq<Job>, j: nat)
    requires j < |jobs|
    ensures jobs[j].gpus <= Total(jobs)
  {
    var one := seq(|jobs|, i => i == j);
    SumOnly(Gpus(jobs), one, j);
    SumMono(Gpus(jobs), one, Everything(|jobs|));
  }

  lemma SmallFirstMissed(jobs: seq<Job>, j: nat)
    requires Spread(jobs, j) && jobs[0].gpus < jobs[j].gpus
    ensures FirstFit(jobs, SmallFirst(jobs, j)) == None
  {
    var (n, d, m, e) := (jobs[0].count, jobs[0].gpus, jobs[j].count, jobs[j].gpus);
    var x := SmallFirst(jobs, j);
    assert jobs[1..][j - 1] == jobs[j];
    TotalAtLeast(jobs[1..], j - 1);
    TakeFirst(x, d, n, 0);
    var left := Take(x, d, n, 0).0;
    AllNodesRoomy(jobs[1..], |left|);
    SubsetSize(Suitable(left, e, 0), Nodes(1, m));
    forall i | 0 <= i < j - 1
      ensures jobs[1..][i].gpus == 0
    {
      assert jobs[1..][i] == jobs[i + 1];
    }
    StuckAt(jobs[1..], j - 1, left);
  }

  /** When the jobs after the first are good, only the next one that wants processes can want several nodes. */
  lemma {:induction false} FindSpread(jobs: seq<Job>) returns (j: nat)
    requires Good(jobs) && Counted(jobs)
    requires exists i :: 0 <= i < |jobs| && jobs[i].gpus > 0 && jobs[i].count != 1
    ensures j < |jobs| && jobs[j].gpus > 0 && jobs[j].count >= 2
    ensures forall i :: 0 <= i < |jobs| && i != j && jobs[i].gpus > 0 ==> j < i && jobs[i].count == 1
    decreases |jobs|
  {
    var k :| 0 <= k < |jobs| && jobs[k].gpus > 0 && jobs[k].count != 1;
    if jobs[0].gpus > 0 {
      j := 0;
      forall i | 0 < i < |jobs| && jobs[i].gpus > 0
        ensures jobs[i].count == 1
      {
        assert jobs[1..][i - 1] == jobs[i];
      }
    } else {
      assert jobs[1..][k - 1] == jobs[k];
      var rest := FindSpread(jobs[1..]);
      j := rest + 1;
      forall i | 0 <= i < |jobs| && i != j && jobs[i].gpus > 0
        ensures j < i && jobs[i].count == 1
      {
        assert jobs[1..][i - 1] == jobs[i];
      }
    }
  }

  lemma SpreadMissed(jobs: seq<Job>) returns (placement: seq<set<nat>>, available: seq<nat>)
    requires jobs != [] && Good(jobs[1..]) && Counted(jobs) && jobs[0].gpus > 0
    requires exists i :: 0 <= i < |jobs[1..]| && jobs[1..][i].gpus > 0 && jobs[1..][i].count != 1
    ensures Missed(jobs, placement, available)
  {
    var k := FindSpread(jobs[1..]);
    var j := k + 1;
    forall i | 0 < i < |jobs| && i != j && jobs[i].gpus > 0
      ensures j < i && jobs[i].count == 1
    {
      assert jobs[1..][i - 1] == jobs[i];
    }
    assert jobs[1..][k] == jobs[j];
    if jobs[0].gpus >= jobs[j].gpus {
      LargeFirstPlaces(jobs, j);
      LargeFirstMissed(jobs, j);
      placement, available := LargeFirstPlacement(jobs, j), LargeFirst(jobs, j);
    } else {
      SmallFirstPlaces(jobs, j);
      SmallFirstMissed(jobs, j);
      placement, available := SmallFirstPlacement(jobs, j), SmallFirst(jobs, j);
    }
  }
}
