/**
 When the greedy check accepts everything that fits. A pool counts here as a job: how many nodes it wants, and how many
 processes on each of them.
 */
module GpuCompleteness {
  import opened Common
  import opened GpuCheck
  import opened Sets

  datatype Job = Job(count: nat, gpus: nat)

  // ----- sums over chosen jobs

  /** The sum of the chosen entries. */
  function SumWhere(ds: seq<nat>, chosen: seq<bool>): nat
    requires |chosen| == |ds|
  {
    if ds == [] then 0 else (if chosen[0] then ds[0] else 0) + SumWhere(ds[1..], chosen[1..])
  }

  lemma {:induction false} SumMono(ds: seq<nat>, a: seq<bool>, b: seq<bool>)
    requires |a| == |b| == |ds| && forall i :: 0 <= i < |ds| && a[i] && ds[i] > 0 ==> b[i]
    ensures SumWhere(ds, a) <= SumWhere(ds, b)
    decreases |ds|
  {
    if ds == [] {
    } else {
      SumMono(ds[1..], a[1..], b[1..]);
    }
  }

  lemma {:induction false} SumNone(ds: seq<nat>, a: seq<bool>)
    requires |a| == |ds| && forall i :: 0 <= i < |ds| && a[i] ==> ds[i] == 0
    ensures SumWhere(ds, a) == 0
    decreases |ds|
  {
    if ds == [] {
    } else {
      SumNone(ds[1..], a[1..]);
    }
  }

  /** At most one chosen entry is positive. */
  lemma {:induction false} SumOnly(ds: seq<nat>, a: seq<bool>, j: nat)
    requires |a| == |ds| && j < |ds| && forall i :: 0 <= i < |ds| && a[i] && ds[i] > 0 ==> i == j
    ensures SumWhere(ds, a) == if a[j] then ds[j] else 0
    decreases |ds|
  {
    if j == 0 {
      SumNone(ds[1..], a[1..]);
    } else {
      SumOnly(ds[1..], a[1..], j - 1);
    }
  }

  lemma {:induction false} SumSplit(ds: seq<nat>, a: seq<bool>, b: seq<bool>, c: seq<bool>)
    requires |a| == |b| == |c| == |ds|
    requires forall i :: 0 <= i < |ds| ==> (c[i] <==> a[i] || b[i]) && !(a[i] && b[i])
    ensures SumWhere(ds, c) == SumWhere(ds, a) + SumWhere(ds, b)
    decreases |ds|
  {
    if ds == [] {
    } else {
      SumSplit(ds[1..], a[1..], b[1..], c[1..]);
    }
  }

  // ----- jobs and placements

  function Gpus(jobs: seq<Job>): seq<nat> {
    seq(|jobs|, i requires 0 <= i < |jobs| => jobs[i].gpus)
  }

  /** Which jobs are placed on node `v`. */
  function At(placement: seq<set<nat>>, v: nat): seq<bool> {
    seq(|placement|, i requires 0 <= i < |placement| => v in placement[i])
  }

  ghost predicate Within(placement: seq<set<nat>>, jobs: seq<Job>, size: nat) {
    |placement| == |jobs| &&
    forall i :: 0 <= i < |jobs| ==> |placement[i]| == jobs[i].count && forall v :: v in placement[i] ==> v < size
  }

  ghost predicate Places(jobs: seq<Job>, placement: seq<set<nat>>, available: seq<nat>) {
    && Within(placement, jobs, |available|)
    && forall v :: 0 <= v < |available| ==> SumWhere(Gpus(jobs), At(placement, v)) <= available[v]
  }

  /** First fit, one job after another. */
  function FirstFit(jobs: seq<Job>, available: seq<nat>): Option<seq<nat>>
    decreases |jobs|
  {
    if jobs == [] then Some(available)
    else
      var (left, missing) := Take(available, jobs[0].gpus, jobs[0].count, 0);
      if missing > 0 then None else FirstFit(jobs[1..], left)
  }

  /** The load of the first job and of the rest. */
  lemma LoadSplit(jobs: seq<Job>, placement: seq<set<nat>>, v: nat)
    requires jobs != [] && |placement| == |jobs|
    ensures SumWhere(Gpus(jobs), At(placement, v)) ==
            (if v in placement[0] then jobs[0].gpus else 0) + SumWhere(Gpus(jobs[1..]), At(placement[1..], v))
  {
    assert Gpus(jobs)[1..] == Gpus(jobs[1..]) && At(placement, v)[1..] == At(placement[1..], v);
  }

  /** The nodes that first fit takes for one job. */
  lemma {:induction false} TakeTakes(available: seq<nat>, gpus: nat, count: nat, v: nat) returns (nodes: set<nat>)
    requires v <= |available|
    ensures var (left, missing) := Take(available, gpus, count, v);
            Deducted(available, left, nodes, gpus) && missing <= count && |nodes| == count - missing
    ensures forall u :: u in nodes ==> v <= u
    decreases |available| - v
  {
    if v == |available| || count == 0 {
      nodes := {};
    } else if available[v] >= gpus {
      var rest := TakeTakes(available[v := available[v] - gpus], gpus, count - 1, v + 1);
      nodes := rest + {v};
    } else {
      nodes := TakeTakes(available, gpus, count, v + 1);
    }
  }

  // ----- soundness

  lemma {:induction false} FirstFitPlaces(jobs: seq<Job>, available: seq<nat>) returns (placement: seq<set<nat>>)
    requires FirstFit(jobs, available).Some?
    ensures Places(jobs, placement, available)
    decreases |jobs|
  {
    if jobs == [] {
      placement := [];
    } else {
      var left := Take(available, jobs[0].gpus, jobs[0].count, 0).0;
      var nodes := TakeTakes(available, jobs[0].gpus, jobs[0].count, 0);
      var rest := FirstFitPlaces(jobs[1..], left);
      placement := [nodes] + rest;
      forall v | 0 <= v < |available|
        ensures SumWhere(Gpus(jobs), At(placement, v)) <= available[v]
      {
        LoadSplit(jobs, placement, v);
        assert placement[1..] == rest;
      }
      forall i | 0 <= i < |jobs|
        ensures |placement[i]| == jobs[i].count && forall v :: v in placement[i] ==> v < |available|
      {
        if i > 0 {
          assert placement[i] == rest[i - 1] && jobs[i] == jobs[1..][i - 1];
        }
      }
    }
  }

  // ----- the condition

  ghost predicate Sub(u: seq<bool>, t: seq<bool>) {
    |u| == |t| && forall i :: 0 <= i < |u| && u[i] ==> t[i]
  }

  /** Whatever jobs together want more than `d`, some of them want exactly `d`. */
  ghost predicate Exchangeable(d: nat, ds: seq<nat>) {
    forall t: seq<bool> :: |t| == |ds| && SumWhere(ds, t) > d ==> exists u :: Sub(u, t) && SumWhere(ds, u) == d
  }

  /** What may follow a job with positive demand: jobs on single nodes, exchangeable for it. */
  ghost predicate Follows(d: nat, later: seq<Job>) {
    && (forall i :: 0 <= i < |later| && later[i].gpus > 0 ==> later[i].count == 1)
    && Exchangeable(d, Gpus(later))
  }

  /** A caller can decide this from the jobs alone. */
  ghost predicate Good(jobs: seq<Job>)
    decreases |jobs|
  {
    jobs == [] || (Good(jobs[1..]) && (jobs[0].gpus > 0 ==> Follows(jobs[0].gpus, jobs[1..])))
  }

  // ----- sufficiency: a placement can be changed into the greedy one

  /** Moving job 0 from node `b` to node `a`, and in return some of the jobs on `a` to `b`. */
  function Moved(placement: seq<set<nat>>, moved: seq<bool>, a: nat, b: nat): seq<set<nat>>
    requires |placement| == |moved| + 1
  {
    seq(|placement|, i requires 0 <= i < |placement| =>
      if i == 0 then placement[0] - {b} + {a} else if moved[i - 1] then {b} else placement[i])
  }

  /** The positive jobs after the first on node `a`, and those of them that make room for the first. */
  lemma MakeRoom(jobs: seq<Job>, placement: seq<set<nat>>, a: nat) returns (moved: seq<bool>)
    requires jobs != [] && |placement| == |jobs| && Follows(jobs[0].gpus, jobs[1..])
    ensures |moved| == |jobs| - 1
    ensures forall i :: 0 <= i < |moved| && moved[i] ==> a in placement[i + 1] && jobs[i + 1].gpus > 0
    ensures var (ds, there) := (Gpus(jobs[1..]), SumWhere(Gpus(jobs[1..]), At(placement[1..], a)));
            SumWhere(ds, moved) <= jobs[0].gpus && (SumWhere(ds, moved) == jobs[0].gpus || SumWhere(ds, moved) == there)
  {
    var ds := Gpus(jobs[1..]);
    var t := seq(|ds|, i requires 0 <= i < |ds| => a in placement[i + 1] && ds[i] > 0);
    SumMono(ds, t, At(placement[1..], a));
    SumMono(ds, At(placement[1..], a), t);
    if SumWhere(ds, t) > jobs[0].gpus {
      moved :| Sub(moved, t) && SumWhere(ds, moved) == jobs[0].gpus;
    } else {
      moved := t;
    }
  }

  lemma MovedAt(placement: seq<set<nat>>, moved: seq<bool>, a: nat, b: nat, v: nat, i: nat)
    requires |placement| == |moved| + 1 && i < |moved| && (moved[i] ==> placement[i + 1] == {a})
    ensures At(Moved(placement, moved, a, b)[1..], v)[i] <==>
              if moved[i] then v == b else At(placement[1..], v)[i]
    ensures moved[i] ==> (At(placement[1..], v)[i] <==> v == a)
  {
    assert Moved(placement, moved, a, b)[1..][i] == Moved(placement, moved, a, b)[i + 1];
    assert placement[1..][i] == placement[i + 1];
  }

  lemma MovedLoads(jobs: seq<Job>, placement: seq<set<nat>>, moved: seq<bool>, a: nat, b: nat, v: nat)
    requires jobs != [] && |placement| == |jobs| == |moved| + 1 && a != b
    requires forall i :: 0 <= i < |moved| && moved[i] ==> placement[i + 1] == {a}
    ensures var (ds, before, after) := (Gpus(jobs[1..]), At(placement[1..], v),
              At(Moved(placement, moved, a, b)[1..], v));
      && (v == a ==> SumWhere(ds, before) == SumWhere(ds, after) + SumWhere(ds, moved))
      && (v == b ==> SumWhere(ds, after) == SumWhere(ds, before) + SumWhere(ds, moved))
      && (v != a && v != b ==> SumWhere(ds, after) == SumWhere(ds, before))
  {
    var (before, after) := (At(placement[1..], v), At(Moved(placement, moved, a, b)[1..], v));
    forall i | 0 <= i < |moved|
      ensures after[i] <==> if moved[i] then v == b else before[i]
      ensures moved[i] ==> (before[i] <==> v == a)
    {
      MovedAt(placement, moved, a, b, v, i);
    }
    MaskLoads(Gpus(jobs[1..]), before, after, moved, v == a, v == b);
  }

  lemma MaskLoads(ds: seq<nat>, before: seq<bool>, after: seq<bool>, moved: seq<bool>, from: bool, to: bool)
    requires |ds| == |before| == |after| == |moved| && !(from && to)
    requires forall i :: 0 <= i < |ds| ==> (after[i] <==> if moved[i] then to else before[i])
    requires forall i :: 0 <= i < |ds| && moved[i] ==> (before[i] <==> from)
    ensures from ==> SumWhere(ds, before) == SumWhere(ds, after) + SumWhere(ds, moved)
    ensures to ==> SumWhere(ds, after) == SumWhere(ds, before) + SumWhere(ds, moved)
    ensures !from && !to ==> SumWhere(ds, after) == SumWhere(ds, before)
  {
    if from {
      SumSplit(ds, after, moved, before);
    } else if to {
      SumSplit(ds, before, moved, after);
    } else {
      assert before == after;
    }
  }

  lemma SingletonOf(s: set<nat>, a: nat)
    requires |s| == 1 && a in s
    ensures s == {a}
  {
    var rest := s - {a};
    assert |rest| == 0;
  }

  /** One exchange brings the first job a node nearer to where greedy puts it. */
  lemma ExchangeOne(jobs: seq<Job>, placement: seq<set<nat>>, available: seq<nat>, a: nat, b: nat)
    returns (placement': seq<set<nat>>)
    requires jobs != [] && Places(jobs, placement, available) && Follows(jobs[0].gpus, jobs[1..])
    requires a < |available| && available[a] >= jobs[0].gpus && a !in placement[0] && b in placement[0]
    ensures Places(jobs, placement', available) && placement'[0] == placement[0] - {b} + {a}
  {
    var moved := MakeRoom(jobs, placement, a);
    forall i | 0 <= i < |moved| && moved[i]
      ensures placement[i + 1] == {a}
    {
      assert jobs[1..][i] == jobs[i + 1];
      SingletonOf(placement[i + 1], a);
    }
    placement' := Moved(placement, moved, a, b);
    forall v | 0 <= v < |available|
      ensures SumWhere(Gpus(jobs), At(placement', v)) <= available[v]
    {
      LoadSplit(jobs, placement, v);
      LoadSplit(jobs, placement', v);
      MovedLoads(jobs, placement, moved, a, b, v);
    }
    forall i | 0 <= i < |jobs|
      ensures |placement'[i]| == jobs[i].count && forall v :: v in placement'[i] ==> v < |available|
    {
      if i > 0 && moved[i - 1] {
        assert jobs[1..][i - 1] == jobs[i];
      }
    }
  }

  /** Exchanging until the first job is where greedy puts it. */
  lemma {:induction false} ExchangeAll(jobs: seq<Job>, placement: seq<set<nat>>, available: seq<nat>, nodes: set<nat>)
    returns (placement': seq<set<nat>>)
    requires jobs != [] && Places(jobs, placement, available) && Follows(jobs[0].gpus, jobs[1..])
    requires |nodes| == jobs[0].count && forall a :: a in nodes ==> a < |available| && available[a] >= jobs[0].gpus
    ensures Places(jobs, placement', available) && placement'[0] == nodes
    decreases |nodes - placement[0]|
  {
    if nodes == placement[0] {
      placement' := placement;
    } else {
      var a := Outside(nodes, placement[0]);
      var b := Outside(placement[0], nodes);
      var next := ExchangeOne(jobs, placement, available, a, b);
      assert nodes - next[0] == (nodes - placement[0]) - {a};
      placement' := ExchangeAll(jobs, next, available, nodes);
    }
  }

  /** Of two different sets of one size, each has an element that the other lacks. */
  lemma Outside(s: set<nat>, t: set<nat>) returns (x: nat)
    requires |s| == |t| && s != t
    ensures x in s && x !in t
  {
    if s <= t {
      var y :| y in t && y !in s;
      SubsetSize(s, t - {y});
    }
    x :| x in s && x !in t;
  }

  /** What is left after the first job still holds the others. */
  lemma HeadFits(jobs: seq<Job>, placement: seq<set<nat>>, available: seq<nat>) returns (rest: seq<set<nat>>)
    requires jobs != [] && Places(jobs, placement, available)
    requires jobs[0].gpus > 0 ==> Follows(jobs[0].gpus, jobs[1..])
    ensures var (left, missing) := Take(available, jobs[0].gpus, jobs[0].count, 0);
            missing == 0 && Places(jobs[1..], rest, left)
  {
    var (gpus, count) := (jobs[0].gpus, jobs[0].count);
    forall v | v in placement[0]
      ensures v in Suitable(available, gpus, 0)
    {
      LoadSplit(jobs, placement, v);
    }
    SubsetSize(placement[0], Suitable(available, gpus, 0));
    TakeMissing(available, gpus, count, 0);
    var nodes := TakeTakes(available, gpus, count, 0);
    var better := placement;
    if gpus > 0 {
      better := ExchangeAll(jobs, placement, available, nodes);
    }
    rest := better[1..];
    var left := Take(available, gpus, count, 0).0;
    forall v | 0 <= v < |left|
      ensures SumWhere(Gpus(jobs[1..]), At(rest, v)) <= left[v]
    {
      LoadSplit(jobs, better, v);
    }
    forall i | 0 <= i < |rest|
      ensures |rest[i]| == jobs[1..][i].count && forall v :: v in rest[i] ==> v < |left|
    {
      assert rest[i] == better[i + 1] && jobs[1..][i] == jobs[i + 1];
    }
  }

  /** On good jobs first fit finds a placement whenever there is one. */
  lemma {:induction false} GoodIsComplete(jobs: seq<Job>, placement: seq<set<nat>>, available: seq<nat>)
    requires Good(jobs) && Places(jobs, placement, available)
    ensures FirstFit(jobs, available).Some?
    decreases |jobs|
  {
    if jobs == [] {
    } else {
      var rest := HeadFits(jobs, placement, available);
      GoodIsComplete(jobs[1..], rest, Take(available, jobs[0].gpus, jobs[0].count, 0).0);
    }
  }
}
