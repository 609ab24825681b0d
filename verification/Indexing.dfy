/** Which positions a Python slice, a list of indices or a boolean mask names. */
module Indexing {
  import opened Arithmetic
  import opened Common

  // ----- slices

  /** A bound of a slice over `n` places: negative bounds count from the end, the rest are clamped. */
  function Bound(bound: int, n: nat, low: int, high: int): int {
    if bound < 0 then Max(bound + n, low) else Min(bound, high)
  }

  function Start(start: Option<int>, n: nat, step: int): int
    requires step != 0
  {
    if step > 0 then (if start.Some? then Bound(start.value, n, 0, n) else 0)
    else if start.Some? then Bound(start.value, n, -1, n - 1) else n - 1
  }

  function Stop(stop: Option<int>, n: nat, step: int): int
    requires step != 0
  {
    if step > 0 then (if stop.Some? then Bound(stop.value, n, 0, n) else n)
    else if stop.Some? then Bound(stop.value, n, -1, n - 1) else -1
  }

  /** `from` has not reached `to` in steps of this sign. */
  predicate Before(from: int, to: int, step: int) {
    if step > 0 then from < to else to < from
  }

  /** `range(from, to, step)`. */
  function Steps(from: int, to: int, step: int): (r: seq<int>)
    requires step != 0
    decreases if step > 0 then to - from else from - to
  {
    if Before(from, to, step) then [from] + Steps(from + step, to, step) else []
  }

  /** The places `[start:stop:step]` names in a sequence of length `n`, in order. */
  function SliceIndices(n: nat, start: Option<int>, stop: Option<int>, step: int): (r: seq<nat>)
    requires step != 0
    ensures forall i :: 0 <= i < |r| ==> r[i] < n
  {
    var (from, to) := (Start(start, n, step), Stop(stop, n, step));
    assert forall i :: 0 <= i < |Steps(from, to, step)| ==> 0 <= Steps(from, to, step)[i] < n by {
      StepsInside(n, start, stop, step);
    }
    Steps(from, to, step)
  }

  lemma {:induction false} StepsBetween(from: int, to: int, step: int, i: nat)
    requires step != 0 && i < |Steps(from, to, step)|
    ensures Before(Steps(from, to, step)[i], to, step) && !Before(Steps(from, to, step)[i], from, step)
    decreases i
  {
    if i == 0 {
    } else {
      StepsBetween(from + step, to, step, i - 1);
    }
  }

  lemma StepsInside(n: nat, start: Option<int>, stop: Option<int>, step: int)
    requires step != 0
    ensures var r := Steps(Start(start, n, step), Stop(stop, n, step), step);
            forall i :: 0 <= i < |r| ==> 0 <= r[i] < n
  {
    var r := Steps(Start(start, n, step), Stop(stop, n, step), step);
    forall i | 0 <= i < |r|
      ensures 0 <= r[i] < n
    {
      StepsBetween(Start(start, n, step), Stop(stop, n, step), step, i);
    }
  }

  /** Consecutive places lie `step` apart, from the first bound on. */
  lemma {:induction false} StepsApart(from: int, to: int, step: int, i: nat)
    requires step != 0 && i < |Steps(from, to, step)|
    ensures Steps(from, to, step)[i] == from + i * step
    decreases i
  {
    if i == 0 {
    } else {
      StepsApart(from + step, to, step, i - 1);
      assert step + (i - 1) * step == i * step;
    }
  }

  /** No place between the bounds is left out. */
  lemma {:induction false} StepsComplete(from: int, to: int, step: int, i: nat)
    requires step != 0 && Before(from + i * step, to, step)
    ensures i < |Steps(from, to, step)|
    decreases i
  {
    if i == 0 {
    } else {
      assert i * step == step + (i - 1) * step;
      assert if step > 0 then (i - 1) * step >= 0 else (i - 1) * step <= 0;
      StepsComplete(from + step, to, step, i - 1);
    }
  }

  /** A slice names the places `from + i * step` before its end, in this order, and no others. */
  lemma SliceIndicesExactly(n: nat, start: Option<int>, stop: Option<int>, step: int, i: nat)
    requires step != 0
    ensures var (from, to) := (Start(start, n, step), Stop(stop, n, step));
            var r := SliceIndices(n, start, stop, step);
            && (i < |r| <==> Before(from + i * step, to, step))
            && (i < |r| ==> r[i] == from + i * step)
  {
    var (from, to) := (Start(start, n, step), Stop(stop, n, step));
    if i < |SliceIndices(n, start, stop, step)| {
      StepsApart(from, to, step, i);
      StepsBetween(from, to, step, i);
    }
    if Before(from + i * step, to, step) {
      StepsComplete(from, to, step, i);
    }
  }

  // ----- which places those are

  /** Stepping does not change the remainder. */
  lemma RemainderStep(x: nat, d: nat)
    requires d > 0
    ensures (x + d) % d == x % d && (x < d ==> x % d == x)
  {
    DivMod(x, d);
    MulSucc(x / d, d);
    QuotientUnique(x + d, d, x / d + 1, x % d);
    if x < d {
      QuotientUnique(x, d, 0, x);
    }
  }

  lemma {:induction false} UpMember(from: int, to: int, step: int, i: int)
    requires step > 0
    ensures i in Steps(from, to, step) <==> from <= i < to && (i - from) % step == 0
    decreases if from < to then to - from else 0
  {
    if from < to {
      UpMember(from + step, to, step, i);
      if from <= i {
        RemainderStep(i - from, step);
      }
      if from + step <= i {
        RemainderStep(i - from - step, step);
      }
      assert i in Steps(from, to, step) <==> i == from || i in Steps(from + step, to, step);
    }
  }

  lemma {:induction false} DownMember(from: int, to: int, step: int, i: int)
    requires step > 0
    ensures i in Steps(from, to, -step) <==> to < i <= from && (from - i) % step == 0
    decreases if to < from then from - to else 0
  {
    if to < from {
      DownMember(from - step, to, step, i);
      if i <= from {
        RemainderStep(from - i, step);
      }
      if i <= from - step {
        RemainderStep(from - step - i, step);
      }
      assert i in Steps(from, to, -step) <==> i == from || i in Steps(from - step, to, -step);
    }
  }

  /** `[a:b:step]` upwards: the places of the sequence from `a` on and before `b` that are whole steps from `a`. */
  lemma SliceUp(n: nat, a: nat, b: nat, step: int, i: nat)
    requires step > 0
    ensures i in SliceIndices(n, Some(a), Some(b), step) <==> i < n && a <= i < b && (i - a) % step == 0
  {
    UpMember(Start(Some(a), n, step), Stop(Some(b), n, step), step, i);
  }

  /** `[a:b:-step]` downwards: the places from the last one not behind `a` down to the one behind `b`. */
  lemma SliceDown(n: nat, a: nat, b: nat, step: int, i: nat)
    requires step > 0 && n > 0
    ensures i in SliceIndices(n, Some(a), Some(b), -step) <==>
              b < i < n && i <= a && ((if a < n then a else n - 1) - i) % step == 0
  {
    DownMember(Start(Some(a), n, -step), Stop(Some(b), n, -step), step, i);
  }

  /** A bound that counts from the end is the place it counts to. */
  lemma FromTheEnd(n: nat, k: nat, other: Option<int>, step: int)
    requires step != 0 && 0 < k <= n
    ensures SliceIndices(n, Some(-(k as int)), other, step) == SliceIndices(n, Some(n - k), other, step)
    ensures SliceIndices(n, other, Some(-(k as int)), step) == SliceIndices(n, other, Some(n - k), step)
  {
  }

  /** Missing bounds, and those counted to places before the first one: from one end to the other. */
  lemma MissingBounds(n: nat, k: nat, other: Option<int>, step: int)
    requires step > 0 && k > n
    ensures SliceIndices(n, None, other, step) == SliceIndices(n, Some(0), other, step)
    ensures SliceIndices(n, Some(-(k as int)), other, step) == SliceIndices(n, Some(0), other, step)
    ensures SliceIndices(n, other, None, step) == SliceIndices(n, other, Some(n), step)
    ensures SliceIndices(n, other, Some(-(k as int)), step) == []
    ensures n > 0 ==> SliceIndices(n, None, other, -step) == SliceIndices(n, Some(n - 1), other, -step)
    ensures SliceIndices(n, Some(-(k as int)), other, -step) == []
    ensures SliceIndices(n, other, Some(-(k as int)), -step) == SliceIndices(n, other, None, -step)
  {
  }

  /** Without a lower bound the way down ends at the first place. */
  lemma DownToTheFirst(n: nat, a: nat, step: int, i: nat)
    requires step > 0 && n > 0
    ensures i in SliceIndices(n, Some(a), None, -step) <==>
              i < n && i <= a && ((if a < n then a else n - 1) - i) % step == 0
  {
    DownMember(Start(Some(a), n, -step), -1, step, i);
  }

  lemma StepsDiffer(i: nat, j: nat, step: int)
    requires i < j && step != 0
    ensures if step > 0 then i * step < j * step else i * step > j * step
  {
    assert (j - i) * step == j * step - i * step;
    if step > 0 {
      MultipleAtLeast(j - i, step);
    } else {
      MultipleAtLeast(j - i, -step);
      assert (j - i) * -step == -((j - i) * step);
    }
  }

  /** The places are named in the direction of the step, each once. */
  lemma SliceInOrder(n: nat, start: Option<int>, stop: Option<int>, step: int, i: nat, j: nat)
    requires step != 0 && i < j < |SliceIndices(n, start, stop, step)|
    ensures var r := SliceIndices(n, start, stop, step); if step > 0 then r[i] < r[j] else r[i] > r[j]
  {
    StepsApart(Start(start, n, step), Stop(stop, n, step), step, i);
    StepsApart(Start(start, n, step), Stop(stop, n, step), step, j);
    StepsDiffer(i, j, step);
  }

  // ----- lists of indices and masks

  datatype Selector = Positions(idxs: seq<int>) | Mask(keep: seq<bool>)

  /** The places a mask keeps, counted from `first`. */
  function Kept(keep: seq<bool>, first: nat): (r: seq<nat>)
    ensures forall i :: 0 <= i < |r| ==> first <= r[i] < first + |keep|
  {
    if keep == [] then []
    else (if keep[0] then [first] else []) + Kept(keep[1..], first + 1)
  }

  predicate InRange(idxs: seq<int>, n: nat) {
    forall i :: 0 <= i < |idxs| ==> 0 <= idxs[i] + n && idxs[i] < n
  }

  function FromStart(idx: int, n: nat): nat
    requires 0 <= idx + n
  {
    if idx < 0 then idx + n else idx
  }

  /** Negative indices count from the end; an index outside, or a mask of another length, raises. */
  function Selected(s: Selector, n: nat): (r: Option<seq<nat>>)
    ensures r.Some? ==> forall i :: 0 <= i < |r.value| ==> r.value[i] < n
  {
    match s
    case Positions(idxs) =>
      if InRange(idxs, n) then Some(seq(|idxs|, i requires 0 <= i < |idxs| => FromStart(idxs[i], n))) else None
    case Mask(keep) => if |keep| == n then Some(Kept(keep, 0)) else None
  }

  /** A mask names exactly the places where it holds, each once and in order. */
  lemma {:induction false} KeptExactly(keep: seq<bool>, first: nat)
    ensures forall p: nat :: p in Kept(keep, first) <==> first <= p < first + |keep| && keep[p - first]
    ensures forall i, j :: 0 <= i < j < |Kept(keep, first)| ==> Kept(keep, first)[i] < Kept(keep, first)[j]
  {
    if keep == [] {
    } else {
      KeptExactly(keep[1..], first + 1);
      var (r, rest) := (Kept(keep, first), Kept(keep[1..], first + 1));
      forall p: nat
        ensures p in r <==> first <= p < first + |keep| && keep[p - first]
      {
        assert p in r <==> p in rest || (p == first && keep[0]);
        assert p in rest <==> first + 1 <= p < first + |keep| && keep[p - first];
      }
    }
  }
}
