/** Leave-one-out advantages, returns and process rewards, over the reals. */
module PrimeRewards {
  import opened Arithmetic
  import opened Common
  import opened Reals

  type Vec = seq<real>

  type Mask = seq<bool>

  // ----- masked rows

  function MaskedSum(xs: Vec, mask: Mask): real
    requires |xs| == |mask|
  {
    if xs == [] then 0.0
    else
      var n := |xs| - 1;
      MaskedSum(xs[..n], mask[..n]) + if mask[n] then xs[n] else 0.0
  }

  function MaskCount(mask: Mask): nat {
    if mask == [] then 0
    else MaskCount(mask[..|mask| - 1]) + if mask[|mask| - 1] then 1 else 0
  }

  /** The mean over the masked entries; a row without any has no mean (the source gets NaN). */
  function MaskedMean(xs: Vec, mask: Mask): real
    requires |xs| == |mask| && MaskCount(mask) > 0
  {
    MaskedSum(xs, mask) / MaskCount(mask) as real
  }

  function ZeroUnmasked(xs: Vec, mask: Mask): Vec
    requires |xs| == |mask|
  {
    seq(|xs|, j requires 0 <= j < |xs| => if mask[j] then xs[j] else 0.0)
  }

  /** Masked entries become `a * x - b`. */
  function Affine(a: real, x: real, b: real): real {
    a * x - b
  }

  function Rescale(xs: Vec, mask: Mask, a: real, b: real): Vec
    requires |xs| == |mask|
  {
    seq(|xs|, j requires 0 <= j < |xs| => if mask[j] then Affine(a, xs[j], b) else xs[j])
  }

  lemma {:induction false} ZeroKeepsSum(xs: Vec, mask: Mask)
    requires |xs| == |mask|
    ensures MaskedSum(ZeroUnmasked(xs, mask), mask) == MaskedSum(xs, mask)
    decreases |xs|
  {
    if xs == [] {
    } else {
      var n := |xs| - 1;
      ZeroKeepsSum(xs[..n], mask[..n]);
      assert ZeroUnmasked(xs, mask)[..n] == ZeroUnmasked(xs[..n], mask[..n]);
    }
  }

  lemma Distribute(a: real, x: real, y: real)
    ensures a * (x + y) == a * x + a * y
  {
  }

  lemma Divide(x: real, c: real, r: real)
    requires c > 0.0 && r == x * c
    ensures r / c == x
  {
  }

  /** The masked entries' deviations from `m`, summed; zero exactly at the mean. */
  ghost function Deviation(xs: Vec, mask: Mask, m: real): real
    requires |xs| == |mask|
  {
    if xs == [] then 0.0
    else
      var n := |xs| - 1;
      Deviation(xs[..n], mask[..n], m) + if mask[n] then xs[n] - m else 0.0
  }

  lemma {:induction false} DeviationFromSum(xs: Vec, mask: Mask, m: real)
    requires |xs| == |mask|
    ensures Deviation(xs, mask, m) == MaskedSum(xs, mask) - m * MaskCount(mask) as real
    decreases |xs|
  {
    if xs == [] {
    } else {
      var n := |xs| - 1;
      DeviationFromSum(xs[..n], mask[..n], m);
      Distribute(m, MaskCount(mask[..n]) as real, if mask[n] then 1.0 else 0.0);
    }
  }

  lemma QuotientTimes(s: real, c: real, m: real)
    requires c > 0.0 && m == s / c
    ensures s - m * c == 0.0
  {
  }

  lemma MeanHasNoDeviation(xs: Vec, mask: Mask)
    requires |xs| == |mask| && MaskCount(mask) > 0
    ensures Deviation(xs, mask, MaskedMean(xs, mask)) == 0.0
  {
    DeviationFromSum(xs, mask, MaskedMean(xs, mask));
    QuotientTimes(MaskedSum(xs, mask), MaskCount(mask) as real, MaskedMean(xs, mask));
  }

  lemma ZeroFactor(x: real, d: real)
    requires d > 0.0 && x * d == 0.0
    ensures x == 0.0
  {
  }

  lemma SameProduct(s: real, m1: real, m2: real, c: real)
    requires c > 0.0 && s - m1 * c == 0.0 && s - m2 * c == 0.0
    ensures m1 == m2
  {
    assert (m1 - m2) * c == 0.0;
    ZeroFactor(m1 - m2, c);
  }

  lemma NoDeviationIsMean(xs: Vec, mask: Mask, m: real)
    requires |xs| == |mask| && MaskCount(mask) > 0 && Deviation(xs, mask, m) == 0.0
    ensures MaskedMean(xs, mask) == m
  {
    MeanHasNoDeviation(xs, mask);
    DeviationFromSum(xs, mask, m);
    DeviationFromSum(xs, mask, MaskedMean(xs, mask));
    SameProduct(MaskedSum(xs, mask), MaskedMean(xs, mask), m, MaskCount(mask) as real);
  }

  lemma AffineDeviation(a: real, x: real, b: real, m: real)
    ensures (a * x - b) - (a * m - b) == a * (x - m)
  {
  }

  lemma DeviationStep(a: real, d: real, x: real, b: real, m: real)
    ensures a * d + ((a * x - b) - (a * m - b)) == a * (d + (x - m))
  {
    Distribute(a, d, x - m);
    AffineDeviation(a, x, b, m);
  }

  lemma {:induction false} RescaleDeviation(xs: Vec, mask: Mask, a: real, b: real, m: real, target: real)
    requires |xs| == |mask| && target == a * m - b
    ensures Deviation(Rescale(xs, mask, a, b), mask, target) == a * Deviation(xs, mask, m)
    decreases |xs|
  {
    if xs == [] {
    } else {
      var n := |xs| - 1;
      RescaleDeviation(xs[..n], mask[..n], a, b, m, target);
      var r := Rescale(xs, mask, a, b);
      assert r[..n] == Rescale(xs[..n], mask[..n], a, b);
      if mask[n] {
        DeviationStep(a, Deviation(xs[..n], mask[..n], m), xs[n], b, m);
      }
    }
  }

  lemma NoDeviationRescaled(xs: Vec, mask: Mask, a: real, b: real, m: real, target: real)
    requires |xs| == |mask| && Deviation(xs, mask, m) == 0.0 && target == a * m - b
    ensures Deviation(Rescale(xs, mask, a, b), mask, target) == 0.0
  {
    RescaleDeviation(xs, mask, a, b, m, target);
  }

  /** The mean of an affinely rescaled row. */
  lemma RescaleMean(xs: Vec, mask: Mask, a: real, b: real)
    requires |xs| == |mask| && MaskCount(mask) > 0
    ensures MaskedMean(Rescale(xs, mask, a, b), mask) == a * MaskedMean(xs, mask) - b
  {
    var target := a * MaskedMean(xs, mask) - b;
    MeanHasNoDeviation(xs, mask);
    NoDeviationRescaled(xs, mask, a, b, MaskedMean(xs, mask), target);
    NoDeviationIsMean(Rescale(xs, mask, a, b), mask, target);
  }

  // ----- leave-one-out over groups of n rows

  ghost predicate Shaped(rewards: seq<Vec>, masks: seq<Mask>) {
    |rewards| == |masks| && forall i :: 0 <= i < |rewards| ==> |rewards[i]| == |masks[i]| && MaskCount(masks[i]) > 0
  }

  function Means(rewards: seq<Vec>, masks: seq<Mask>): Vec
    requires |rewards| == |masks|
    requires forall i :: 0 <= i < |rewards| ==> |rewards[i]| == |masks[i]| && MaskCount(masks[i]) > 0
  {
    seq(|rewards|, i requires 0 <= i < |rewards| => MaskedMean(rewards[i], masks[i]))
  }

  /** n / (n - 1). */
  function Scale(n: nat): real
    requires n >= 2
  {
    n as real / (n - 1) as real
  }

  /** The baseline: the group's summed means over n - 1. */
  function Baseline(groupSum: real, n: nat): real
    requires n >= 2
  {
    groupSum / (n - 1) as real
  }

  function RlooRow(xs: Vec, mask: Mask, groupSum: real, n: nat): Vec
    requires |xs| == |mask| && n >= 2
  {
    Rescale(ZeroUnmasked(xs, mask), mask, Scale(n), Baseline(groupSum, n))
  }

  function GroupSum(rewards: seq<Vec>, masks: seq<Mask>, start: nat, n: nat): real
    requires Shaped(rewards, masks) && start + n <= |rewards|
  {
    Sum(Means(rewards[start..start + n], masks[start..start + n]))
  }

  /** The rows of the group that starts at `start`, rescaled by the group's own baseline. */
  ghost predicate GroupDone(out: seq<Vec>, rewards: seq<Vec>, masks: seq<Mask>, n: nat, start: int)
    requires Shaped(rewards, masks) && n >= 2
  {
    && 0 <= start && start + n <= |rewards| == |out|
    && forall i :: start <= i < start + n ==>
         out[i] == RlooRow(rewards[i], masks[i], GroupSum(rewards, masks, start, n), n)
  }

  ghost predicate GroupsDone(out: seq<Vec>, rewards: seq<Vec>, masks: seq<Mask>, n: nat, groups: nat)
    requires Shaped(rewards, masks) && n >= 2
    decreases groups
  {
    groups == 0 || (GroupsDone(out, rewards, masks, n, groups - 1) &&
        GroupDone(out, rewards, masks, n, (groups - 1) * n))
  }

  lemma ZeroKeepsMeans(rewards: seq<Vec>, masks: seq<Mask>)
    requires Shaped(rewards, masks)
    ensures var zeroed := seq(|rewards|, i requires 0 <= i < |rewards| => ZeroUnmasked(rewards[i], masks[i]));
            Shaped(zeroed, masks) && Means(zeroed, masks) == Means(rewards, masks)
  {
    forall i | 0 <= i < |rewards|
      ensures MaskedSum(ZeroUnmasked(rewards[i], masks[i]), masks[i]) == MaskedSum(rewards[i], masks[i])
    {
      ZeroKeepsSum(rewards[i], masks[i]);
    }
  }

  method ZeroAll(rewards: seq<Vec>, masks: seq<Mask>) returns (out: seq<Vec>)
    requires Shaped(rewards, masks)
    ensures |out| == |rewards| && forall i :: 0 <= i < |rewards| ==> out[i] == ZeroUnmasked(rewards[i], masks[i])
  {
    out := [];
    for i := 0 to |rewards|
      invariant |out| == i && forall k :: 0 <= k < i ==> out[k] == ZeroUnmasked(rewards[k], masks[k])
    {
      out := out + [ZeroUnmasked(rewards[i], masks[i])];
    }
  }

  lemma GroupMeans(out: seq<Vec>, rewards: seq<Vec>, masks: seq<Mask>, start: nat, n: nat)
    requires Shaped(rewards, masks) && |out| == |rewards| && start + n <= |rewards|
    requires forall i :: start <= i < start + n ==> out[i] == ZeroUnmasked(rewards[i], masks[i])
    ensures Shaped(out[start..start + n], masks[start..start + n])
    ensures Sum(Means(out[start..start + n], masks[start..start + n])) == GroupSum(rewards, masks, start, n)
  {
    ZeroKeepsMeans(rewards[start..start + n], masks[start..start + n]);
    assert out[start..start + n] ==
           seq(n, i requires 0 <= i < n => ZeroUnmasked(rewards[start..start + n][i], masks[start..start + n][i]));
  }

  lemma {:induction false} GroupsKept(
    before: seq<Vec>, after: seq<Vec>, rewards: seq<Vec>, masks: seq<Mask>, n: nat, groups: nat)
    requires Shaped(rewards, masks) && n >= 2 && GroupsDone(before, rewards, masks, n, groups)
    requires |before| == |after| && forall i :: 0 <= i < groups * n && i < |before| ==> after[i] == before[i]
    ensures GroupsDone(after, rewards, masks, n, groups)
    decreases groups
  {
    if groups == 0 {
    } else {
      MulSucc(groups - 1, n);
      GroupsKept(before, after, rewards, masks, n, groups - 1);
    }
  }

  /** The in-place group loop; a sample count of one divides by zero. */
  method MaskedRloo(rewards: seq<Vec>, masks: seq<Mask>, n: nat) returns (out: seq<Vec>)
    requires Shaped(rewards, masks) && n >= 2 && |rewards| % n == 0
    ensures |out| == |rewards| && GroupsDone(out, rewards, masks, n, |rewards| / n)
  {
    out := ZeroAll(rewards, masks);
    ExactQuotient(|rewards|, n);
    var groups := |rewards| / n;
    for g := 0 to groups
      invariant |out| == |rewards| && GroupsDone(out, rewards, masks, n, g)
      invariant forall i :: g * n <= i < |rewards| ==> out[i] == ZeroUnmasked(rewards[i], masks[i])
    {
      ghost var before := out;
      MulSucc(g, n);
      MulMonotone(g + 1, groups, n);
      out := RlooGroup(out, rewards, masks, g * n, n);
      GroupsKept(before, out, rewards, masks, n, g);
    }
  }

  method RlooGroup(out: seq<Vec>, rewards: seq<Vec>, masks: seq<Mask>, start: nat, n: nat) returns (r: seq<Vec>)
    requires Shaped(rewards, masks) && n >= 2 && start + n <= |rewards| == |out|
    requires forall i :: start <= i < |rewards| ==> out[i] == ZeroUnmasked(rewards[i], masks[i])
    ensures GroupDone(r, rewards, masks, n, start)
    ensures forall i :: 0 <= i < |out| && !(start <= i < start + n) ==> r[i] == out[i]
  {
    GroupMeans(out, rewards, masks, start, n);
    var groupSum := Sum(Means(out[start..start + n], masks[start..start + n]));
    r := RescaleGroup(out, rewards, masks, start, n, groupSum);
  }

  method RescaleGroup(out: seq<Vec>, rewards: seq<Vec>, masks: seq<Mask>, start: nat, n: nat, groupSum: real)
    returns (r: seq<Vec>)
    requires Shaped(rewards, masks) && n >= 2 && start + n <= |rewards| == |out|
    requires forall i :: start <= i < start + n ==> out[i] == ZeroUnmasked(rewards[i], masks[i])
    ensures |r| == |out|
    ensures forall i :: start <= i < start + n ==> r[i] == RlooRow(rewards[i], masks[i], groupSum, n)
    ensures forall i :: 0 <= i < |out| && !(start <= i < start + n) ==> r[i] == out[i]
  {
    r := out;
    for p := start to start + n
      invariant |r| == |out|
      invariant forall i :: start <= i < p ==> r[i] == RlooRow(rewards[i], masks[i], groupSum, n)
      invariant forall i :: 0 <= i < |out| && !(start <= i < p) ==> r[i] == out[i]
    {
      r := r[p := Rescale(r[p], masks[p], Scale(n), Baseline(groupSum, n))];
    }
  }

  // ----- what the advantages mean

  lemma ZeroedMean(xs: Vec, mask: Mask)
    requires |xs| == |mask| && MaskCount(mask) > 0
    ensures MaskedMean(ZeroUnmasked(xs, mask), mask) == MaskedMean(xs, mask)
  {
    ZeroKeepsSum(xs, mask);
  }

  lemma ZeroedRescaleMean(xs: Vec, mask: Mask, a: real, b: real)
    requires |xs| == |mask| && MaskCount(mask) > 0
    ensures MaskedMean(Rescale(ZeroUnmasked(xs, mask), mask, a, b), mask) == a * MaskedMean(xs, mask) - b
  {
    ZeroedMean(xs, mask);
    RescaleMean(ZeroUnmasked(xs, mask), mask, a, b);
  }

  lemma {:induction false} SumAffine(xs: Vec, ys: Vec, a: real, b: real)
    requires |ys| == |xs| && forall i :: 0 <= i < |xs| ==> ys[i] == a * xs[i] - b
    ensures Sum(ys) == a * Sum(xs) - |xs| as real * b
    decreases |xs|
  {
    if xs == [] {
    } else {
      var n := |xs| - 1;
      SumAffine(xs[..n], ys[..n], a, b);
      Distribute(a, Sum(xs[..n]), xs[n]);
      Distribute(b, n as real, 1.0);
    }
  }

  lemma ScaledCancel(n: nat, s: real)
    requires n >= 2
    ensures Scale(n) * s - n as real * Baseline(s, n) == 0.0
  {
    var d := (n - 1) as real;
    var q, t := Scale(n), Baseline(s, n);
    assert n as real == q * d && s == t * d;
    assert q * (t * d) == (q * d) * t;
  }

  lemma MeansRescaled(out: seq<Vec>, rewards: seq<Vec>, masks: seq<Mask>, a: real, b: real)
    requires Shaped(rewards, masks) && |out| == |rewards|
    requires forall i :: 0 <= i < |out| ==> out[i] == Rescale(ZeroUnmasked(rewards[i], masks[i]), masks[i], a, b)
    ensures Shaped(out, masks)
    ensures forall i :: 0 <= i < |out| ==> Means(out, masks)[i] == a * Means(rewards, masks)[i] - b
  {
    forall i | 0 <= i < |out|
      ensures Means(out, masks)[i] == a * Means(rewards, masks)[i] - b
    {
      ZeroedRescaleMean(rewards[i], masks[i], a, b);
    }
  }

  lemma RescaledGroupSum(out: seq<Vec>, rewards: seq<Vec>, masks: seq<Mask>, start: nat, n: nat, a: real, b: real)
    requires Shaped(rewards, masks) && start + n <= |rewards| == |out|
    requires forall i :: start <= i < start + n ==>
              out[i] == Rescale(ZeroUnmasked(rewards[i], masks[i]), masks[i], a, b)
    ensures Shaped(out[start..start + n], masks[start..start + n])
    ensures Sum(Means(out[start..start + n], masks[start..start + n])) ==
              a * GroupSum(rewards, masks, start, n) - n as real * b
  {
    MeansSumRescaled(out[start..start + n], rewards[start..start + n], masks[start..start + n], n, a, b);
  }

  lemma MeansSumRescaled(out: seq<Vec>, rewards: seq<Vec>, masks: seq<Mask>, n: nat, a: real, b: real)
    requires Shaped(rewards, masks) && |out| == |rewards| == n
    requires forall i :: 0 <= i < |out| ==> out[i] == Rescale(ZeroUnmasked(rewards[i], masks[i]), masks[i], a, b)
    ensures Shaped(out, masks)
    ensures Sum(Means(out, masks)) == a * Sum(Means(rewards, masks)) - n as real * b
  {
    MeansRescaled(out, rewards, masks, a, b);
    AffineSums(Means(rewards, masks), Means(out, masks), n, a, b);
  }

  lemma AffineSums(xs: Vec, ys: Vec, n: nat, a: real, b: real)
    requires |ys| == |xs| == n && forall i :: 0 <= i < n ==> ys[i] == a * xs[i] - b
    ensures Sum(ys) == a * Sum(xs) - n as real * b
  {
    SumAffine(xs, ys, a, b);
  }

  /** In every group the samples' mean advantages cancel. */
  lemma GroupMeansCancel(out: seq<Vec>, rewards: seq<Vec>, masks: seq<Mask>, n: nat, start: nat)
    requires Shaped(rewards, masks) && n >= 2 && GroupDone(out, rewards, masks, n, start)
    ensures Shaped(out[start..start + n], masks[start..start + n])
    ensures Sum(Means(out[start..start + n], masks[start..start + n])) == 0.0
  {
    var s := GroupSum(rewards, masks, start, n);
    RescaledGroupSum(out, rewards, masks, start, n, Scale(n), Baseline(s, n));
    ScaledCancel(n, s);
  }

  lemma {:induction false} EveryGroupDone(
    out: seq<Vec>, rewards: seq<Vec>, masks: seq<Mask>, n: nat, groups: nat, g: nat)
    requires Shaped(rewards, masks) && n >= 2 && GroupsDone(out, rewards, masks, n, groups) && g < groups
    ensures GroupDone(out, rewards, masks, n, g * n)
    decreases groups
  {
    if g < groups - 1 {
      EveryGroupDone(out, rewards, masks, n, groups - 1, g);
    }
  }

  /** So they cancel in every group of the loop's result. */
  lemma EveryGroupCancels(out: seq<Vec>, rewards: seq<Vec>, masks: seq<Mask>, n: nat, g: nat)
    requires Shaped(rewards, masks) && n >= 2 && |rewards| % n == 0 && g < |rewards| / n
    requires GroupsDone(out, rewards, masks, n, |rewards| / n)
    ensures 0 <= g * n <= g * n + n <= |rewards| == |out|
    ensures Shaped(out[g * n..g * n + n], masks[g * n..g * n + n])
    ensures Sum(Means(out[g * n..g * n + n], masks[g * n..g * n + n])) == 0.0
  {
    EveryGroupDone(out, rewards, masks, n, |rewards| / n, g);
    GroupMeansCancel(out, rewards, masks, n, g * n);
  }

  lemma {:induction false} SumRemove(xs: Vec, i: nat)
    requires i < |xs|
    ensures Sum(xs[..i] + xs[i + 1..]) == Sum(xs) - xs[i]
    decreases |xs|
  {
    var n := |xs| - 1;
    if i == n {
      assert xs[..i] + xs[i + 1..] == xs[..n];
    } else {
      SumRemove(xs[..n], i);
      var rest := xs[..i] + xs[i + 1..];
      assert rest[..|rest| - 1] == xs[..n][..i] + xs[..n][i + 1..];
    }
  }

  lemma {:induction false} MeanOfOne(xs: Vec, mask: Mask, j: nat)
    requires |xs| == |mask| && j < |xs| && mask[j] && MaskCount(mask) == 1
    ensures MaskedSum(xs, mask) == xs[j]
    decreases |xs|
  {
    var n := |xs| - 1;
    if j < n {
      CountAtLeast(mask[..n], j);
      MeanOfOne(xs[..n], mask[..n], j);
    } else {
      NoneMasked(xs[..n], mask[..n]);
    }
  }

  lemma {:induction false} CountAtLeast(mask: Mask, j: nat)
    requires j < |mask| && mask[j]
    ensures MaskCount(mask) >= 1
    decreases |mask|
  {
    if j < |mask| - 1 {
      CountAtLeast(mask[..|mask| - 1], j);
    }
  }

  lemma {:induction false} NoneMasked(xs: Vec, mask: Mask)
    requires |xs| == |mask| && MaskCount(mask) == 0
    ensures MaskedSum(xs, mask) == 0.0
    decreases |xs|
  {
    if xs == [] {
    } else {
      NoneMasked(xs[..|xs| - 1], mask[..|xs| - 1]);
    }
  }

  lemma LeaveOneOut(r: real, s: real, n: nat)
    requires n >= 2
    ensures Scale(n) * r - Baseline(s, n) == r - Baseline(s - r, n)
  {
    var d := (n - 1) as real;
    var q, t, u := Scale(n), Baseline(s, n), Baseline(s - r, n);
    assert n as real == q * d && s == t * d && s - r == u * d;
    assert (q * r - t - r + u) * d == (q * d) * r - t * d - r * d + u * d;
    assert n as real == d + 1.0;
    ZeroFactor(q * r - t - r + u, d);
  }

  lemma OneTokenMean(xs: Vec, mask: Mask, j: nat)
    requires |xs| == |mask| && j < |xs| && mask[j] && MaskCount(mask) == 1
    ensures MaskedMean(xs, mask) == xs[j]
  {
    MeanOfOne(xs, mask, j);
    Divide(xs[j], 1.0, MaskedSum(xs, mask));
  }

  lemma RlooToken(xs: Vec, mask: Mask, groupSum: real, n: nat, j: nat)
    requires |xs| == |mask| && n >= 2 && j < |xs| && mask[j]
    ensures RlooRow(xs, mask, groupSum, n)[j] == xs[j] - Baseline(groupSum - xs[j], n)
  {
    LeaveOneOut(xs[j], groupSum, n);
  }

  /** Group `g` starts at row `g * n`. */
  lemma GroupStart(rows: nat, n: nat, g: nat)
    requires n > 0 && rows % n == 0 && g < rows / n
    ensures 0 <= g * n <= g * n + n <= rows
  {
    ExactQuotient(rows, n);
    MulSucc(g, n);
    MulMonotone(g + 1, rows / n, n);
  }

  /** Entries of the result outside the mask are zero. */
  lemma UnmaskedZero(out: seq<Vec>, rewards: seq<Vec>, masks: seq<Mask>, n: nat, i: nat, j: nat)
    requires Shaped(rewards, masks) && n >= 2 && |rewards| % n == 0 && |out| == |rewards|
    requires GroupsDone(out, rewards, masks, n, |rewards| / n)
    requires i < |rewards|
    ensures |out[i]| == |rewards[i]| && (j < |masks[i]| && !masks[i][j] ==> out[i][j] == 0.0)
  {
    var groups := |rewards| / n;
    ExactQuotient(|rewards|, n);
    GroupOfIndex(i, groups, n);
    EveryGroupDone(out, rewards, masks, n, groups, i / n);
    GroupUnmasked(out, rewards, masks, n, (i / n) * n, i, j);
  }

  lemma GroupUnmasked(out: seq<Vec>, rewards: seq<Vec>, masks: seq<Mask>, n: nat, start: nat, i: nat, j: nat)
    requires Shaped(rewards, masks) && n >= 2 && GroupDone(out, rewards, masks, n, start)
    requires start <= i < start + n
    ensures |out[i]| == |rewards[i]| && (j < |masks[i]| && !masks[i][j] ==> out[i][j] == 0.0)
  {
    assert out[i] == RlooRow(rewards[i], masks[i], GroupSum(rewards, masks, start, n), n);
  }

  /** A masked token's reward times n / (n - 1), less the sum of the group's masked means over n - 1. */
  lemma MaskedEntry(
    out: seq<Vec>, rewards: seq<Vec>, masks: seq<Mask>, n: nat, g: nat, start: nat, i: nat, j: nat)
    requires Shaped(rewards, masks) && n >= 2 && |rewards| % n == 0 && g < |rewards| / n && start == g * n && i < n
    requires GroupsDone(out, rewards, masks, n, |rewards| / n)
    ensures start + n <= |rewards| == |out|
    ensures j < |masks[start + i]| && masks[start + i][j] ==>
              && |out[start + i]| == |rewards[start + i]|
              && out[start + i][j] ==
                   (n as real / (n - 1) as real) * rewards[start + i][j]
                   - Sum(Means(rewards[start..start + n], masks[start..start + n])) / (n - 1) as real
  {
    GroupStart(|rewards|, n, g);
    EveryGroupDone(out, rewards, masks, n, |rewards| / n, g);
    if j < |masks[start + i]| && masks[start + i][j] {
      GroupEntry(out, rewards, masks, n, start, i, j);
    }
  }

  lemma GroupEntry(out: seq<Vec>, rewards: seq<Vec>, masks: seq<Mask>, n: nat, start: nat, i: nat, j: nat)
    requires Shaped(rewards, masks) && n >= 2 && i < n && GroupDone(out, rewards, masks, n, start)
    requires j < |masks[start + i]| && masks[start + i][j]
    ensures |out[start + i]| == |rewards[start + i]|
    ensures out[start + i][j] ==
              (n as real / (n - 1) as real) * rewards[start + i][j]
              - Sum(Means(rewards[start..start + n], masks[start..start + n])) / (n - 1) as real
  {
    RlooEntry(rewards[start + i], masks[start + i], GroupSum(rewards, masks, start, n), n, j);
  }

  lemma RlooEntry(xs: Vec, mask: Mask, groupSum: real, n: nat, j: nat)
    requires |xs| == |mask| && n >= 2 && j < |mask| && mask[j]
    ensures |RlooRow(xs, mask, groupSum, n)| == |xs|
    ensures RlooRow(xs, mask, groupSum, n)[j] ==
              (n as real / (n - 1) as real) * xs[j] - groupSum / (n - 1) as real
  {
  }

  /** With one masked token a sample, its advantage is its reward less the mean of the other samples' rewards. */
  lemma OutcomeAdvantage(
    out: seq<Vec>, rewards: seq<Vec>, masks: seq<Mask>, n: nat, g: nat, start: nat, i: nat, j: nat)
    requires Shaped(rewards, masks) && n >= 2 && |rewards| % n == 0 && g < |rewards| / n && start == g * n && i < n
    requires GroupsDone(out, rewards, masks, n, |rewards| / n)
    ensures start + n <= |rewards| == |out|
    ensures j < |masks[start + i]| && masks[start + i][j] && MaskCount(masks[start + i]) == 1 ==>
              var means := Means(rewards[start..start + n], masks[start..start + n]);
              && |out[start + i]| == |rewards[start + i]| && means[i] == rewards[start + i][j]
              && out[start + i][j] == rewards[start + i][j] - Sum(means[..i] + means[i + 1..]) / (n - 1) as real
  {
    GroupStart(|rewards|, n, g);
    EveryGroupDone(out, rewards, masks, n, |rewards| / n, g);
    if j < |masks[start + i]| && masks[start + i][j] && MaskCount(masks[start + i]) == 1 {
      GroupAdvantage(out, rewards, masks, n, start, i, j);
    }
  }

  lemma GroupAdvantage(out: seq<Vec>, rewards: seq<Vec>, masks: seq<Mask>, n: nat, start: nat, i: nat, j: nat)
    requires Shaped(rewards, masks) && n >= 2 && i < n && GroupDone(out, rewards, masks, n, start)
    requires j < |rewards[start + i]| && masks[start + i][j] && MaskCount(masks[start + i]) == 1
    ensures var means := Means(rewards[start..start + n], masks[start..start + n]);
      && |out[start + i]| == |rewards[start + i]| && means[i] == rewards[start + i][j]
      && out[start + i][j] == rewards[start + i][j] - Baseline(Sum(means[..i] + means[i + 1..]), n)
  {
    OneTokenMean(rewards[start + i], masks[start + i], j);
    SumRemove(Means(rewards[start..start + n], masks[start..start + n]), i);
    RlooToken(rewards[start + i], masks[start + i], GroupSum(rewards, masks, start, n), n, j);
  }

  // ----- returns

  function Reverse(xs: Vec): Vec {
    seq(|xs|, i requires 0 <= i < |xs| => xs[|xs| - 1 - i])
  }

  function RunningSums(xs: Vec): Vec {
    seq(|xs|, i requires 0 <= i < |xs| => Sum(xs[..i + 1]))
  }

  /** `flip`, `cumsum`, `flip`. */
  function Returns(xs: Vec): Vec {
    Reverse(RunningSums(Reverse(xs)))
  }

  lemma {:induction false} SumFront(x: real, xs: Vec)
    ensures Sum([x] + xs) == x + Sum(xs)
    decreases |xs|
  {
    if xs == [] {
      assert [x] + xs == [x] && [x][..0] == [];
    } else {
      SumFront(x, xs[..|xs| - 1]);
      assert ([x] + xs)[..|xs|] == [x] + xs[..|xs| - 1];
    }
  }

  lemma {:induction false} SumReverse(xs: Vec)
    ensures Sum(Reverse(xs)) == Sum(xs)
    decreases |xs|
  {
    if xs == [] {
    } else {
      var n := |xs| - 1;
      SumReverse(xs[..n]);
      SumFront(xs[n], Reverse(xs[..n]));
      assert Reverse(xs) == [xs[n]] + Reverse(xs[..n]);
    }
  }

  /** The return of a token is the sum of the rewards from it to the end. */
  lemma ReturnsAreSuffixSums(xs: Vec, t: nat)
    requires t < |xs|
    ensures |Returns(xs)| == |xs| && Returns(xs)[t] == Sum(xs[t..])
  {
    assert Reverse(xs)[..|xs| - t] == Reverse(xs[t..]);
    SumReverse(xs[t..]);
  }

  // ----- process rewards

  function Power(x: real, k: nat): real {
    if k == 0 then 1.0 else x * Power(x, k - 1)
  }

  /** The sum of lam^(s - t) * q[s] for s from t up to, and not including, `end`. */
  function Discounted(q: Vec, lam: real, t: nat, end: nat): real
    requires t <= end <= |q|
    decreases end
  {
    if t == end then 0.0 else Discounted(q, lam, t, end - 1) + Power(lam, end - 1 - t) * q[end - 1]
  }

  lemma {:induction false} DiscountedStep(q: Vec, lam: real, t: nat, end: nat)
    requires t < end <= |q|
    ensures Discounted(q, lam, t, end) == q[t] + lam * Discounted(q, lam, t + 1, end)
    decreases end
  {
    if t + 1 == end {
      assert Power(lam, 0) == 1.0 && Discounted(q, lam, t, t) == 0.0;
    } else {
      DiscountedStep(q, lam, t, end - 1);
      var rest, last := Discounted(q, lam, t + 1, end - 1), Power(lam, end - 2 - t) * q[end - 1];
      Distribute(lam, rest, last);
      PowerStep(lam, end - 2 - t, q[end - 1]);
    }
  }

  lemma PowerStep(lam: real, k: nat, x: real)
    ensures Power(lam, k + 1) * x == lam * (Power(lam, k) * x)
  {
  }

  /** The reverse scan. */
  method ReverseScan(q: Vec, lam: real) returns (r: Vec)
    ensures |r| == |q| && forall t :: 0 <= t < |q| ==> r[t] == Discounted(q, lam, t, |q|)
  {
    r := seq(|q|, _ => 0.0);
    var last := 0.0;
    var t := |q|;
    while t > 0
      invariant 0 <= t <= |q| == |r|
      invariant last == Discounted(q, lam, t, |q|)
      invariant forall s :: t <= s < |q| ==> r[s] == Discounted(q, lam, s, |q|)
    {
      t := t - 1;
      DiscountedStep(q, lam, t, |q|);
      last := q[t] + lam * last;
      r := r[t := last];
    }
  }

  /** Python's index: -1 is the last entry. */
  function PyIndex(i: int, n: nat): int {
    if i < 0 then i + n else i
  }

  function PySlice(xs: Vec, end: int): Vec {
    var e := PyIndex(end, |xs|);
    if e <= 0 then [] else if e <= |xs| then xs[..e] else xs
  }

  /** Writing the outcome into the last token and clearing the padding. */
  method PatchOutcome(q: Vec, maxPosition: nat, acc: real) returns (r: Vec)
    requires 0 < |q| && maxPosition <= |q|
    ensures |r| == |q| && r == Patched(q, maxPosition, acc)
  {
    r := q;
    var i := PyIndex(maxPosition - 1, |q|);
    r := r[i := acc - Sum(PySlice(r, maxPosition - 1))];
    ghost var patched := r;
    for j := maxPosition to |q|
      invariant |r| == |q| && r[..maxPosition] == patched[..maxPosition]
      invariant forall k :: maxPosition <= k < j ==> r[k] == 0.0
    {
      r := r[j := 0.0];
    }
    assert r == patched[..maxPosition] + seq(|q| - maxPosition, _ => 0.0);
  }

  function Patched(q: Vec, maxPosition: nat, acc: real): Vec
    requires 0 < |q| && maxPosition <= |q|
  {
    q[PyIndex(maxPosition - 1, |q|) := acc - Sum(PySlice(q, maxPosition - 1))][..maxPosition]
    + seq(|q| - maxPosition, _ => 0.0)
  }

  lemma {:induction false} SumAppend(a: Vec, b: Vec)
    ensures Sum(a + b) == Sum(a) + Sum(b)
    decreases |b|
  {
    if b == [] {
      assert a + b == a;
    } else {
      SumAppend(a, b[..|b| - 1]);
      assert (a + b)[..|a + b| - 1] == a + b[..|b| - 1];
    }
  }

  lemma {:induction false} SumZeros(n: nat)
    ensures Sum(seq(n, _ => 0.0)) == 0.0
  {
    if n == 0 {
    } else {
      SumZeros(n - 1);
      assert seq(n, _ => 0.0)[..n - 1] == seq(n - 1, _ => 0.0);
    }
  }

  /** The patched row sums to the outcome, exactly when there is a token to patch or the outcome is zero. */
  lemma PatchedTotal(q: Vec, maxPosition: nat, acc: real)
    requires 0 < |q| && maxPosition <= |q|
    ensures Sum(Patched(q, maxPosition, acc)) == acc <==> maxPosition > 0 || acc == 0.0
    ensures maxPosition > 0 ==> Patched(q, maxPosition, acc)[..maxPosition - 1] == q[..maxPosition - 1]
  {
    var zeros := seq(|q| - maxPosition, _ => 0.0);
    SumZeros(|q| - maxPosition);
    if maxPosition > 0 {
      var head := q[..maxPosition - 1];
      var last := acc - Sum(head);
      assert Patched(q, maxPosition, acc) == (head + [last]) + zeros;
      SumAppend(head + [last], zeros);
      assert (head + [last])[..maxPosition - 1] == head;
    } else {
      assert Patched(q, maxPosition, acc) == zeros;
    }
  }

  /** Entry by entry: the tokens before the last keep their values, the last makes up the outcome, padding is zero. */
  lemma PatchedPlaces(q: Vec, maxPosition: nat, acc: real, t: nat)
    requires maxPosition <= |q| && t < |q|
    ensures |Patched(q, maxPosition, acc)| == |q|
    ensures Patched(q, maxPosition, acc)[t] ==
              if t >= maxPosition then 0.0
              else if t == maxPosition - 1 then acc - Sum(q[..maxPosition - 1])
              else q[t]
  {
  }

  /** Up to its last token the row sums to the outcome. */
  lemma PatchedTokens(q: Vec, maxPosition: nat, acc: real)
    requires 0 < maxPosition <= |q|
    ensures Sum(Patched(q, maxPosition, acc)[..maxPosition]) == acc
  {
    var head := q[..maxPosition - 1];
    var last := acc - Sum(head);
    assert Patched(q, maxPosition, acc)[..maxPosition] == head + [last];
    assert (head + [last])[..maxPosition - 1] == head;
  }

  lemma {:induction false} DiscountedZeros(q: Vec, lam: real, t: nat, end: nat)
    requires t <= end <= |q| && forall s :: t <= s < end ==> q[s] == 0.0
    ensures Discounted(q, lam, t, end) == 0.0
    decreases end
  {
    if t < end {
      DiscountedZeros(q, lam, t, end - 1);
    }
  }

  /**
   What the scan gives a patched row, whatever the discount: padding earns nothing, the last token the outcome less the
   sum before it, and every earlier token its own value and the discounted reward of the next.
   */
  lemma PatchedRewards(q: Vec, maxPosition: nat, acc: real, lam: real, t: nat)
    requires 0 < maxPosition <= |q| && t < |q|
    ensures |Patched(q, maxPosition, acc)| == |q|
    ensures var reward := Discounted(Patched(q, maxPosition, acc), lam, t, |q|);
      && (t >= maxPosition ==> reward == 0.0)
      && (t == maxPosition - 1 ==> reward == acc - Sum(q[..maxPosition - 1]))
      && (t < maxPosition - 1 ==>
            reward == q[t] + lam * Discounted(Patched(q, maxPosition, acc), lam, t + 1, |q|))
  {
    var p := Patched(q, maxPosition, acc);
    forall s | 0 <= s < |q|
      ensures s >= maxPosition ==> p[s] == 0.0
    {
      PatchedPlaces(q, maxPosition, acc, s);
    }
    PatchedPlaces(q, maxPosition, acc, t);
    if t >= maxPosition {
      DiscountedZeros(p, lam, t, |q|);
    } else {
      DiscountedStep(p, lam, t, |q|);
      if t == maxPosition - 1 {
        DiscountedZeros(p, lam, t + 1, |q|);
        TimesZero(lam);
      }
    }
  }

  lemma TimesZero(x: real)
    ensures x * 0.0 == 0.0
  {
  }

  lemma {:induction false} DiscountedOne(q: Vec, t: nat, end: nat)
    requires t <= end <= |q|
    ensures Discounted(q, 1.0, t, end) == Sum(q[t..end])
    decreases end
  {
    if t < end {
      DiscountedOne(q, t, end - 1);
      PowerOne(end - 1 - t);
      assert q[t..end][..end - 1 - t] == q[t..end - 1];
    }
  }

  lemma {:induction false} PowerOne(k: nat)
    ensures Power(1.0, k) == 1.0
  {
    if k == 0 {
    } else {
      PowerOne(k - 1);
    }
  }

  /** Undiscounted, what a row earns from `t` on is its total less what comes before. */
  lemma SuffixOfTotal(p: Vec, t: nat)
    requires t <= |p|
    ensures Discounted(p, 1.0, t, |p|) == Sum(p) - Sum(p[..t])
  {
    DiscountedOne(p, t, |p|);
    SumAppend(p[..t], p[t..]);
    assert p[..t] + p[t..] == p && p[t..|p|] == p[t..];
  }

  /** Undiscounted, a token's process reward is the outcome less what the tokens before it earned. */
  lemma UndiscountedReward(q: Vec, maxPosition: nat, acc: real, t: nat)
    requires 0 < maxPosition <= |q| && t < |q|
    ensures var p := Patched(q, maxPosition, acc);
            |p| == |q| && Discounted(p, 1.0, t, |q|) == acc - Sum(p[..t])
    ensures t < maxPosition ==> Patched(q, maxPosition, acc)[..t] == q[..t]
  {
    var p := Patched(q, maxPosition, acc);
    PatchedTotal(q, maxPosition, acc);
    SuffixOfTotal(p, t);
    if t < maxPosition {
      assert p[..t] == p[..maxPosition - 1][..t] && q[..t] == q[..maxPosition - 1][..t];
    }
  }
}
