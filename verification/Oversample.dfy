/** Downsampling an oversampled batch: prompts that pass the filters first, whole prompts at a time. */
module Oversample {
  import opened Arithmetic
  import opened Common
  import opened DataProto
  import opened Indexing
  import opened Reals

  datatype Config = Config(
    filterAccuracy: bool, lower: real, upper: real, filterTruncate: bool, maxResponseLength: int, factor: real)

  function Longest(xs: seq<nat>): nat
    requires xs != []
  {
    if |xs| == 1 then xs[0] else Max(Longest(xs[..|xs| - 1]), xs[|xs| - 1])
  }

  lemma GroupWithin(g: nat, n: nat, groups: nat)
    requires g < groups && n > 0
    ensures 0 <= g * n < (g + 1) * n == g * n + n <= groups * n
  {
    MulSucc(g, n);
    MulMonotone(0, g, n);
    MulMonotone(g + 1, groups, n);
  }

  /** The samples of prompt `g`: row `g` of the reshaped matrix. */
  function Group<R>(xs: seq<R>, n: nat, groups: nat, g: nat): (r: seq<R>)
    requires n > 0 && |xs| == groups * n && g < groups
    ensures |r| == n
  {
    GroupWithin(g, n, groups);
    xs[g * n..(g + 1) * n]
  }

  predicate Accurate(scores: seq<real>, c: Config)
    requires scores != []
  {
    c.lower <= Mean(scores) <= c.upper
  }

  predicate Finished(lengths: seq<nat>, c: Config)
    requires lengths != []
  {
    Longest(lengths) < c.maxResponseLength - 1
  }

  /** A prompt passes when each filter that is on accepts it. */
  predicate Passes(scores: seq<real>, lengths: seq<nat>, c: Config)
    requires scores != [] && lengths != []
  {
    (c.filterAccuracy ==> Accurate(scores, c)) && (c.filterTruncate ==> Finished(lengths, c))
  }

  /**
   What a prompt must satisfy: with the accuracy filter, the mean score of its samples is between the bounds; with the
   length filter, each of its samples stays two short of the maximal length.
   */
  ghost predicate Accepted(scores: seq<real>, lengths: seq<nat>, n: nat, groups: nat, c: Config, g: nat)
    requires n > 0 && |scores| == |lengths| == groups * n && g < groups
  {
    && (c.filterAccuracy ==> c.lower <= Mean(Group(scores, n, groups, g)) <= c.upper)
    && (c.filterTruncate ==> forall i :: 0 <= i < n ==> Group(lengths, n, groups, g)[i] <= c.maxResponseLength - 2)
  }

  /** Sample `i` of prompt `g` stands at `g * n + i`. */
  lemma GroupAt<R>(xs: seq<R>, n: nat, groups: nat, g: nat, i: nat)
    requires n > 0 && |xs| == groups * n && g < groups && i < n
    ensures 0 <= g * n + i < |xs| && Group(xs, n, groups, g)[i] == xs[g * n + i]
  {
    GroupIndex(g, i, groups, n);
  }

  lemma {:induction false} LongestBelow(xs: seq<nat>, bound: int)
    requires xs != []
    ensures Longest(xs) < bound <==> forall i :: 0 <= i < |xs| ==> xs[i] < bound
    decreases |xs|
  {
    if |xs| > 1 {
      LongestBelow(xs[..|xs| - 1], bound);
    }
  }

  lemma PassesExactly(scores: seq<real>, lengths: seq<nat>, n: nat, groups: nat, c: Config, g: nat)
    requires n > 0 && |scores| == |lengths| == groups * n && g < groups
    ensures Passes(Group(scores, n, groups, g), Group(lengths, n, groups, g), c) <==>
              Accepted(scores, lengths, n, groups, c, g)
  {
    LongestBelow(Group(lengths, n, groups, g), c.maxResponseLength - 1);
  }

  ghost predicate MaskIs(mask: seq<bool>, scores: seq<real>, lengths: seq<nat>, n: nat, groups: nat, c: Config)
    requires n > 0 && |scores| == |lengths| == groups * n
  {
    |mask| == groups && forall g :: 0 <= g < groups ==> mask[g] == Accepted(scores, lengths, n, groups, c, g)
  }

  /** The mask starts all true; each filter that is on clears the prompts it rejects. */
  method BuildMask(scores: seq<real>, lengths: seq<nat>, n: nat, groups: nat, c: Config) returns (mask: seq<bool>)
    requires n > 0 && |scores| == |lengths| == groups * n
    ensures MaskIs(mask, scores, lengths, n, groups, c)
  {
    mask := seq(groups, _ => true);
    if c.filterAccuracy {
      for g := 0 to groups
        invariant |mask| == groups
        invariant forall k :: 0 <= k < g ==> mask[k] == Accurate(Group(scores, n, groups, k), c)
        invariant forall k :: g <= k < groups ==> mask[k]
      {
        if !Accurate(Group(scores, n, groups, g), c) {
          mask := mask[g := false];
        }
      }
    }
    ghost var before := mask;
    if c.filterTruncate {
      for g := 0 to groups
        invariant |mask| == groups
        invariant forall k :: 0 <= k < g ==> mask[k] == (before[k] && Finished(Group(lengths, n, groups, k), c))
        invariant forall k :: g <= k < groups ==> mask[k] == before[k]
      {
        if !Finished(Group(lengths, n, groups, g), c) {
          mask := mask[g := false];
        }
      }
    }
    forall g | 0 <= g < groups
      ensures mask[g] == Accepted(scores, lengths, n, groups, c, g)
    {
      PassesExactly(scores, lengths, n, groups, c, g);
    }
  }

  // ----- reordering

  ghost predicate IsPermutation(order: seq<nat>, size: nat) {
    && |order| == size && (forall i :: 0 <= i < size ==> order[i] < size)
    && forall i, j :: 0 <= i < j < size ==> order[i] != order[j]
  }

  /** What `argsort(mask, descending)` guarantees, ties in any order: passing prompts come first. */
  ghost predicate PassingFirst(order: seq<nat>, mask: seq<bool>) {
    && IsPermutation(order, |mask|)
    && forall i, j :: 0 <= i < j < |order| && mask[order[j]] ==> mask[order[i]]
  }

  /** Row numbers, each prompt expanded to its samples. */
  function RowOrder(order: seq<nat>, n: nat): seq<nat> {
    seq(|order| * n, p requires 0 <= p < |order| * n => RowAtPlace(order, n, p))
  }

  function RowAtPlace(order: seq<nat>, n: nat, p: nat): nat
    requires p < |order| * n
  {
    GroupOfIndex(p, |order|, n);
    order[p / n] * n + p % n
  }

  /** How many rows are kept. */
  function KeepCount(size: nat, factor: real): nat
    requires factor > 0.0
  {
    QuotientNonNegative(size as real, factor);
    var k := (size as real / factor).Floor;
    if k <= size then k else size
  }

  /** The largest number of rows that the factor allows. */
  lemma KeepCountIsLargest(size: nat, factor: real, k: nat)
    requires factor > 0.0
    ensures k <= KeepCount(size, factor) <==> k <= size && k as real * factor <= size as real
  {
    QuotientNonNegative(size as real, factor);
    var q := size as real / factor;
    assert q * factor == size as real;
    if k as real <= q {
      assert (q - k as real) * factor >= 0.0;
    } else {
      assert (k as real - q) * factor > 0.0;
    }
  }

  lemma QuotientNonNegative(a: real, b: real)
    requires a >= 0.0 && b > 0.0
    ensures a / b >= 0.0
  {
  }

  function KeptRows(order: seq<nat>, n: nat, keep: nat): seq<nat>
    requires keep <= |order| * n
  {
    RowOrder(order, n)[..keep]
  }

  /** Place `a * n + s` of the row order holds sample `s` of the a-th prompt. */
  lemma RowOfPrompt(order: seq<nat>, n: nat, a: nat, s: nat)
    requires a < |order| && s < n
    ensures 0 <= a * n + s < |order| * n && RowOrder(order, n)[a * n + s] == order[a] * n + s
  {
    GroupIndex(a, s, |order|, n);
  }

  /** No row is kept twice, and all are rows of the batch. */
  lemma RowOrderIsPermutation(order: seq<nat>, n: nat, groups: nat)
    requires IsPermutation(order, groups)
    ensures IsPermutation(RowOrder(order, n), groups * n)
  {
    var rows := RowOrder(order, n);
    forall p | 0 <= p < groups * n
      ensures rows[p] < groups * n
    {
      GroupOfIndex(p, groups, n);
      GroupIndex(order[p / n], p % n, groups, n);
    }
    forall p, q | 0 <= p < q < groups * n
      ensures rows[p] != rows[q]
    {
      SameRow(order, n, groups, p, q);
    }
  }

  /** The row at a place belongs to the prompt of its group, at the same position within it. */
  lemma RowParts(order: seq<nat>, n: nat, groups: nat, p: nat)
    requires IsPermutation(order, groups) && p < groups * n
    ensures n > 0 && p / n < groups && p == (p / n) * n + p % n
    ensures RowOrder(order, n)[p] / n == order[p / n] && RowOrder(order, n)[p] % n == p % n
  {
    GroupOfIndex(p, groups, n);
    GroupIndex(order[p / n], p % n, groups, n);
  }

  lemma SameRow(order: seq<nat>, n: nat, groups: nat, p: nat, q: nat)
    requires IsPermutation(order, groups) && p < groups * n && q < groups * n
    ensures RowOrder(order, n)[p] == RowOrder(order, n)[q] ==> p == q
  {
    RowParts(order, n, groups, p);
    RowParts(order, n, groups, q);
  }

  /** Row `s` of the a-th prompt is kept exactly when its place is below the cut. */
  lemma KeptExactly(order: seq<nat>, n: nat, groups: nat, keep: nat, a: nat, s: nat)
    requires IsPermutation(order, groups) && keep <= groups * n && a < groups && s < n
    ensures order[a] * n + s in KeptRows(order, n, keep) <==> a * n + s < keep
  {
    RowOfPrompt(order, n, a, s);
    var kept := KeptRows(order, n, keep);
    if a * n + s < keep {
      assert kept[a * n + s] == order[a] * n + s;
    }
    if order[a] * n + s in kept {
      var p :| 0 <= p < keep && kept[p] == order[a] * n + s;
      SameRow(order, n, groups, p, a * n + s);
    }
  }

  ghost predicate Keeps(order: seq<nat>, n: nat, keep: nat, a: nat, s: nat)
    requires keep <= |order| * n && a < |order|
  {
    order[a] * n + s in KeptRows(order, n, keep)
  }

  /** The a-th prompt is kept whole, or not at all. */
  ghost predicate WholePrompt(order: seq<nat>, n: nat, keep: nat, a: nat)
    requires keep <= |order| * n && a < |order|
  {
    forall s, t :: 0 <= s < n && 0 <= t < n ==> Keeps(order, n, keep, a, s) == Keeps(order, n, keep, a, t)
  }

  lemma KeptWithPrompt(order: seq<nat>, n: nat, groups: nat, keep: nat, whole: nat, a: nat, s: nat)
    requires IsPermutation(order, groups) && keep == whole * n <= groups * n && a < groups && s < n
    ensures Keeps(order, n, keep, a, s) <==> a < whole
  {
    KeptExactly(order, n, groups, keep, a, s);
    BelowMultiple(a, s, n, whole);
  }

  lemma PromptKeptWhole(order: seq<nat>, n: nat, groups: nat, keep: nat, whole: nat, a: nat)
    requires IsPermutation(order, groups) && keep == whole * n <= groups * n && a < groups
    ensures WholePrompt(order, n, keep, a)
  {
    forall s | 0 <= s < n
      ensures Keeps(order, n, keep, a, s) <==> a < whole
    {
      KeptWithPrompt(order, n, groups, keep, whole, a, s);
    }
  }

  /** The prompts that the cut goes through, by their place in the order. */
  ghost function SplitPrompts(order: seq<nat>, n: nat, keep: nat): set<nat>
    requires keep <= |order| * n
  {
    set a: nat | a < |order| && !WholePrompt(order, n, keep, a)
  }

  lemma NoneSplit(order: seq<nat>, n: nat, groups: nat, keep: nat, whole: nat)
    requires IsPermutation(order, groups) && keep == whole * n <= groups * n
    ensures SplitPrompts(order, n, keep) == {}
  {
    forall a: nat | a < groups
      ensures WholePrompt(order, n, keep, a)
    {
      PromptKeptWhole(order, n, groups, keep, whole, a);
    }
  }

  /** A cut inside a prompt keeps its first row and drops its last. */
  lemma SplitPrompt(order: seq<nat>, n: nat, groups: nat, keep: nat)
    requires IsPermutation(order, groups) && n > 0 && keep <= groups * n && keep % n != 0
    ensures keep / n in SplitPrompts(order, n, keep)
  {
    var a := keep / n;
    DivMod(keep, n);
    if a >= groups { MulMonotone(groups, a, n); }
    KeptExactly(order, n, groups, keep, a, 0);
    KeptExactly(order, n, groups, keep, a, n - 1);
    assert Keeps(order, n, keep, a, 0) != Keeps(order, n, keep, a, n - 1);
  }

  /** Prompts are never split exactly when the number of kept rows is a multiple of the samples a prompt. */
  lemma WholePromptsExactly(order: seq<nat>, n: nat, groups: nat, keep: nat)
    requires IsPermutation(order, groups) && n > 0 && keep <= groups * n
    ensures SplitPrompts(order, n, keep) == {} <==> keep % n == 0
  {
    if keep % n == 0 {
      ExactQuotient(keep, n);
      NoneSplit(order, n, groups, keep, keep / n);
    } else {
      SplitPrompt(order, n, groups, keep);
    }
  }

  lemma BelowMultiple(a: nat, s: nat, n: nat, b: nat)
    requires s < n
    ensures a * n + s < b * n <==> a < b
  {
    MulSucc(a, n);
    if a < b {
      MulMonotone(a + 1, b, n);
    } else {
      MulMonotone(b, a, n);
    }
  }

  /** Whatever the cut, a prompt that fails keeps a row only when every prompt that passes keeps all of its rows. */
  lemma PassingKeptFirst(order: seq<nat>, mask: seq<bool>, n: nat, keep: nat, a: nat, s: nat, b: nat, t: nat)
    requires PassingFirst(order, mask) && keep <= |mask| * n && a < |mask| && b < |mask| && s < n && t < n
    ensures !mask[order[a]] && mask[order[b]] && Keeps(order, n, keep, a, s) ==> Keeps(order, n, keep, b, t)
  {
    KeptExactly(order, n, |mask|, keep, a, s);
    KeptExactly(order, n, |mask|, keep, b, t);
    if !mask[order[a]] && mask[order[b]] {
      assert b < a;
      MulMonotone(b + 1, a, n);
      MulSucc(b, n);
    }
  }

  /**
   * Masks, sorts and reorders. Every row that is kept is a row of the batch, none twice, and a prompt that fails
   * keeps a row only when every prompt that passes keeps all of its rows. The sort is any that puts passing
   * prompts first.
   */
  method FilterAndDownsample<T(!new)>(
    batch: Batch<T>, scores: seq<real>, lengths: seq<nat>, n: nat, groups: nat, c: Config,
    argsort: seq<bool> -> seq<nat>)
    returns (r: Batch<T>, ghost order: seq<nat>, ghost mask: seq<bool>)
    requires Shape(batch).Some? && batch.tensors.Some?
    requires n > 0 && c.factor > 0.0 && batch.size == |scores| == |lengths| == groups * n
    requires forall m: seq<bool> :: PassingFirst(argsort(m), m)
    ensures MaskIs(mask, scores, lengths, n, groups, c) && PassingFirst(order, mask)
    ensures Shape(r) == Shape(batch) && r.size == KeepCount(batch.size, c.factor) <= |order| * n
    ensures IsPermutation(RowOrder(order, n), batch.size)
    ensures Rows(r) == Pick(Rows(batch), RowOrder(order, n))[..r.size]
  {
    var filterMask := BuildMask(scores, lengths, n, groups, c);
    var reorderIndex := argsort(filterMask);
    order, mask := reorderIndex, filterMask;
    RowOrderIsPermutation(order, n, groups);
    var rows := RowOrder(reorderIndex, n)[..KeepCount(batch.size, c.factor)];
    SelectRows(batch, Positions(rows));
    assert Selected(Positions(rows), batch.size).value == rows;
    r := Select(batch, Positions(rows)).value;
    assert Pick(Rows(batch), rows) == Pick(Rows(batch), RowOrder(order, n))[..r.size];
  }
}
