/** Dynamic sampling: prompts whose samples all score alike are dropped until a training batch is full. */
module Dapo {
  import opened Arithmetic
  import opened Common
  import opened Reals
  import Sequences

  /** One trajectory: the prompt it answers and its score. */
  datatype Row = Row(uid: nat, metric: real)

  /** A prompt with the scores of its samples. */
  datatype Prompt = Prompt(uid: nat, metrics: seq<real>)

  function RowsOf(p: Prompt): seq<Row> {
    seq(|p.metrics|, i requires 0 <= i < |p.metrics| => Row(p.uid, p.metrics[i]))
  }

  /** The generated batch: the samples of one prompt stand next to each other. */
  function Flatten(prompts: seq<Prompt>): seq<Row> {
    Sequences.Join(Blocks(prompts))
  }

  function Blocks(prompts: seq<Prompt>): seq<seq<Row>> {
    seq(|prompts|, i requires 0 <= i < |prompts| => RowsOf(prompts[i]))
  }

  lemma FlattenSnoc(prompts: seq<Prompt>, p: Prompt)
    ensures Flatten(prompts + [p]) == Flatten(prompts) + RowsOf(p)
  {
    assert Blocks(prompts + [p]) == Blocks(prompts) + [RowsOf(p)];
    Sequences.JoinSnoc(Blocks(prompts), RowsOf(p));
  }

  lemma FlattenAppend(a: seq<Prompt>, b: seq<Prompt>)
    ensures Flatten(a + b) == Flatten(a) + Flatten(b)
  {
    assert Blocks(a + b) == Blocks(a) + Blocks(b);
    Sequences.JoinAppend(Blocks(a), Blocks(b));
  }

  // ----- the spread of a prompt's scores

  function Deviations(xs: seq<real>, m: real): real {
    if xs == [] then 0.0
    else Deviations(xs[..|xs| - 1], m) + Square(xs[|xs| - 1] - m)
  }

  function Square(x: real): real {
    x * x
  }

  lemma ProductPositive(a: real, b: real, c: real)
    requires a > 0.0 && b > 0.0 && c == a * b
    ensures c > 0.0
  {
  }

  lemma SquareSign(x: real)
    ensures Square(x) >= 0.0 && (Square(x) > 0.0 <==> x != 0.0)
  {
    if x > 0.0 {
      ProductPositive(x, x, Square(x));
    } else if x < 0.0 {
      ProductPositive(-x, -x, Square(x));
    }
  }

  /** The square of the standard deviation. */
  function Variance(xs: seq<real>): real
    requires xs != []
  {
    Deviations(xs, Mean(xs)) / |xs| as real
  }

  predicate Keep(xs: seq<real>)
    requires xs != []
  {
    Variance(xs) > 0.0 || |xs| == 1
  }

  predicate Varies(xs: seq<real>) {
    exists i, j :: 0 <= i < j < |xs| && xs[i] != xs[j]
  }

  lemma {:induction false} DeviationsSign(xs: seq<real>, m: real)
    ensures Deviations(xs, m) >= 0.0
    ensures Deviations(xs, m) > 0.0 <==> exists i :: 0 <= i < |xs| && xs[i] != m
    decreases |xs|
  {
    if xs == [] {
    } else {
      var n := |xs| - 1;
      DeviationsSign(xs[..n], m);
      SquareSign(xs[n] - m);
      if exists i :: 0 <= i < |xs| && xs[i] != m {
        var i :| 0 <= i < |xs| && xs[i] != m;
        assert i < n ==> xs[..n][i] != m;
      }
      if Deviations(xs[..n], m) > 0.0 {
        var i :| 0 <= i < n && xs[..n][i] != m;
        assert xs[i] != m;
      }
    }
  }

  lemma {:induction false} SumConstant(xs: seq<real>, c: real)
    requires forall i :: 0 <= i < |xs| ==> xs[i] == c
    ensures Sum(xs) == |xs| as real * c
    decreases |xs|
  {
    if xs == [] {
    } else {
      SumConstant(xs[..|xs| - 1], c);
    }
  }

  /** The spread is positive exactly when two samples score differently. */
  lemma KeepExactly(xs: seq<real>)
    requires xs != []
    ensures Variance(xs) > 0.0 <==> Varies(xs)
    ensures Keep(xs) <==> Varies(xs) || |xs| == 1
  {
    var m, d := Mean(xs), Deviations(xs, Mean(xs));
    DeviationsSign(xs, m);
    assert Variance(xs) > 0.0 <==> d > 0.0 by {
      QuotientSign(d, |xs| as real);
    }
    if Varies(xs) {
      var i, j :| 0 <= i < j < |xs| && xs[i] != xs[j];
      assert xs[i] != m || xs[j] != m;
    } else {
      forall i | 0 <= i < |xs|
        ensures xs[i] == xs[0]
      {
      }
      SumConstant(xs, xs[0]);
      CancelProduct(|xs| as real, xs[0]);
    }
  }

  lemma QuotientSign(d: real, n: real)
    requires n > 0.0
    ensures d / n > 0.0 <==> d > 0.0
  {
    assert d == (d / n) * n;
  }

  lemma CancelProduct(n: real, c: real)
    requires n > 0.0
    ensures (n * c) / n == c
  {
  }

  // ----- filtering one generated batch

  predicate Kept(p: Prompt) {
    p.metrics != [] && Keep(p.metrics)
  }

  function KeptPrompts(prompts: seq<Prompt>): seq<Prompt> {
    if prompts == [] then []
    else KeptPrompts(prompts[..|prompts| - 1]) + (if Kept(prompts[|prompts| - 1]) then [prompts[|prompts| - 1]] else [])
  }

  /** The scores of one uid, in row order. */
  function MetricsOf(rows: seq<Row>, uid: nat): seq<real> {
    if rows == [] then []
    else
      MetricsOf(rows[..|rows| - 1], uid)
      + (if rows[|rows| - 1].uid == uid then [rows[|rows| - 1].metric] else [])
  }

  /** The uids of a batch that are kept. */
  predicate KeptUid(rows: seq<Row>, uid: nat) {
    MetricsOf(rows, uid) != [] && Keep(MetricsOf(rows, uid))
  }

  function KeptRows(rows: seq<Row>, all: seq<Row>): seq<Row> {
    if rows == [] then []
    else KeptRows(rows[..|rows| - 1], all) + (if KeptUid(all, rows[|rows| - 1].uid) then [rows[|rows| - 1]] else [])
  }

  ghost predicate DistinctUids(prompts: seq<Prompt>) {
    forall i, j :: 0 <= i < j < |prompts| ==> prompts[i].uid != prompts[j].uid
  }

  ghost predicate Sampled(prompts: seq<Prompt>, n: nat) {
    forall i :: 0 <= i < |prompts| ==> |prompts[i].metrics| == n
  }

  lemma {:induction false} MetricsAppend(a: seq<Row>, b: seq<Row>, uid: nat)
    ensures MetricsOf(a + b, uid) == MetricsOf(a, uid) + MetricsOf(b, uid)
    decreases |b|
  {
    if b == [] {
      assert a + b == a;
    } else {
      MetricsAppend(a, b[..|b| - 1], uid);
      assert (a + b)[..|a + b| - 1] == a + b[..|b| - 1];
    }
  }

  lemma {:induction false} MetricsOfPrompt(uid: nat, xs: seq<real>, other: nat)
    ensures MetricsOf(RowsOf(Prompt(uid, xs)), other) == if uid == other then xs else []
    decreases |xs|
  {
    if xs == [] {
    } else {
      var n := |xs| - 1;
      MetricsOfPrompt(uid, xs[..n], other);
      assert RowsOf(Prompt(uid, xs))[..n] == RowsOf(Prompt(uid, xs[..n]));
    }
  }

  lemma MetricsSnoc(init: seq<Prompt>, last: Prompt, uid: nat)
    ensures MetricsOf(Flatten(init + [last]), uid) ==
            MetricsOf(Flatten(init), uid) + if last.uid == uid then last.metrics else []
  {
    FlattenSnoc(init, last);
    MetricsAppend(Flatten(init), RowsOf(last), uid);
    MetricsOfPrompt(last.uid, last.metrics, uid);
  }

  /** Grouping rows by uid recovers each prompt's own scores. */
  lemma {:induction false} MetricsOfFlatten(prompts: seq<Prompt>, uid: nat)
    requires DistinctUids(prompts)
    ensures forall i :: 0 <= i < |prompts| && prompts[i].uid == uid ==>
              MetricsOf(Flatten(prompts), uid) == prompts[i].metrics
    ensures (forall i :: 0 <= i < |prompts| ==> prompts[i].uid != uid) ==> MetricsOf(Flatten(prompts), uid) == []
    decreases |prompts|
  {
    if prompts == [] {
    } else {
      var n := |prompts| - 1;
      MetricsOfFlatten(prompts[..n], uid);
      assert prompts == prompts[..n] + [prompts[n]];
      MetricsSnoc(prompts[..n], prompts[n], uid);
    }
  }

  lemma {:induction false} KeptRowsAppend(a: seq<Row>, b: seq<Row>, all: seq<Row>)
    ensures KeptRows(a + b, all) == KeptRows(a, all) + KeptRows(b, all)
    decreases |b|
  {
    if b == [] {
      assert a + b == a;
    } else {
      KeptRowsAppend(a, b[..|b| - 1], all);
      assert (a + b)[..|a + b| - 1] == a + b[..|b| - 1];
    }
  }

  lemma {:induction false} KeptRowsOfPrompt(uid: nat, xs: seq<real>, all: seq<Row>)
    ensures KeptRows(RowsOf(Prompt(uid, xs)), all) == if KeptUid(all, uid) then RowsOf(Prompt(uid, xs)) else []
    decreases |xs|
  {
    if xs == [] {
    } else {
      var n := |xs| - 1;
      KeptRowsOfPrompt(uid, xs[..n], all);
      assert RowsOf(Prompt(uid, xs))[..n] == RowsOf(Prompt(uid, xs[..n]));
    }
  }

  /** A prompt's uid is kept exactly when its own scores say so. */
  lemma KeptUidOf(prompts: seq<Prompt>, i: nat)
    requires DistinctUids(prompts) && i < |prompts|
    ensures KeptUid(Flatten(prompts), prompts[i].uid) <==> Kept(prompts[i])
  {
    MetricsOfFlatten(prompts, prompts[i].uid);
  }

  lemma KeptPromptsSnoc(init: seq<Prompt>, p: Prompt)
    ensures KeptPrompts(init + [p]) == KeptPrompts(init) + (if Kept(p) then [p] else [])
  {
    assert (init + [p])[..|init|] == init;
  }

  lemma KeptRowsSnoc(init: seq<Prompt>, p: Prompt, all: seq<Row>)
    requires KeptRows(Flatten(init), all) == Flatten(KeptPrompts(init)) && (KeptUid(all, p.uid) <==> Kept(p))
    ensures KeptRows(Flatten(init + [p]), all) == Flatten(KeptPrompts(init + [p]))
  {
    FlattenSnoc(init, p);
    KeptRowsAppend(Flatten(init), RowsOf(p), all);
    KeptRowsOfPrompt(p.uid, p.metrics, all);
    KeptPromptsSnoc(init, p);
    assert RowsOf(Prompt(p.uid, p.metrics)) == RowsOf(p);
    if Kept(p) {
      FlattenSnoc(KeptPrompts(init), p);
    } else {
      assert KeptPrompts(init + [p]) == KeptPrompts(init);
      assert KeptRows(RowsOf(p), all) == [];
    }
  }

  lemma {:induction false} KeptRowsPrefix(prompts: seq<Prompt>, k: nat)
    requires DistinctUids(prompts) && k <= |prompts|
    ensures KeptRows(Flatten(prompts[..k]), Flatten(prompts)) == Flatten(KeptPrompts(prompts[..k]))
    decreases k
  {
    if k == 0 {
    } else {
      var init, last := prompts[..k - 1], prompts[k - 1];
      KeptRowsPrefix(prompts, k - 1);
      KeptUidOf(prompts, k - 1);
      KeptRowsSnoc(init, last, Flatten(prompts));
      assert prompts[..k] == init + [last];
    }
  }

  /** Filtering rows by their uid's spread is filtering whole prompts. */
  lemma KeptRowsArePrompts(prompts: seq<Prompt>)
    requires DistinctUids(prompts)
    ensures KeptRows(Flatten(prompts), Flatten(prompts)) == Flatten(KeptPrompts(prompts))
  {
    KeptRowsPrefix(prompts, |prompts|);
    assert prompts[..|prompts|] == prompts;
  }

  // ----- the accumulation loop

  lemma {:induction false} KeptPromptsFacts(prompts: seq<Prompt>, n: nat)
    requires Sampled(prompts, n)
    ensures Sampled(KeptPrompts(prompts), n)
    ensures forall i :: 0 <= i < |KeptPrompts(prompts)| ==> Kept(KeptPrompts(prompts)[i])
    decreases |prompts|
  {
    if prompts == [] {
    } else {
      KeptPromptsFacts(prompts[..|prompts| - 1], n);
    }
  }

  lemma FlattenLength(prompts: seq<Prompt>, n: nat)
    requires Sampled(prompts, n)
    ensures |Flatten(prompts)| == |prompts| * n
  {
    Sequences.JoinLength(Blocks(prompts), n);
  }

  /** The first `k` prompts own the first `k * n` rows. */
  lemma FlattenBlock(prompts: seq<Prompt>, n: nat, k: nat)
    requires Sampled(prompts, n) && k <= |prompts|
    ensures 0 <= k * n <= |prompts| * n == |Flatten(prompts)|
    ensures Flatten(prompts)[..k * n] == Flatten(prompts[..k])
  {
    FlattenLength(prompts, n);
    FlattenLength(prompts[..k], n);
    MulMonotone(k, |prompts|, n);
    FlattenPrefix(prompts[..k], prompts[k..], prompts);
  }

  lemma FlattenPrefix(front: seq<Prompt>, back: seq<Prompt>, all: seq<Prompt>)
    requires all == front + back
    ensures Flatten(front) <= Flatten(all)
  {
    FlattenAppend(front, back);
  }

  datatype Outcome = KeepGenerating | Update(batch: seq<Row>) | TooManyGenerations

  /** Grouping a batch by uid, as the dictionary `prompt_uid2metric_vals`. */
  method GroupByUid(rows: seq<Row>) returns (groups: map<nat, seq<real>>)
    ensures forall uid :: uid in groups <==> MetricsOf(rows, uid) != []
    ensures forall uid :: uid in groups ==> groups[uid] == MetricsOf(rows, uid)
  {
    groups := map[];
    for i := 0 to |rows|
      invariant forall uid :: uid in groups <==> MetricsOf(rows[..i], uid) != []
      invariant forall uid :: uid in groups ==> groups[uid] == MetricsOf(rows[..i], uid)
    {
      var Row(uid, metric) := rows[i];
      assert rows[..i + 1][..i] == rows[..i];
      var before := if uid in groups then groups[uid] else [];
      groups := groups[uid := before + [metric]];
    }
    assert rows[..|rows|] == rows;
  }

  method SelectKept(rows: seq<Row>, kept: set<nat>) returns (selected: seq<Row>)
    requires forall uid :: uid in kept <==> KeptUid(rows, uid)
    ensures selected == KeptRows(rows, rows)
  {
    selected := [];
    for i := 0 to |rows|
      invariant selected == KeptRows(rows[..i], rows)
    {
      assert rows[..i + 1][..i] == rows[..i];
      if rows[i].uid in kept {
        selected := selected + [rows[i]];
      }
    }
    assert rows[..|rows|] == rows;
  }

  ghost predicate HasUid(prompts: seq<Prompt>, uid: nat) {
    exists i :: 0 <= i < |prompts| && prompts[i].uid == uid
  }

  /** There are as many kept uids as kept prompts. */
  lemma {:induction false} KeptCount(kept: set<nat>, prompts: seq<Prompt>)
    requires DistinctUids(prompts) && forall uid :: uid in kept <==> HasUid(prompts, uid)
    ensures |kept| == |prompts|
    decreases |prompts|
  {
    if prompts == [] {
      assert kept == {};
    } else {
      var n := |prompts| - 1;
      var last := prompts[n].uid;
      assert HasUid(prompts, last);
      forall uid
        ensures uid in kept - {last} <==> HasUid(prompts[..n], uid)
      {
        if uid in kept - {last} {
          var i :| 0 <= i < |prompts| && prompts[i].uid == uid;
          assert prompts[..n][i].uid == uid;
        }
        if HasUid(prompts[..n], uid) {
          var i :| 0 <= i < n && prompts[..n][i].uid == uid;
          assert prompts[i].uid == uid;
        }
      }
      KeptCount(kept - {last}, prompts[..n]);
    }
  }

  lemma {:induction false} KeptPromptsOrigin(prompts: seq<Prompt>)
    ensures forall p :: p in KeptPrompts(prompts) <==> p in prompts && Kept(p)
    decreases |prompts|
  {
    if prompts == [] {
    } else {
      var init, last := prompts[..|prompts| - 1], prompts[|prompts| - 1];
      KeptPromptsOrigin(init);
      assert prompts == init + [last];
    }
  }

  lemma {:induction false} KeptPromptsDistinct(prompts: seq<Prompt>)
    requires DistinctUids(prompts)
    ensures DistinctUids(KeptPrompts(prompts))
    decreases |prompts|
  {
    if prompts == [] {
    } else {
      var init, last := prompts[..|prompts| - 1], prompts[|prompts| - 1];
      KeptPromptsDistinct(init);
      KeptPromptsOrigin(init);
      forall p | p in KeptPrompts(init)
        ensures p.uid != last.uid
      {
        var i :| 0 <= i < |init| && init[i] == p;
        assert prompts[i] == p;
      }
    }
  }

  lemma KeptUidIsPrompt(prompts: seq<Prompt>, uid: nat)
    requires DistinctUids(prompts)
    ensures KeptUid(Flatten(prompts), uid) <==> HasUid(KeptPrompts(prompts), uid)
  {
    KeptPromptsOrigin(prompts);
    MetricsOfFlatten(prompts, uid);
    if KeptUid(Flatten(prompts), uid) {
      var i :| 0 <= i < |prompts| && prompts[i].uid == uid;
      KeptUidOf(prompts, i);
      assert prompts[i] in KeptPrompts(prompts);
    }
    if HasUid(KeptPrompts(prompts), uid) {
      var p :| p in KeptPrompts(prompts) && p.uid == uid;
      var i :| 0 <= i < |prompts| && prompts[i] == p;
      KeptUidOf(prompts, i);
    }
  }

  lemma KeptUidsArePrompts(kept: set<nat>, prompts: seq<Prompt>)
    requires DistinctUids(prompts) && forall uid :: uid in kept <==> KeptUid(Flatten(prompts), uid)
    ensures |kept| == |KeptPrompts(prompts)|
  {
    KeptPromptsDistinct(prompts);
    forall uid
      ensures uid in kept <==> HasUid(KeptPrompts(prompts), uid)
    {
      KeptUidIsPrompt(prompts, uid);
    }
    KeptCount(kept, KeptPrompts(prompts));
  }

  /** Dropping the prompts without spread: the rows that stay and how many prompts they come from. */
  method FilterGroups(rows: seq<Row>, ghost prompts: seq<Prompt>) returns (selected: seq<Row>, count: nat)
    requires rows == Flatten(prompts) && DistinctUids(prompts)
    ensures selected == Flatten(KeptPrompts(prompts)) && count == |KeptPrompts(prompts)|
  {
    var groups := GroupByUid(rows);
    var kept := set uid | uid in groups && Keep(groups[uid]);
    KeptUidsArePrompts(kept, prompts);
    KeptRowsArePrompts(prompts);
    count := |kept|;
    selected := SelectKept(rows, kept);
  }

  /** The accumulation state of `fit`; `prompts` records which prompts the batch is made of. */
  class Trainer {
    const n: nat
    const trainBatchSize: nat
    const filterGroups: bool
    const maxNumGenBatches: int
    var batch: seq<Row>
    var numPromptInBatch: nat
    var numGenBatches: nat
    ghost var prompts: seq<Prompt>

    /** Each accumulated prompt owns n adjacent rows and its scores differ (or there is only one). */
    ghost predicate Valid()
      reads this
    {
      && batch == Flatten(prompts) && numPromptInBatch == |prompts| && Sampled(prompts, n)
      && (forall i :: 0 <= i < |prompts| ==> Kept(prompts[i]))
      && |prompts| <= trainBatchSize && (|prompts| < trainBatchSize || prompts == [])
      && (filterGroups && maxNumGenBatches > 0 ==> numGenBatches < maxNumGenBatches)
    }

    constructor (n: nat, trainBatchSize: nat, filterGroups: bool, maxNumGenBatches: int)
      requires n > 0
      ensures Valid() && prompts == [] && this.n == n && this.trainBatchSize == trainBatchSize
      ensures this.filterGroups == filterGroups && this.maxNumGenBatches == maxNumGenBatches && numGenBatches == 0
    {
      this.n, this.trainBatchSize, this.filterGroups, this.maxNumGenBatches :=
        n, trainBatchSize, filterGroups, maxNumGenBatches;
      batch, numPromptInBatch, numGenBatches, prompts := [], 0, 0, [];
    }

    /** One pass of the loop over a generated batch, whose rows are the samples of `arrived`. */
    method Generated(newBatch: seq<Row>, ghost arrived: seq<Prompt>) returns (r: Outcome)
      requires Valid() && n > 0 && newBatch == Flatten(arrived) && DistinctUids(arrived) && Sampled(arrived, n)
      modifies this
      ensures !filterGroups ==> r == Update(newBatch) && prompts == [] && numGenBatches == 0 && Valid()
      ensures filterGroups ==>
                var all := old(prompts) + KeptPrompts(arrived);
                var gens := old(numGenBatches) + 1;
                match r
                case KeepGenerating =>
                  && |all| < trainBatchSize && (maxNumGenBatches <= 0 || gens < maxNumGenBatches)
                  && Valid() && prompts == all && numGenBatches == gens
                case TooManyGenerations => |all| < trainBatchSize && 0 < maxNumGenBatches <= gens
                case Update(full) =>
                  && |all| >= trainBatchSize && full == Flatten(all[..trainBatchSize])
                  && |full| == trainBatchSize * n
                  && (forall i :: 0 <= i < trainBatchSize ==> Kept(all[i]) && |all[i].metrics| == n)
                  && Valid() && prompts == [] && numGenBatches == 0
    {
      numGenBatches := numGenBatches + 1;
      if !filterGroups {
        r := Update(newBatch);
      } else {
        var selected, count := FilterGroups(newBatch, arrived);
        numPromptInBatch := numPromptInBatch + count;
        FlattenAppend(prompts, KeptPrompts(arrived));
        KeptPromptsFacts(arrived, n);
        batch := batch + selected;
        prompts := prompts + KeptPrompts(arrived);
        if numPromptInBatch < trainBatchSize {
          if maxNumGenBatches <= 0 || numGenBatches < maxNumGenBatches {
            return KeepGenerating;
          }
          return TooManyGenerations;
        }
        FlattenBlock(prompts, n, trainBatchSize);
        r := Update(batch[..trainBatchSize * n]);
      }
      batch, numPromptInBatch, numGenBatches, prompts := [], 0, 0, [];
    }
  }
}
