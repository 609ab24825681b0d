/** Batched generation: every prompt is answered n times, batch by batch, and the answers are transposed. */
module Generation {
  import opened Arithmetic
  import opened Common
  import opened DataProto
  import opened Dispatch

  /**
   What the generation loop is given. `tokenize` turns a non-empty list of prompts into a batch with one row a prompt
   (padding may make a row depend on its neighbours), `workers[s]` generates the s-th sample, `decode` reads one row.
   */
  datatype Setup<!P, !T, !A> = Setup(
    tokenize: seq<P> -> Batch<T>, workers: seq<Batch<T> -> Batch<T>>, decode: (Batch<T>, nat) -> A)

  /**
   On these prompts, sample `s` of a row does not depend on the other rows, nor its answer on how the prompt was padded.
   How wide a batch is padded, and so the shapes of its columns and of the workers' outputs, depends on the prompts.
   */
  ghost predicate FaithfulOn<P, T(!new), A>(
    setup: Setup<P, T, A>, f: seq<Row<T> -> Row<T>>, read: Row<T> -> A, outputs: Schema -> Schema,
    answer: (P, nat) -> A, prompts: seq<P>)
    requires |f| == |setup.workers|
  {
    var d := setup.tokenize(prompts);
    && Shape(d).Some? && |Rows(d)| == |prompts|
    && (forall s :: 0 <= s < |f| ==> RowWise(setup.workers[s], f[s], SchemaOf(d), outputs(SchemaOf(d))))
    && Reads(setup.decode, read, outputs(SchemaOf(d)))
    && (forall s, i :: 0 <= s < |f| && 0 <= i < |prompts| ==> read(f[s](Rows(d)[i])) == answer(prompts[i], s))
  }

  /** Decoding row `i` looks at that row only. */
  ghost predicate Reads<T(!new), A>(decode: (Batch<T>, nat) -> A, read: Row<T> -> A, schema: Schema) {
    forall d: Batch<T>, i: nat :: Shape(d) == Some(schema) && i < |Rows(d)| ==> decode(d, i) == read(Rows(d)[i])
  }

  ghost predicate Faithful<P(!new), T(!new), A>(
    setup: Setup<P, T, A>, f: seq<Row<T> -> Row<T>>, read: Row<T> -> A, outputs: Schema -> Schema,
    answer: (P, nat) -> A)
  {
    |f| == |setup.workers| &&
    forall prompts: seq<P> :: prompts != [] ==> FaithfulOn(setup, f, read, outputs, answer, prompts)
  }

  ghost function Answers<P, A>(prompts: seq<P>, s: nat, answer: (P, nat) -> A): seq<A> {
    seq(|prompts|, i requires 0 <= i < |prompts| => answer(prompts[i], s))
  }

  method DecodeAll<T, A>(d: Batch<T>, decode: (Batch<T>, nat) -> A) returns (texts: seq<A>)
    ensures |texts| == d.size && forall i :: 0 <= i < d.size ==> texts[i] == decode(d, i)
  {
    texts := [];
    for i := 0 to d.size
      invariant |texts| == i && forall j :: 0 <= j < i ==> texts[j] == decode(d, j)
    {
      texts := texts + [decode(d, i)];
    }
  }

  /** One sample for one batch of prompts. */
  method SampleBatch<P(!new), T(!new), A(!new)>(
    setup: Setup<P, T, A>, prompts: seq<P>, s: nat, worldSize: nat, ghost f: seq<Row<T> -> Row<T>>,
    ghost read: Row<T> -> A, ghost outputs: Schema -> Schema, ghost answer: (P, nat) -> A)
    returns (texts: seq<A>)
    requires Faithful(setup, f, read, outputs, answer)
    requires prompts != [] && s < |setup.workers| && worldSize > 0
    ensures texts == Answers(prompts, s, answer)
  {
    var d := setup.tokenize(prompts);
    assert FaithfulOn(setup, f, read, outputs, answer, prompts);
    assert d.size == |prompts|;
    var output := RunWorkers(d, worldSize, setup.workers[s], f[s], outputs(SchemaOf(d)));
    assert Reads(setup.decode, read, outputs(SchemaOf(d)));
    assert output.size == |Rows(output)|;
    texts := DecodeAll(output, setup.decode);
  }

  function Transpose<A>(columns: seq<seq<A>>, n: nat): seq<seq<A>>
    requires forall s :: 0 <= s < |columns| ==> |columns[s]| == n
  {
    seq(n, i requires 0 <= i < n =>
      seq(|columns|, s requires 0 <= s < |columns| => columns[s][i]))
  }

  lemma CeilBatches(total: nat, size: nat, b: nat)
    requires size > 0 && b < (total + size - 1) / size
    ensures 0 <= b * size < Min((b + 1) * size, total)
  {
    var q := (total + size - 1) / size;
    DivMod(total + size - 1, size);
    MulMonotone(b + 1, q, size);
    MulSucc(b, size);
  }

  lemma AllBatches(total: nat, size: nat)
    requires size > 0
    ensures total <= ((total + size - 1) / size) * size
  {
    DivMod(total + size - 1, size);
  }

  /**
   Entry (i, s) of the result is the s-th sampled answer to the i-th prompt, whatever the batch size and worker count.
   */
  method MainTask<P(!new), T(!new), A(!new)>(
    setup: Setup<P, T, A>, prompts: seq<P>, batchSize: nat, worldSize: nat, ghost f: seq<Row<T> -> Row<T>>,
    ghost read: Row<T> -> A, ghost outputs: Schema -> Schema, ghost answer: (P, nat) -> A)
    returns (responses: seq<seq<A>>)
    requires Faithful(setup, f, read, outputs, answer)
    requires batchSize > 0 && worldSize > 0 && |setup.workers| >= 1
    ensures |responses| == |prompts|
    ensures forall i :: 0 <= i < |prompts| ==> |responses[i]| == |setup.workers|
    ensures forall i, s :: 0 <= i < |prompts| && 0 <= s < |setup.workers| ==> responses[i][s] == answer(prompts[i], s)
  {
    var nSamples := |setup.workers|;
    var numBatch := (|prompts| + batchSize - 1) / batchSize;
    var collected := seq(nSamples, _ => []);
    ghost var done := 0;
    for b := 0 to numBatch
      invariant done == Min(b * batchSize, |prompts|) && |collected| == nSamples
      invariant forall s :: 0 <= s < nSamples ==> collected[s] == Answers(prompts[..done], s, answer)
    {
      CeilBatches(|prompts|, batchSize, b);
      var start, end := b * batchSize, Min((b + 1) * batchSize, |prompts|);
      var batch := prompts[start..end];
      for s := 0 to nSamples
        invariant |collected| == nSamples
        invariant forall t :: 0 <= t < s ==> collected[t] == Answers(prompts[..end], t, answer)
        invariant forall t :: s <= t < nSamples ==> collected[t] == Answers(prompts[..start], t, answer)
      {
        var texts := SampleBatch(setup, batch, s, worldSize, f, read, outputs, answer);
        assert Answers(prompts[..start], s, answer) + texts == Answers(prompts[..end], s, answer);
        collected := collected[s := collected[s] + texts];
      }
      done := end;
    }
    AllBatches(|prompts|, batchSize);
    assert prompts[..done] == prompts;
    responses := Transpose(collected, |prompts|);
  }
}
