/** Concatenation of lists of sequences, and sums. */
module Sequences {
  import opened Arithmetic

  function Join<R>(parts: seq<seq<R>>): seq<R> {
    if parts == [] then [] else Join(parts[..|parts| - 1]) + parts[|parts| - 1]
  }

  lemma JoinSnoc<R>(parts: seq<seq<R>>, last: seq<R>)
    ensures Join(parts + [last]) == Join(parts) + last
  {
    assert (parts + [last])[..|parts|] == parts;
  }

  lemma {:induction false} JoinAppend<R>(a: seq<seq<R>>, b: seq<seq<R>>)
    ensures Join(a + b) == Join(a) + Join(b)
    decreases |b|
  {
    if b == [] {
      assert a + b == a;
    } else {
      var n := |b| - 1;
      JoinAppend(a, b[..n]);
      assert (a + b)[..|a + b| - 1] == a + b[..n];
    }
  }

  lemma {:induction false} JoinLength<R>(parts: seq<seq<R>>, size: nat)
    requires forall i :: 0 <= i < |parts| ==> |parts[i]| == size
    ensures |Join(parts)| == |parts| * size
    decreases |parts|
  {
    if parts == [] {
    } else {
      JoinLength(parts[..|parts| - 1], size);
      MulSucc(|parts| - 1, size);
    }
  }

  function Sum(ns: seq<nat>): nat {
    if ns == [] then 0 else Sum(ns[..|ns| - 1]) + ns[|ns| - 1]
  }
}
