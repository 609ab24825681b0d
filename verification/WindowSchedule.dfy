/** The offload schedule: which forward commit retires which offload group. */
module WindowSchedule {
  import opened Arithmetic
  import opened Common

  /** The layer whose commit retires offload group `i`. */
  function Window(layers: nat, groups: nat, i: nat): int
    requires groups > 0
  {
    (layers / groups) * (i + 1) - 1 + Min(i + 1, layers % groups)
  }

  function WindowMap(layers: nat, groups: nat): map<int, int> {
    map i: int | 0 <= i < groups :: Window(layers, groups, i)
  }

  /** The constructor's loop, with its running `constant`. */
  method BuildWindowMap(layers: nat, groups: nat) returns (windows: map<int, int>)
    ensures windows == WindowMap(layers, groups)
  {
    windows := map[];
    var constant := 0;
    for i := 0 to groups
      invariant groups > 0 ==> constant == Min(i, layers % groups)
      invariant forall j :: j in windows <==> 0 <= j < i
      invariant forall j :: 0 <= j < i ==> windows[j] == Window(layers, groups, j)
    {
      var quotient, rest := layers / groups, layers % groups;
      var window := quotient * (i + 1) - 1;
      windows := windows[i := window];
      if i < rest {
        windows := windows[i := windows[i] + i + 1];
        constant := i + 1;
      } else {
        windows := windows[i := windows[i] + constant];
      }
      assert windows[i] == window + Min(i + 1, rest);
    }
  }

  /** Load balance: consecutive windows are q or q + 1 layers apart, the longer gaps first. */
  lemma WindowGap(layers: nat, groups: nat, i: nat)
    requires groups > 0
    ensures Window(layers, groups, i + 1) - Window(layers, groups, i)
            == layers / groups + if i + 1 < layers % groups then 1 else 0
  {
    var q := layers / groups;
    assert q * (i + 2) == q * (i + 1) + q;
  }

  /** With at least as many layers as groups, groups retire one at a time, in order. */
  lemma {:induction false} WindowIncreasing(layers: nat, groups: nat, i: nat, j: nat)
    requires 0 < groups <= layers && i < j
    ensures Window(layers, groups, i) + (j - i) <= Window(layers, groups, j)
    decreases j
  {
    WindowGap(layers, groups, j - 1);
    QuotientPositive(layers, groups);
    if i < j - 1 {
      WindowIncreasing(layers, groups, i, j - 1);
    }
  }

  lemma QuotientPositive(layers: nat, groups: nat)
    requires 0 < groups <= layers
    ensures layers / groups >= 1
    ensures groups < layers && layers / groups == 1 ==> layers % groups >= 1
  {
    var q, r := layers / groups, layers % groups;
    assert layers == groups * q + r;
    assert q <= 0 ==> groups * q <= 0;
  }

  /** The last group retires at the last layer's commit. */
  lemma WindowLast(layers: nat, groups: nat)
    requires 0 < groups <= layers
    ensures Window(layers, groups, groups - 1) == layers - 1
  {
    assert layers == groups * (layers / groups) + layers % groups;
  }

  lemma WindowAfter(layers: nat, groups: nat, i: nat)
    requires 0 < groups < layers
    ensures Window(layers, groups, i) >= i + 1
  {
    var q := layers / groups;
    QuotientPositive(layers, groups);
    if q == 1 {
      assert q * (i + 1) == i + 1;
    } else {
      assert q * (i + 1) >= 2 * (i + 1) by {
        assert (q - 2) * (i + 1) >= 0;
      }
    }
  }

  /** A group never retires before its own layer, and strictly after it exactly when some layer is not offloaded. */
  lemma WindowDelay(layers: nat, groups: nat, i: nat)
    requires 0 < groups <= layers
    ensures Window(layers, groups, i) >= i
    ensures Window(layers, groups, i) == i <==> groups == layers
  {
    if groups == layers {
      QuotientUnique(layers, groups, 1, 0);
    } else {
      WindowAfter(layers, groups, i);
    }
  }

  /** All windows lie inside one forward pass. */
  lemma WindowBounds(layers: nat, groups: nat, i: nat)
    requires 0 < groups <= layers && i < groups
    ensures i <= Window(layers, groups, i) < layers
  {
    WindowDelay(layers, groups, i);
    WindowLast(layers, groups);
    if i < groups - 1 {
      WindowIncreasing(layers, groups, i, groups - 1);
    }
  }

  /** One layer left on the device, as the caller chooses it: each group retires one layer later. */
  lemma WindowAllButLast(layers: nat, i: nat)
    requires layers >= 2 && i < layers - 1
    ensures Window(layers, layers - 1, i) == i + 1
  {
    if layers == 2 {
      assert layers / (layers - 1) == 2 && layers % (layers - 1) == 0;
    } else {
      var g := layers - 1;
      assert layers == 1 * g + 1;
      assert layers / g == 1 && layers % g == 1 by {
        QuotientUnique(layers, g, 1, 1);
      }
    }
  }
}
