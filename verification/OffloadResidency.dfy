/** Where tensors are: which offloaded groups are complete, and how many groups are on the device. */
module OffloadResidency {
  import opened Common
  import opened WindowSchedule
  import opened OffloadState
  import opened OffloadRefinement
  import opened OffloadRuns
  import opened OffloadTraining
  import opened Sets

  // ----- completeness

  /** No tensor of an offloaded group is left on the device. */
  ghost predicate Complete(s: State) {
    forall i {:trigger s.entries[i].slot} :: 0 <= i < |s.entries| && s.entries[i].tag.group in s.mapping ==>
      s.entries[i].slot.Offloaded?
  }

  /** With a layer to spare, or a single one, offloaded groups are complete and none is being pushed. */
  lemma OffloadedGroupsAreComplete(groups: nat, layers: nat, events: seq<Event>)
    requires 0 < groups <= layers && (groups < layers || groups == 1)
    requires LegalRun(START, Ordered(groups, layers), events) && Run(Init(groups, layers), events).Some?
    ensures var s, p := Run(Init(groups, layers), events).value.0, PlainRun(START, events).0;
      && Complete(s) && s.current == p.group
      && (p.phase == Forward && p.group < layers ==> p.group !in s.mapping)
  {
    Reached(groups, layers, events);
    CurrentHosted(PlainRun(START, events).0.group, groups, layers);
    var s := Run(Init(groups, layers), events).value.0;
    forall i | 0 <= i < |s.entries| && s.entries[i].tag.group in s.mapping
      ensures s.entries[i].slot.Offloaded?
    {
      assert Hosted(PlainRun(START, events).0.phase, PlainRun(START, events).0.group, groups, layers,
          s.entries[i].tag.group);
    }
  }

  /** With as many groups as layers, only the first group ever leaves the device. */
  lemma OthersStay(layers: nat, events: seq<Event>)
    requires 0 < layers && LegalRun(START, Ordered(layers, layers), events) && Run(Init(layers, layers), events).Some?
    ensures var s := Run(Init(layers, layers), events).value.0;
            forall e :: e in s.entries ==> (e.slot.Offloaded? <==> e.tag.group == 0 && 0 in s.mapping)
  {
    Reached(layers, layers, events);
    var s, q := Run(Init(layers, layers), events).value.0, LossyRun(START, layers, layers, events);
    forall e | e in s.entries
      ensures e.slot.Offloaded? <==> e.tag.group == 0 && 0 in s.mapping
    {
      var i :| 0 <= i < |s.entries| && s.entries[i] == e;
      assert Stands(s.entries, i, q.saved, q.phase, s.mapping);
      assert s.entries[i].slot.Offloaded? <==> e.tag.group in s.mapping && Exposed(e.tag.group, layers, layers);
    }
  }

  const ONE := Tensor([1.0], [], 0, 0, 0)

  const PUSH_ONE := PushEvent(ONE, false, true)

  /** A first layer that saves nothing, then a tensor of the second. */
  lemma LateArrival(layers: nat) returns (events: seq<Event>)
    requires layers >= 2
    ensures LegalRun(START, Rule(layers, layers, Contents), events)
    ensures Run(Init(layers, layers), events).Some? && !Complete(Run(Init(layers, layers), events).value.0)
  {
    var rule := Rule(layers, layers, Contents);
    events := [ForwardEvent, PUSH_ONE];
    var p := PlainStep(START, ForwardEvent).0;
    assert Legal(p, rule, PUSH_ONE);
    SingleEvent(START, rule, ForwardEvent);
    SingleEvent(p, rule, PUSH_ONE);
    RunAppend(START, rule, [ForwardEvent], [PUSH_ONE]);
    assert [ForwardEvent] + [PUSH_ONE] == events;
    HandlerIsDictionary(layers, layers, events);
    LegalRunOrdered(START, rule, events);
    Reached(layers, layers, events);
    var s, q := Run(Init(layers, layers), events).value.0, LossyRun(START, layers, layers, events);
    assert PlainRun(START, events).0 == PlainStep(p, PUSH_ONE).0;
    assert Tag(1, 0) in q.saved && HasTag(s.entries, Tag(1, 0));
    var i := IndexOf(s.entries, Tag(1, 0));
    WindowDelay(layers, layers, 0);
    assert Hosted(Forward, 1, layers, layers, 1);
    assert s.entries[i].slot.Offloaded? <==> 1 in s.mapping && Exposed(1, layers, layers);
  }

  /**
   Offloaded groups are complete on every training run exactly when a layer is left out, or there is only one group.
   */
  lemma CompleteExactly(groups: nat, layers: nat)
    requires 0 < groups <= layers
    ensures (forall events :: LegalRun(START, Rule(groups, layers, Contents), events) ==>
               Run(Init(groups, layers), events).Some? && Complete(Run(Init(groups, layers), events).value.0))
            <==> groups < layers || groups == 1
  {
    if groups < layers || groups == 1 {
      forall events | LegalRun(START, Rule(groups, layers, Contents), events)
        ensures Run(Init(groups, layers), events).Some? && Complete(Run(Init(groups, layers), events).value.0)
      {
        HandlerIsDictionary(groups, layers, events);
        LegalRunOrdered(START, Rule(groups, layers, Contents), events);
        OffloadedGroupsAreComplete(groups, layers, events);
      }
    } else {
      var events := LateArrival(layers);
    }
  }

  // ----- device residency

  /** The groups with a tensor on the device, live or kept in the buffer. */
  ghost function ResidentGroups(s: State): set<int> {
    (set i | 0 <= i < |s.entries| && s.entries[i].slot.OnDevice? :: s.entries[i].tag.group)
    + (set tag | tag in s.buf && s.buf[tag].Some? :: tag.group)
  }

  ghost predicate HasGroup(saved: map<Tag, Tensor>, g: int) {
    exists tag :: tag in saved && tag.group == g
  }

  /** A group with saved tensors is resident unless it is hosted, and then while its buffer is not released. */
  lemma ResidentExactly(s: State, q: Plain, g: int)
    requires Sim(s, q)
    ensures g in ResidentGroups(s) <==>
              HasGroup(q.saved, g) &&
              (!Hosted(q.phase, q.group, s.groups, s.layers, g) || !Exposed(g, s.groups, s.layers)
               || (q.phase == Forward && s.offloaded <= g < s.groups))
  {
    if HasGroup(q.saved, g) {
      var tag :| tag in q.saved && tag.group == g;
      assert HasTag(s.entries, tag);
      var i := IndexOf(s.entries, tag);
      assert s.entries[i].slot.Offloaded? <==> g in s.mapping && Exposed(g, s.groups, s.layers);
    }
    if g in ResidentGroups(s) {
      if i :| 0 <= i < |s.entries| && s.entries[i].slot.OnDevice? && s.entries[i].tag.group == g {
        assert Stands(s.entries, i, q.saved, q.phase, s.mapping);
      }
    }
  }

  /** The groups resident at layer `current` lie in an interval; its length depends on the layers left out. */
  lemma ResidentInterval(s: State, q: Plain, g: int)
    requires Sim(s, q) && g in ResidentGroups(s)
    ensures s.groups < s.layers ==> q.group - (s.layers - s.groups) <= g <= q.group && g < s.layers
    ensures s.groups == s.layers ==> 0 <= g <= q.group && g < s.layers && (g == 0 ==> q.group == 0)
  {
    ResidentExactly(s, q, g);
    var tag :| tag in q.saved && tag.group == g;
    if s.groups < s.layers {
      LateWindows(s, q, g);
    } else {
      if s.offloaded > 0 { WindowDelay(s.layers, s.groups, s.offloaded - 1); }
      WindowDelay(s.layers, s.groups, 0);
    }
  }

  /** A group too far behind has retired. */
  lemma LateWindows(s: State, q: Plain, g: int)
    requires Sim(s, q) && s.groups < s.layers && HasGroup(q.saved, g)
    requires !Hosted(q.phase, q.group, s.groups, s.layers, g) || !Exposed(g, s.groups, s.layers)
             || (q.phase == Forward && s.offloaded <= g < s.groups)
    ensures q.group - (s.layers - s.groups) <= g < s.layers
  {
    var tag :| tag in q.saved && tag.group == g;
    if 0 <= g < s.groups {
      WindowLast(s.layers, s.groups);
      if g < s.groups - 1 { WindowIncreasing(s.layers, s.groups, g, s.groups - 1); }
      assert Window(s.layers, s.groups, g) <= g + (s.layers - s.groups);
      if q.phase == Forward && s.offloaded <= g {
        if s.offloaded < g { WindowIncreasing(s.layers, s.groups, s.offloaded, g); }
      } else if q.phase == Forward && g > 0 {
        WindowIncreasing(s.layers, s.groups, g - 1, g);
      }
    }
  }

  // ----- how many groups

  /** The most groups that are ever on the device at once. */
  function MostResident(groups: nat, layers: nat): int {
    if groups < layers then layers - groups + 1 else Max(1, layers - 1)
  }

  /** On every run, at every point, no more groups than that; and they are the latest ones. */
  lemma ResidentBound(groups: nat, layers: nat, events: seq<Event>)
    requires 0 < groups <= layers && LegalRun(START, Ordered(groups, layers), events)
    requires Run(Init(groups, layers), events).Some?
    ensures var s := Run(Init(groups, layers), events).value.0;
      && |ResidentGroups(s)| <= MostResident(groups, layers)
      && (groups < layers ==> forall g :: g in ResidentGroups(s) ==> s.current - (layers - groups) <= g <= s.current)
  {
    Reached(groups, layers, events);
    var s, q := Run(Init(groups, layers), events).value.0, LossyRun(START, groups, layers, events);
    var (lo, hi) := if groups < layers then (q.group - (layers - groups), q.group + 1)
                    else if q.group == 0 then (0, 1) else (1, Max(1, layers));
    forall g | g in ResidentGroups(s)
      ensures lo <= g < hi
      ensures groups < layers ==> s.current - (layers - groups) <= g <= s.current
    {
      ResidentInterval(s, q, g);
    }
    SubsetSize(ResidentGroups(s), Interval(lo, hi));
    IntervalSize(lo, hi);
  }

  /** Every layer saves one tensor. */
  function OneEach(layers: nat): seq<seq<Save>> {
    seq(layers, _ => [Save(ONE, false, true)])
  }

  lemma KeptOne()
    ensures Kept([Save(ONE, false, true)]) == [ONE]
  {
    var saves := [Save(ONE, false, true)];
    assert saves[1..] == [];
  }

  /** The forward pass of such a run, up to the last layer's push. */
  lemma OneEachRun(groups: nat, layers: nat) returns (events: seq<Event>, p: Plain)
    requires 0 < groups <= layers
    ensures LegalRun(START, Rule(groups, layers, Contents), events) && PlainRun(START, events).0 == p
    ensures p == Plain(Forward, layers - 1, 1, p.saved, 0)
    ensures forall tag :: tag in p.saved <==> 0 <= tag.group < layers && tag.index == 0
  {
    var rule, saves := Rule(groups, layers, Contents), OneEach(layers - 1);
    KeptOne();
    ForwardLegal(START, saves, rule);
    forall l | 0 <= l < |saves|
      ensures LayerMeets(saves, rule, l)
    {
      assert Kept(saves[l]) == [ONE];
    }
    var p1 := PlainRun(START, ForwardPass(saves)).0;
    assert Legal(p1, rule, PUSH_ONE) by {
      assert forall tag :: tag in p1.saved ==> tag.group < layers - 1;
    }
    SingleEvent(p1, rule, PUSH_ONE);
    RunAppend(START, rule, ForwardPass(saves), [PUSH_ONE]);
    events, p := ForwardPass(saves) + [PUSH_ONE], PlainStep(p1, PUSH_ONE).0;
  }

  /** The bound is reached: at the last layer the last group is still there, and so is every group after it. */
  lemma ResidentReached(groups: nat, layers: nat) returns (events: seq<Event>)
    requires 0 < groups <= layers
    ensures LegalRun(START, Rule(groups, layers, Contents), events) && Run(Init(groups, layers), events).Some?
    ensures var s := Run(Init(groups, layers), events).value.0;
      && |ResidentGroups(s)| == MostResident(groups, layers)
      && s.current == layers - 1 && (groups < layers ==> groups - 1 in ResidentGroups(s))
  {
    var p;
    events, p := OneEachRun(groups, layers);
    HandlerIsDictionary(groups, layers, events);
    LegalRunOrdered(START, Rule(groups, layers, Contents), events);
    ResidentBound(groups, layers, events);
    Reached(groups, layers, events);
    var s, q := Run(Init(groups, layers), events).value.0, LossyRun(START, groups, layers, events);
    var lo := if groups < layers then groups - 1 else if layers == 1 then 0 else 1;
    LastLayer(s, q);
    forall g | lo <= g < layers
      ensures g in ResidentGroups(s)
    {
      ResidentExactly(s, q, g);
      assert Tag(g, 0) in p.saved;
      assert HasGroup(q.saved, g);
    }
    SubsetSize(Interval(lo, layers), ResidentGroups(s));
    IntervalSize(lo, layers);
  }

  /** At the last layer all groups but the last have retired. */
  lemma LastLayer(s: State, q: Plain)
    requires Sim(s, q) && q.phase == Forward && q.group == s.layers - 1
    ensures s.offloaded == s.groups - 1
  {
    WindowLast(s.layers, s.groups);
    if s.offloaded < s.groups - 1 {
      WindowIncreasing(s.layers, s.groups, s.offloaded, s.groups - 1);
    }
  }

  /** At most two groups are resident on every training run exactly for these sizes, the caller's L - 1 among them. */
  lemma TwoGroupsExactly(groups: nat, layers: nat)
    requires 0 < groups <= layers
    ensures (forall events :: LegalRun(START, Rule(groups, layers, Contents), events) ==>
               Run(Init(groups, layers), events).Some? &&
                   |ResidentGroups(Run(Init(groups, layers), events).value.0)| <= 2)
            <==> groups == layers - 1 || layers <= 2 || (groups == layers && layers == 3)
  {
    if MostResident(groups, layers) <= 2 {
      forall events | LegalRun(START, Rule(groups, layers, Contents), events)
        ensures Run(Init(groups, layers), events).Some?
        ensures |ResidentGroups(Run(Init(groups, layers), events).value.0)| <= 2
      {
        HandlerIsDictionary(groups, layers, events);
        LegalRunOrdered(START, Rule(groups, layers, Contents), events);
        ResidentBound(groups, layers, events);
      }
    } else {
      var events := ResidentReached(groups, layers);
    }
  }

  /** With one layer left out of offloading, at most the current group and the one before it are on the device. */
  lemma AtMostTwoGroupsResident(layers: nat, events: seq<Event>)
    requires layers >= 2 && LegalRun(START, Ordered(layers - 1, layers), events)
    requires Run(Init(layers - 1, layers), events).Some?
    ensures var s := Run(Init(layers - 1, layers), events).value.0;
            forall g :: g in ResidentGroups(s) ==> g == s.current || g == s.current - 1
  {
    ResidentBound(layers - 1, layers, events);
  }
}
