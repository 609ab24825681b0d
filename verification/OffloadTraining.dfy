/** The calls a trainer makes: L forward layers, then the same layers backward, any number of times. */
module OffloadTraining {
  import opened Common
  import opened WindowSchedule
  import opened OffloadState
  import opened OffloadRefinement
  import opened OffloadRuns

  /** One tensor that autograd saves during a layer's forward. */
  datatype Save = Save(t: Tensor, stray: bool, wanted: bool)

  function Kept(saves: seq<Save>): seq<Tensor> {
    if saves == [] then []
    else (if !saves[0].stray && saves[0].wanted then [saves[0].t] else []) + Kept(saves[1..])
  }

  function Pushes(saves: seq<Save>): seq<Event> {
    if saves == [] then []
    else [PushEvent(saves[0].t, saves[0].stray, saves[0].wanted)] + Pushes(saves[1..])
  }

  function Pops(layer: nat, order: seq<nat>): seq<Event> {
    if order == [] then [] else [PopEvent(Saved(Tag(layer, order[0])))] + Pops(layer, order[1..])
  }

  /** One training step: what each layer saves, in which order its backward asks for it, where reloads land. */
  datatype TrainingStep = TrainingStep(saves: seq<seq<Save>>, orders: seq<seq<nat>>, places: seq<Key -> int>)

  function ForwardPass(saves: seq<seq<Save>>): seq<Event> {
    if saves == [] then [] else ForwardPass(saves[..|saves| - 1]) + Pushes(saves[|saves| - 1]) + [ForwardEvent]
  }

  function BackwardPass(orders: seq<seq<nat>>, places: seq<Key -> int>): seq<Event>
    requires |orders| == |places|
  {
    if orders == [] then []
    else
      var l := |orders| - 1;
      [BackwardEvent(places[l])] + Pops(l, orders[l]) + BackwardPass(orders[..l], places[..l])
  }

  /** Every kept tensor of the layer is asked for exactly once. */
  ghost predicate Permutes(order: seq<nat>, n: nat) {
    && (forall i: nat :: i in order <==> i < n)
    && (forall i, j :: 0 <= i < j < |order| ==> order[i] != order[j])
  }

  ghost predicate CompatibleSaves(demand: Demand, kept: seq<Tensor>) {
    forall t, u :: t in kept && u in kept ==> Compatible(demand, t, u)
  }

  ghost predicate ValidStep(step: TrainingStep, layers: nat) {
    && |step.saves| == |step.orders| == |step.places| == layers
    && (forall l :: 0 <= l < layers ==> Permutes(step.orders[l], |Kept(step.saves[l])|))
    && (forall l :: 0 <= l < layers ==> forall save :: save in step.saves[l] ==> WellFormed(save.t))
  }

  /** What a layer saves meets the demand, unless its group stays on the device. */
  ghost predicate LayerMeets(saves: seq<seq<Save>>, rule: Rule, l: int)
    requires 0 <= l < |saves|
  {
    Exposed(l, rule.groups, rule.layers) ==> CompatibleSaves(rule.demand, Kept(saves[l]))
  }

  ghost predicate Meets(saves: seq<seq<Save>>, rule: Rule) {
    forall l :: 0 <= l < |saves| ==> LayerMeets(saves, rule, l)
  }

  function StepEvents(step: TrainingStep): seq<Event>
    requires |step.orders| == |step.places|
  {
    ForwardPass(step.saves) + BackwardPass(step.orders, step.places)
  }

  // ----- runs compose

  lemma {:induction false} RunAppend(p: Plain, rule: Rule, a: seq<Event>, b: seq<Event>)
    ensures LegalRun(p, rule, a + b) <==> LegalRun(p, rule, a) && LegalRun(PlainRun(p, a).0, rule, b)
    ensures PlainRun(p, a + b).0 == PlainRun(PlainRun(p, a).0, b).0
    decreases |a|
  {
    if a == [] {
      assert a + b == b;
    } else {
      assert (a + b)[0] == a[0] && (a + b)[1..] == a[1..] + b;
      RunAppend(PlainStep(p, a[0]).0, rule, a[1..], b);
    }
  }

  lemma SingleEvent(p: Plain, rule: Rule, ev: Event)
    ensures LegalRun(p, rule, [ev]) <==> Legal(p, rule, ev)
    ensures PlainRun(p, [ev]).0 == PlainStep(p, ev).0
  {
    assert [ev][1..] == [];
  }

  // ----- the forward pass

  /** `saved` is `base` and the tensors of one more layer, tagged in order. */
  ghost predicate Extends(saved: map<Tag, Tensor>, base: map<Tag, Tensor>, layer: nat, kept: seq<Tensor>) {
    && (forall tag :: tag in base ==> tag.group != layer)
    && (forall tag :: tag in saved <==> tag in base || (tag.group == layer && tag.index < |kept|))
    && (forall tag :: tag in base ==> tag in saved && saved[tag] == base[tag])
    && (forall i: nat :: i < |kept| ==> Tag(layer, i) in saved && saved[Tag(layer, i)] == kept[i])
  }

  /** The pushes of a layer are legal exactly when all it keeps meets the demand. */
  lemma {:induction false} PushesLegal(
    p: Plain, base: map<Tag, Tensor>, kept: seq<Tensor>, saves: seq<Save>, rule: Rule)
    requires p.phase == Forward && p.group < rule.layers && p.count == |kept|
    requires Extends(p.saved, base, p.group, kept)
    requires forall save :: save in saves ==> WellFormed(save.t)
    requires Exposed(p.group, rule.groups, rule.layers) ==> CompatibleSaves(rule.demand, kept)
    ensures LegalRun(p, rule, Pushes(saves)) <==>
              (Exposed(p.group, rule.groups, rule.layers) ==> CompatibleSaves(rule.demand, kept + Kept(saves)))
    ensures var p' := PlainRun(p, Pushes(saves)).0;
            Extends(p'.saved, base, p.group, kept + Kept(saves)) && p' == p.(count := p'.count, saved := p'.saved)
    decreases |saves|
  {
    if saves == [] {
      assert kept + Kept(saves) == kept;
    } else {
      var save, rest := saves[0], saves[1..];
      var ev := PushEvent(save.t, save.stray, save.wanted);
      assert save in saves;
      assert Pushes(saves)[0] == ev && Pushes(saves)[1..] == Pushes(rest);
      KeptStep(kept, saves);
      if !save.stray && save.wanted {
        PushLegal(p, base, kept, save.t, rule);
        if Legal(p, rule, ev) {
          PushesLegal(PlainStep(p, ev).0, base, kept + [save.t], rest, rule);
        } else {
          PushesLegal(PlainStep(p, ev).0, base, kept + [save.t], rest, Ordered(rule.groups, rule.layers));
          CompatiblePrefix(rule.demand, kept + [save.t], Kept(rest));
        }
      } else {
        PushesLegal(p, base, kept, rest, rule);
      }
    }
  }

  lemma KeptStep(kept: seq<Tensor>, saves: seq<Save>)
    requires saves != []
    ensures kept + Kept(saves) ==
            (if !saves[0].stray && saves[0].wanted then kept + [saves[0].t] else kept) + Kept(saves[1..])
  {
  }

  lemma CompatiblePrefix(demand: Demand, kept: seq<Tensor>, more: seq<Tensor>)
    ensures CompatibleSaves(demand, kept + more) ==> CompatibleSaves(demand, kept)
  {
  }

  lemma PushLegal(p: Plain, base: map<Tag, Tensor>, kept: seq<Tensor>, t: Tensor, rule: Rule)
    requires p.phase == Forward && p.group < rule.layers && p.count == |kept|
    requires Extends(p.saved, base, p.group, kept) && WellFormed(t)
    requires Exposed(p.group, rule.groups, rule.layers) ==> CompatibleSaves(rule.demand, kept)
    ensures Legal(p, rule, PushEvent(t, false, true)) <==>
              (Exposed(p.group, rule.groups, rule.layers) ==> CompatibleSaves(rule.demand, kept + [t]))
    ensures Extends(PlainPush(p, t, false, true).0.saved, base, p.group, kept + [t])
  {
    if Exposed(p.group, rule.groups, rule.layers) {
      NewcomerCompatible(rule.demand, kept, t);
      if CompatibleSaves(rule.demand, kept + [t]) {
        forall tag | tag in p.saved && tag.group == p.group
          ensures Compatible(rule.demand, p.saved[tag], t)
        {
          assert tag == Tag(p.group, tag.index) && p.saved[tag] == kept[tag.index];
        }
      } else {
        var i :| 0 <= i < |kept| && !Compatible(rule.demand, kept[i], t);
        assert p.saved[Tag(p.group, i)] == kept[i];
      }
    }
  }

  lemma NewcomerCompatible(demand: Demand, kept: seq<Tensor>, t: Tensor)
    requires CompatibleSaves(demand, kept)
    ensures CompatibleSaves(demand, kept + [t]) <==> forall i :: 0 <= i < |kept| ==> Compatible(demand, kept[i], t)
  {
    if CompatibleSaves(demand, kept + [t]) {
      forall i | 0 <= i < |kept|
        ensures Compatible(demand, kept[i], t)
      {
        assert kept[i] in kept + [t] && t in kept + [t];
      }
    }
  }

  /** `saved` holds exactly what the first layers kept. */
  ghost predicate HoldsLayers(saved: map<Tag, Tensor>, saves: seq<seq<Save>>) {
    && (forall tag :: tag in saved <==> 0 <= tag.group < |saves| && tag.index < |Kept(saves[tag.group])|)
    && (forall tag :: tag in saved ==> saved[tag] == Kept(saves[tag.group])[tag.index])
  }

  lemma HoldsExtends(saved: map<Tag, Tensor>, base: map<Tag, Tensor>, saves: seq<seq<Save>>)
    requires saves != []
    requires HoldsLayers(base, saves[..|saves| - 1])
    requires Extends(saved, base, |saves| - 1, Kept(saves[|saves| - 1]))
    ensures HoldsLayers(saved, saves)
  {
    var l := |saves| - 1;
    forall tag | tag in saved
      ensures saved[tag] == Kept(saves[tag.group])[tag.index]
    {
      if tag.group == l { assert tag == Tag(l, tag.index); }
    }
  }

  /** One layer: its pushes and the commit. */
  lemma LayerLegal(p: Plain, saves: seq<Save>, rule: Rule)
    requires p.phase == Forward && p.group < rule.layers && p.count == 0 && Extends(p.saved, p.saved, p.group, [])
    requires forall save :: save in saves ==> WellFormed(save.t)
    ensures LegalRun(p, rule, Pushes(saves) + [ForwardEvent]) <==>
              (Exposed(p.group, rule.groups, rule.layers) ==> CompatibleSaves(rule.demand, Kept(saves)))
    ensures var p' := PlainRun(p, Pushes(saves) + [ForwardEvent]).0;
            Extends(p'.saved, p.saved, p.group, Kept(saves)) && p' == Plain(Forward, p.group + 1, 0, p'.saved, p.rounds)
  {
    assert [] + Kept(saves) == Kept(saves);
    PushesLegal(p, p.saved, [], saves, rule);
    SingleEvent(PlainRun(p, Pushes(saves)).0, rule, ForwardEvent);
    RunAppend(p, rule, Pushes(saves), [ForwardEvent]);
  }

  lemma ForwardLast(p: Plain, p1: Plain, saves: seq<seq<Save>>, rule: Rule)
    requires saves != [] && |saves| <= rule.layers
    requires forall save :: save in saves[|saves| - 1] ==> WellFormed(save.t)
    requires p1 == PlainRun(p, ForwardPass(saves[..|saves| - 1])).0 ==
              Plain(Forward, |saves| - 1, 0, p1.saved, p.rounds)
    requires HoldsLayers(p1.saved, saves[..|saves| - 1])
    ensures LegalRun(p, rule, ForwardPass(saves)) <==>
              LegalRun(p, rule, ForwardPass(saves[..|saves| - 1])) && LayerMeets(saves, rule, |saves| - 1)
    ensures var p' := PlainRun(p, ForwardPass(saves)).0;
            HoldsLayers(p'.saved, saves) && p' == Plain(Forward, |saves|, 0, p'.saved, p.rounds)
  {
    var l := |saves| - 1;
    var layer := Pushes(saves[l]) + [ForwardEvent];
    LayerLegal(p1, saves[l], rule);
    assert ForwardPass(saves) == ForwardPass(saves[..l]) + layer;
    HoldsExtends(PlainRun(p1, layer).0.saved, p1.saved, saves);
    RunAppend(p, rule, ForwardPass(saves[..l]), layer);
  }

  lemma {:induction false} ForwardLegal(p: Plain, saves: seq<seq<Save>>, rule: Rule)
    requires p == START.(rounds := p.rounds) && |saves| <= rule.layers
    requires forall l :: 0 <= l < |saves| ==> forall save :: save in saves[l] ==> WellFormed(save.t)
    ensures LegalRun(p, rule, ForwardPass(saves)) <==> Meets(saves, rule)
    ensures var p' := PlainRun(p, ForwardPass(saves)).0;
            HoldsLayers(p'.saved, saves) && p' == Plain(Forward, |saves|, 0, p'.saved, p.rounds)
    decreases |saves|
  {
    if saves == [] {
    } else {
      var l := |saves| - 1;
      ForwardLegal(p, saves[..l], rule);
      ForwardLast(p, PlainRun(p, ForwardPass(saves[..l])).0, saves, rule);
      MeetsLast(saves, rule);
    }
  }

  lemma MeetsLast(saves: seq<seq<Save>>, rule: Rule)
    requires saves != []
    ensures Meets(saves, rule) <==> Meets(saves[..|saves| - 1], rule) && LayerMeets(saves, rule, |saves| - 1)
  {
    var n := |saves| - 1;
    forall l | 0 <= l < n
      ensures LayerMeets(saves[..n], rule, l) <==> LayerMeets(saves, rule, l)
    {
    }
  }

  // ----- the backward pass

  function RemoveTags(saved: map<Tag, Tensor>, layer: nat, order: seq<nat>): map<Tag, Tensor> {
    map tag | tag in saved && !(tag.group == layer && tag.index in order) :: saved[tag]
  }

  lemma RemoveTagsStep(saved: map<Tag, Tensor>, layer: nat, order: seq<nat>)
    requires order != []
    ensures RemoveTags(saved - {Tag(layer, order[0])}, layer, order[1..]) == RemoveTags(saved, layer, order)
  {
    assert order == [order[0]] + order[1..];
  }

  lemma {:induction false} PopsLegal(p: Plain, order: seq<nat>, rule: Rule)
    requires order != [] && p.phase == Backward
    requires forall i :: i in order ==> Tag(p.group, i) in p.saved
    requires forall i, j :: 0 <= i < j < |order| ==> order[i] != order[j]
    ensures LegalRun(p, rule, Pops(p.group, order))
    ensures PlainRun(p, Pops(p.group, order)).0 == Settle(p.(saved := RemoveTags(p.saved, p.group, order)))
    decreases |order|
  {
    var tag, rest := Tag(p.group, order[0]), order[1..];
    var popped := p.(saved := p.saved - {tag});
    assert order[0] in order;
    RemoveTagsStep(p.saved, p.group, order);
    if rest == [] {
      assert Pops(p.group, order) == [PopEvent(Saved(tag))];
      assert RemoveTags(popped.saved, p.group, rest) == popped.saved;
      SingleEvent(p, rule, PopEvent(Saved(tag)));
    } else {
      assert rest[0] in rest;
      forall i | i in rest
        ensures Tag(p.group, i) in popped.saved
      {
        assert i in order && i != order[0];
      }
      PopsLegal(popped, rest, rule);
      SingleEvent(p, rule, PopEvent(Saved(tag)));
      RunAppend(p, rule, [PopEvent(Saved(tag))], Pops(p.group, rest));
    }
  }

  /** Popping all of the last layer leaves what the layers before it kept. */
  lemma PoppedLayer(saved: map<Tag, Tensor>, saves: seq<seq<Save>>, order: seq<nat>)
    requires saves != [] && HoldsLayers(saved, saves)
    requires Permutes(order, |Kept(saves[|saves| - 1])|)
    ensures HoldsLayers(RemoveTags(saved, |saves| - 1, order), saves[..|saves| - 1])
    ensures order == [] ==> RemoveTags(saved, |saves| - 1, order) == saved
    ensures |saves| == 1 ==> RemoveTags(saved, 0, order) == map[]
    ensures forall i :: i in order ==> Tag(|saves| - 1, i) in saved
  {
  }

  /** Where the backward pass stands when `l` layers are still to go. */
  ghost predicate BackwardAt(p: Plain, l: nat, layers: nat, rounds: nat) {
    && p.group == l && p.count == 0 && l <= layers
    && (if l == 0 then p == START.(rounds := rounds + 1)
        else p.rounds == rounds && (p.phase == Forward <==> l == layers))
  }

  lemma LayerPopsLegal(p: Plain, saves: seq<seq<Save>>, order: seq<nat>, rule: Rule, rounds: nat)
    requires 0 < |saves| <= rule.layers && HoldsLayers(p.saved, saves)
    requires p == Settle(Plain(Backward, |saves| - 1, 0, p.saved, rounds))
    requires Permutes(order, |Kept(saves[|saves| - 1])|)
    ensures var events := Pops(|saves| - 1, order);
            && LegalRun(p, rule, events)
            && BackwardAt(PlainRun(p, events).0, |saves| - 1, rule.layers, rounds)
            && HoldsLayers(PlainRun(p, events).0.saved, saves[..|saves| - 1])
  {
    PoppedLayer(p.saved, saves, order);
    if order != [] {
      assert order[0] in order;
      PopsLegal(p, order, rule);
    }
  }

  lemma LayerBackwardLegal(p: Plain, saves: seq<seq<Save>>, order: seq<nat>, place: Key -> int, rule: Rule,
                           rounds: nat)
    requires 0 < |saves| <= rule.layers && BackwardAt(p, |saves|, rule.layers, rounds) && HoldsLayers(p.saved, saves)
    requires Permutes(order, |Kept(saves[|saves| - 1])|)
    ensures var events := [BackwardEvent(place)] + Pops(|saves| - 1, order);
            && LegalRun(p, rule, events)
            && BackwardAt(PlainRun(p, events).0, |saves| - 1, rule.layers, rounds)
            && HoldsLayers(PlainRun(p, events).0.saved, saves[..|saves| - 1])
  {
    SingleEvent(p, rule, BackwardEvent(place));
    LayerPopsLegal(PlainStep(p, BackwardEvent(place)).0, saves, order, rule, rounds);
    RunAppend(p, rule, [BackwardEvent(place)], Pops(|saves| - 1, order));
  }

  lemma {:induction false} BackwardLegal(
    p: Plain, saves: seq<seq<Save>>, orders: seq<seq<nat>>, places: seq<Key -> int>,
                                         rule: Rule, rounds: nat)
    requires |saves| == |orders| == |places| <= rule.layers
    requires BackwardAt(p, |saves|, rule.layers, rounds) && HoldsLayers(p.saved, saves)
    requires forall l :: 0 <= l < |saves| ==> Permutes(orders[l], |Kept(saves[l])|)
    ensures LegalRun(p, rule, BackwardPass(orders, places))
    ensures PlainRun(p, BackwardPass(orders, places)).0 == START.(rounds := rounds + 1)
    decreases |saves|
  {
    if saves == [] {
    } else {
      var l := |saves| - 1;
      var events := [BackwardEvent(places[l])] + Pops(l, orders[l]);
      LayerBackwardLegal(p, saves, orders[l], places[l], rule, rounds);
      BackwardLegal(PlainRun(p, events).0, saves[..l], orders[..l], places[..l], rule, rounds);
      RunAppend(p, rule, events, BackwardPass(orders[..l], places[..l]));
    }
  }

  // ----- training runs

  /** A step is a legal run exactly when what every layer saves meets the demand. */
  lemma StepLegal(p: Plain, step: TrainingStep, rule: Rule)
    requires 0 < rule.layers && p == START.(rounds := p.rounds) && ValidStep(step, rule.layers)
    ensures LegalRun(p, rule, StepEvents(step)) <==> Meets(step.saves, rule)
    ensures PlainRun(p, StepEvents(step)).0 == START.(rounds := p.rounds + 1)
  {
    ForwardLegal(p, step.saves, rule);
    BackwardLegal(PlainRun(p, ForwardPass(step.saves)).0, step.saves, step.orders, step.places, rule, p.rounds);
    RunAppend(p, rule, ForwardPass(step.saves), BackwardPass(step.orders, step.places));
  }

  ghost predicate ValidSteps(steps: seq<TrainingStep>, layers: nat) {
    forall i :: 0 <= i < |steps| ==> ValidStep(steps[i], layers)
  }

  ghost predicate AllMeet(steps: seq<TrainingStep>, rule: Rule) {
    forall i :: 0 <= i < |steps| ==> Meets(steps[i].saves, rule)
  }

  function TrainingEvents(steps: seq<TrainingStep>): seq<Event>
    requires forall i :: 0 <= i < |steps| ==> |steps[i].orders| == |steps[i].places|
  {
    if steps == [] then []
    else TrainingEvents(steps[..|steps| - 1]) + StepEvents(steps[|steps| - 1])
  }

  lemma {:induction false} TrainingLegal(steps: seq<TrainingStep>, rule: Rule)
    requires 0 < rule.layers && ValidSteps(steps, rule.layers)
    ensures LegalRun(START, rule, TrainingEvents(steps)) <==> AllMeet(steps, rule)
    ensures PlainRun(START, TrainingEvents(steps)).0 == START.(rounds := |steps|)
    decreases |steps|
  {
    if steps == [] {
    } else {
      var init, last := steps[..|steps| - 1], steps[|steps| - 1];
      TrainingLegal(init, rule);
      StepLegal(START.(rounds := |init|), last, rule);
      RunAppend(START, rule, TrainingEvents(init), StepEvents(last));
      assert steps == init + [last];
    }
  }

  lemma OrderMet(steps: seq<TrainingStep>, groups: nat, layers: nat)
    ensures AllMeet(steps, Ordered(groups, layers))
  {
    forall i, l | 0 <= i < |steps| && 0 <= l < |steps[i].saves|
      ensures LayerMeets(steps[i].saves, Ordered(groups, layers), l)
    {
    }
  }

  /**
   Any number of training steps, with any tensors saved by each layer and any order of use within a layer's backward:
   no exception, the dictionary's answers, the initial state at the end, and one round trip a group a step.
   */
  lemma TrainingRun(steps: seq<TrainingStep>, groups: nat, layers: nat)
    requires 0 < groups <= layers && ValidSteps(steps, layers) && AllMeet(steps, Rule(groups, layers, Contents))
    ensures Run(Init(groups, layers), TrainingEvents(steps)).Some?
    ensures var (s, outs) := Run(Init(groups, layers), TrainingEvents(steps)).value;
      && SameOutputs(outs, PlainRun(START, TrainingEvents(steps)).1)
      && s == Init(groups, layers).(log := s.log)
      && forall g :: Count(s.log, ToHost(g)) == Count(s.log, ToDevice(g)) == if 0 <= g < groups then |steps| else 0
  {
    var events := TrainingEvents(steps);
    TrainingLegal(steps, Rule(groups, layers, Contents));
    LegalRunOrdered(START, Rule(groups, layers, Contents), events);
    HandlerIsDictionary(groups, layers, events);
    StepRestoresInit(groups, layers, events);
    forall g
      ensures var log := Run(Init(groups, layers), events).value.0.log;
              Count(log, ToHost(g)) == Count(log, ToDevice(g)) == if 0 <= g < groups then |steps| else 0
    {
      EachGroupOnceAStep(groups, layers, events, g);
    }
  }

  // ----- storage keys

  /** Every layer whose group leaves the device saves, under one key, only views that meet the demand. */
  lemma TrainingExact(steps: seq<TrainingStep>, rule: Rule)
    requires 0 < rule.groups <= rule.layers && ValidSteps(steps, rule.layers) && rule.demand != OrderOnly
    ensures Succeeds(rule.demand, Init(rule.groups, rule.layers), START, TrainingEvents(steps)) <==>
              AllMeet(steps, rule)
  {
    OrderMet(steps, rule.groups, rule.layers);
    TrainingLegal(steps, Ordered(rule.groups, rule.layers));
    TrainingLegal(steps, rule);
    HandlerExact(rule, TrainingEvents(steps));
  }

  /**
   One host copy a storage key is right exactly when all views under a key flatten to the same data: on every training
   run, and for the layers whose groups leave the device.
   */
  lemma RoundTripExact(steps: seq<TrainingStep>, groups: nat, layers: nat)
    requires 0 < groups <= layers && ValidSteps(steps, layers)
    ensures (Run(Init(groups, layers), TrainingEvents(steps)).Some? &&
             SameOutputs(Run(Init(groups, layers), TrainingEvents(steps)).value.1,
                 PlainRun(START, TrainingEvents(steps)).1))
            <==> forall i, l :: 0 <= i < |steps| && 0 <= l < layers && Exposed(l, groups, layers) ==>
                   CompatibleSaves(Contents, Kept(steps[i].saves[l]))
  {
    TrainingExact(steps, Rule(groups, layers, Contents));
    MeetsExposed(steps, Rule(groups, layers, Contents));
  }

  /** And a training run raises an exception exactly when two of them differ in their number of elements. */
  lemma RaisesExactly(steps: seq<TrainingStep>, groups: nat, layers: nat)
    requires 0 < groups <= layers && ValidSteps(steps, layers)
    ensures Run(Init(groups, layers), TrainingEvents(steps)).Some?
            <==> forall i, l :: 0 <= i < |steps| && 0 <= l < layers && Exposed(l, groups, layers) ==>
                   CompatibleSaves(Sizes, Kept(steps[i].saves[l]))
  {
    TrainingExact(steps, Rule(groups, layers, Sizes));
    MeetsExposed(steps, Rule(groups, layers, Sizes));
  }

  lemma MeetsExposed(steps: seq<TrainingStep>, rule: Rule)
    requires ValidSteps(steps, rule.layers)
    ensures AllMeet(steps, rule) <==>
              forall i, l :: 0 <= i < |steps| && 0 <= l < rule.layers && Exposed(l, rule.groups, rule.layers) ==>
                CompatibleSaves(rule.demand, Kept(steps[i].saves[l]))
  {
    if AllMeet(steps, rule) {
      forall i, l | 0 <= i < |steps| && 0 <= l < rule.layers && Exposed(l, rule.groups, rule.layers)
        ensures CompatibleSaves(rule.demand, Kept(steps[i].saves[l]))
      {
        assert ValidStep(steps[i], rule.layers) && Meets(steps[i].saves, rule) && LayerMeets(steps[i].saves, rule, l);
      }
    }
  }

  const MATRIX := Tensor([1.0, 2.0, 3.0, 4.0], [2, 2], 0, 0, 0)
  const TRANSPOSED := Tensor([1.0, 3.0, 2.0, 4.0], [2, 2], 0, 0, 0)

  /** A step whose first layer saves the matrix and its transpose, and whose other layers save nothing. */
  function TransposeStep(layers: nat, place: Key -> int): TrainingStep {
    TrainingStep(seq(layers, l => if l == 0 then [Save(MATRIX, false, true), Save(TRANSPOSED, false, true)] else []),
                 seq(layers, l => if l == 0 then [0, 1] else []),
                 seq(layers, _ => place))
  }

  /** A matrix and its transpose are such views: nothing is raised, and one of them comes back wrong. */
  lemma TransposeIsLost(groups: nat, layers: nat, place: Key -> int)
    requires 0 < groups <= layers
    ensures var steps := [TransposeStep(layers, place)];
      && ValidSteps(steps, layers) && Run(Init(groups, layers), TrainingEvents(steps)).Some?
      && !SameOutputs(Run(Init(groups, layers), TrainingEvents(steps)).value.1,
          PlainRun(START, TrainingEvents(steps)).1)
  {
    TransposeValid(layers, place);
    TransposeSizes(groups, layers, place);
    TransposeContents(groups, layers, place);
    TrainingExact([TransposeStep(layers, place)], Rule(groups, layers, Sizes));
    TrainingExact([TransposeStep(layers, place)], Rule(groups, layers, Contents));
  }

  /** Equally many elements. */
  lemma TransposeSizes(groups: nat, layers: nat, place: Key -> int)
    requires 0 < groups <= layers
    ensures AllMeet([TransposeStep(layers, place)], Rule(groups, layers, Sizes))
  {
    var step := TransposeStep(layers, place);
    TransposeKept(layers, place);
    forall l | 0 <= l < layers
      ensures LayerMeets(step.saves, Rule(groups, layers, Sizes), l)
    {
    }
    assert [step][0] == step;
  }

  /** But not the same data. */
  lemma TransposeContents(groups: nat, layers: nat, place: Key -> int)
    requires 0 < groups <= layers
    ensures !AllMeet([TransposeStep(layers, place)], Rule(groups, layers, Contents))
  {
    var step := TransposeStep(layers, place);
    TransposeKept(layers, place);
    assert MATRIX.data[1] == 2.0 && TRANSPOSED.data[1] == 3.0;
    assert !Compatible(Contents, MATRIX, TRANSPOSED);
    assert MATRIX in [MATRIX, TRANSPOSED] && TRANSPOSED in [MATRIX, TRANSPOSED];
    assert !LayerMeets(step.saves, Rule(groups, layers, Contents), 0);
    assert [step][0] == step;
  }

  lemma TransposeKept(layers: nat, place: Key -> int)
    ensures var step := TransposeStep(layers, place);
      && (layers > 0 ==> Kept(step.saves[0]) == [MATRIX, TRANSPOSED])
      && forall l :: 1 <= l < layers ==> Kept(step.saves[l]) == []
  {
    var saves := [Save(MATRIX, false, true), Save(TRANSPOSED, false, true)];
    assert saves[1..] == [Save(TRANSPOSED, false, true)] && saves[1..][1..] == [];
    assert Kept(saves[1..]) == [TRANSPOSED];
    assert Kept(saves) == [MATRIX, TRANSPOSED];
  }

  lemma PermutesPair(pair: seq<nat>)
    requires pair == [0, 1]
    ensures Permutes(pair, 2)
  {
    assert pair[0] == 0 && pair[1] == 1;
  }

  lemma TransposeValid(layers: nat, place: Key -> int)
    ensures ValidSteps([TransposeStep(layers, place)], layers)
  {
    TransposeKept(layers, place);
    assert Numel([2, 2]) == 4 by {
      assert [2, 2][1..] == [2] && [2][1..] == [];
    }
    assert WellFormed(MATRIX) && WellFormed(TRANSPOSED);
    var empty: seq<nat> := [];
    assert Permutes(empty, 0);
    var pair: seq<nat> := [0, 1];
    PermutesPair(pair);
    var step := TransposeStep(layers, place);
    forall l | 0 <= l < layers
      ensures Permutes(step.orders[l], |Kept(step.saves[l])|)
    {
      assert step.orders[l] == if l == 0 then pair else empty;
    }
  }

  /** Views into disjoint storages never share a key, so only views of one storage can clash. */
  lemma DisjointStoragesHaveDistinctKeys(t: Tensor, u: Tensor, tBytes: nat, uBytes: nat, tItem: nat, uItem: nat)
    requires tItem >= 1 && uItem >= 1
    requires 0 <= t.offset && t.offset * tItem < tBytes
    requires 0 <= u.offset && u.offset * uItem < uBytes
    requires t.base + tBytes <= u.base || u.base + uBytes <= t.base
    ensures UniqueKey(t) != UniqueKey(u)
  {
    assert t.offset * (tItem - 1) >= 0 && u.offset * (uItem - 1) >= 0;
  }

  /** Nor do views of one storage that begin at different elements, or have different element types. */
  lemma OneStorageDistinctKeys(t: Tensor, u: Tensor)
    requires t.base == u.base
    ensures UniqueKey(t) == UniqueKey(u) <==> t.offset == u.offset && t.dtype == u.dtype
  {
  }

  /** Tensors that pairwise differ in where they begin or in their element type. */
  ghost predicate DistinctViews(kept: seq<Tensor>) {
    forall i, j :: 0 <= i < j < |kept| ==>
      kept[i].base + kept[i].offset != kept[j].base + kept[j].offset || kept[i].dtype != kept[j].dtype
  }

  /** Training steps whose layers save such tensors lose nothing, whatever the storages they are views of. */
  lemma DistinctViewsReturn(steps: seq<TrainingStep>, groups: nat, layers: nat)
    requires 0 < groups <= layers && ValidSteps(steps, layers)
    requires forall i, l :: 0 <= i < |steps| && 0 <= l < layers ==> DistinctViews(Kept(steps[i].saves[l]))
    ensures Run(Init(groups, layers), TrainingEvents(steps)).Some?
    ensures SameOutputs(Run(Init(groups, layers), TrainingEvents(steps)).value.1,
                        PlainRun(START, TrainingEvents(steps)).1)
  {
    forall i, l | 0 <= i < |steps| && 0 <= l < layers
      ensures CompatibleSaves(Contents, Kept(steps[i].saves[l]))
    {
      DistinctCompatible(Kept(steps[i].saves[l]));
    }
    RoundTripExact(steps, groups, layers);
  }

  lemma DistinctCompatible(kept: seq<Tensor>)
    requires DistinctViews(kept)
    ensures CompatibleSaves(Contents, kept)
  {
    forall t, u | t in kept && u in kept && SamePlace(t, u)
      ensures t == u
    {
      var i :| 0 <= i < |kept| && kept[i] == t;
      var j :| 0 <= j < |kept| && kept[j] == u;
    }
  }
}
