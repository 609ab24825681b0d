/** What holds of the offload handler over whole training runs. */
module OffloadRuns {
  import opened Common
  import opened WindowSchedule
  import opened OffloadState
  import opened OffloadRefinement

  // ----- one step

  /** A step keeps the simulation of the lossy dictionary; only a reload can fail, and only where sizes differ. */
  lemma SimStep(s: State, p: Plain, rule: Rule, ev: Event)
    requires Sim(s, p) && rule.layers == s.layers && Legal(p, rule, ev)
    ensures AllWellFormed(p.saved) || ev.PushEvent? ==> Step(s, ev).Some?
    ensures Step(s, ev).Some? ==>
              var (q, out) := LossyStep(p, s.groups, s.layers, ev);
              Sim(Step(s, ev).value.0, q) && SameOutput(Step(s, ev).value.1, out)
    ensures ev.PopEvent? && ev.handle.Saved? ==> WellFormed(p.saved[ev.handle.tag])
  {
    match ev
    case PushEvent(t, stray, wanted) => SimPush(s, p, rule, t, stray, wanted);
    case ForwardEvent => SimForward(s, p, rule);
    case BackwardEvent(place) => SimBackward(s, p, rule, place);
    case PopEvent(Direct(_)) =>
    case PopEvent(Saved(tag)) => SimPop(s, p, rule, tag);
  }

  lemma StepKeepsSizes(s: State, ev: Event)
    requires Step(s, ev).Some?
    ensures Step(s, ev).value.0.groups == s.groups && Step(s, ev).value.0.layers == s.layers
  {
  }

  lemma {:induction false} RunKeepsSizes(s: State, events: seq<Event>)
    requires Run(s, events).Some?
    ensures Run(s, events).value.0.groups == s.groups && Run(s, events).value.0.layers == s.layers
    decreases |events|
  {
    if events == [] {
    } else {
      StepKeepsSizes(s, events[0]);
      RunKeepsSizes(Step(s, events[0]).value.0, events[1..]);
    }
  }

  // ----- the lossy dictionary beside the plain one

  /** The same tags, and the same views but for their data. */
  ghost predicate Mirrors(p: Plain, q: Plain) {
    && q == p.(saved := q.saved) && q.saved.Keys == p.saved.Keys
    && forall tag :: tag in p.saved ==> SameView(q.saved[tag], p.saved[tag])
  }

  function Ordered(groups: nat, layers: nat): Rule {
    Rule(groups, layers, OrderOnly)
  }

  lemma LegalOrdered(p: Plain, rule: Rule, ev: Event)
    requires Legal(p, rule, ev)
    ensures Legal(p, Ordered(rule.groups, rule.layers), ev)
  {
  }

  lemma {:induction false} LegalRunOrdered(p: Plain, rule: Rule, events: seq<Event>)
    requires LegalRun(p, rule, events)
    ensures LegalRun(p, Ordered(rule.groups, rule.layers), events)
    decreases |events|
  {
    if events == [] {
    } else {
      LegalOrdered(p, rule, events[0]);
      LegalRunOrdered(PlainStep(p, events[0]).0, rule, events[1..]);
    }
  }

  lemma MirrorStep(p: Plain, q: Plain, groups: nat, layers: nat, ev: Event)
    requires Mirrors(p, q) && SimSaved(p, layers) && Legal(p, Ordered(groups, layers), ev)
    ensures Legal(q, Ordered(groups, layers), ev)
    ensures Mirrors(PlainStep(p, ev).0, LossyStep(q, groups, layers, ev).0)
  {
  }

  ghost function LossyRun(p: Plain, groups: nat, layers: nat, events: seq<Event>): Plain
    decreases |events|
  {
    if events == [] then p else LossyRun(LossyStep(p, groups, layers, events[0]).0, groups, layers, events[1..])
  }

  /** Wherever an ordered run gets to, the handler stands for the lossy dictionary. */
  lemma {:induction false} SimLossyRun(s: State, p: Plain, q: Plain, events: seq<Event>)
    requires Sim(s, q) && Mirrors(p, q) && SimSaved(p, s.layers)
    requires LegalRun(p, Ordered(s.groups, s.layers), events) && Run(s, events).Some?
    ensures var (s', p', q') := (Run(s, events).value.0, PlainRun(p, events).0,
              LossyRun(q, s.groups, s.layers, events));
            Sim(s', q') && Mirrors(p', q') && s'.groups == s.groups && s'.layers == s.layers
    decreases |events|
  {
    if events == [] {
    } else {
      var ev := events[0];
      MirrorStep(p, q, s.groups, s.layers, ev);
      PlainKeepsSaved(p, Ordered(s.groups, s.layers), ev);
      SimStep(s, q, Ordered(s.groups, s.layers), ev);
      StepKeepsSizes(s, ev);
      SimLossyRun(Step(s, ev).value.0, PlainStep(p, ev).0, LossyStep(q, s.groups, s.layers, ev).0, events[1..]);
    }
  }

  lemma Reached(groups: nat, layers: nat, events: seq<Event>)
    requires 0 < groups <= layers && LegalRun(START, Ordered(groups, layers), events)
    requires Run(Init(groups, layers), events).Some?
    ensures var (s, p, q) := (Run(Init(groups, layers), events).value.0, PlainRun(START, events).0,
                              LossyRun(START, groups, layers, events));
            Sim(s, q) && Mirrors(p, q) && s.groups == groups && s.layers == layers
  {
    SimStart(groups, layers);
    SimLossyRun(Init(groups, layers), START, START, events);
  }

  // ----- when nothing is lost

  ghost predicate AllCompatible(saved: map<Tag, Tensor>, rule: Rule) {
    forall a, b {:trigger Compatible(rule.demand, saved[a], saved[b])} ::
      a in saved && b in saved && a.group == b.group && Exposed(a.group, rule.groups, rule.layers) ==>
        Compatible(rule.demand, saved[a], saved[b])
  }

  /** What the handler has in place of `t` is as good as the rule demands. */
  predicate GoodEnough(demand: Demand, t: Tensor, seen: Tensor) {
    match demand
    case OrderOnly => true
    case Sizes => |t.data| == |seen.data|
    case Contents => t.data == seen.data
  }

  ghost predicate Agrees(demand: Demand, p: Plain, q: Plain)
    requires Mirrors(p, q)
  {
    forall tag :: tag in p.saved ==> GoodEnough(demand, p.saved[tag], q.saved[tag])
  }

  lemma AgreeStep(p: Plain, q: Plain, rule: Rule, ev: Event)
    requires Mirrors(p, q) && Agrees(rule.demand, p, q) && SimSaved(p, rule.layers) && Legal(p, rule, ev)
    ensures Mirrors(PlainStep(p, ev).0, LossyStep(q, rule.groups, rule.layers, ev).0)
    ensures Agrees(rule.demand, PlainStep(p, ev).0, LossyStep(q, rule.groups, rule.layers, ev).0)
  {
    LegalOrdered(p, rule, ev);
    MirrorStep(p, q, rule.groups, rule.layers, ev);
  }

  lemma CompatibleStep(p: Plain, rule: Rule, ev: Event)
    requires AllCompatible(p.saved, rule) && SimSaved(p, rule.layers) && Legal(p, rule, ev)
    ensures AllCompatible(PlainStep(p, ev).0.saved, rule)
  {
    var saved := PlainStep(p, ev).0.saved;
    forall a, b | a in saved && b in saved && a.group == b.group && Exposed(a.group, rule.groups, rule.layers)
      ensures Compatible(rule.demand, saved[a], saved[b])
    {
      assert a in p.saved && b in p.saved ==> Compatible(rule.demand, p.saved[a], p.saved[b]);
    }
  }

  lemma WellFormedStep(p: Plain, rule: Rule, ev: Event)
    requires AllWellFormed(p.saved) && Legal(p, rule, ev)
    ensures AllWellFormed(PlainStep(p, ev).0.saved)
  {
  }

  /** The first push that breaks the rule leaves a tensor that is not good enough. */
  lemma ClashStep(p: Plain, q: Plain, rule: Rule, ev: Event)
    requires Mirrors(p, q) && Agrees(rule.demand, p, q) && AllCompatible(p.saved, rule) && SimSaved(p, rule.layers)
    requires Legal(p, Ordered(rule.groups, rule.layers), ev) && !Legal(p, rule, ev)
    ensures ev.PushEvent?
    ensures var (p', q', tag) :=
              (PlainStep(p, ev).0, LossyStep(q, rule.groups, rule.layers, ev).0, Tag(p.group, p.count));
            tag in p'.saved && tag in q'.saved && !GoodEnough(rule.demand, p'.saved[tag], q'.saved[tag])
  {
    var t := ev.t;
    var other :| other in p.saved && other.group == p.group && !Compatible(rule.demand, p.saved[other], t);
    assert SameView(q.saved[other], p.saved[other]);
    assert SamePlace(q.saved[other], t);
    var seen := Seen(q.saved, q.group, t);
    var tag :| tag in q.saved && tag.group == q.group && SamePlace(q.saved[tag], t)
               && seen == t.(data := q.saved[tag].data);
    assert SameView(q.saved[tag], p.saved[tag]);
    assert Compatible(rule.demand, p.saved[tag], p.saved[other]);
    assert GoodEnough(rule.demand, p.saved[tag], q.saved[tag]);
  }

  /** What a run must come to: no exception, and with contents demanded, the dictionary's answers. */
  ghost predicate Succeeds(demand: Demand, s: State, p: Plain, events: seq<Event>) {
    match demand
    case OrderOnly => true
    case Sizes => Run(s, events).Some?
    case Contents => Run(s, events).Some? && SameOutputs(Run(s, events).value.1, PlainRun(p, events).1)
  }

  /** Splitting off the first event of a run. */
  lemma SucceedsStep(demand: Demand, s: State, p: Plain, events: seq<Event>)
    requires events != [] && demand != OrderOnly
    ensures Succeeds(demand, s, p, events) <==>
              Step(s, events[0]).Some? && (demand == Contents ==>
                  SameOutput(Step(s, events[0]).value.1, PlainStep(p, events[0]).1))
              && Succeeds(demand, Step(s, events[0]).value.0, PlainStep(p, events[0]).0, events[1..])
  {
    if Step(s, events[0]).Some? && Run(Step(s, events[0]).value.0, events[1..]).Some? {
      var (outs, rest) := (Run(s, events).value.1, Run(Step(s, events[0]).value.0, events[1..]).value.1);
      var (plain, plainRest) := (PlainRun(p, events).1, PlainRun(PlainStep(p, events[0]).0, events[1..]).1);
      assert outs == [Step(s, events[0]).value.1] + rest && plain == [PlainStep(p, events[0]).1] + plainRest;
      SameOutputsCons(Step(s, events[0]).value.1, rest, PlainStep(p, events[0]).1, plainRest);
    }
  }

  lemma SameOutputsCons(a: Output, as': seq<Output>, b: Output, bs: seq<Output>)
    ensures SameOutputs([a] + as', [b] + bs) <==> SameOutput(a, b) && SameOutputs(as', bs)
  {
    if SameOutputs([a] + as', [b] + bs) {
      assert ([a] + as')[0] == a && ([b] + bs)[0] == b;
      forall i | 0 <= i < |as'|
        ensures SameOutput(as'[i], bs[i])
      {
        assert SameOutput(([a] + as')[i + 1], ([b] + bs)[i + 1]);
      }
    }
  }

  /** A tensor that is not good enough is noticed when it is popped, if not before. */
  lemma {:induction false} ClashFails(demand: Demand, s: State, p: Plain, q: Plain, events: seq<Event>, tag: Tag)
    requires demand != OrderOnly && Sim(s, q) && Mirrors(p, q) && SimSaved(p, s.layers)
    requires LegalRun(p, Ordered(s.groups, s.layers), events) && PlainRun(p, events).0.saved == map[]
    requires tag in p.saved && WellFormed(p.saved[tag]) && !GoodEnough(demand, p.saved[tag], q.saved[tag])
    ensures !Succeeds(demand, s, p, events)
    decreases |events|
  {
    if events == [] {
    } else {
      var ev := events[0];
      MirrorStep(p, q, s.groups, s.layers, ev);
      PlainKeepsSaved(p, Ordered(s.groups, s.layers), ev);
      SimStep(s, q, Ordered(s.groups, s.layers), ev);
      SucceedsStep(demand, s, p, events);
      assert SameView(q.saved[tag], p.saved[tag]);
      if Step(s, ev).Some? && ev != PopEvent(Saved(tag)) {
        StepKeepsSizes(s, ev);
        StepKeepsTag(p, q, s.groups, s.layers, ev, tag);
        ClashFails(demand, Step(s, ev).value.0, PlainStep(p, ev).0, LossyStep(q, s.groups, s.layers, ev).0,
            events[1..], tag);
      }
    }
  }

  lemma StepKeepsTag(p: Plain, q: Plain, groups: nat, layers: nat, ev: Event, tag: Tag)
    requires Mirrors(p, q) && SimSaved(p, layers) && Legal(p, Ordered(groups, layers), ev)
    requires tag in p.saved && ev != PopEvent(Saved(tag))
    ensures var (p', q') := (PlainStep(p, ev).0, LossyStep(q, groups, layers, ev).0);
            tag in p'.saved && tag in q'.saved && p'.saved[tag] == p.saved[tag] && q'.saved[tag] == q.saved[tag]
  {
    PlainKeepsSaved(p, Ordered(groups, layers), ev);
  }

  /** A run that ends with every tensor popped succeeds exactly when every push meets the demand. */
  lemma {:induction false} RunExact(s: State, p: Plain, q: Plain, rule: Rule, events: seq<Event>)
    requires Sim(s, q) && Mirrors(p, q) && Agrees(rule.demand, p, q) && SimSaved(p, s.layers)
    requires AllCompatible(p.saved, rule) && AllWellFormed(p.saved)
    requires rule == Rule(s.groups, s.layers, rule.demand) && rule.demand != OrderOnly
    requires LegalRun(p, Ordered(s.groups, s.layers), events) && PlainRun(p, events).0.saved == map[]
    ensures Succeeds(rule.demand, s, p, events) <==> LegalRun(p, rule, events)
    decreases |events|
  {
    if events == [] {
    } else {
      var ev := events[0];
      MirrorStep(p, q, s.groups, s.layers, ev);
      PlainKeepsSaved(p, Ordered(s.groups, s.layers), ev);
      SucceedsStep(rule.demand, s, p, events);
      SimStep(s, q, Ordered(s.groups, s.layers), ev);
      WellFormedStep(p, Ordered(s.groups, s.layers), ev);
      if Legal(p, rule, ev) {
        SeenWellFormed(rule.demand, p, q);
        AgreeStep(p, q, rule, ev);
        CompatibleStep(p, rule, ev);
        StepKeepsSizes(s, ev);
        AgreeOutput(p, q, rule, ev);
        RunExact(Step(s, ev).value.0, PlainStep(p, ev).0, LossyStep(q, s.groups, s.layers, ev).0, rule, events[1..]);
      } else {
        ClashStep(p, q, rule, ev);
        StepKeepsSizes(s, ev);
        ClashFails(rule.demand, Step(s, ev).value.0, PlainStep(p, ev).0, LossyStep(q, s.groups, s.layers, ev).0,
            events[1..],
                   Tag(p.group, p.count));
      }
    }
  }

  lemma SeenWellFormed(demand: Demand, p: Plain, q: Plain)
    requires Mirrors(p, q) && Agrees(demand, p, q) && AllWellFormed(p.saved) && demand != OrderOnly
    ensures AllWellFormed(q.saved)
  {
    forall tag | tag in q.saved
      ensures WellFormed(q.saved[tag])
    {
      assert SameView(q.saved[tag], p.saved[tag]) && GoodEnough(demand, p.saved[tag], q.saved[tag]);
    }
  }

  /** Where contents agree, both dictionaries give the same answer. */
  lemma AgreeOutput(p: Plain, q: Plain, rule: Rule, ev: Event)
    requires Mirrors(p, q) && Agrees(rule.demand, p, q) && SimSaved(p, rule.layers) && Legal(p, rule, ev)
    ensures rule.demand == Contents ==> LossyStep(q, rule.groups, rule.layers, ev).1 == PlainStep(p, ev).1
  {
    match ev
    case PopEvent(Saved(tag)) =>
      assert SameView(q.saved[tag], p.saved[tag]) && GoodEnough(rule.demand, p.saved[tag], q.saved[tag]);
    case _ =>
  }

  // ----- the main results

  /** With contents demanded, the lossy dictionary is the plain one. */
  lemma ContentsLossless(p: Plain, rule: Rule, ev: Event)
    requires Legal(p, rule, ev) && rule.demand == Contents
    ensures LossyStep(p, rule.groups, rule.layers, ev) == PlainStep(p, ev)
  {
  }

  lemma {:induction false} SimRun(s: State, p: Plain, events: seq<Event>)
    requires Sim(s, p) && AllWellFormed(p.saved) && LegalRun(p, Rule(s.groups, s.layers, Contents), events)
    ensures Run(s, events).Some?
    ensures SameOutputs(Run(s, events).value.1, PlainRun(p, events).1)
    ensures Sim(Run(s, events).value.0, PlainRun(p, events).0)
    decreases |events|
  {
    if events == [] {
    } else {
      var rule, ev := Rule(s.groups, s.layers, Contents), events[0];
      SimStep(s, p, rule, ev);
      ContentsLossless(p, rule, ev);
      WellFormedStep(p, rule, ev);
      StepKeepsSizes(s, ev);
      SimRun(Step(s, ev).value.0, PlainStep(p, ev).0, events[1..]);
    }
  }

  /** No exception is raised on any training run, and every pop returns what was pushed. */
  lemma HandlerIsDictionary(groups: nat, layers: nat, events: seq<Event>)
    requires 0 < groups <= layers
    requires LegalRun(START, Rule(groups, layers, Contents), events)
    ensures Run(Init(groups, layers), events).Some?
    ensures SameOutputs(Run(Init(groups, layers), events).value.1, PlainRun(START, events).1)
  {
    SimStart(groups, layers);
    SimRun(Init(groups, layers), START, events);
  }

  /**
   A run that returns every tensor raises nothing exactly when views under one key, in a group that leaves the device,
   have equally many elements; and it gives the dictionary's answers exactly when they have the same data.
   */
  lemma HandlerExact(rule: Rule, events: seq<Event>)
    requires 0 < rule.groups <= rule.layers && rule.demand != OrderOnly
    requires LegalRun(START, Ordered(rule.groups, rule.layers), events) && PlainRun(START, events).0.saved == map[]
    ensures Succeeds(rule.demand, Init(rule.groups, rule.layers), START, events) <==> LegalRun(START, rule, events)
  {
    SimStart(rule.groups, rule.layers);
    RunExact(Init(rule.groups, rule.layers), START, START, rule, events);
  }

  lemma IdleEntries(s: State)
    requires SimEntries(s.entries, map[], Forward, s.mapping)
    ensures s.entries == []
  {
    assert Stands(s.entries, 0, map[], Forward, s.mapping);
  }

  lemma IdleState(s: State, rounds: nat)
    requires Sim(s, START.(rounds := rounds))
    ensures s == Init(s.groups, s.layers).(log := s.log)
  {
    IdleEntries(s);
    assert s.buf.Keys == {} by {
      assert forall tag :: tag !in s.buf;
    }
    assert s.mapping.Keys == {} by {
      assert forall g :: !Hosted(Forward, 0, s.groups, s.layers, g);
      assert forall g :: g !in s.mapping;
    }
    assert s.buf == map[] && s.mapping == map[];
    if s.offloaded > 0 {
      WindowDelay(s.layers, s.groups, s.offloaded - 1);
    }
  }

  /** A finished training step leaves the handler in its initial state; only the transfer log has grown. */
  lemma StepRestoresInit(groups: nat, layers: nat, events: seq<Event>)
    requires 0 < groups <= layers && LegalRun(START, Ordered(groups, layers), events)
    requires Run(Init(groups, layers), events).Some?
    requires PlainRun(START, events).0 == START.(rounds := PlainRun(START, events).0.rounds)
    ensures var s := Run(Init(groups, layers), events).value.0; s == Init(groups, layers).(log := s.log)
  {
    Reached(groups, layers, events);
    assert LossyRun(START, groups, layers, events).saved == map[];
    IdleState(Run(Init(groups, layers), events).value.0, PlainRun(START, events).0.rounds);
  }

  // ----- transfers

  function Count(log: seq<Transfer>, x: Transfer): nat {
    multiset(log)[x]
  }

  /** Each group has made one round trip a finished step, and the part of one that this step calls for. */
  ghost predicate LogOf(s: State, p: Plain, g: int)
    requires s.groups > 0
  {
    var hosted := Hosted(p.phase, p.group, s.groups, s.layers, g);
    if 0 <= g < s.groups then
      && Count(s.log, ToHost(g)) == p.rounds + (if p.phase == Backward || hosted then 1 else 0)
      && Count(s.log, ToDevice(g)) == p.rounds + (if p.phase == Backward && !hosted then 1 else 0)
    else Count(s.log, ToHost(g)) == 0 && Count(s.log, ToDevice(g)) == 0
  }

  ghost predicate SimLog(s: State, p: Plain)
    requires s.groups > 0
  {
    forall g :: LogOf(s, p, g)
  }

  lemma CountAppend(log: seq<Transfer>, x: Transfer, y: Transfer)
    ensures Count(log + [y], x) == Count(log, x) + if x == y then 1 else 0
  {
  }

  lemma KickstartLog(s: State, g: int)
    requires Kickstart(s).Some?
    ensures var s' := Kickstart(s).value;
      && s'.offloaded == s.offloaded && s'.current == s.current && s'.groups == s.groups && s'.layers == s.layers
      && Count(s'.log, ToDevice(g)) == Count(s.log, ToDevice(g))
      && Count(s'.log, ToHost(g)) == Count(s.log, ToHost(g)) + if s.current == 0 && g == 0 then 1 else 0
  {
    CountAppend(s.log, ToHost(g), ToHost(0));
    CountAppend(s.log, ToDevice(g), ToHost(0));
  }

  lemma RetireLog(s: State, g: int)
    requires Retire(s).Some?
    ensures var s' := Retire(s).value;
      && Count(s'.log, ToDevice(g)) == Count(s.log, ToDevice(g))
      && Count(s'.log, ToHost(g)) == Count(s.log, ToHost(g))
           + if s.offloaded < s.groups - 1 && g == s.offloaded + 1 then 1 else 0
  {
    CountAppend(s.log, ToHost(g), ToHost(s.offloaded + 1));
    CountAppend(s.log, ToDevice(g), ToHost(s.offloaded + 1));
  }

  /** A forward commit issues one offload for each group it makes hosted, and nothing else. */
  lemma ForwardLog(s: State, p: Plain, g: int)
    requires SimCounters(s, p) && p.phase == Forward && p.group < s.layers && CommitForward(s).Some?
    ensures var s' := CommitForward(s).value;
      && Count(s'.log, ToDevice(g)) == Count(s.log, ToDevice(g))
      && Count(s'.log, ToHost(g)) == Count(s.log, ToHost(g))
           + if !Hosted(Forward, p.group, s.groups, s.layers, g) && Hosted(Forward, p.group + 1, s.groups, s.layers, g)
             then 1 else 0
  {
    RetireGroup(s, p);
    HostedForward(s, p, g);
    KickstartLog(s, g);
    if Retires(s, p.group) {
      RetireLog(Kickstart(s).value, g);
    }
  }

  lemma FetchLog(s: State, place: Key -> int, g: int)
    requires 1 <= s.offloaded <= s.groups && CommitBackward(s, place).Some?
    ensures var s' := CommitBackward(s, place).value;
      && Count(s'.log, ToHost(g)) == Count(s.log, ToHost(g))
      && Count(s'.log, ToDevice(g)) == Count(s.log, ToDevice(g))
           + if Fetches(s, s.current - 1) && g == s.offloaded - 1 then 1 else 0
  {
    CountAppend(s.log, ToHost(g), ToDevice(s.offloaded - 1));
    CountAppend(s.log, ToDevice(g), ToDevice(s.offloaded - 1));
  }

  /** A backward commit issues one reload for the group it takes off the host, and nothing else. */
  lemma BackwardLog(s: State, p: Plain, place: Key -> int, g: int)
    requires SimCounters(s, p) && p.group <= s.layers && CommitBackward(s, place).Some?
    requires p.phase == Forward ==> p.group == s.layers
    ensures var s' := CommitBackward(s, place).value;
      && Count(s'.log, ToHost(g)) == Count(s.log, ToHost(g))
      && Count(s'.log, ToDevice(g)) == Count(s.log, ToDevice(g))
           + if Hosted(p.phase, p.group, s.groups, s.layers, g) && !Hosted(Backward, p.group - 1, s.groups, s.layers, g)
             then 1 else 0
  {
    PrefetchGroup(s, p);
    HostedBackward(s, p, g);
    FetchLog(s, place, g);
  }

  /** All groups are hosted when the backward pass starts, none when it ends. */
  lemma HostedAtTurns(groups: nat, layers: nat, g: int)
    requires 0 < groups <= layers
    ensures Hosted(Forward, layers, groups, layers, g) <==> 0 <= g < groups
    ensures !Hosted(Backward, 0, groups, layers, g) && !Hosted(Forward, 0, groups, layers, g)
  {
    if 0 <= g < groups {
      WindowBounds(layers, groups, g);
      if g > 0 { WindowBounds(layers, groups, g - 1); }
    }
  }

  lemma LogForwardStep(s: State, p: Plain, g: int)
    requires SimCounters(s, p) && p.phase == Forward && p.group < s.layers && CommitForward(s).Some? && LogOf(s, p, g)
    ensures CommitForward(s).value.groups == s.groups
    ensures LogOf(CommitForward(s).value, PlainStep(p, ForwardEvent).0, g)
  {
    ForwardLog(s, p, g);
    ForwardStays(s, p, g);
  }

  lemma LogBackwardStep(s: State, p: Plain, place: Key -> int, g: int)
    requires SimCounters(s, p) && 0 < p.group <= s.layers && CommitBackward(s, place).Some? && LogOf(s, p, g)
    requires p.phase == Forward ==> p.group == s.layers
    ensures CommitBackward(s, place).value.groups == s.groups
    ensures LogOf(CommitBackward(s, place).value, PlainStep(p, BackwardEvent(place)).0, g)
  {
    BackwardLog(s, p, place, g);
    BackwardStays(s, p, g);
    HostedAtTurns(s.groups, s.layers, g);
  }

  lemma SimLogStep(s: State, p: Plain, q: Plain, ev: Event)
    requires Sim(s, q) && Mirrors(p, q) && SimLog(s, p) && Legal(p, Ordered(s.groups, s.layers), ev)
    requires Step(s, ev).Some?
    ensures Step(s, ev).value.0.groups == s.groups && SimLog(Step(s, ev).value.0, PlainStep(p, ev).0)
  {
    StepKeepsSizes(s, ev);
    forall g
      ensures LogOf(Step(s, ev).value.0, PlainStep(p, ev).0, g)
    {
      assert LogOf(s, p, g);
      match ev
      case PushEvent(_, _, _) =>
      case ForwardEvent => LogForwardStep(s, p, g);
      case BackwardEvent(place) => LogBackwardStep(s, p, place, g);
      case PopEvent(_) => HostedAtTurns(s.groups, s.layers, g);
    }
  }

  /** In the forward pass hosted groups stay hosted. */
  lemma ForwardStays(s: State, p: Plain, g: int)
    requires SimCounters(s, p) && p.phase == Forward && p.group < s.layers
    ensures Hosted(Forward, p.group, s.groups, s.layers, g) ==> Hosted(Forward, p.group + 1, s.groups, s.layers, g)
  {
  }

  /** In the backward pass no group becomes hosted. */
  lemma BackwardStays(s: State, p: Plain, g: int)
    requires SimCounters(s, p) && 0 < p.group <= s.layers && (p.phase == Forward ==> p.group == s.layers)
    ensures Hosted(Backward, p.group - 1, s.groups, s.layers, g) ==> Hosted(p.phase, p.group, s.groups, s.layers, g)
  {
    PrefetchGroup(s, p);
    HostedBackward(s, p, g);
  }

  lemma {:induction false} SimLogRun(s: State, p: Plain, q: Plain, events: seq<Event>)
    requires Sim(s, q) && Mirrors(p, q) && SimSaved(p, s.layers) && SimLog(s, p)
    requires LegalRun(p, Ordered(s.groups, s.layers), events) && Run(s, events).Some?
    ensures Run(s, events).value.0.groups == s.groups
    ensures SimLog(Run(s, events).value.0, PlainRun(p, events).0)
    decreases |events|
  {
    if events == [] {
    } else {
      var ev := events[0];
      MirrorStep(p, q, s.groups, s.layers, ev);
      PlainKeepsSaved(p, Ordered(s.groups, s.layers), ev);
      SimStep(s, q, Ordered(s.groups, s.layers), ev);
      StepKeepsSizes(s, ev);
      SimLogStep(s, p, q, ev);
      SimLogRun(Step(s, ev).value.0, PlainStep(p, ev).0, LossyStep(q, s.groups, s.layers, ev).0, events[1..]);
    }
  }

  /** After n finished steps every group was offloaded n times and reloaded n times, and no other transfer was made. */
  lemma EachGroupOnceAStep(groups: nat, layers: nat, events: seq<Event>, g: int)
    requires 0 < groups <= layers && LegalRun(START, Ordered(groups, layers), events)
    requires Run(Init(groups, layers), events).Some?
    requires PlainRun(START, events).0 == START.(rounds := PlainRun(START, events).0.rounds)
    ensures var log, n := Run(Init(groups, layers), events).value.0.log, PlainRun(START, events).0.rounds;
            Count(log, ToHost(g)) == Count(log, ToDevice(g)) == if 0 <= g < groups then n else 0
  {
    SimStart(groups, layers);
    SimLogRun(Init(groups, layers), START, START, events);
    RunKeepsSizes(Init(groups, layers), events);
    assert LogOf(Run(Init(groups, layers), events).value.0, PlainRun(START, events).0, g);
  }

  /** A group is offloaded and reloaded once in the current step before any of its tags is popped. */
  lemma ReloadedBeforePop(groups: nat, layers: nat, events: seq<Event>, tag: Tag)
    requires 0 < groups <= layers && tag.group < groups && LegalRun(START, Ordered(groups, layers), events)
    requires Run(Init(groups, layers), events).Some?
    requires Legal(PlainRun(START, events).0, Ordered(groups, layers), PopEvent(Saved(tag)))
    ensures var log, n := Run(Init(groups, layers), events).value.0.log, PlainRun(START, events).0.rounds;
            Count(log, ToHost(tag.group)) == Count(log, ToDevice(tag.group)) == n + 1
  {
    SimStart(groups, layers);
    SimLogRun(Init(groups, layers), START, START, events);
    Reached(groups, layers, events);
    var s, p := Run(Init(groups, layers), events).value.0, PlainRun(START, events).0;
    PopOnDevice(s, LossyRun(START, groups, layers, events), Ordered(groups, layers), tag);
    assert LogOf(s, p, tag.group);
  }
}
