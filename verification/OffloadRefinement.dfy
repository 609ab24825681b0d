/**
 The handler, driven by a training run, behaves like a dictionary from tags to tensors.
 `Plain` is that dictionary together with the position in the forward or backward pass. `LossyStep` is the dictionary
 that the handler is on every run: it sees each tensor with the data of the first one saved under its storage key.
 */
module OffloadRefinement {
  import opened Common
  import opened WindowSchedule
  import opened OffloadState

  datatype Phase = Forward | Backward

  datatype Plain = Plain(phase: Phase, group: nat, count: nat, saved: map<Tag, Tensor>, rounds: nat)

  const START := Plain(Forward, 0, 0, map[], 0)

  /** A backward pass that reached layer 0 and returned every tensor is a finished training step. */
  function Settle(p: Plain): Plain {
    if p.group == 0 && p.saved == map[] then p.(phase := Forward, rounds := p.rounds + 1) else p
  }

  /** The dictionary takes what is wanted and is a real tensor; the rest stays with the caller. */
  function PlainPush(p: Plain, t: Tensor, stray: bool, wanted: bool): (Plain, Handle) {
    if stray || !wanted then (p, Direct(t))
    else
      var tag := Tag(p.group, p.count);
      (p.(count := p.count + 1, saved := p.saved[tag := t]), Saved(tag))
  }

  /** A group whose tensors leave the device: with as many groups as layers, only the first. */
  predicate Exposed(g: int, groups: nat, layers: nat) {
    g < groups && (groups < layers || g == 0)
  }

  /** Views that the handler cannot tell apart: they begin at one address and have one element type. */
  predicate SamePlace(t: Tensor, u: Tensor) {
    t.base + t.offset == u.base + u.offset && t.dtype == u.dtype
  }

  /** What two views of one place must share. */
  datatype Demand = OrderOnly | Sizes | Contents

  ghost predicate Compatible(demand: Demand, t: Tensor, u: Tensor) {
    SamePlace(t, u) ==>
      match demand
      case OrderOnly => true
      case Sizes => |t.data| == |u.data|
      case Contents => t.data == u.data
  }

  /** The sizes of a handler, and what is demanded of the tensors it is given. */
  datatype Rule = Rule(groups: nat, layers: nat, demand: Demand)

  ghost predicate CompatiblePush(p: Plain, rule: Rule, t: Tensor) {
    Exposed(p.group, rule.groups, rule.layers) ==>
      forall tag :: tag in p.saved && tag.group == p.group ==> Compatible(rule.demand, p.saved[tag], t)
  }

  /** The calls a training run makes: forward pushes and commits, then backward commits and pops. */
  ghost predicate Legal(p: Plain, rule: Rule, ev: Event) {
    match ev
    case PushEvent(t, stray, wanted) =>
      && p.phase == Forward && p.group < rule.layers && WellFormed(t)
      && (!stray && wanted ==> CompatiblePush(p, rule, t))
    case ForwardEvent => p.phase == Forward && p.group < rule.layers
    case BackwardEvent(_) =>
      && p.group > 0 && (p.phase == Forward ==> p.group == rule.layers)
      && forall tag :: tag in p.saved ==> tag.group < p.group
    case PopEvent(Direct(_)) => true
    case PopEvent(Saved(tag)) => p.phase == Backward && tag in p.saved && tag.group == p.group
  }

  function PlainStep(p: Plain, ev: Event): (Plain, Output) {
    match ev
    case PushEvent(t, stray, wanted) => var (p', h) := PlainPush(p, t, stray, wanted); (p', Pushed(h))
    case ForwardEvent => (p.(group := p.group + 1, count := 0), Nothing)
    case BackwardEvent(_) =>
      (if p.group == 0 then p else Settle(p.(phase := Backward, group := p.group - 1)), Nothing)
    case PopEvent(Direct(t)) => (p, Popped(t))
    case PopEvent(Saved(tag)) =>
      if tag in p.saved then (Settle(p.(saved := p.saved - {tag})), Popped(p.saved[tag])) else (p, Nothing)
  }

  ghost predicate LegalRun(p: Plain, rule: Rule, events: seq<Event>)
    decreases |events|
  {
    events == [] ||
    (Legal(p, rule, events[0]) && LegalRun(PlainStep(p, events[0]).0, rule, events[1..]))
  }

  function PlainRun(p: Plain, events: seq<Event>): (Plain, seq<Output>)
    decreases |events|
  {
    if events == [] then (p, [])
    else
      var (p1, out) := PlainStep(p, events[0]);
      var (p2, outs) := PlainRun(p1, events[1..]);
      (p2, [out] + outs)
  }

  // ----- the dictionary that the handler is

  /** The data of a tensor already saved from the same place in the same group, if there is one. */
  ghost function Seen(saved: map<Tag, Tensor>, g: int, t: Tensor): Tensor {
    if tag :| tag in saved && tag.group == g && SamePlace(saved[tag], t) then t.(data := saved[tag].data)
    else t
  }

  ghost function SeenEvent(p: Plain, groups: nat, layers: nat, ev: Event): Event {
    match ev
    case PushEvent(t, stray, wanted) =>
      if !stray && wanted && Exposed(p.group, groups, layers)
      then PushEvent(Seen(p.saved, p.group, t), stray, wanted) else ev
    case _ => ev
  }

  ghost function LossyStep(p: Plain, groups: nat, layers: nat, ev: Event): (Plain, Output) {
    PlainStep(p, SeenEvent(p, groups, layers, ev))
  }

  // ----- what the outside sees

  /** The same contents, possibly at another address. */
  predicate SameContents(t: Tensor, u: Tensor) {
    t.data == u.data && t.shape == u.shape && t.dtype == u.dtype
  }

  predicate SameOutput(a: Output, b: Output) {
    match (a, b)
    case (Popped(t), Popped(u)) => SameContents(t, u)
    case _ => a == b
  }

  predicate SameOutputs(a: seq<Output>, b: seq<Output>) {
    |a| == |b| && forall i :: 0 <= i < |a| ==> SameOutput(a[i], b[i])
  }

  // ----- the simulation

  /** Groups whose host copies exist: offloaded and not yet reloaded. */
  ghost predicate Hosted(phase: Phase, group: nat, groups: nat, layers: nat, g: int) {
    0 <= g < groups &&
    match phase
    case Forward => group > 0 && (g == 0 || Window(layers, groups, g - 1) < group)
    case Backward => Window(layers, groups, g) < group
  }

  /** The same view, but for its data. */
  predicate SameView(u: Tensor, t: Tensor) {
    u.(data := t.data) == t
  }

  /** Entry `e` stands for tensor `t`. */
  ghost predicate Represents(e: Entry, t: Tensor, phase: Phase, mapping: map<int, map<Key, HostCopy>>) {
    match e.slot
    case OnDevice(u) => if phase == Forward then SameView(u, t) else SameContents(u, t) && WellFormed(u)
    case Offloaded(key, shape) =>
      && key == UniqueKey(t) && shape == t.shape
      && e.tag.group in mapping && key in mapping[e.tag.group]
      && mapping[e.tag.group][key].data == t.data && mapping[e.tag.group][key].dtype == t.dtype
  }

  ghost predicate Apart(entries: seq<Entry>, i: int, j: int) {
    0 <= i < j < |entries| ==> entries[i].tag != entries[j].tag
  }

  ghost predicate Distinct(entries: seq<Entry>) {
    forall i, j :: Apart(entries, i, j)
  }

  ghost predicate Stands(
    entries: seq<Entry>, i: int, saved: map<Tag, Tensor>, phase: Phase, mapping: map<int, map<Key, HostCopy>>)
  {
    0 <= i < |entries| ==>
      entries[i].tag in saved && Represents(entries[i], saved[entries[i].tag], phase, mapping)
  }

  ghost predicate EntriesRepresent(
    entries: seq<Entry>, saved: map<Tag, Tensor>, phase: Phase, mapping: map<int, map<Key, HostCopy>>)
  {
    forall i :: Stands(entries, i, saved, phase, mapping)
  }

  ghost predicate Covered(entries: seq<Entry>, saved: map<Tag, Tensor>) {
    forall tag {:trigger HasTag(entries, tag)} :: tag in saved ==> HasTag(entries, tag)
  }

  /** The entries are exactly the saved tags, each standing for its tensor. */
  ghost predicate SimEntries(
    entries: seq<Entry>, saved: map<Tag, Tensor>, phase: Phase, mapping: map<int, map<Key, HostCopy>>)
  {
    Distinct(entries) && EntriesRepresent(entries, saved, phase, mapping) && Covered(entries, saved)
  }

  ghost predicate AllWellFormed(saved: map<Tag, Tensor>) {
    forall tag :: tag in saved ==> WellFormed(saved[tag])
  }

  /**
   A tensor still on the device in the forward pass: it will be replaced by the first of its group under its key, or
   stays as it is when its group does not leave the device.
   */
  ghost predicate Foreseen(entries: seq<Entry>, i: int, saved: map<Tag, Tensor>, groups: nat, layers: nat) {
    0 <= i < |entries| && entries[i].slot.OnDevice? ==>
      var (tag, u) := (entries[i].tag, entries[i].slot.tensor);
      && tag in saved
      && if Exposed(tag.group, groups, layers) then
           var firsts := Representatives(entries, tag.group);
           UniqueKey(u) in firsts && firsts[UniqueKey(u)].data == saved[tag].data
         else u.data == saved[tag].data && WellFormed(u)
  }

  ghost predicate AllForeseen(entries: seq<Entry>, saved: map<Tag, Tensor>, groups: nat, layers: nat) {
    forall i :: Foreseen(entries, i, saved, groups, layers)
  }

  ghost predicate GroupsUpTo(saved: map<Tag, Tensor>, group: nat) {
    forall tag :: tag in saved ==> 0 <= tag.group <= group
  }

  ghost predicate IndicesBelow(saved: map<Tag, Tensor>, group: nat, count: nat) {
    forall tag :: tag in saved && tag.group == group ==> tag.index < count
  }

  ghost predicate SimSaved(p: Plain, layers: nat) {
    && p.group <= layers && GroupsUpTo(p.saved, p.group)
    && (p.phase == Forward ==> IndicesBelow(p.saved, p.group, p.count))
    && (p.phase == Forward && p.group == layers ==> p.count == 0)
    && (p.phase == Backward ==> p.count == 0 && p.group < layers)
  }

  ghost predicate SimCounters(s: State, p: Plain) {
    && 0 < s.groups <= s.layers
    && s.current == p.group && s.count == p.count
    && 0 <= s.offloaded <= s.groups
    && (s.offloaded < s.groups ==> Window(s.layers, s.groups, s.offloaded) >= p.group)
    && (p.phase == Forward && s.offloaded > 0 ==> Window(s.layers, s.groups, s.offloaded - 1) < p.group)
    && (p.phase == Backward && s.offloaded > 1 ==> Window(s.layers, s.groups, s.offloaded - 1) < p.group)
    && (p.phase == Backward ==> (s.offloaded == 0 <==> p.group == 0))
  }

  ghost predicate SimMapping(
    mapping: map<int, map<Key, HostCopy>>, phase: Phase, group: nat, groups: nat, layers: nat)
  {
    forall g :: g in mapping <==> Hosted(phase, group, groups, layers, g)
  }

  /** Buffered references exist until their group is retired. */
  ghost predicate SimBuf(
    buf: map<Tag, Option<Tensor>>, saved: map<Tag, Tensor>, phase: Phase, offloaded: int, groups: nat)
  {
    && (forall tag :: tag in buf <==> tag in saved && tag.group < groups)
    && (forall tag :: tag in buf ==> (buf[tag].Some? <==> phase == Forward && tag.group >= offloaded))
  }

  /** Where every tensor is: off the device exactly when its group is hosted and one that leaves the device. */
  ghost predicate Placed(entries: seq<Entry>, mapping: map<int, map<Key, HostCopy>>, groups: nat, layers: nat) {
    forall i {:trigger entries[i].slot} :: 0 <= i < |entries| ==>
      (entries[i].slot.Offloaded? <==> entries[i].tag.group in mapping && Exposed(entries[i].tag.group, groups, layers))
  }

  ghost predicate Sim(s: State, p: Plain) {
    && SimCounters(s, p)
    && SimSaved(p, s.layers)
    && SimMapping(s.mapping, p.phase, p.group, s.groups, s.layers)
    && SimEntries(s.entries, p.saved, p.phase, s.mapping)
    && (p.phase == Forward ==> AllForeseen(s.entries, p.saved, s.groups, s.layers))
    && SimBuf(s.buf, p.saved, p.phase, s.offloaded, s.groups)
    && Placed(s.entries, s.mapping, s.groups, s.layers)
    && (p.phase == Backward ==> !(p.group == 0 && p.saved == map[]))
  }

  lemma SimStart(groups: nat, layers: nat)
    requires 0 < groups <= layers
    ensures Sim(Init(groups, layers), START)
  {
    WindowDelay(layers, groups, 0);
    assert SimMapping(map[], Forward, 0, groups, layers);
  }

  // ----- push

  /** Whatever it is given, the dictionary keeps its tags in order. */
  lemma PlainKeepsSaved(p: Plain, rule: Rule, ev: Event)
    requires SimSaved(p, rule.layers) && Legal(p, rule, ev)
    ensures SimSaved(PlainStep(p, ev).0, rule.layers)
    ensures ev.PushEvent? ==> Tag(p.group, p.count) !in p.saved
  {
  }

  lemma PushEntries(entries: seq<Entry>, saved: map<Tag, Tensor>, mapping: map<int, map<Key, HostCopy>>, tag: Tag,
                    u: Tensor, t: Tensor)
    requires SimEntries(entries, saved, Forward, mapping) && tag !in saved && SameView(u, t)
    ensures !HasTag(entries, tag)
    ensures SimEntries(entries + [Entry(tag, OnDevice(u))], saved[tag := t], Forward, mapping)
  {
    var entries', saved' := entries + [Entry(tag, OnDevice(u))], saved[tag := t];
    assert Stands(entries, IndexOf(entries, tag), saved, Forward, mapping);
    forall i
      ensures Stands(entries, i, saved, Forward, mapping)
      ensures Stands(entries', i, saved', Forward, mapping)
    {
      assert Stands(entries, i, saved, Forward, mapping);
    }
    forall i, j
      ensures Apart(entries', i, j)
    {
      assert Apart(entries, i, j) && Stands(entries, i, saved, Forward, mapping);
    }
    forall v | v in saved'
      ensures HasTag(entries', v)
    {
      assert v != tag ==> HasTag(entries, v);
      assert entries'[if v == tag then |entries| else IndexOf(entries, v)].tag == v;
    }
  }

  /** The keys of a group on the device are those of its saved tensors. */
  lemma FirstsOfSaved(entries: seq<Entry>, saved: map<Tag, Tensor>, mapping: map<int, map<Key, HostCopy>>, g: int,
                      groups: nat, layers: nat, tag: Tag)
    requires SimEntries(entries, saved, Forward, mapping) && AllForeseen(entries, saved, groups, layers)
    requires g !in mapping && Exposed(g, groups, layers) && tag in saved && tag.group == g
    ensures var firsts := Representatives(entries, g);
            UniqueKey(saved[tag]) in firsts && firsts[UniqueKey(saved[tag])].data == saved[tag].data
  {
    assert HasTag(entries, tag);
    var i := IndexOf(entries, tag);
    assert Stands(entries, i, saved, Forward, mapping) && Foreseen(entries, i, saved, groups, layers);
  }

  lemma SavedOfFirsts(
    entries: seq<Entry>, saved: map<Tag, Tensor>, mapping: map<int, map<Key, HostCopy>>, g: int, k: Key)
    requires SimEntries(entries, saved, Forward, mapping) && k in Representatives(entries, g)
    ensures exists tag :: tag in saved && tag.group == g && UniqueKey(saved[tag]) == k
  {
    RepresentativesOf(entries, g);
    var i :| 0 <= i < |entries| && entries[i].tag.group == g && entries[i].slot.OnDevice?
             && UniqueKey(entries[i].slot.tensor) == k && entries[i].slot.tensor == Representatives(entries, g)[k];
    assert Stands(entries, i, saved, Forward, mapping);
  }

  /** A pushed tensor will come back with the data of the first one under its key. */
  lemma PushForeseen(entries: seq<Entry>, saved: map<Tag, Tensor>, mapping: map<int, map<Key, HostCopy>>, tag: Tag,
                     u: Tensor, groups: nat, layers: nat)
    requires SimEntries(entries, saved, Forward, mapping) && AllForeseen(entries, saved, groups, layers)
    requires tag !in saved && (Exposed(tag.group, groups, layers) ==> tag.group !in mapping) && WellFormed(u)
    ensures var t := if Exposed(tag.group, groups, layers) then Seen(saved, tag.group, u) else u;
            AllForeseen(entries + [Entry(tag, OnDevice(u))], saved[tag := t], groups, layers)
  {
    var g := tag.group;
    var t := if Exposed(g, groups, layers) then Seen(saved, g, u) else u;
    var entries', saved' := entries + [Entry(tag, OnDevice(u))], saved[tag := t];
    assert entries'[..|entries'| - 1] == entries;
    if Exposed(g, groups, layers) {
      if UniqueKey(u) in Representatives(entries, g) {
        SavedOfFirsts(entries, saved, mapping, g, UniqueKey(u));
        var other :| other in saved && other.group == g && SamePlace(saved[other], u)
                     && t == u.(data := saved[other].data);
        FirstsOfSaved(entries, saved, mapping, g, groups, layers, other);
      } else if other :| other in saved && other.group == g && SamePlace(saved[other], u) {
        FirstsOfSaved(entries, saved, mapping, g, groups, layers, other);
      }
    }
    forall i
      ensures Foreseen(entries', i, saved', groups, layers)
    {
      assert Foreseen(entries, i, saved, groups, layers) && Stands(entries, i, saved, Forward, mapping);
    }
  }

  /** The group being pushed is already offloaded exactly when no layer is left out and it is not the first. */
  lemma CurrentHosted(group: nat, groups: nat, layers: nat)
    requires 0 < groups <= layers
    ensures Hosted(Forward, group, groups, layers, group) <==> groups == layers && 0 < group < groups
  {
    if 0 < group {
      WindowDelay(layers, groups, group - 1);
    }
  }

  lemma PushPlaced(s: State, t: Tensor, group: nat, index: nat)
    requires 0 < s.groups <= s.layers && Placed(s.entries, s.mapping, s.groups, s.layers)
    requires SimMapping(s.mapping, Forward, group, s.groups, s.layers)
    ensures Placed(s.entries + [Entry(Tag(group, index), OnDevice(t))], s.mapping, s.groups, s.layers)
    ensures Exposed(group, s.groups, s.layers) ==> group !in s.mapping
  {
    CurrentHosted(group, s.groups, s.layers);
    var entries := s.entries + [Entry(Tag(group, index), OnDevice(t))];
    forall i | 0 <= i < |entries|
      ensures entries[i].slot.Offloaded? <==>
                entries[i].tag.group in s.mapping && Exposed(entries[i].tag.group, s.groups, s.layers)
    {
      assert i < |s.entries| ==> s.entries[i].slot == entries[i].slot;
    }
  }

  lemma PushBuf(buf: map<Tag, Option<Tensor>>, saved: map<Tag, Tensor>, offloaded: nat, groups: nat, layers: nat,
                tag: Tag, t: Tensor, t': Tensor)
    requires SimBuf(buf, saved, Forward, offloaded, groups) && tag.group >= 0
    requires 0 < groups <= layers && offloaded <= groups
    requires offloaded > 0 ==> Window(layers, groups, offloaded - 1) < tag.group
    ensures SimBuf(if tag.group < groups then buf[tag := Some(t)]
              else buf, saved[tag := t'], Forward, offloaded, groups)
  {
    if offloaded > 0 {
      WindowDelay(layers, groups, offloaded - 1);
    }
  }

  lemma SimPush(s: State, p: Plain, rule: Rule, t: Tensor, stray: bool, wanted: bool)
    requires Sim(s, p) && rule.layers == s.layers && Legal(p, rule, PushEvent(t, stray, wanted))
    ensures Push(s, t, stray, wanted).Some?
    ensures var (q, out) := LossyStep(p, s.groups, s.layers, PushEvent(t, stray, wanted));
            Pushed(Push(s, t, stray, wanted).value.1) == out && Sim(Push(s, t, stray, wanted).value.0, q)
  {
    if NeedsOffload(stray, wanted) {
      var tag := Tag(p.group, p.count);
      var seen := if Exposed(p.group, s.groups, s.layers) then Seen(p.saved, p.group, t) else t;
      PushPlaced(s, t, p.group, p.count);
      PushEntries(s.entries, p.saved, s.mapping, tag, t, seen);
      PushForeseen(s.entries, p.saved, s.mapping, tag, t, s.groups, s.layers);
      PushBuf(s.buf, p.saved, s.offloaded, s.groups, s.layers, tag, t, seen);
    }
  }

  // ----- bulk offload

  lemma {:induction false} RepresentativesOf(entries: seq<Entry>, g: int)
    ensures forall e :: e in entries && e.tag.group == g && e.slot.OnDevice? ==>
              UniqueKey(e.slot.tensor) in Representatives(entries, g)
    ensures forall k :: k in Representatives(entries, g) ==>
              exists i :: 0 <= i < |entries| && entries[i].tag.group == g && entries[i].slot.OnDevice?
                       && UniqueKey(entries[i].slot.tensor) == k
                       && entries[i].slot.tensor == Representatives(entries, g)[k]
  {
    if entries == [] {
    } else {
      var init := entries[..|entries| - 1];
      RepresentativesOf(init, g);
      assert entries == init + [entries[|entries| - 1]];
    }
  }

  /** Before a group is hosted, all its entries hold their own tensors. */
  lemma GroupOnDevice(entries: seq<Entry>, saved: map<Tag, Tensor>, mapping: map<int, map<Key, HostCopy>>, g: int)
    requires EntriesRepresent(entries, saved, Forward, mapping) && g !in mapping
    ensures AllOnDevice(entries, g)
  {
    forall e | e in entries && e.tag.group == g
      ensures e.slot.OnDevice?
    {
      var i :| 0 <= i < |entries| && entries[i] == e;
      assert Stands(entries, i, saved, Forward, mapping);
    }
  }

  /** Offloading one group leaves the first tensors of the others alone. */
  lemma {:induction false} RepresentativesOther(entries: seq<Entry>, g: int, h: int)
    requires g != h
    ensures Representatives(ToReferences(entries, g), h) == Representatives(entries, h)
    decreases |entries|
  {
    if entries == [] {
    } else {
      var n := |entries| - 1;
      RepresentativesOther(entries[..n], g, h);
      assert ToReferences(entries, g)[..n] == ToReferences(entries[..n], g);
    }
  }

  /** An offloaded entry refers to a host copy of the data foreseen for it. */
  lemma OffloadedEntry(entries: seq<Entry>, saved: map<Tag, Tensor>, mapping: map<int, map<Key, HostCopy>>, g: int,
                       i: nat, groups: nat, layers: nat)
    requires EntriesRepresent(entries, saved, Forward, mapping) && AllForeseen(entries, saved, groups, layers)
    requires g !in mapping && Exposed(g, groups, layers) && i < |entries| && entries[i].tag.group == g
    ensures entries[i].tag in saved
    ensures Represents(ToReference(entries[i], g), saved[entries[i].tag], Forward,
                       mapping[g := OffloadAll(Representatives(entries, g))])
  {
    assert Stands(entries, i, saved, Forward, mapping) && Foreseen(entries, i, saved, groups, layers);
    RepresentativesOf(entries, g);
  }

  lemma SameTagsCover(entries: seq<Entry>, entries': seq<Entry>, saved: map<Tag, Tensor>)
    requires Covered(entries, saved) && Distinct(entries) && |entries'| == |entries|
    requires forall i :: 0 <= i < |entries| ==> entries'[i].tag == entries[i].tag
    ensures Covered(entries', saved) && Distinct(entries')
  {
    forall i, j
      ensures Apart(entries', i, j)
    {
      assert Apart(entries, i, j);
    }
    forall tag | tag in saved
      ensures HasTag(entries', tag)
    {
      assert HasTag(entries, tag);
      assert entries'[IndexOf(entries, tag)].tag == tag;
    }
  }

  /** A group can be offloaded when it leaves the device, or when nothing of it is there yet. */
  ghost predicate Ready(entries: seq<Entry>, g: int, groups: nat, layers: nat) {
    Exposed(g, groups, layers) || forall i {:trigger entries[i]} :: 0 <= i < |entries| ==> entries[i].tag.group != g
  }

  /** The part of the simulation that a bulk offload keeps, whatever the schedule. */
  ghost predicate SimHeld(s: State, saved: map<Tag, Tensor>) {
    && SimEntries(s.entries, saved, Forward, s.mapping)
    && AllForeseen(s.entries, saved, s.groups, s.layers)
    && Placed(s.entries, s.mapping, s.groups, s.layers)
  }

  lemma OffloadForeseen(entries: seq<Entry>, saved: map<Tag, Tensor>, g: int, groups: nat, layers: nat)
    requires AllForeseen(entries, saved, groups, layers)
    ensures AllForeseen(ToReferences(entries, g), saved, groups, layers)
  {
    var entries' := ToReferences(entries, g);
    forall i
      ensures Foreseen(entries', i, saved, groups, layers)
    {
      assert Foreseen(entries, i, saved, groups, layers);
      if 0 <= i < |entries| && entries[i].tag.group != g {
        RepresentativesOther(entries, g, entries[i].tag.group);
      }
    }
  }

  /** Offloading a group keeps every entry standing for its tensor. */
  lemma BulkOffloadHeld(s: State, saved: map<Tag, Tensor>, g: int)
    requires SimHeld(s, saved) && g !in s.mapping && Ready(s.entries, g, s.groups, s.layers)
    ensures BulkOffload(s, g).Some?
    ensures SimHeld(BulkOffload(s, g).value, saved)
    ensures forall i :: 0 <= i < |s.entries| ==> BulkOffload(s, g).value.entries[i].tag == s.entries[i].tag
  {
    GroupOnDevice(s.entries, saved, s.mapping, g);
    var entries', mapping' := ToReferences(s.entries, g), s.mapping[g := OffloadAll(Representatives(s.entries, g))];
    SameTagsCover(s.entries, entries', saved);
    OffloadForeseen(s.entries, saved, g, s.groups, s.layers);
    forall i
      ensures Stands(entries', i, saved, Forward, mapping')
    {
      assert Stands(s.entries, i, saved, Forward, s.mapping);
      if 0 <= i < |s.entries| && s.entries[i].tag.group == g {
        OffloadedEntry(s.entries, saved, s.mapping, g, i, s.groups, s.layers);
      }
    }
    forall i | 0 <= i < |entries'|
      ensures entries'[i].slot.Offloaded? <==>
                entries'[i].tag.group in mapping' && Exposed(entries'[i].tag.group, s.groups, s.layers)
    {
      assert s.entries[i] in s.entries;
    }
  }

  // ----- forward commit

  /** At a forward commit, the group about to retire is a real one. */
  lemma RetireGroup(s: State, p: Plain)
    requires SimCounters(s, p) && p.phase == Forward && p.group < s.layers
    ensures s.offloaded < s.groups
  {
    if s.offloaded == s.groups {
      WindowLast(s.layers, s.groups);
    }
  }

  ghost predicate Retires(s: State, group: nat)
    requires s.groups > 0
  {
    0 <= s.offloaded && Window(s.layers, s.groups, s.offloaded) == group
  }

  /** The groups hosted after a forward commit are those hosted before and the newly offloaded ones. */
  lemma HostedForward(s: State, p: Plain, g: int)
    requires SimCounters(s, p) && p.phase == Forward && p.group < s.layers && s.offloaded < s.groups
    ensures Hosted(Forward, p.group + 1, s.groups, s.layers, g) <==>
              Hosted(Forward, p.group, s.groups, s.layers, g) || (g == 0 && p.group == 0)
              || (Retires(s, p.group) && g == s.offloaded + 1 && g < s.groups)
  {
    var k := s.offloaded;
    if 1 <= g < s.groups {
      if g - 1 < k { WindowIncreasing(s.layers, s.groups, g - 1, k); }
      if k < g - 1 { WindowIncreasing(s.layers, s.groups, k, g - 1); }
      if k >= 1 && g - 1 < k - 1 { WindowIncreasing(s.layers, s.groups, g - 1, k - 1); }
      WindowDelay(s.layers, s.groups, g - 1);
    }
  }

  lemma KickstartHeld(s: State, saved: map<Tag, Tensor>)
    requires SimHeld(s, saved) && 0 < s.groups
    requires s.current == 0 ==> 0 !in s.mapping
    ensures Kickstart(s).Some?
    ensures var s' := Kickstart(s).value;
      && SimHeld(s', saved)
      && s'.mapping.Keys == s.mapping.Keys + (if s.current == 0 then {0} else {})
      && s' == s.(entries := s'.entries, mapping := s'.mapping, log := s'.log)
      && |s'.entries| == |s.entries|
      && forall i {:trigger s'.entries[i]} :: 0 <= i < |s.entries| ==> s'.entries[i].tag == s.entries[i].tag
  {
    if s.current == 0 {
      BulkOffloadHeld(s, saved, 0);
    }
  }

  lemma RetireHeld(s: State, saved: map<Tag, Tensor>)
    requires SimHeld(s, saved) && 0 <= s.offloaded < s.groups
    requires s.offloaded + 1 !in s.mapping
    requires s.offloaded + 1 < s.groups ==> Ready(s.entries, s.offloaded + 1, s.groups, s.layers)
    ensures Retire(s).Some?
    ensures var s' := Retire(s).value;
      && SimHeld(s', saved)
      && s'.mapping.Keys == s.mapping.Keys + (if s.offloaded + 1 < s.groups then {s.offloaded + 1} else {})
      && s' == s.(entries := s'.entries, mapping := s'.mapping, log := s'.log, offloaded := s.offloaded + 1,
                  buf := Release(s.buf, s.offloaded))
  {
    if s.offloaded + 1 < s.groups {
      BulkOffloadHeld(s.(buf := Release(s.buf, s.offloaded)), saved, s.offloaded + 1);
    }
  }

  /** What one forward synchronisation leaves behind: at most two groups newly hosted, one group released. */
  lemma SimSynchronize(s: State, saved: map<Tag, Tensor>)
    requires SimHeld(s, saved)
    requires 0 <= s.offloaded < s.groups && s.current >= 0
    requires s.current == 0 ==> 0 !in s.mapping
    requires Retires(s, s.current) ==> s.offloaded + 1 !in s.mapping
    requires Retires(s, s.current) && s.offloaded + 1 < s.groups ==>
               Ready(s.entries, s.offloaded + 1, s.groups, s.layers)
    ensures SynchronizeForward(s).Some?
    ensures var s' := SynchronizeForward(s).value;
      && SimHeld(s', saved)
      && (forall g :: g in s'.mapping <==>
           g in s.mapping || (g == 0 && s.current == 0)
           || (Retires(s, s.current) && g == s.offloaded + 1 && g < s.groups))
      && s'.current == s.current && s'.groups == s.groups && s'.layers == s.layers && s'.count == s.count
      && s'.offloaded == s.offloaded + (if Retires(s, s.current) then 1 else 0)
      && s'.buf == if Retires(s, s.current) then Release(s.buf, s.offloaded) else s.buf
  {
    KickstartHeld(s, saved);
    var started := Kickstart(s).value;
    if Retires(s, s.current) {
      if s.offloaded + 1 < s.groups {
        SameReady(s.entries, started.entries, s.offloaded + 1, s.groups, s.layers);
      }
      RetireHeld(started, saved);
    }
  }

  lemma SameReady(entries: seq<Entry>, entries': seq<Entry>, g: int, groups: nat, layers: nat)
    requires Ready(entries, g, groups, layers) && |entries'| == |entries|
    requires forall i {:trigger entries'[i]} :: 0 <= i < |entries| ==> entries'[i].tag == entries[i].tag
    ensures Ready(entries', g, groups, layers)
  {
  }

  /** The group to offload next leaves the device, or has not been reached. */
  lemma NextReady(s: State, p: Plain)
    requires Sim(s, p) && p.phase == Forward && p.group < s.layers && Retires(s, p.group)
    ensures s.offloaded + 1 < s.groups ==> Ready(s.entries, s.offloaded + 1, s.groups, s.layers)
  {
    WindowDelay(s.layers, s.groups, s.offloaded);
    forall i | 0 <= i < |s.entries|
      ensures s.entries[i].tag.group <= p.group
    {
      assert Stands(s.entries, i, p.saved, Forward, s.mapping);
    }
  }

  lemma ForwardCounters(s: State, s': State, p: Plain)
    requires SimCounters(s, p) && p.phase == Forward && p.group < s.layers && s.offloaded < s.groups
    requires s'.current == s.current + 1 && s'.groups == s.groups && s'.layers == s.layers && s'.count == 0
    requires s'.offloaded == s.offloaded + if Retires(s, s.current) then 1 else 0
    ensures SimCounters(s', p.(group := p.group + 1, count := 0))
  {
    WindowIncreasing(s.layers, s.groups, s.offloaded, s.offloaded + 1);
  }

  lemma ForwardBuf(buf: map<Tag, Option<Tensor>>, saved: map<Tag, Tensor>, offloaded: int, retires: bool, groups: nat)
    requires SimBuf(buf, saved, Forward, offloaded, groups)
    ensures SimBuf(if retires then Release(buf, offloaded) else buf, saved, Forward,
                   offloaded + if retires then 1 else 0, groups)
  {
  }

  lemma SimForward(s: State, p: Plain, rule: Rule)
    requires Sim(s, p) && rule.layers == s.layers && Legal(p, rule, ForwardEvent)
    ensures CommitForward(s).Some?
    ensures Sim(CommitForward(s).value, PlainStep(p, ForwardEvent).0)
  {
    RetireGroup(s, p);
    assert !Hosted(Forward, p.group, s.groups, s.layers, s.offloaded + 1);
    assert p.group == 0 ==> !Hosted(Forward, p.group, s.groups, s.layers, 0);
    if Retires(s, p.group) {
      NextReady(s, p);
    }
    SimSynchronize(s, p.saved);
    var s' := CommitForward(s).value;
    ForwardCounters(s, s', p);
    ForwardBuf(s.buf, p.saved, s.offloaded, Retires(s, s.current), s.groups);
    forall g
      ensures g in s'.mapping <==> Hosted(Forward, p.group + 1, s.groups, s.layers, g)
    {
      HostedForward(s, p, g);
    }
  }

  // ----- backward commit

  /** At a backward commit there is a group to look up, and the counter is where the schedule says. */
  lemma PrefetchGroup(s: State, p: Plain)
    requires SimCounters(s, p) && p.group > 0 && (p.phase == Forward ==> p.group == s.layers)
    ensures 1 <= s.offloaded
    ensures p.phase == Forward ==> s.offloaded == s.groups && Window(s.layers, s.groups, s.groups - 1) == p.group - 1
  {
    WindowLast(s.layers, s.groups);
    if p.phase == Forward && s.offloaded < s.groups {
      WindowBounds(s.layers, s.groups, s.offloaded);
    }
  }

  ghost predicate Fetches(s: State, group: nat)
    requires s.groups > 0
  {
    1 <= s.offloaded && Window(s.layers, s.groups, s.offloaded - 1) == group
  }

  lemma HostedBackward(s: State, p: Plain, g: int)
    requires SimCounters(s, p) && 0 < p.group <= s.layers && (p.phase == Forward ==> p.group == s.layers)
    requires 1 <= s.offloaded
    ensures Fetches(s, p.group - 1) ==> Hosted(p.phase, p.group, s.groups, s.layers, s.offloaded - 1)
    ensures Hosted(Backward, p.group - 1, s.groups, s.layers, g) <==>
              Hosted(p.phase, p.group, s.groups, s.layers, g) && !(Fetches(s, p.group - 1) && g == s.offloaded - 1)
  {
    PrefetchGroup(s, p);
    var k := s.offloaded - 1;
    if k >= 1 { WindowBounds(s.layers, s.groups, k - 1); }
    if 0 <= g < s.groups {
      WindowBounds(s.layers, s.groups, g);
      if g >= 1 { WindowBounds(s.layers, s.groups, g - 1); }
      if g < k { WindowIncreasing(s.layers, s.groups, g, k); }
      if k < g { WindowIncreasing(s.layers, s.groups, k, g); }
      if k + 1 < g { WindowIncreasing(s.layers, s.groups, k + 1, g); }
    }
  }

  lemma GroupReloadable(entries: seq<Entry>, saved: map<Tag, Tensor>, mapping: map<int, map<Key, HostCopy>>, g: int)
    requires EntriesRepresent(entries, saved, Backward, mapping) && AllWellFormed(saved) && g in mapping
    ensures AllReloadable(entries, g, mapping[g])
  {
    forall e | e in entries
      ensures Reloadable(e, g, mapping[g])
    {
      var i :| 0 <= i < |entries| && entries[i] == e;
      assert Stands(entries, i, saved, Backward, mapping);
    }
  }

  /** Reloading a group keeps every entry standing for its tensor. */
  lemma ReloadSim(entries: seq<Entry>, saved: map<Tag, Tensor>, mapping: map<int, map<Key, HostCopy>>, g: int,
                  place: Key -> int, groups: nat, layers: nat)
    requires SimEntries(entries, saved, Backward, mapping) && g in mapping && AllReloadable(entries, g, mapping[g])
    requires Placed(entries, mapping, groups, layers)
    ensures SimEntries(ToDeviceEntries(entries, g, mapping[g], place), saved, Backward, mapping - {g})
    ensures Placed(ToDeviceEntries(entries, g, mapping[g], place), mapping - {g}, groups, layers)
  {
    var entries' := ToDeviceEntries(entries, g, mapping[g], place);
    SameTagsCover(entries, entries', saved);
    forall i
      ensures Stands(entries', i, saved, Backward, mapping - {g})
    {
      assert Stands(entries, i, saved, Backward, mapping);
      assert 0 <= i < |entries| ==> entries[i] in entries;
    }
    forall i | 0 <= i < |entries'|
      ensures entries'[i].slot.Offloaded? <==>
                entries'[i].tag.group in mapping - {g} && Exposed(entries'[i].tag.group, groups, layers)
    {
      assert entries'[i] == ToDeviceEntry(entries[i], g, mapping[g], place);
    }
  }

  /** When the backward pass starts, what is still on the device stayed there. */
  lemma BackwardEntries(s: State, p: Plain)
    requires Sim(s, p) && (p.phase == Forward ==> p.group == s.layers)
    ensures SimEntries(s.entries, p.saved, Backward, s.mapping)
  {
    forall i
      ensures Stands(s.entries, i, p.saved, Backward, s.mapping)
    {
      assert Stands(s.entries, i, p.saved, p.phase, s.mapping);
      if p.phase == Forward && 0 <= i < |s.entries| {
        var g := s.entries[i].tag.group;
        if 0 < g < s.groups {
          WindowBounds(s.layers, s.groups, g - 1);
        }
        assert 0 <= g < s.groups ==> Hosted(Forward, s.layers, s.groups, s.layers, g);
        assert Foreseen(s.entries, i, p.saved, s.groups, s.layers);
        assert s.entries[i].slot.Offloaded? <==> g in s.mapping && Exposed(g, s.groups, s.layers);
      }
    }
  }

  /** What one backward commit leaves behind: at most one group reloaded. It can fail only where sizes differ. */
  lemma BackwardHeld(s: State, saved: map<Tag, Tensor>, place: Key -> int)
    requires SimEntries(s.entries, saved, Backward, s.mapping)
    requires Placed(s.entries, s.mapping, s.groups, s.layers)
    requires 1 <= s.offloaded <= s.groups && 0 < s.current
    requires Fetches(s, s.current - 1) ==> s.offloaded - 1 in s.mapping
    ensures AllWellFormed(saved) ==> CommitBackward(s, place).Some?
    ensures CommitBackward(s, place).Some? ==>
      var s' := CommitBackward(s, place).value;
      && SimEntries(s'.entries, saved, Backward, s'.mapping)
      && Placed(s'.entries, s'.mapping, s.groups, s.layers)
      && s'.mapping == (if Fetches(s, s.current - 1) then s.mapping - {s.offloaded - 1} else s.mapping)
      && s'.current == s.current - 1 && s'.groups == s.groups && s'.layers == s.layers && s'.count == s.count
      && s'.offloaded == (if s.current == 1 then 0
                          else if Fetches(s, s.current - 1) && s.offloaded > 1 then s.offloaded - 1 else s.offloaded)
      && s'.buf == s.buf
  {
    if Fetches(s, s.current - 1) {
      var g := s.offloaded - 1;
      if AllWellFormed(saved) {
        GroupReloadable(s.entries, saved, s.mapping, g);
      }
      if AllReloadable(s.entries, g, s.mapping[g]) {
        ReloadSim(s.entries, saved, s.mapping, g, place, s.groups, s.layers);
      }
    }
  }

  lemma BackwardCounters(s: State, s': State, p: Plain)
    requires SimCounters(s, p) && 0 < p.group && (p.phase == Forward ==> p.group == s.layers)
    requires s'.current == s.current - 1 && s'.groups == s.groups && s'.layers == s.layers && s'.count == s.count
    requires s'.offloaded == if s.current == 1 then 0
                             else if Fetches(s, s.current - 1) && s.offloaded > 1 then s.offloaded - 1 else s.offloaded
    ensures SimCounters(s', p.(phase := Backward, group := p.group - 1))
  {
    PrefetchGroup(s, p);
    var k := s.offloaded - 1;
    if k >= 1 { WindowIncreasing(s.layers, s.groups, k - 1, k); }
    WindowDelay(s.layers, s.groups, k);
    WindowDelay(s.layers, s.groups, 0);
  }

  lemma SimBackward(s: State, p: Plain, rule: Rule, place: Key -> int)
    requires Sim(s, p) && rule.layers == s.layers && Legal(p, rule, BackwardEvent(place))
    ensures AllWellFormed(p.saved) ==> CommitBackward(s, place).Some?
    ensures CommitBackward(s, place).Some? ==>
              Sim(CommitBackward(s, place).value, PlainStep(p, BackwardEvent(place)).0)
  {
    PrefetchGroup(s, p);
    var moved := p.(phase := Backward, group := p.group - 1);
    HostedBackward(s, p, s.offloaded - 1);
    BackwardEntries(s, p);
    BackwardHeld(s, p.saved, place);
    if CommitBackward(s, place).Some? {
      var s' := CommitBackward(s, place).value;
      forall g
        ensures g in s'.mapping <==> Hosted(Backward, moved.group, s.groups, s.layers, g)
      {
        HostedBackward(s, p, g);
      }
      BackwardCounters(s, s', p);
      BackwardBuf(s.buf, p.saved, p.phase, s.offloaded, s'.offloaded, s.groups);
      SimSettle(s', moved);
    }
  }

  /** When the backward pass starts, every buffered reference has been released. */
  lemma BackwardBuf(buf: map<Tag, Option<Tensor>>, saved: map<Tag, Tensor>, phase: Phase, offloaded: int,
                    offloaded': int, groups: nat)
    requires SimBuf(buf, saved, phase, offloaded, groups) && (phase == Forward ==> offloaded == groups)
    ensures SimBuf(buf, saved, Backward, offloaded', groups)
  {
  }

  /** Finishing a training step changes nothing in the handler. */
  lemma SimSettle(s: State, p: Plain)
    requires SimCounters(s, p) && SimSaved(p, s.layers)
    requires SimMapping(s.mapping, p.phase, p.group, s.groups, s.layers)
    requires SimEntries(s.entries, p.saved, p.phase, s.mapping)
    requires SimBuf(s.buf, p.saved, p.phase, s.offloaded, s.groups)
    requires Placed(s.entries, s.mapping, s.groups, s.layers)
    requires p.phase == Backward
    ensures Sim(s, Settle(p))
  {
    if p.group == 0 && p.saved == map[] {
      assert s.entries == [] by {
        assert Stands(s.entries, 0, p.saved, Backward, s.mapping);
      }
      forall g
        ensures Hosted(Backward, 0, s.groups, s.layers, g) <==> Hosted(Forward, 0, s.groups, s.layers, g)
      {
        if 0 <= g < s.groups { WindowDelay(s.layers, s.groups, g); }
      }
    }
  }

  // ----- pop

  lemma PopEntries(entries: seq<Entry>, saved: map<Tag, Tensor>, mapping: map<int, map<Key, HostCopy>>, i: nat)
    requires SimEntries(entries, saved, Backward, mapping) && i < |entries|
    ensures SimEntries(RemoveAt(entries, i), saved - {entries[i].tag}, Backward, mapping)
  {
    var tag, rest := entries[i].tag, RemoveAt(entries, i);
    forall j
      ensures Stands(rest, j, saved - {tag}, Backward, mapping)
    {
      var j' := if j < i then j else j + 1;
      assert Stands(entries, j', saved, Backward, mapping) && Apart(entries, j', i) && Apart(entries, i, j');
      assert 0 <= j < |rest| ==> rest[j] == entries[j'];
    }
    forall j, k
      ensures Apart(rest, j, k)
    {
      assert Apart(entries, if j < i then j else j + 1, if k < i then k else k + 1);
    }
    forall u | u in saved - {tag}
      ensures HasTag(rest, u)
    {
      assert HasTag(entries, u);
      var j := IndexOf(entries, u);
      assert rest[if j < i then j else j - 1].tag == u;
    }
  }

  lemma PopPlaced(entries: seq<Entry>, mapping: map<int, map<Key, HostCopy>>, i: nat, groups: nat, layers: nat)
    requires Placed(entries, mapping, groups, layers) && i < |entries|
    ensures Placed(RemoveAt(entries, i), mapping, groups, layers)
  {
    var rest := RemoveAt(entries, i);
    forall j | 0 <= j < |rest|
      ensures rest[j].slot.Offloaded? <==> rest[j].tag.group in mapping && Exposed(rest[j].tag.group, groups, layers)
    {
      assert rest[j] == entries[if j < i then j else j + 1];
      assert entries[if j < i then j else j + 1].slot == rest[j].slot;
    }
  }

  /** A tag popped during its own layer's backward has its tensor on the device. */
  lemma PopOnDevice(s: State, p: Plain, rule: Rule, tag: Tag)
    requires Sim(s, p) && rule.layers == s.layers && Legal(p, rule, PopEvent(Saved(tag)))
    ensures HasTag(s.entries, tag) && tag.group !in s.mapping
    ensures var slot := s.entries[IndexOf(s.entries, tag)].slot;
            slot.OnDevice? && SameContents(slot.tensor, p.saved[tag]) && WellFormed(slot.tensor)
  {
    if tag.group in s.mapping {
      assert Hosted(p.phase, p.group, s.groups, s.layers, tag.group);
      WindowDelay(s.layers, s.groups, tag.group);
    }
    assert HasTag(s.entries, tag);
    var i := IndexOf(s.entries, tag);
    assert Stands(s.entries, i, p.saved, p.phase, s.mapping);
  }

  lemma SimPop(s: State, p: Plain, rule: Rule, tag: Tag)
    requires Sim(s, p) && rule.layers == s.layers && Legal(p, rule, PopEvent(Saved(tag)))
    ensures Pop(s, Saved(tag)).Some?
    ensures SameContents(Pop(s, Saved(tag)).value.1, p.saved[tag]) && WellFormed(p.saved[tag])
    ensures Sim(Pop(s, Saved(tag)).value.0, PlainStep(p, PopEvent(Saved(tag))).0)
  {
    PopOnDevice(s, p, rule, tag);
    var i := IndexOf(s.entries, tag);
    PopEntries(s.entries, p.saved, s.mapping, i);
    PopPlaced(s.entries, s.mapping, i, s.groups, s.layers);
    SimSettle(Pop(s, Saved(tag)).value.0, p.(saved := p.saved - {tag}));
  }
}
