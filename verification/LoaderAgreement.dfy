/** All ranks issue the same collectives with the same sources, and end with the values in the files. */
module LoaderAgreement {
  import opened Common
  import opened Loader

  /** The rank that, as far as `s` knows, holds a parameter. */
  function Holder<V>(s: Rank<V>, name: string): nat
    requires name in s.shard
  {
    match s.shard[name]
    case Local(_) => s.me
    case Remote(r) => r
  }

  predicate SameOp<V>(a: Broadcast<V>, b: Broadcast<V>) {
    a.state == b.state && a.name == b.name && a.src == b.src
  }

  ghost predicate SameOps<V>(a: seq<Broadcast<V>>, b: seq<Broadcast<V>>) {
    |a| == |b| && forall k :: 0 <= k < |a| ==> SameOp(a[k], b[k])
  }

  ghost predicate SamePlaces<V>(a: seq<Placed<V>>, b: seq<Placed<V>>) {
    |a| == |b| && forall k :: 0 <= k < |a| ==> a[k].slot == b[k].slot && a[k].made.name == b[k].made.name
  }

  /** Two ranks that differ only in which values they hold. */
  ghost predicate Agree<V>(a: Rank<V>, b: Rank<V>) {
    && a.names == b.names
    && a.shard.Keys == b.shard.Keys
    && (forall name :: name in a.shard ==> Holder(a, name) == Holder(b, name))
    && a.made.Keys == b.made.Keys
    && (forall st :: st in a.made ==> a.made[st].name == b.made[st].name)
    && SameOps(a.sent, b.sent)
    && SamePlaces(a.placed, b.placed)
  }

  lemma CreateAgree<V>(a: Rank<V>, b: Rank<V>, name: string, state: nat, net: nat -> V)
    requires Agree(a, b)
    ensures CreateAndSync(a, name, state, net).Some? <==> CreateAndSync(b, name, state, net).Some?
    ensures CreateAndSync(a, name, state, net).Some? ==>
              var (a', m) := CreateAndSync(a, name, state, net).value;
              var (b', n) := CreateAndSync(b, name, state, net).value;
              Agree(a', b') && m.name == n.name == name
  {
  }

  lemma PlaceAgree<V>(a: Rank<V>, b: Rank<V>, slot: Slot, m: Made<V>, n: Made<V>)
    requires Agree(a, b) && m.name == n.name
    ensures Agree(Place(a, slot, m), Place(b, slot, n))
  {
  }

  /** Placing what was made, with or without remembering it. */
  lemma KeepAgree<V>(a: Rank<V>, b: Rank<V>, slot: Slot, m: Made<V>, n: Made<V>)
    requires Agree(a, b) && m.name == n.name
    ensures Agree(Place(a, slot, m), Place(b, slot, n))
    ensures Agree(Place(a.(made := a.made[slot.state := m]), slot, m),
              Place(b.(made := b.made[slot.state := n]), slot, n))
  {
    PlaceAgree(a, b, slot, m, n);
    PlaceAgree(a.(made := a.made[slot.state := m]), b.(made := b.made[slot.state := n]), slot, m, n);
  }

  lemma VisitAgree<V>(a: Rank<V>, b: Rank<V>, shared: set<nat>, slot: Slot, net: nat -> V)
    requires Agree(a, b)
    ensures Visit(a, shared, slot, net).Some? <==> Visit(b, shared, slot, net).Some?
    ensures Visit(a, shared, slot, net).Some? ==>
              Agree(Visit(a, shared, slot, net).value, Visit(b, shared, slot, net).value)
  {
    if slot.meta && slot.state in a.names && a.names[slot.state] != [] {
      var name := a.names[slot.state][0];
      var a1 := a.(names := a.names[slot.state := a.names[slot.state][1..]]);
      var b1 := b.(names := b.names[slot.state := b.names[slot.state][1..]]);
      if slot.state in shared && slot.state in a1.made {
        PlaceAgree(a1.(shard := a1.shard - {name}), b1.(shard := b1.shard - {name}), slot,
                   a1.made[slot.state], b1.made[slot.state]);
      } else {
        CreateAgree(a1, b1, name, slot.state, net);
        if CreateAndSync(a1, name, slot.state, net).Some? {
          var (a2, m) := CreateAndSync(a1, name, slot.state, net).value;
          var (b2, n) := CreateAndSync(b1, name, slot.state, net).value;
          KeepAgree(a2, b2, slot, m, n);
        }
      }
    }
  }

  /** Whatever the tree, two ranks fail at the same slot or issue the same collectives in the same order. */
  lemma {:induction false} RunAgree<V>(a: Rank<V>, b: Rank<V>, shared: set<nat>, slots: seq<Slot>, net: nat -> V)
    requires Agree(a, b)
    ensures Run(a, shared, slots, net).Some? <==> Run(b, shared, slots, net).Some?
    ensures Run(a, shared, slots, net).Some? ==>
              Agree(Run(a, shared, slots, net).value, Run(b, shared, slots, net).value)
    decreases |slots|
  {
    if slots == [] {
    } else {
      var init := slots[..|slots| - 1];
      RunAgree(a, b, shared, init, net);
      if Run(a, shared, init, net).Some? {
        VisitAgree(Run(a, shared, init, net).value, Run(b, shared, init, net).value, shared, slots[|slots| - 1], net);
      }
    }
  }

  // ----- what is sent

  /** Every loaded or sent value is the file's, and exactly the source of a collective sends. */
  ghost predicate Truthful<V>(s: Rank<V>, content: map<string, V>) {
    && (forall name :: name in s.shard ==> name in content)
    && (forall name :: name in s.shard && s.shard[name].Local? ==> s.shard[name].value == content[name])
    && (forall name :: name in s.shard && s.shard[name].Remote? ==> s.shard[name].rank != s.me)
    && (forall k :: 0 <= k < |s.sent| ==> TruthfulOp(s.sent[k], s.me, content))
  }

  ghost predicate TruthfulOp<V>(op: Broadcast<V>, me: nat, content: map<string, V>) {
    op.name in content && op.sent == if op.src == me then Some(content[op.name]) else None
  }

  lemma VisitTruthful<V>(s: Rank<V>, content: map<string, V>, shared: set<nat>, slot: Slot, net: nat -> V)
    requires Truthful(s, content) && Visit(s, shared, slot, net).Some?
    ensures Truthful(Visit(s, shared, slot, net).value, content)
    ensures Visit(s, shared, slot, net).value.me == s.me && s.sent <= Visit(s, shared, slot, net).value.sent
  {
  }

  lemma {:induction false} RunTruthful<V>(
    s: Rank<V>, content: map<string, V>, shared: set<nat>, slots: seq<Slot>, net: nat -> V)
    requires Truthful(s, content) && Run(s, shared, slots, net).Some?
    ensures Truthful(Run(s, shared, slots, net).value, content)
    ensures Run(s, shared, slots, net).value.me == s.me
    decreases |slots|
  {
    if slots == [] {
    } else {
      RunTruthful(s, content, shared, slots[..|slots| - 1], net);
      VisitTruthful(Run(s, shared, slots[..|slots| - 1], net).value, content, shared, slots[|slots| - 1], net);
    }
  }

  // ----- what is received

  /** Every collective delivers the file's value of the parameter it is about. */
  ghost predicate Delivers<V>(net: nat -> V, ops: seq<Broadcast<V>>, content: map<string, V>) {
    forall k :: 0 <= k < |ops| ==> ops[k].name in content && net(k) == content[ops[k].name]
  }

  ghost predicate Correct<V>(made: Made<V>, content: map<string, V>) {
    made.name in content && made.value == content[made.name]
  }

  ghost predicate Filled<V>(s: Rank<V>, content: map<string, V>) {
    && (forall st :: st in s.made ==> Correct(s.made[st], content))
    && (forall k :: 0 <= k < |s.placed| ==> Correct(s.placed[k].made, content))
  }

  lemma VisitFilled<V>(s: Rank<V>, content: map<string, V>, shared: set<nat>, slot: Slot, net: nat -> V)
    requires Truthful(s, content) && Filled(s, content) && Visit(s, shared, slot, net).Some?
    requires Delivers(net, Visit(s, shared, slot, net).value.sent, content)
    ensures Filled(Visit(s, shared, slot, net).value, content)
  {
    var s' := Visit(s, shared, slot, net).value;
    if |s'.sent| > |s.sent| {
      assert s'.sent[|s.sent|].name in content;
    }
  }

  lemma {:induction false} RunFilled<V>(
    s: Rank<V>, content: map<string, V>, shared: set<nat>, slots: seq<Slot>, net: nat -> V)
    requires Truthful(s, content) && Filled(s, content) && Run(s, shared, slots, net).Some?
    requires Delivers(net, Run(s, shared, slots, net).value.sent, content)
    ensures Filled(Run(s, shared, slots, net).value, content)
    decreases |slots|
  {
    if slots == [] {
    } else {
      var init := slots[..|slots| - 1];
      RunTruthful(s, content, shared, init, net);
      var s1 := Run(s, shared, init, net).value;
      VisitTruthful(s1, content, shared, slots[|slots| - 1], net);
      RunFilled(s, content, shared, init, net);
      VisitFilled(s1, content, shared, slots[|slots| - 1], net);
    }
  }

  // ----- shared parameters

  /** A shared parameter that was broadcast is remembered, so it is never broadcast again. */
  ghost predicate Once<V>(s: Rank<V>, shared: set<nat>) {
    && (forall k :: 0 <= k < |s.sent| && s.sent[k].state in shared ==> s.sent[k].state in s.made)
    && (forall j, k :: 0 <= j < k < |s.sent| && s.sent[j].state == s.sent[k].state ==> s.sent[j].state !in shared)
  }

  lemma {:induction false} RunOnce<V>(s: Rank<V>, shared: set<nat>, slots: seq<Slot>, net: nat -> V)
    requires Once(s, shared) && Run(s, shared, slots, net).Some?
    ensures Once(Run(s, shared, slots, net).value, shared)
    decreases |slots|
  {
    if slots == [] {
    } else {
      RunOnce(s, shared, slots[..|slots| - 1], net);
    }
  }

  // ----- all ranks

  function Start<V>(me: nat, shard: map<string, Shard<V>>, names: map<nat, seq<string>>): Rank<V> {
    Rank(me, shard, names, map[], [], [])
  }

  /** The union of the files. */
  ghost function Content<V>(files: seq<map<string, V>>): map<string, V> {
    if files == [] then map[] else Content(files[..|files| - 1]) + files[|files| - 1]
  }

  lemma {:induction false} ContentOf<V>(files: seq<map<string, V>>, f: nat, name: string)
    requires OneFileEach(files) && f < |files| && name in files[f]
    ensures name in Content(files) && Content(files)[name] == files[f][name]
    decreases |files|
  {
    if f < |files| - 1 {
      ContentOf(files[..|files| - 1], f, name);
    }
  }

  lemma StartTruthful<V>(
    files: seq<map<string, V>>, world: nat, me: nat, shard: map<string, Shard<V>>, names: map<nat, seq<string>>)
    requires world > 0 && me < world && OneFileEach(files) && KnowsUpTo(shard, files, world, me, |files|)
    ensures Truthful(Start(me, shard, names), Content(files))
  {
    forall name | name in shard
      ensures name in Content(files)
      ensures shard[name] == Local(Content(files)[name]) || (shard[name].Remote? && shard[name].rank != me)
    {
      assert InFiles(files, |files|, name);
      var f :| 0 <= f < |files| && name in files[f];
      assert KnowsOne(shard, files, world, me, f, name);
      ContentOf(files, f, name);
    }
  }

  lemma StartAgree<V>(files: seq<map<string, V>>, world: nat, i: nat, j: nat, a: map<string, Shard<V>>,
                      b: map<string, Shard<V>>, names: map<nat, seq<string>>)
    requires world > 0 && OneFileEach(files)
    requires KnowsUpTo(a, files, world, i, |files|) && KnowsUpTo(b, files, world, j, |files|)
    ensures Agree(Start(i, a, names), Start(j, b, names))
  {
    forall name
      ensures name in a <==> name in b
      ensures name in a ==> Holder(Start(i, a, names), name) == Holder(Start(j, b, names), name)
    {
      if name in a || name in b {
        assert InFiles(files, |files|, name);
        var f :| 0 <= f < |files| && name in files[f];
        assert KnowsOne(a, files, world, i, f, name) && KnowsOne(b, files, world, j, f, name);
      }
    }
  }

  /** What a source puts into a collective is what the collective delivers. */
  ghost predicate Honest<V>(net: nat -> V, ranks: seq<Rank<V>>) {
    forall r, k :: 0 <= r < |ranks| && 0 <= k < |ranks[r].sent| && ranks[r].sent[k].sent.Some? ==>
      net(k) == ranks[r].sent[k].sent.value
  }

  /** Sources are ranks of the group. */
  ghost predicate SourcesBelow<V>(s: Rank<V>, world: nat) {
    && (forall name :: name in s.shard ==> Holder(s, name) < world)
    && (forall k :: 0 <= k < |s.sent| ==> s.sent[k].src < world)
  }

  lemma {:induction false} RunSources<V>(s: Rank<V>, world: nat, shared: set<nat>, slots: seq<Slot>, net: nat -> V)
    requires SourcesBelow(s, world) && Run(s, shared, slots, net).Some?
    ensures SourcesBelow(Run(s, shared, slots, net).value, world) && Run(s, shared, slots, net).value.me == s.me
    decreases |slots|
  {
    if slots == [] {
    } else {
      RunSources(s, world, shared, slots[..|slots| - 1], net);
    }
  }

  lemma StartSources<V>(
    files: seq<map<string, V>>, world: nat, me: nat, shard: map<string, Shard<V>>, names: map<nat, seq<string>>)
    requires world > 0 && me < world && KnowsUpTo(shard, files, world, me, |files|)
    ensures SourcesBelow(Start(me, shard, names), world)
  {
    forall name | name in shard
      ensures Holder(Start(me, shard, names), name) < world
    {
      assert InFiles(files, |files|, name);
      var f :| 0 <= f < |files| && name in files[f];
      assert KnowsOne(shard, files, world, me, f, name);
      SlicesPartition(|files|, world, f, 0);
    }
  }

  /** The group: every rank loaded the checkpoint on its own. */
  ghost predicate Group<V>(files: seq<map<string, V>>, shards: seq<map<string, Shard<V>>>) {
    && |shards| > 0 && OneFileEach(files)
    && forall r :: 0 <= r < |shards| ==> KnowsUpTo(shards[r], files, |shards|, r, |files|)
  }

  ghost function Final<V>(shards: seq<map<string, Shard<V>>>, names: map<nat, seq<string>>, shared: set<nat>,
                          slots: seq<Slot>, net: nat -> V, r: nat): Option<Rank<V>>
    requires r < |shards|
  {
    Run(Start(r, shards[r], names), shared, slots, net)
  }

  /**
   All ranks fail together or succeed together, with the same collectives; each has one source, the rank that sends.
   */
  lemma GroupAgrees<V>(
    files: seq<map<string, V>>, shards: seq<map<string, Shard<V>>>, names: map<nat, seq<string>>, shared: set<nat>,
    slots: seq<Slot>, net: nat -> V, i: nat, j: nat)
    requires Group(files, shards) && i < |shards| && j < |shards|
    ensures Final(shards, names, shared, slots, net, i).Some? <==> Final(shards, names, shared, slots, net, j).Some?
    ensures Final(shards, names, shared, slots, net, i).Some? ==>
              var (a, b) := (Final(shards, names, shared, slots, net, i).value,
                  Final(shards, names, shared, slots, net, j).value);
              && SameOps(a.sent, b.sent) && SamePlaces(a.placed, b.placed)
              && Truthful(a, Content(files)) && a.me == i && SourcesBelow(a, |shards|) && Once(a, shared)
  {
    StartAgree(files, |shards|, i, j, shards[i], shards[j], names);
    RunAgree(Start(i, shards[i], names), Start(j, shards[j], names), shared, slots, net);
    if Final(shards, names, shared, slots, net, i).Some? {
      StartTruthful(files, |shards|, i, shards[i], names);
      RunTruthful(Start(i, shards[i], names), Content(files), shared, slots, net);
      StartSources(files, |shards|, i, shards[i], names);
      RunSources(Start(i, shards[i], names), |shards|, shared, slots, net);
      RunOnce(Start(i, shards[i], names), shared, slots, net);
    }
  }

  lemma GroupDelivers<V>(
    files: seq<map<string, V>>, shards: seq<map<string, Shard<V>>>, names: map<nat, seq<string>>, shared: set<nat>,
    slots: seq<Slot>, net: nat -> V, ranks: seq<Rank<V>>, i: nat)
    requires Group(files, shards) && |ranks| == |shards| && i < |shards|
    requires forall r :: 0 <= r < |shards| ==> Final(shards, names, shared, slots, net, r) == Some(ranks[r])
    requires Honest(net, ranks)
    ensures Delivers(net, ranks[i].sent, Content(files))
  {
    forall k | 0 <= k < |ranks[i].sent|
      ensures ranks[i].sent[k].name in Content(files) && net(k) == Content(files)[ranks[i].sent[k].name]
    {
      GroupAgrees(files, shards, names, shared, slots, net, i, i);
      var src := ranks[i].sent[k].src;
      GroupAgrees(files, shards, names, shared, slots, net, src, i);
      assert SameOp(ranks[src].sent[k], ranks[i].sent[k]);
      assert TruthfulOp(ranks[src].sent[k], src, Content(files));
    }
  }

  // ----- every slot under its own name

  /** The slots that are initialised, in the order of the walk. */
  function MetaSlots(slots: seq<Slot>): seq<Slot> {
    if slots == [] then []
    else
      var n := |slots| - 1;
      MetaSlots(slots[..n]) + if slots[n].meta then [slots[n]] else []
  }

  function CountOf(slots: seq<Slot>, state: nat): nat {
    if slots == [] then 0
    else CountOf(slots[..|slots| - 1], state) + if slots[|slots| - 1].state == state then 1 else 0
  }

  /** The name under which the k-th initialised slot is loaded: its own turn's, or the first of a shared tensor. */
  ghost predicate LoadedAs(names: map<nat, seq<string>>, shared: set<nat>, meta: seq<Slot>, k: nat, name: string)
    requires k < |meta|
  {
    var (state, turn) := (meta[k].state, CountOf(meta[..k], meta[k].state));
    state in names && turn < |names[state]| && name == names[state][if state in shared then 0 else turn]
  }

  ghost predicate PlacedAll<V>(
    names: map<nat, seq<string>>, shared: set<nat>, meta: seq<Slot>, placed: seq<Placed<V>>)
  {
    |placed| == |meta| &&
    forall k :: 0 <= k < |meta| ==> placed[k].slot == meta[k] && LoadedAs(names, shared, meta, k, placed[k].made.name)
  }

  /** The names still to come, and the shared tensors already made. */
  ghost predicate NamesLeft<V>(
    names: map<nat, seq<string>>, shared: set<nat>, meta: seq<Slot>, left: map<nat, seq<string>>, made: map<nat,
        Made<V>>)
  {
    && left.Keys == names.Keys
    && (forall st :: st in names ==> CountOf(meta, st) <= |names[st]| && left[st] == names[st][CountOf(meta, st)..])
    && (forall st :: st in made <==> st in shared && CountOf(meta, st) > 0)
    && (forall st :: st in made ==> st in names && names[st] != [] && made[st].name == names[st][0])
  }

  lemma MetaSnoc(meta: seq<Slot>, slot: Slot)
    ensures forall st :: CountOf(meta + [slot], st) == CountOf(meta, st) + if slot.state == st then 1 else 0
    ensures forall k :: 0 <= k <= |meta| ==> (meta + [slot])[..k] == meta[..k]
  {
    assert (meta + [slot])[..|meta|] == meta;
  }

  /** What a visit makes, and what it leaves behind. */
  lemma VisitShape<V>(s: Rank<V>, shared: set<nat>, slot: Slot, net: nat -> V) returns (made: Made<V>)
    requires slot.meta && Visit(s, shared, slot, net).Some?
    ensures var (s', st) := (Visit(s, shared, slot, net).value, slot.state);
      && st in s.names && s.names[st] != [] && s'.names == s.names[st := s.names[st][1..]]
      && s'.placed == s.placed + [Placed(slot, made)]
      && made.name == (if st in shared && st in s.made then s.made[st].name else s.names[st][0])
      && s'.made == if st in shared && st !in s.made then s.made[st := made] else s.made
  {
    var s' := Visit(s, shared, slot, net).value;
    made := s'.placed[|s.placed|].made;
  }

  lemma NamesStep<V>(
    names: map<nat, seq<string>>, shared: set<nat>, meta: seq<Slot>, slot: Slot, left: map<nat, seq<string>>,
    before: map<nat, Made<V>>, made: Made<V>)
    requires NamesLeft(names, shared, meta, left, before) && slot.state in left && left[slot.state] != []
    requires made.name ==
               if slot.state in shared && slot.state in before then before[slot.state].name else left[slot.state][0]
    ensures NamesLeft(names, shared, meta + [slot], left[slot.state := left[slot.state][1..]],
                      if slot.state in shared && slot.state !in before then before[slot.state := made] else before)
    ensures LoadedAs(names, shared, meta + [slot], |meta|, made.name)
  {
    MetaSnoc(meta, slot);
  }

  lemma VisitPlaces<V>(
    names: map<nat, seq<string>>, s: Rank<V>, shared: set<nat>, meta: seq<Slot>, slot: Slot, net: nat -> V)
    requires PlacedAll(names, shared, meta, s.placed) && NamesLeft(names, shared, meta, s.names, s.made)
    requires slot.meta && Visit(s, shared, slot, net).Some?
    ensures var s' := Visit(s, shared, slot, net).value;
            PlacedAll(names, shared, meta + [slot], s'.placed) &&
                NamesLeft(names, shared, meta + [slot], s'.names, s'.made)
  {
    var made := VisitShape(s, shared, slot, net);
    NamesStep(names, shared, meta, slot, s.names, s.made, made);
    PlacedSnoc(names, shared, meta, slot, s.placed, Placed(slot, made));
  }

  lemma PlacedSnoc<V>(
    names: map<nat, seq<string>>, shared: set<nat>, meta: seq<Slot>, slot: Slot, placed: seq<Placed<V>>,
        last: Placed<V>)
    requires PlacedAll(names, shared, meta, placed) && last.slot == slot
    requires LoadedAs(names, shared, meta + [slot], |meta|, last.made.name)
    ensures PlacedAll(names, shared, meta + [slot], placed + [last])
  {
    MetaSnoc(meta, slot);
    forall k | 0 <= k < |meta|
      ensures LoadedAs(names, shared, meta + [slot], k, placed[k].made.name)
    {
      assert LoadedAs(names, shared, meta, k, placed[k].made.name);
    }
  }

  /** The walk fills every slot on the meta device, in order, each under its own name. */
  lemma {:induction false} RunPlaces<V>(
    names: map<nat, seq<string>>, me: nat, shard: map<string, Shard<V>>, shared: set<nat>, slots: seq<Slot>,
        net: nat -> V)
    requires Run(Start(me, shard, names), shared, slots, net).Some?
    ensures var s := Run(Start(me, shard, names), shared, slots, net).value;
            PlacedAll(names, shared, MetaSlots(slots), s.placed) &&
                NamesLeft(names, shared, MetaSlots(slots), s.names, s.made)
    decreases |slots|
  {
    if slots == [] {
    } else {
      var n := |slots| - 1;
      RunPlaces(names, me, shard, shared, slots[..n], net);
      if slots[n].meta {
        var s := Run(Start(me, shard, names), shared, slots[..n], net).value;
        VisitPlaces(names, s, shared, MetaSlots(slots[..n]), slots[n], net);
      } else {
        assert MetaSlots(slots) == MetaSlots(slots[..n]);
      }
    }
  }

  // ----- when a walk succeeds

  /** No two tensors, and no two turns of one, have the same name. */
  ghost predicate DistinctNames(names: map<nat, seq<string>>) {
    forall a, b, i: nat, j: nat ::
      a in names && b in names && i < |names[a]| && j < |names[b]| && names[a][i] == names[b][j] ==> a == b && i == j
  }

  /**
   The k-th initialised slot has a name, and the name is stored; of a shared parameter only the first name has to be.
   A shared buffer, unlike a parameter, needs every name.
   */
  ghost predicate Stored(stored: set<string>, names: map<nat, seq<string>>, shared: set<nat>, meta: seq<Slot>, k: nat)
    requires k < |meta|
  {
    var (state, turn) := (meta[k].state, CountOf(meta[..k], meta[k].state));
    && state in names && turn < |names[state]|
    && ((state in shared && turn > 0 && meta[k].isParam) || names[state][turn] in stored)
  }

  ghost predicate AllStored(stored: set<string>, names: map<nat, seq<string>>, shared: set<nat>, meta: seq<Slot>) {
    forall k :: 0 <= k < |meta| ==> Stored(stored, names, shared, meta, k)
  }

  /** The names still to come are there exactly when they were at the start. */
  ghost predicate Untouched(names: map<nat, seq<string>>, meta: seq<Slot>, before: set<string>, after: set<string>) {
    forall st, i :: st in names && CountOf(meta, st) <= i < |names[st]| ==>
        (names[st][i] in after <==> names[st][i] in before)
  }

  lemma UntouchedStep(
    names: map<nat, seq<string>>, meta: seq<Slot>, slot: Slot, before: set<string>, after: set<string>,
        next: set<string>)
    requires DistinctNames(names) && Untouched(names, meta, before, after)
    requires slot.state in names && CountOf(meta, slot.state) < |names[slot.state]|
    requires next == after - {names[slot.state][CountOf(meta, slot.state)]} || next == after
    ensures Untouched(names, meta + [slot], before, next)
  {
    MetaSnoc(meta, slot);
  }

  lemma VisitStored<V>(
    names: map<nat, seq<string>>, s: Rank<V>, shared: set<nat>, meta: seq<Slot>, slot: Slot, net: nat -> V,
    stored: set<string>)
    requires DistinctNames(names) && NamesLeft(names, shared, meta, s.names, s.made) && slot.meta
    requires Untouched(names, meta, stored, s.shard.Keys)
    ensures Visit(s, shared, slot, net).Some? <==> Stored(stored, names, shared, meta + [slot], |meta|)
    ensures Visit(s, shared, slot, net).Some? ==>
              Untouched(names, meta + [slot], stored, Visit(s, shared, slot, net).value.shard.Keys)
  {
    assert (meta + [slot])[..|meta|] == meta;
    if slot.state in names && CountOf(meta, slot.state) < |names[slot.state]| {
      var name := names[slot.state][CountOf(meta, slot.state)];
      assert s.names[slot.state] != [] && s.names[slot.state][0] == name;
      if Visit(s, shared, slot, net).Some? {
        var next := Visit(s, shared, slot, net).value.shard.Keys;
        assert next == s.shard.Keys - {name};
        UntouchedStep(names, meta, slot, stored, s.shard.Keys, next);
      }
    }
  }

  lemma StoredSnoc(stored: set<string>, names: map<nat, seq<string>>, shared: set<nat>, meta: seq<Slot>, slot: Slot)
    ensures AllStored(stored, names, shared, meta + [slot]) <==>
              AllStored(stored, names, shared, meta) && Stored(stored, names, shared, meta + [slot], |meta|)
  {
    MetaSnoc(meta, slot);
    forall k | 0 <= k < |meta|
      ensures Stored(stored, names, shared, meta + [slot], k) <==> Stored(stored, names, shared, meta, k)
    {
    }
  }

  /** A walk succeeds exactly when the names that are needed are stored. */
  lemma {:induction false} RunExactly<V>(
    names: map<nat, seq<string>>, me: nat, shard: map<string, Shard<V>>, shared: set<nat>, slots: seq<Slot>,
        net: nat -> V)
    requires DistinctNames(names)
    ensures Run(Start(me, shard, names), shared, slots, net).Some? <==>
              AllStored(shard.Keys, names, shared, MetaSlots(slots))
    ensures Run(Start(me, shard, names), shared, slots, net).Some? ==>
              Untouched(names, MetaSlots(slots), shard.Keys,
                  Run(Start(me, shard, names), shared, slots, net).value.shard.Keys)
    decreases |slots|
  {
    if slots == [] {
    } else {
      var n := |slots| - 1;
      RunExactly(names, me, shard, shared, slots[..n], net);
      var meta := MetaSlots(slots[..n]);
      if slots[n].meta {
        StoredSnoc(shard.Keys, names, shared, meta, slots[n]);
        if Run(Start(me, shard, names), shared, slots[..n], net).Some? {
          RunPlaces(names, me, shard, shared, slots[..n], net);
          var s := Run(Start(me, shard, names), shared, slots[..n], net).value;
          VisitStored(names, s, shared, meta, slots[n], net, shard.Keys);
        }
      } else {
        assert MetaSlots(slots) == meta;
      }
    }
  }

  /** The name is that of one of the initialised slots' turns. */
  ghost predicate Consumed(names: map<nat, seq<string>>, meta: seq<Slot>, name: string) {
    exists k :: 0 <= k < |meta| && TurnName(names, meta, k, name)
  }

  ghost predicate TurnName(names: map<nat, seq<string>>, meta: seq<Slot>, k: int, name: string) {
    && 0 <= k < |meta| && meta[k].state in names
    && CountOf(meta[..k], meta[k].state) < |names[meta[k].state]|
    && name == names[meta[k].state][CountOf(meta[..k], meta[k].state)]
  }

  lemma ConsumedSnoc(names: map<nat, seq<string>>, meta: seq<Slot>, slot: Slot, name: string)
    ensures Consumed(names, meta + [slot], name) <==>
              Consumed(names, meta, name) || TurnName(names, meta + [slot], |meta|, name)
  {
    MetaSnoc(meta, slot);
    if k :| 0 <= k < |meta| && TurnName(names, meta, k, name) {
      assert TurnName(names, meta + [slot], k, name);
    }
    if k :| 0 <= k < |meta + [slot]| && TurnName(names, meta + [slot], k, name) && k < |meta| {
      assert TurnName(names, meta, k, name);
    }
  }

  /** What is left after a walk: the stored names that no initialised slot had. */
  lemma {:induction false} RunConsumes<V>(
    names: map<nat, seq<string>>, me: nat, shard: map<string, Shard<V>>, shared: set<nat>, slots: seq<Slot>,
    net: nat -> V, name: string)
    requires Run(Start(me, shard, names), shared, slots, net).Some?
    ensures name in Run(Start(me, shard, names), shared, slots, net).value.shard <==>
              name in shard && !Consumed(names, MetaSlots(slots), name)
    decreases |slots|
  {
    if slots == [] {
    } else {
      var n := |slots| - 1;
      RunConsumes(names, me, shard, shared, slots[..n], net, name);
      if slots[n].meta {
        var s := Run(Start(me, shard, names), shared, slots[..n], net).value;
        RunPlaces(names, me, shard, shared, slots[..n], net);
        ConsumedSnoc(names, MetaSlots(slots[..n]), slots[n], name);
        VisitConsumes(names, s, shared, MetaSlots(slots[..n]), slots[n], net, name);
      } else {
        assert MetaSlots(slots) == MetaSlots(slots[..n]);
      }
    }
  }

  lemma VisitConsumes<V>(
    names: map<nat, seq<string>>, s: Rank<V>, shared: set<nat>, meta: seq<Slot>, slot: Slot, net: nat -> V,
        name: string)
    requires NamesLeft(names, shared, meta, s.names, s.made) && slot.meta && Visit(s, shared, slot, net).Some?
    ensures name in Visit(s, shared, slot, net).value.shard <==>
              name in s.shard && !TurnName(names, meta + [slot], |meta|, name)
  {
    assert (meta + [slot])[..|meta|] == meta;
    assert s.names[slot.state][0] == names[slot.state][CountOf(meta, slot.state)];
  }

  /** The initialised slots that cause a broadcast: all but those of a shared tensor after its first. */
  function Sends(meta: seq<Slot>, shared: set<nat>): seq<nat> {
    if meta == [] then []
    else
      var n := |meta| - 1;
      Sends(meta[..n], shared)
      + if meta[n].state in shared && CountOf(meta[..n], meta[n].state) > 0 then [] else [n]
  }

  lemma {:induction false} SendsExactly(meta: seq<Slot>, shared: set<nat>, k: nat)
    ensures k in Sends(meta, shared) <==>
              k < |meta| && !(meta[k].state in shared && CountOf(meta[..k], meta[k].state) > 0)
    ensures forall i, j :: 0 <= i < j < |Sends(meta, shared)| ==> Sends(meta, shared)[i] < Sends(meta, shared)[j]
    ensures forall i :: 0 <= i < |Sends(meta, shared)| ==> Sends(meta, shared)[i] < |meta|
    decreases |meta|
  {
    if meta == [] {
    } else {
      var n := |meta| - 1;
      SendsExactly(meta[..n], shared, k);
      assert k < n ==> meta[..n][..k] == meta[..k];
    }
  }

  /** A broadcast for slot `k`: its tensor, under the name of its turn, from the rank that holds it at the start. */
  ghost predicate SentFor<V>(
    start: Rank<V>, names: map<nat, seq<string>>, meta: seq<Slot>, k: int, op: Broadcast<V>)
  {
    && TurnName(names, meta, k, op.name) && op.state == meta[k].state
    && op.name in start.shard && op.src == Holder(start, op.name)
  }

  /** The broadcasts of a walk: one for each slot that causes one, in their order. */
  ghost predicate SentAll<V>(
    start: Rank<V>, names: map<nat, seq<string>>, shared: set<nat>, meta: seq<Slot>, s: Rank<V>)
  {
    && s.me == start.me && (forall name :: name in s.shard ==>
        name in start.shard && s.shard[name] == start.shard[name])
    && |s.sent| == |Sends(meta, shared)|
    && forall j :: 0 <= j < |s.sent| ==> SentFor(start, names, meta, Sends(meta, shared)[j], s.sent[j])
  }

  lemma SendsSnoc(meta: seq<Slot>, slot: Slot, shared: set<nat>)
    ensures Sends(meta + [slot], shared) ==
            Sends(meta, shared) + if slot.state in shared && CountOf(meta, slot.state) > 0 then [] else [|meta|]
  {
    assert (meta + [slot])[..|meta|] == meta;
  }

  lemma SentForMore<V>(
    start: Rank<V>, names: map<nat, seq<string>>, meta: seq<Slot>, slot: Slot, k: int, op: Broadcast<V>)
    requires SentFor(start, names, meta, k, op)
    ensures SentFor(start, names, meta + [slot], k, op)
  {
    MetaSnoc(meta, slot);
  }

  lemma VisitSent<V>(
    start: Rank<V>, names: map<nat, seq<string>>, s: Rank<V>, shared: set<nat>, meta: seq<Slot>, slot: Slot,
    net: nat -> V)
    requires NamesLeft(names, shared, meta, s.names, s.made) && SentAll(start, names, shared, meta, s)
    requires slot.meta && Visit(s, shared, slot, net).Some?
    ensures SentAll(start, names, shared, meta + [slot], Visit(s, shared, slot, net).value)
  {
    var s' := Visit(s, shared, slot, net).value;
    SendsSnoc(meta, slot, shared);
    assert (meta + [slot])[..|meta|] == meta;
    assert s.names[slot.state][0] == names[slot.state][CountOf(meta, slot.state)];
    forall j | 0 <= j < |s.sent|
      ensures SentFor(start, names, meta + [slot], Sends(meta, shared)[j], s.sent[j])
    {
      SentForMore(start, names, meta, slot, Sends(meta, shared)[j], s.sent[j]);
    }
  }

  /** The broadcasts that a walk issues, in order: tensor, name and source of each. */
  lemma {:induction false} RunSent<V>(
    names: map<nat, seq<string>>, me: nat, shard: map<string, Shard<V>>, shared: set<nat>, slots: seq<Slot>,
        net: nat -> V)
    requires Run(Start(me, shard, names), shared, slots, net).Some?
    ensures SentAll(Start(me, shard, names), names, shared, MetaSlots(slots),
                    Run(Start(me, shard, names), shared, slots, net).value)
    decreases |slots|
  {
    if slots == [] {
    } else {
      var n := |slots| - 1;
      RunSent(names, me, shard, shared, slots[..n], net);
      if slots[n].meta {
        var s := Run(Start(me, shard, names), shared, slots[..n], net).value;
        RunPlaces(names, me, shard, shared, slots[..n], net);
        VisitSent(Start(me, shard, names), names, s, shared, MetaSlots(slots[..n]), slots[n], net);
      } else {
        assert MetaSlots(slots) == MetaSlots(slots[..n]);
      }
    }
  }

  lemma {:induction false} ContentNames<V>(files: seq<map<string, V>>, name: string)
    ensures name in Content(files) <==> InFiles(files, |files|, name)
    decreases |files|
  {
    if files == [] {
    } else {
      var n := |files| - 1;
      ContentNames(files[..n], name);
      if f :| 0 <= f < n && name in files[..n][f] {
        assert name in files[f];
      }
      if f :| 0 <= f < |files| && name in files[f] && f < n {
        assert name in files[..n][f];
      }
    }
  }

  /** All ranks load exactly when the files store the names that are needed. */
  lemma GroupLoadsExactly<V>(
    files: seq<map<string, V>>, shards: seq<map<string, Shard<V>>>, names: map<nat, seq<string>>, shared: set<nat>,
    slots: seq<Slot>, net: nat -> V, r: nat)
    requires Group(files, shards) && DistinctNames(names) && r < |shards|
    ensures Final(shards, names, shared, slots, net, r).Some? <==>
              AllStored(Content(files).Keys, names, shared, MetaSlots(slots))
  {
    RunExactly(names, r, shards[r], shared, slots, net);
    forall name
      ensures name in shards[r].Keys <==> name in Content(files).Keys
    {
      ContentNames(files, name);
      if f :| 0 <= f < |files| && name in files[f] {
        assert KnowsOne(shards[r], files, |shards|, r, f, name);
      }
    }
    assert shards[r].Keys == Content(files).Keys;
  }

  /** Every rank ends with the same parameters: every slot filled, with the value that the files hold under its name. */
  lemma GroupLoads<V>(
    files: seq<map<string, V>>, shards: seq<map<string, Shard<V>>>, names: map<nat, seq<string>>, shared: set<nat>,
    slots: seq<Slot>, net: nat -> V, ranks: seq<Rank<V>>, i: nat, j: nat)
    requires Group(files, shards) && |ranks| == |shards|
    requires forall r :: 0 <= r < |shards| ==> Final(shards, names, shared, slots, net, r) == Some(ranks[r])
    requires Honest(net, ranks) && i < |shards| && j < |shards|
    ensures ranks[i].placed == ranks[j].placed
    ensures PlacedAll(names, shared, MetaSlots(slots), ranks[i].placed)
    ensures forall k :: 0 <= k < |ranks[i].placed| ==> Correct(ranks[i].placed[k].made, Content(files))
  {
    assert Final(shards, names, shared, slots, net, i) == Some(ranks[i]);
    RunPlaces(names, i, shards[i], shared, slots, net);
    GroupAgrees(files, shards, names, shared, slots, net, i, j);
    forall r | r == i || r == j
      ensures Filled(ranks[r], Content(files))
    {
      GroupDelivers(files, shards, names, shared, slots, net, ranks, r);
      StartTruthful(files, |shards|, r, shards[r], names);
      RunFilled(Start(r, shards[r], names), Content(files), shared, slots, net);
    }
  }

  // ----- a network that delivers

  /** Two copies of a rank that differ only in the values they received. */
  ghost predicate SameButReceived<V>(a: Rank<V>, b: Rank<V>) {
    a.me == b.me && a.shard == b.shard && a.names == b.names && a.sent == b.sent && a.made.Keys == b.made.Keys
  }

  /** What a rank sends does not depend on what it receives. */
  lemma {:induction false} RunSends<V>(
    s: Rank<V>, shared: set<nat>, slots: seq<Slot>, net: nat -> V, other: nat -> V)
    ensures Run(s, shared, slots, net).Some? <==> Run(s, shared, slots, other).Some?
    ensures Run(s, shared, slots, net).Some? ==>
              SameButReceived(Run(s, shared, slots, net).value, Run(s, shared, slots, other).value)
    decreases |slots|
  {
    if slots == [] {
    } else {
      var n := |slots| - 1;
      RunSends(s, shared, slots[..n], net, other);
      if Run(s, shared, slots[..n], net).Some? {
        VisitSends(Run(s, shared, slots[..n], net).value, Run(s, shared, slots[..n], other).value, shared, slots[n],
            net,
                   other);
      }
    }
  }

  lemma VisitSends<V>(a: Rank<V>, b: Rank<V>, shared: set<nat>, slot: Slot, net: nat -> V, other: nat -> V)
    requires SameButReceived(a, b)
    ensures Visit(a, shared, slot, net).Some? <==> Visit(b, shared, slot, other).Some?
    ensures Visit(a, shared, slot, net).Some? ==>
              SameButReceived(Visit(a, shared, slot, net).value, Visit(b, shared, slot, other).value)
  {
  }

  /** When the names are stored there is a network that delivers what the sources send, on which all ranks load. */
  lemma HonestNetwork<V>(
    files: seq<map<string, V>>, shards: seq<map<string, Shard<V>>>, names: map<nat, seq<string>>, shared: set<nat>,
    slots: seq<Slot>, default: V) returns (net: nat -> V, ranks: seq<Rank<V>>)
    requires Group(files, shards) && DistinctNames(names)
    requires AllStored(Content(files).Keys, names, shared, MetaSlots(slots))
    ensures |ranks| == |shards| && Honest(net, ranks)
    ensures forall r :: 0 <= r < |shards| ==> Final(shards, names, shared, slots, net, r) == Some(ranks[r])
  {
    var silent: nat -> V := _ => default;
    GroupLoadsExactly(files, shards, names, shared, slots, silent, 0);
    var ops := Final(shards, names, shared, slots, silent, 0).value.sent;
    var content := Content(files);
    net := (k: nat) => if k < |ops| && ops[k].name in content then content[ops[k].name] else default;
    forall r | 0 <= r < |shards|
      ensures Final(shards, names, shared, slots, net, r).Some?
    {
      GroupLoadsExactly(files, shards, names, shared, slots, net, r);
    }
    ranks := seq(|shards|, r requires 0 <= r < |shards| => Final(shards, names, shared, slots, net, r).value);
    forall r, k | 0 <= r < |ranks| && 0 <= k < |ranks[r].sent| && ranks[r].sent[k].sent.Some?
      ensures net(k) == ranks[r].sent[k].sent.value
    {
      GroupAgrees(files, shards, names, shared, slots, net, r, 0);
      RunSends(Start(0, shards[0], names), shared, slots, silent, net);
      assert Final(shards, names, shared, slots, net, r) == Some(ranks[r]);
      assert Final(shards, names, shared, slots, net, 0).value.sent == ops;
      assert SameOps(ranks[r].sent, ops) && Truthful(ranks[r], content);
      assert SameOp(ranks[r].sent[k], ops[k]) && TruthfulOp(ranks[r].sent[k], r, content);
    }
  }
}
