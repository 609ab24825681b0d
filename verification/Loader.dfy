/** Loading a sharded checkpoint on several ranks: who reads which file, and who broadcasts which parameter. */
module Loader {
  import opened Arithmetic
  import opened Common

  // ----- file ownership

  /** On a rank, a parameter is either loaded or known to be held by another rank. */
  datatype Shard<V> = Local(value: V) | Remote(rank: nat)

  function SliceSize(files: nat, world: nat): nat
    requires world > 0
  {
    (files + world - 1) / world
  }

  function Bound(r: nat, size: nat, files: nat): (b: nat)
    ensures b <= files
  {
    if r * size <= files then r * size else files
  }

  function OwnerOf(f: nat, files: nat, world: nat): nat
    requires world > 0 && f < files
  {
    SlicePositive(files, world);
    f / SliceSize(files, world)
  }

  lemma SlicePositive(files: nat, world: nat)
    requires world > 0 && files > 0
    ensures SliceSize(files, world) > 0 && files <= world * SliceSize(files, world)
  {
    DivMod(files + world - 1, world);
    var q := SliceSize(files, world);
    assert q <= 0 ==> q * world <= 0;
  }

  /** A rank's share is the least that lets all ranks together hold the files. */
  lemma SliceSizeLeast(files: nat, world: nat, share: nat)
    requires world > 0
    ensures files <= SliceSize(files, world) * world
    ensures files <= share * world ==> SliceSize(files, world) <= share
  {
    var q := SliceSize(files, world);
    DivMod(files + world - 1, world);
    MultipleAtLeast(q - share, world);
    assert (q - share) * world == q * world - share * world;
  }

  /** The slices partition the files: file `f` lies in the slice of its owner and in no other. */
  lemma SlicesPartition(files: nat, world: nat, f: nat, r: nat)
    requires world > 0 && f < files && r < world
    ensures var size := SliceSize(files, world);
            Bound(r, size, files) <= f < Bound(r + 1, size, files) <==> r == OwnerOf(f, files, world)
    ensures OwnerOf(f, files, world) < world
  {
    var size := SliceSize(files, world);
    SlicePositive(files, world);
    GroupOfIndex(f, world, size);
    var owner := f / size;
    MulSucc(owner, size);
    MulSucc(r, size);
    if r < owner { MulMonotone(r + 1, owner, size); }
    if owner < r { MulMonotone(owner + 1, r, size); }
  }

  /** No parameter is stored in two files. */
  ghost predicate OneFileEach<V>(files: seq<map<string, V>>) {
    forall f, g :: 0 <= f < g < |files| ==> files[f].Keys !! files[g].Keys
  }

  ghost predicate InFiles<V>(files: seq<map<string, V>>, upTo: nat, name: string) {
    exists f :: 0 <= f < |files| && f < upTo && name in files[f]
  }

  /** Rank `me` holds the parameter itself when it owns the file, the owner's number otherwise. */
  ghost predicate KnowsOne<V>(
    shard: map<string, Shard<V>>, files: seq<map<string, V>>, world: nat, me: nat, f: int, name: string)
    requires world > 0
  {
    0 <= f < |files| && name in files[f] ==>
      var owner := OwnerOf(f, |files|, world);
      name in shard && shard[name] == if owner == me then Local(files[f][name]) else Remote(owner)
  }

  /** What rank `me` knows after reading the slices of all ranks up to file `upTo`. */
  ghost predicate KnowsUpTo<V>(
    shard: map<string, Shard<V>>, files: seq<map<string, V>>, world: nat, me: nat, upTo: nat)
    requires world > 0
  {
    && (forall name {:trigger name in shard} :: name in shard ==> InFiles(files, upTo, name))
    && (forall f, name {:trigger KnowsOne(shard, files, world, me, f, name)} ::
          f < upTo ==> KnowsOne(shard, files, world, me, f, name))
  }

  function Own<V>(states: map<string, V>): map<string, Shard<V>> {
    map name | name in states :: Local(states[name])
  }

  function Foreign<V>(names: set<string>, rank: nat): map<string, Shard<V>> {
    map name | name in names :: Remote(rank)
  }

  lemma LearnFile<V>(shard: map<string, Shard<V>>, files: seq<map<string, V>>, world: nat, me: nat, f: nat)
    requires world > 0 && f < |files| && OneFileEach(files) && KnowsUpTo(shard, files, world, me, f)
    ensures var owner := OwnerOf(f, |files|, world);
            var more := if owner == me then Own(files[f]) else Foreign(files[f].Keys, owner);
            KnowsUpTo(shard + more, files, world, me, f + 1)
  {
    var owner := OwnerOf(f, |files|, world);
    var more := if owner == me then Own(files[f]) else Foreign(files[f].Keys, owner);
    assert more.Keys == files[f].Keys;
    forall name | name in shard + more
      ensures InFiles(files, f + 1, name)
    {
      if name in shard {
        assert InFiles(files, f, name);
      }
    }
    forall g, name | g < f + 1
      ensures KnowsOne(shard + more, files, world, me, g, name)
    {
      if 0 <= g < f && name in files[g] {
        assert KnowsOne(shard, files, world, me, g, name);
        assert name !in files[f];
      }
    }
  }

  /** `parallel_load_safetensors` on rank `me`: load the own slice, note the owner of everything else. */
  method ParallelLoad<V>(files: seq<map<string, V>>, world: nat, me: nat) returns (shard: map<string, Shard<V>>)
    requires world > 0 && me < world && OneFileEach(files)
    ensures KnowsUpTo(shard, files, world, me, |files|)
  {
    var size := SliceSize(|files|, world);
    shard := map[];
    for r := 0 to world
      invariant KnowsUpTo(shard, files, world, me, Bound(r, size, |files|))
    {
      var lo, hi := Bound(r, size, |files|), Bound(r + 1, size, |files|);
      MulSucc(r, size);
      for f := lo to hi
        invariant KnowsUpTo(shard, files, world, me, f)
      {
        SlicesPartition(|files|, world, f, r);
        LearnFile(shard, files, world, me, f);
        if r == me {
          shard := shard + Own(files[f]);
        } else {
          shard := shard + Foreign(files[f].Keys, r);
        }
      }
    }
    if |files| > 0 {
      SlicePositive(|files|, world);
    }
  }

  // ----- parameter initialisation

  /** A parameter or buffer of a module; `state` is the identity of the tensor object. */
  datatype Slot = Slot(name: string, state: nat, meta: bool, isParam: bool)

  datatype Module = Module(slots: seq<Slot>, children: seq<Module>)

  /** A collective as one rank issues it; `sent` is what the source rank puts in. */
  datatype Broadcast<V> = Broadcast(state: nat, name: string, src: nat, sent: Option<V>)

  datatype Made<V> = Made(name: string, value: V)

  datatype Placed<V> = Placed(slot: Slot, made: Made<V>)

  datatype Rank<V> = Rank(
    me: nat,
    shard: map<string, Shard<V>>,
    names: map<nat, seq<string>>,
    made: map<nat, Made<V>>,
    sent: seq<Broadcast<V>>,
    placed: seq<Placed<V>>)

  /** `net(k)` is what the k-th collective delivers to the ranks that are not its source. */
  function CreateAndSync<V>(s: Rank<V>, name: string, state: nat, net: nat -> V): Option<(Rank<V>, Made<V>)> {
    if name !in s.shard then None
    else
      var (op, value) := match s.shard[name]
        case Local(v) => (Broadcast(state, name, s.me, Some(v)), v)
        case Remote(r) => (Broadcast(state, name, r, None), net(|s.sent|));
      Some((s.(shard := s.shard - {name}, sent := s.sent + [op]), Made(name, value)))
  }

  function Place<V>(s: Rank<V>, slot: Slot, made: Made<V>): Rank<V> {
    s.(placed := s.placed + [Placed(slot, made)])
  }

  function Visit<V>(s: Rank<V>, shared: set<nat>, slot: Slot, net: nat -> V): Option<Rank<V>> {
    if !slot.meta then Some(s)
    else if slot.state !in s.names || s.names[slot.state] == [] then None
    else
      var name := s.names[slot.state][0];
      var s1 := s.(names := s.names[slot.state := s.names[slot.state][1..]]);
      if !slot.isParam && name !in s1.shard then None
      else if slot.state in shared && slot.state in s1.made then
        Some(Place(s1.(shard := s1.shard - {name}), slot, s1.made[slot.state]))
      else
        var (s2, made) :- CreateAndSync(s1, name, slot.state, net);
        var s3 := if slot.state in shared then s2.(made := s2.made[slot.state := made]) else s2;
        Some(Place(s3, slot, made))
  }

  function Run<V>(s: Rank<V>, shared: set<nat>, slots: seq<Slot>, net: nat -> V): Option<Rank<V>>
    decreases |slots|
  {
    if slots == [] then Some(s)
    else
      var init :- Run(s, shared, slots[..|slots| - 1], net);
      Visit(init, shared, slots[|slots| - 1], net)
  }

  /** The order in which a module tree is initialised: own slots, then each child. */
  function Visits(m: Module): seq<Slot> {
    m.slots + VisitsAll(m.children)
  }

  function VisitsAll(ms: seq<Module>): seq<Slot> {
    if ms == [] then [] else VisitsAll(ms[..|ms| - 1]) + Visits(ms[|ms| - 1])
  }

  lemma {:induction false} RunAppend<V>(s: Rank<V>, shared: set<nat>, a: seq<Slot>, b: seq<Slot>, net: nat -> V)
    ensures Run(s, shared, a + b, net) ==
            match Run(s, shared, a, net) case None => None case Some(s1) => Run(s1, shared, b, net)
    decreases |b|
  {
    if b == [] {
      assert a + b == a;
    } else {
      var n := |b| - 1;
      assert (a + b)[..|a + b| - 1] == a + b[..n];
      RunAppend(s, shared, a, b[..n], net);
    }
  }

  /** One rank's process: the initialiser pops from the loaded states and the name queues as it walks the modules. */
  class RankLoader<V> {
    const me: nat
    const shared: set<nat>
    const net: nat -> V
    var shardStates: map<string, Shard<V>>
    var state2fqn: map<nat, seq<string>>
    var materialized: map<nat, Made<V>>
    var sent: seq<Broadcast<V>>
    var placed: seq<Placed<V>>

    ghost function Abs(): Rank<V>
      reads this
    {
      Rank(me, shardStates, state2fqn, materialized, sent, placed)
    }

    constructor (me: nat, shared: set<nat>, net: nat -> V, shard: map<string, Shard<V>>, names: map<nat, seq<string>>)
      ensures Abs() == Rank(me, shard, names, map[], [], []) && this.shared == shared && this.net == net
    {
      this.me, this.shared, this.net := me, shared, net;
      shardStates, state2fqn, materialized := shard, names, map[];
      sent, placed := [], [];
    }

    method CreateAndSyncState(name: string, state: nat) returns (r: Option<Made<V>>)
      modifies this`shardStates, this`sent
      ensures match CreateAndSync(old(Abs()), name, state, net)
              case None => r == None
              case Some((s, made)) => r == Some(made) && Abs() == s
    {
      if name !in shardStates {
        return None;
      }
      var value: V;
      match shardStates[name] {
        case Local(v) =>
          value := v;
          sent := sent + [Broadcast(state, name, me, Some(v))];
        case Remote(rank) =>
          value := net(|sent|);
          sent := sent + [Broadcast(state, name, rank, None)];
      }
      shardStates := shardStates - {name};
      return Some(Made(name, value));
    }

    method InitSlot(slot: Slot) returns (ok: bool)
      modifies this
      ensures match Visit(old(Abs()), shared, slot, net)
              case None => !ok
              case Some(s) => ok && Abs() == s
    {
      if !slot.meta {
        return true;
      }
      if slot.state !in state2fqn || state2fqn[slot.state] == [] {
        return false;
      }
      var name := state2fqn[slot.state][0];
      state2fqn := state2fqn[slot.state := state2fqn[slot.state][1..]];
      if !slot.isParam && name !in shardStates {
        return false;
      }
      var made: Made<V>;
      if slot.state in shared && slot.state in materialized {
        shardStates := shardStates - {name};
        made := materialized[slot.state];
      } else {
        var created := CreateAndSyncState(name, slot.state);
        if created == None {
          return false;
        }
        made := created.value;
        if slot.state in shared {
          materialized := materialized[slot.state := made];
        }
      }
      placed := placed + [Placed(slot, made)];
      ok := true;
    }

    method InitSlots(slots: seq<Slot>) returns (ok: bool)
      modifies this
      ensures match Run(old(Abs()), shared, slots, net)
              case None => !ok
              case Some(s) => ok && Abs() == s
    {
      assert slots[..0] == [];
      for i := 0 to |slots|
        invariant Run(old(Abs()), shared, slots[..i], net) == Some(Abs())
      {
        assert slots[..i + 1][..i] == slots[..i];
        var done := InitSlot(slots[i]);
        if !done {
          assert slots == slots[..i + 1] + slots[i + 1..];
          RunAppend(old(Abs()), shared, slots[..i + 1], slots[i + 1..], net);
          return false;
        }
      }
      assert slots[..|slots|] == slots;
      ok := true;
    }

    /** `init_fn` with `recurse`: a module's own slots, then its children. */
    method InitFn(m: Module) returns (ok: bool)
      modifies this
      ensures match Run(old(Abs()), shared, Visits(m), net)
              case None => !ok
              case Some(s) => ok && Abs() == s
      decreases m
    {
      ok := InitSlots(m.slots);
      RunAppend(old(Abs()), shared, m.slots, VisitsAll(m.children), net);
      if !ok {
        return;
      }
      ghost var start := Abs();
      assert m.children[..0] == [];
      for i := 0 to |m.children|
        invariant Run(start, shared, VisitsAll(m.children[..i]), net) == Some(Abs())
      {
        assert m.children[..i + 1][..i] == m.children[..i];
        RunAppend(start, shared, VisitsAll(m.children[..i]), Visits(m.children[i]), net);
        ok := InitFn(m.children[i]);
        if !ok {
          ChildFails(start, shared, m.children, i + 1, net);
          return;
        }
      }
      assert m.children[..|m.children|] == m.children;
    }
  }

  lemma {:induction false} ChildFails<V>(s: Rank<V>, shared: set<nat>, ms: seq<Module>, i: nat, net: nat -> V)
    requires i <= |ms| && Run(s, shared, VisitsAll(ms[..i]), net) == None
    ensures Run(s, shared, VisitsAll(ms), net) == None
    decreases |ms| - i
  {
    if i == |ms| {
      assert ms[..i] == ms;
    } else {
      assert ms[..i + 1][..i] == ms[..i];
      RunAppend(s, shared, VisitsAll(ms[..i]), Visits(ms[i]), net);
      ChildFails(s, shared, ms, i + 1, net);
    }
  }
}
