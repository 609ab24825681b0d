/** The walk over a module tree reaches every slot of every module, each once and in the order of the tree. */
module ModuleTree {
  import opened Common
  import opened Loader
  import opened LoaderAgreement

  /** A slot in the tree: which child to enter at each level, and which slot of the module reached. */
  datatype Location = Location(path: seq<nat>, slot: nat)

  predicate InTree(m: Module, at: Location)
    decreases |at.path|
  {
    if at.path == [] then at.slot < |m.slots|
    else at.path[0] < |m.children| && InTree(m.children[at.path[0]], Location(at.path[1..], at.slot))
  }

  function SlotAt(m: Module, at: Location): Slot
    requires InTree(m, at)
    decreases |at.path|
  {
    if at.path == [] then m.slots[at.slot] else SlotAt(m.children[at.path[0]], Location(at.path[1..], at.slot))
  }

  /** A module's own slots come before those of its children, and an earlier child's before a later one's. */
  predicate Precedes(a: Location, b: Location)
    decreases |a.path|
  {
    if a.path == [] then b.path != [] || a.slot < b.slot
    else
      b.path != [] &&
      (a.path[0] < b.path[0] ||
       (a.path[0] == b.path[0] && Precedes(Location(a.path[1..], a.slot), Location(b.path[1..], b.slot))))
  }

  /** Any two locations are in order, one way or the other. */
  lemma {:induction false} PrecedesTotal(a: Location, b: Location)
    ensures a == b || Precedes(a, b) || Precedes(b, a)
    decreases |a.path|
  {
    if a.path != [] && b.path != [] && a.path[0] == b.path[0] {
      PrecedesTotal(Location(a.path[1..], a.slot), Location(b.path[1..], b.slot));
      assert a.path == [a.path[0]] + a.path[1..] && b.path == [b.path[0]] + b.path[1..];
    }
  }

  // ----- the place of a slot in the walk

  function SlotCount(m: Module): nat {
    |m.slots| + SlotCounts(m.children)
  }

  function SlotCounts(ms: seq<Module>): nat {
    if ms == [] then 0 else SlotCounts(ms[..|ms| - 1]) + SlotCount(ms[|ms| - 1])
  }

  /** The number of slots of the tree ahead of this one. */
  function PlaceOf(m: Module, at: Location): nat
    requires InTree(m, at)
    decreases |at.path|
  {
    if at.path == [] then at.slot
    else
      |m.slots| + SlotCounts(m.children[..at.path[0]])
      + PlaceOf(m.children[at.path[0]], Location(at.path[1..], at.slot))
  }

  lemma {:induction false} VisitsCount(m: Module)
    ensures |Visits(m)| == SlotCount(m)
    decreases m, |m.children| + 1
  {
    AllVisitsCount(m, |m.children|);
    assert m.children[..|m.children|] == m.children;
  }

  lemma {:induction false} AllVisitsCount(m: Module, n: nat)
    requires n <= |m.children|
    ensures |VisitsAll(m.children[..n])| == SlotCounts(m.children[..n])
    decreases m, n
  {
    if n == 0 {
    } else {
      AllVisitsCount(m, n - 1);
      VisitsCount(m.children[n - 1]);
      assert m.children[..n][..n - 1] == m.children[..n - 1];
    }
  }

  /** The slots of child `c` stand together, behind those of the children before it. */
  lemma {:induction false} ChildVisits(ms: seq<Module>, c: nat, k: nat)
    requires c < |ms| && k < |Visits(ms[c])|
    ensures |VisitsAll(ms[..c])| + k < |VisitsAll(ms)|
    ensures VisitsAll(ms)[|VisitsAll(ms[..c])| + k] == Visits(ms[c])[k]
    decreases |ms|
  {
    var n := |ms| - 1;
    if c < n {
      ChildVisits(ms[..n], c, k);
      assert ms[..n][..c] == ms[..c];
    }
  }

  /** Every slot is visited, at its place. */
  lemma {:induction false} SlotVisited(m: Module, at: Location)
    requires InTree(m, at)
    ensures PlaceOf(m, at) < |Visits(m)| && Visits(m)[PlaceOf(m, at)] == SlotAt(m, at)
    decreases |at.path|
  {
    if at.path == [] {
    } else {
      var c, rest := at.path[0], Location(at.path[1..], at.slot);
      SlotVisited(m.children[c], rest);
      AllVisitsCount(m, c);
      ChildVisits(m.children, c, PlaceOf(m.children[c], rest));
    }
  }

  lemma {:induction false} CountsGrow(ms: seq<Module>, c: nat, d: nat)
    requires c < d <= |ms|
    ensures SlotCounts(ms[..c]) + SlotCount(ms[c]) <= SlotCounts(ms[..d])
    decreases d
  {
    assert ms[..d][..d - 1] == ms[..d - 1];
    if c < d - 1 {
      CountsGrow(ms, c, d - 1);
    }
  }

  lemma PlaceBelow(m: Module, at: Location)
    requires InTree(m, at)
    ensures PlaceOf(m, at) < SlotCount(m)
  {
    SlotVisited(m, at);
    VisitsCount(m);
  }

  /** Places are in the order of the tree. */
  lemma {:induction false} PlacesOrdered(m: Module, a: Location, b: Location)
    requires InTree(m, a) && InTree(m, b) && Precedes(a, b)
    ensures PlaceOf(m, a) < PlaceOf(m, b)
    decreases |a.path|
  {
    if a.path != [] {
      var c, d := a.path[0], b.path[0];
      var restA, restB := Location(a.path[1..], a.slot), Location(b.path[1..], b.slot);
      if c == d {
        PlacesOrdered(m.children[c], restA, restB);
      } else {
        PlaceBelow(m.children[c], restA);
        CountsGrow(m.children, c, d);
      }
    }
  }

  /** And there is nothing else in the walk. */
  lemma {:induction false} VisitedSlot(m: Module, k: nat) returns (at: Location)
    requires k < SlotCount(m)
    ensures InTree(m, at) && PlaceOf(m, at) == k
    decreases m
  {
    if k < |m.slots| {
      at := Location([], k);
    } else {
      assert m.children[..|m.children|] == m.children;
      var c, rest := ChildOf(m.children, k - |m.slots|);
      var below := VisitedSlot(m.children[c], rest);
      at := Location([c] + below.path, below.slot);
      assert at.path[1..] == below.path;
    }
  }

  lemma {:induction false} ChildOf(ms: seq<Module>, k: nat) returns (c: nat, rest: nat)
    requires k < SlotCounts(ms)
    ensures c < |ms| && rest < SlotCount(ms[c]) && k == SlotCounts(ms[..c]) + rest
    decreases |ms|
  {
    var n := |ms| - 1;
    if k < SlotCounts(ms[..n]) {
      c, rest := ChildOf(ms[..n], k);
      assert ms[..n][..c] == ms[..c];
    } else {
      c, rest := n, k - SlotCounts(ms[..n]);
    }
  }

  predicate IsAt(m: Module, at: Location, k: int) {
    InTree(m, at) && PlaceOf(m, at) == k
  }

  ghost predicate Reached(m: Module, k: int) {
    exists at :: IsAt(m, at, k)
  }

  /**
   The walk over a tree: each slot of each module reachable through children stands at its own place, the places are in
   the order of the tree, and every entry of the walk is at one of them.
   */
  lemma WalkExactly(m: Module)
    ensures |Visits(m)| == SlotCount(m)
    ensures forall at :: InTree(m, at) ==>
              PlaceOf(m, at) < |Visits(m)| && Visits(m)[PlaceOf(m, at)] == SlotAt(m, at)
    ensures forall a, b :: InTree(m, a) && InTree(m, b) ==> (Precedes(a, b) <==> PlaceOf(m, a) < PlaceOf(m, b))
    ensures forall k :: 0 <= k < |Visits(m)| ==> Reached(m, k)
  {
    VisitsCount(m);
    forall at | InTree(m, at)
      ensures PlaceOf(m, at) < |Visits(m)| && Visits(m)[PlaceOf(m, at)] == SlotAt(m, at)
    {
      SlotVisited(m, at);
    }
    forall a, b | InTree(m, a) && InTree(m, b)
      ensures Precedes(a, b) <==> PlaceOf(m, a) < PlaceOf(m, b)
    {
      PlacesCompare(m, a, b);
    }
    forall k | 0 <= k < |Visits(m)|
      ensures Reached(m, k)
    {
      var at := VisitedSlot(m, k);
      assert IsAt(m, at, k);
    }
  }

  lemma PlacesCompare(m: Module, a: Location, b: Location)
    requires InTree(m, a) && InTree(m, b)
    ensures Precedes(a, b) <==> PlaceOf(m, a) < PlaceOf(m, b)
  {
    PrecedesTotal(a, b);
    if Precedes(a, b) {
      PlacesOrdered(m, a, b);
    } else if Precedes(b, a) {
      PlacesOrdered(m, b, a);
    }
  }

  // ----- loading a tree

  lemma {:induction false} MetaSlotsHold(slots: seq<Slot>, slot: Slot)
    ensures slot in MetaSlots(slots) <==> slot in slots && slot.meta
    decreases |slots|
  {
    if slots == [] {
    } else {
      MetaSlotsHold(slots[..|slots| - 1], slot);
    }
  }

  predicate IsMeta(m: Module, at: Location, slot: Slot) {
    InTree(m, at) && SlotAt(m, at) == slot && slot.meta
  }

  lemma MetaVisited(m: Module, slot: Slot)
    ensures slot in MetaSlots(Visits(m)) <==> exists at :: IsMeta(m, at, slot)
  {
    MetaSlotsHold(Visits(m), slot);
    if slot in Visits(m) && slot.meta {
      var k :| 0 <= k < |Visits(m)| && Visits(m)[k] == slot;
      VisitsCount(m);
      var at := VisitedSlot(m, k);
      SlotVisited(m, at);
      assert IsMeta(m, at, slot);
    }
    if at :| IsMeta(m, at, slot) {
      SlotVisited(m, at);
      assert Visits(m)[PlaceOf(m, at)] in Visits(m);
    }
  }

  ghost predicate HasPlaced<V>(placed: seq<Placed<V>>, slot: Slot) {
    exists k :: 0 <= k < |placed| && placed[k].slot == slot
  }

  lemma PlacedMeta<V>(
    names: map<nat, seq<string>>, shared: set<nat>, meta: seq<Slot>, placed: seq<Placed<V>>, slot: Slot)
    requires PlacedAll(names, shared, meta, placed)
    ensures HasPlaced(placed, slot) <==> slot in meta
  {
    if k :| 0 <= k < |meta| && meta[k] == slot {
      assert placed[k].slot == slot;
    }
    if k :| 0 <= k < |placed| && placed[k].slot == slot {
      assert meta[k] == slot;
    }
  }

  /** After a successful walk the meta slots of the tree have been given values, and no others. */
  lemma TreeLoads<V>(
    m: Module, names: map<nat, seq<string>>, me: nat, shard: map<string, Shard<V>>, shared: set<nat>, net: nat -> V)
    requires Run(Start(me, shard, names), shared, Visits(m), net).Some?
    ensures forall slot :: HasPlaced(Run(Start(me, shard, names), shared, Visits(m), net).value.placed, slot) <==>
              exists at :: IsMeta(m, at, slot)
  {
    RunPlaces(names, me, shard, shared, Visits(m), net);
    forall slot
      ensures HasPlaced(Run(Start(me, shard, names), shared, Visits(m), net).value.placed, slot) <==>
                exists at :: IsMeta(m, at, slot)
    {
      PlacedMeta(names, shared, MetaSlots(Visits(m)),
                 Run(Start(me, shard, names), shared, Visits(m), net).value.placed, slot);
      MetaVisited(m, slot);
    }
  }
}
