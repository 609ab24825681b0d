/**
 The state of the asynchronous double-buffer offload handler and its transitions.
 A transition is an `Option`: `None` is the exception the source raises (an assertion, a missing
 dictionary key, or a view of the wrong size).
 */
module OffloadState {
  import opened Common
  import opened WindowSchedule

  /** A tensor is a view into a storage; `data` is what flattening the view yields. */
  datatype Tensor = Tensor(data: seq<real>, shape: seq<nat>, base: int, offset: int, dtype: int)

  /** Address plus storage offset, and element type: what the source uses to recognise one storage. */
  datatype Key = Key(address: int, dtype: int)

  function UniqueKey(t: Tensor): Key {
    Key(t.base + t.offset, t.dtype)
  }

  ghost predicate WellFormed(t: Tensor) {
    |t.data| == Numel(t.shape)
  }

  datatype Tag = Tag(group: int, index: nat)

  /** What a push hands to autograd: a tag, or the tensor itself when it is not offloadable. */
  datatype Handle = Saved(tag: Tag) | Direct(tensor: Tensor)

  /** The two kinds of value in `tensor_tag_to_state`: a tensor, or a (key, shape) pair. */
  datatype Slot = OnDevice(tensor: Tensor) | Offloaded(key: Key, shape: seq<nat>)

  datatype Entry = Entry(tag: Tag, slot: Slot)

  /** The CPU backup made by `offload`. */
  datatype HostCopy = HostCopy(data: seq<real>, shape: seq<nat>, dtype: int)

  /** Bulk copies between device and host, in the order they were issued. */
  datatype Transfer = ToHost(group: int) | ToDevice(group: int)

  /** The dictionary `tensor_tag_to_state` is kept in insertion order. */
  datatype State = State(
    groups: nat,
    layers: nat,
    current: int,
    count: nat,
    offloaded: int,
    entries: seq<Entry>,
    buf: map<Tag, Option<Tensor>>,
    mapping: map<int, map<Key, HostCopy>>,
    log: seq<Transfer>)

  function Init(groups: nat, layers: nat): State {
    State(groups, layers, 0, 0, 0, [], map[], map[], [])
  }

  // ----- dictionary lookups

  function IndexOf(entries: seq<Entry>, tag: Tag): (i: nat)
    ensures i <= |entries|
    ensures i < |entries| ==> entries[i].tag == tag
    ensures forall j :: 0 <= j < i ==> entries[j].tag != tag
  {
    if entries == [] then 0
    else if entries[0].tag == tag then 0
    else 1 + IndexOf(entries[1..], tag)
  }

  predicate HasTag(entries: seq<Entry>, tag: Tag) {
    IndexOf(entries, tag) < |entries|
  }

  function RemoveAt(entries: seq<Entry>, i: nat): seq<Entry>
    requires i < |entries|
  {
    entries[..i] + entries[i + 1..]
  }

  // ----- push and pop

  predicate NeedsOffload(stray: bool, wanted: bool) {
    !stray && wanted
  }

  function Push(s: State, t: Tensor, stray: bool, wanted: bool): Option<(State, Handle)> {
    if !NeedsOffload(stray, wanted) then Some((s, Direct(t)))
    else
      var tag := Tag(s.current, s.count);
      if HasTag(s.entries, tag) then None
      else
        var buf := if s.current < s.groups then s.buf[tag := Some(t)] else s.buf;
        Some((s.(count := s.count + 1, entries := s.entries + [Entry(tag, OnDevice(t))], buf := buf),
              Saved(tag)))
  }

  function Pop(s: State, h: Handle): Option<(State, Tensor)> {
    match h
    case Direct(t) => Some((s, t))
    case Saved(tag) =>
      var i := IndexOf(s.entries, tag);
      if i == |s.entries| || !s.entries[i].slot.OnDevice? then None
      else Some((s.(entries := RemoveAt(s.entries, i), buf := s.buf - {tag}), s.entries[i].slot.tensor))
  }

  // ----- bulk offload

  predicate AllOnDevice(entries: seq<Entry>, g: int) {
    forall e :: e in entries && e.tag.group == g ==> e.slot.OnDevice?
  }

  /** The first tensor of group `g` under each storage key, in insertion order. */
  function Representatives(entries: seq<Entry>, g: int): map<Key, Tensor> {
    if entries == [] then map[]
    else
      var m := Representatives(entries[..|entries| - 1], g);
      var e := entries[|entries| - 1];
      if e.tag.group == g && e.slot.OnDevice? && UniqueKey(e.slot.tensor) !in m
      then m[UniqueKey(e.slot.tensor) := e.slot.tensor]
      else m
  }

  function Offload(t: Tensor): HostCopy {
    HostCopy(t.data, t.shape, t.dtype)
  }

  function OffloadAll(tensors: map<Key, Tensor>): map<Key, HostCopy> {
    map k | k in tensors :: Offload(tensors[k])
  }

  function ToReference(e: Entry, g: int): Entry {
    if e.tag.group == g && e.slot.OnDevice?
    then e.(slot := Offloaded(UniqueKey(e.slot.tensor), e.slot.tensor.shape))
    else e
  }

  function ToReferences(entries: seq<Entry>, g: int): seq<Entry> {
    seq(|entries|, i requires 0 <= i < |entries| => ToReference(entries[i], g))
  }

  function BulkOffload(s: State, g: int): Option<State> {
    if !AllOnDevice(s.entries, g) then None
    else Some(s.(entries := ToReferences(s.entries, g),
                 mapping := s.mapping[g := OffloadAll(Representatives(s.entries, g))],
                 log := s.log + [ToHost(g)]))
  }

  // ----- bulk reload

  /** The reloaded copy, viewed under the shape of the tensor that was pushed. */
  function Reloaded(host: HostCopy, shape: seq<nat>, base: int): Tensor {
    Tensor(host.data, shape, base, 0, host.dtype)
  }

  predicate Reloadable(e: Entry, g: int, copies: map<Key, HostCopy>) {
    e.tag.group == g && e.slot.Offloaded? ==>
      e.slot.key in copies && |copies[e.slot.key].data| == Numel(e.slot.shape)
  }

  predicate AllReloadable(entries: seq<Entry>, g: int, copies: map<Key, HostCopy>) {
    forall e :: e in entries ==> Reloadable(e, g, copies)
  }

  /** `place` says at which new address each host copy lands. */
  function ToDeviceEntry(e: Entry, g: int, copies: map<Key, HostCopy>, place: Key -> int): Entry
    requires Reloadable(e, g, copies)
  {
    if e.tag.group == g && e.slot.Offloaded?
    then e.(slot := OnDevice(Reloaded(copies[e.slot.key], e.slot.shape, place(e.slot.key))))
    else e
  }

  function ToDeviceEntries(entries: seq<Entry>, g: int, copies: map<Key, HostCopy>, place: Key -> int): seq<Entry>
    requires AllReloadable(entries, g, copies)
  {
    seq(|entries|, i requires 0 <= i < |entries| => ToDeviceEntry(entries[i], g, copies, place))
  }

  function BulkReload(s: State, g: int, place: Key -> int): Option<State> {
    if g >= s.groups || g !in s.mapping || !AllReloadable(s.entries, g, s.mapping[g]) then None
    else Some(s.(entries := ToDeviceEntries(s.entries, g, s.mapping[g], place),
                 mapping := s.mapping - {g},
                 log := s.log + [ToDevice(g)]))
  }

  // ----- commits

  /** Dropping the buffered references of group `g`. */
  function Release(buf: map<Tag, Option<Tensor>>, g: int): map<Tag, Option<Tensor>> {
    map tag | tag in buf :: if tag.group == g then None else buf[tag]
  }

  function Retire(s: State): Option<State> {
    var released := s.(buf := Release(s.buf, s.offloaded));
    var next :- if s.offloaded < s.groups - 1 then BulkOffload(released, s.offloaded + 1) else Some(released);
    Some(next.(offloaded := s.offloaded + 1))
  }

  /** The very first group is offloaded as soon as its layer is done. */
  function Kickstart(s: State): Option<State> {
    if s.current == 0 then BulkOffload(s, 0) else Some(s)
  }

  function SynchronizeForward(s: State): Option<State> {
    var started :- Kickstart(s);
    if started.offloaded !in WindowMap(s.layers, s.groups) then None
    else if WindowMap(s.layers, s.groups)[started.offloaded] == s.current then Retire(started)
    else Some(started)
  }

  function CommitForward(s: State): Option<State> {
    var synced :- SynchronizeForward(s);
    Some(synced.(current := s.current + 1, count := 0))
  }

  function Prefetch(s: State, place: Key -> int): Option<State> {
    var reloaded :- BulkReload(s, s.offloaded - 1, place);
    Some(reloaded.(offloaded := s.offloaded - if s.offloaded > 1 then 1 else 0))
  }

  function CommitBackward(s: State, place: Key -> int): Option<State> {
    var stepped := s.(current := s.current - 1);
    if stepped.current < 0 || s.offloaded - 1 !in WindowMap(s.layers, s.groups) then None
    else
      var fetched :- if WindowMap(s.layers, s.groups)[s.offloaded - 1] == stepped.current
                     then Prefetch(stepped, place) else Some(stepped);
      Some(if fetched.current == 0 then fetched.(offloaded := 0) else fetched)
  }

  // ----- runs

  datatype Event =
    | PushEvent(t: Tensor, stray: bool, wanted: bool)
    | ForwardEvent
    | BackwardEvent(place: Key -> int)
    | PopEvent(handle: Handle)

  datatype Output = Nothing | Pushed(handle: Handle) | Popped(tensor: Tensor)

  function Step(s: State, ev: Event): Option<(State, Output)> {
    match ev
    case PushEvent(t, stray, wanted) => var (s', h) :- Push(s, t, stray, wanted); Some((s', Pushed(h)))
    case ForwardEvent => var s' :- CommitForward(s); Some((s', Nothing))
    case BackwardEvent(place) => var s' :- CommitBackward(s, place); Some((s', Nothing))
    case PopEvent(h) => var (s', t) :- Pop(s, h); Some((s', Popped(t)))
  }

  function Run(s: State, events: seq<Event>): Option<(State, seq<Output>)>
    decreases |events|
  {
    if events == [] then Some((s, []))
    else
      var (s1, out) :- Step(s, events[0]);
      var (s2, outs) :- Run(s1, events[1..]);
      Some((s2, [out] + outs))
  }
}
