/** The handler object, whose methods update its dictionaries and counters in place. */
module OffloadHandler {
  import opened Common
  import opened WindowSchedule
  import opened OffloadState

  class AsyncDoubleBufferGroupOffloadHandler {
    const numOffloadGroup: nat
    const numLayers: nat
    var currentGroup: int
    var tensorCountCurrentGroup: nat
    var tensorTagToState: seq<Entry>
    var tensorTagToBuf: map<Tag, Option<Tensor>>
    var offloadedGroupCount: int
    var layerWindowMap: map<int, int>
    var groupOffloadMapping: map<int, map<Key, HostCopy>>
    ghost var transfers: seq<Transfer>

    ghost predicate Valid()
      reads this
    {
      layerWindowMap == WindowMap(numLayers, numOffloadGroup)
    }

    ghost function Abs(): State
      reads this
    {
      State(numOffloadGroup, numLayers, currentGroup, tensorCountCurrentGroup, offloadedGroupCount,
            tensorTagToState, tensorTagToBuf, groupOffloadMapping, transfers)
    }

    constructor (numOffloadGroup: nat, numModelGroup: nat)
      ensures Valid() && Abs() == Init(numOffloadGroup, numModelGroup)
    {
      this.numOffloadGroup := numOffloadGroup;
      this.numLayers := numModelGroup;
      currentGroup, tensorCountCurrentGroup := 0, 0;
      tensorTagToState := [];
      tensorTagToBuf := map[];
      offloadedGroupCount := 0;
      groupOffloadMapping := map[];
      transfers := [];
      new;
      layerWindowMap := BuildWindowMap(numModelGroup, numOffloadGroup);
    }

    method TensorPush(t: Tensor, stray: bool, wanted: bool) returns (r: Option<Handle>)
      requires Valid()
      modifies this
      ensures Valid()
      ensures match Push(old(Abs()), t, stray, wanted)
              case None => r == None
              case Some((s, h)) => r == Some(h) && Abs() == s
    {
      if stray || !wanted {
        return Some(Direct(t));
      }
      var tag := Tag(currentGroup, tensorCountCurrentGroup);
      tensorCountCurrentGroup := tensorCountCurrentGroup + 1;
      if HasTag(tensorTagToState, tag) {
        return None;
      }
      tensorTagToState := tensorTagToState + [Entry(tag, OnDevice(t))];
      if currentGroup < numOffloadGroup {
        tensorTagToBuf := tensorTagToBuf[tag := Some(t)];
      }
      return Some(Saved(tag));
    }

    method TensorPop(h: Handle) returns (r: Option<Tensor>)
      requires Valid()
      modifies this
      ensures Valid()
      ensures match Pop(old(Abs()), h)
              case None => r == None
              case Some((s, t)) => r == Some(t) && Abs() == s
    {
      if h.Direct? {
        return Some(h.tensor);
      }
      var i := IndexOf(tensorTagToState, h.tag);
      if i == |tensorTagToState| {
        return None;
      }
      var slot := tensorTagToState[i].slot;
      tensorTagToState := RemoveAt(tensorTagToState, i);
      tensorTagToBuf := tensorTagToBuf - {h.tag};
      if !slot.OnDevice? {
        return None;
      }
      return Some(slot.tensor);
    }

    /** Replaces the tensors of one group by references and keeps one host copy for each storage. */
    method BulkOffloadGroup(g: int) returns (ok: bool)
      requires Valid()
      modifies this`tensorTagToState, this`groupOffloadMapping, this`transfers
      ensures match BulkOffload(old(Abs()), g)
              case None => !ok
              case Some(s) => ok && Abs() == s
    {
      ghost var before := tensorTagToState;
      var firsts: map<Key, Tensor> := map[];
      var i := 0;
      while i < |tensorTagToState|
        invariant 0 <= i <= |before| == |tensorTagToState|
        invariant groupOffloadMapping == old(groupOffloadMapping) && transfers == old(transfers)
        invariant AllOnDevice(before[..i], g)
        invariant forall j :: 0 <= j < i ==> tensorTagToState[j] == ToReference(before[j], g)
        invariant forall j :: i <= j < |before| ==> tensorTagToState[j] == before[j]
        invariant firsts == Representatives(before[..i], g)
      {
        var e := tensorTagToState[i];
        assert before[..i + 1][..i] == before[..i] && before[..i + 1][i] == e;
        if e.tag.group == g {
          if !e.slot.OnDevice? {
            assert e in before;
            return false;
          }
          var key := UniqueKey(e.slot.tensor);
          if key !in firsts {
            firsts := firsts[key := e.slot.tensor];
          }
          tensorTagToState := tensorTagToState[i := Entry(e.tag, Offloaded(key, e.slot.tensor.shape))];
        }
        i := i + 1;
      }
      assert before[..i] == before;
      assert tensorTagToState == ToReferences(before, g);
      var copies := OffloadEach(firsts);
      groupOffloadMapping := groupOffloadMapping[g := copies];
      transfers := transfers + [ToHost(g)];
      ok := true;
    }

    method SynchronizeOnGroupCommitForward() returns (ok: bool)
      requires Valid()
      modifies this
      ensures Valid()
      ensures match SynchronizeForward(old(Abs()))
              case None => !ok
              case Some(s) => ok && Abs() == s
    {
      if currentGroup == 0 {
        var started := BulkOffloadGroup(0);
        if !started {
          return false;
        }
      }
      if offloadedGroupCount !in layerWindowMap {
        return false;
      }
      if layerWindowMap[offloadedGroupCount] == currentGroup {
        tensorTagToBuf := Released(tensorTagToBuf, offloadedGroupCount);
        if offloadedGroupCount < numOffloadGroup - 1 {
          var next := BulkOffloadGroup(offloadedGroupCount + 1);
          if !next {
            return false;
          }
        }
        offloadedGroupCount := offloadedGroupCount + 1;
      }
      ok := true;
    }

    method OnGroupCommitForward() returns (ok: bool)
      requires Valid()
      modifies this
      ensures Valid()
      ensures match CommitForward(old(Abs()))
              case None => !ok
              case Some(s) => ok && Abs() == s
    {
      ok := SynchronizeOnGroupCommitForward();
      if ok {
        currentGroup := currentGroup + 1;
        tensorCountCurrentGroup := 0;
      }
    }

    /** Copies one group back and replaces its references by views of the copies. */
    method BulkReloadGroup(g: int, place: Key -> int) returns (ok: bool)
      requires Valid()
      modifies this`tensorTagToState, this`groupOffloadMapping, this`transfers
      ensures match BulkReload(old(Abs()), g, place)
              case None => !ok
              case Some(s) => ok && Abs() == s
      ensures g >= numOffloadGroup || g !in old(groupOffloadMapping) ==> !ok
    {
      if g >= numOffloadGroup || g !in groupOffloadMapping {
        return false;
      }
      var copies := groupOffloadMapping[g];
      groupOffloadMapping := groupOffloadMapping - {g};
      ghost var before := tensorTagToState;
      var i := 0;
      while i < |tensorTagToState|
        invariant 0 <= i <= |before| == |tensorTagToState|
        invariant groupOffloadMapping == old(groupOffloadMapping) - {g} && transfers == old(transfers)
        invariant forall j :: 0 <= j < i ==> Reloadable(before[j], g, copies)
        invariant forall j :: 0 <= j < i ==> tensorTagToState[j] == ToDeviceEntry(before[j], g, copies, place)
        invariant forall j :: i <= j < |before| ==> tensorTagToState[j] == before[j]
      {
        var e := tensorTagToState[i];
        if e.tag.group == g && e.slot.Offloaded? {
          var key, shape := e.slot.key, e.slot.shape;
          if key !in copies || |copies[key].data| != Numel(shape) {
            assert !Reloadable(e, g, copies) && e in before;
            return false;
          }
          tensorTagToState := tensorTagToState[i := Entry(e.tag, OnDevice(Reloaded(copies[key], shape, place(key))))];
        }
        i := i + 1;
      }
      transfers := transfers + [ToDevice(g)];
      ok := true;
    }

    method OnGroupCommitBackward(place: Key -> int) returns (ok: bool)
      requires Valid()
      modifies this
      ensures Valid()
      ensures match CommitBackward(old(Abs()), place)
              case None => !ok
              case Some(s) => ok && Abs() == s
    {
      currentGroup := currentGroup - 1;
      if currentGroup < 0 || offloadedGroupCount - 1 !in layerWindowMap {
        return false;
      }
      if layerWindowMap[offloadedGroupCount - 1] == currentGroup {
        var reloaded := BulkReloadGroup(offloadedGroupCount - 1, place);
        if !reloaded {
          return false;
        }
        offloadedGroupCount := offloadedGroupCount - if offloadedGroupCount > 1 then 1 else 0;
      }
      if currentGroup == 0 {
        offloadedGroupCount := 0;
      }
      ok := true;
    }
  }

  /** Second loop of the bulk offload: every recorded tensor is copied to the host. */
  method OffloadEach(tensors: map<Key, Tensor>) returns (copies: map<Key, HostCopy>)
    ensures copies == OffloadAll(tensors)
  {
    copies := map[];
    var todo := tensors.Keys;
    while todo != {}
      invariant todo <= tensors.Keys && copies.Keys == tensors.Keys - todo
      invariant forall k :: k in copies ==> copies[k] == Offload(tensors[k])
      decreases todo
    {
      var k :| k in todo;
      copies := copies[k := Offload(tensors[k])];
      todo := todo - {k};
    }
  }

  /** The loop that forgets the buffered tensors of one group. */
  method Released(buf: map<Tag, Option<Tensor>>, g: int) returns (released: map<Tag, Option<Tensor>>)
    ensures released == Release(buf, g)
  {
    released := buf;
    var todo := buf.Keys;
    while todo != {}
      invariant todo <= buf.Keys && released.Keys == buf.Keys
      invariant forall t :: t in buf && t !in todo ==> released[t] == Release(buf, g)[t]
      invariant forall t :: t in todo ==> released[t] == buf[t]
      decreases todo
    {
      var t :| t in todo;
      if t.group == g {
        released := released[t := None];
      }
      todo := todo - {t};
    }
  }
}
