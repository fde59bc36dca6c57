/** The allocator of handles with recycling in order of return: HandleFactory.h. */
module Handles {
  import opened Wrappers

  /** The fields of the factory, with the most handles that were ever live at once. */
  datatype State<T> = State(live: map<nat, T>, recycled: seq<nat>, nextFree: nat, peak: nat)

  predicate Distinct(q: seq<nat>) { forall i, j :: 0 <= i < j < |q| ==> q[i] != q[j] }

  /** Live and recycled handles are each other's complement in 1..nextFree-1, and as many handles have been made as
      were ever live together. */
  ghost predicate Valid<T>(s: State<T>) {
    && s.nextFree >= 1
    && Distinct(s.recycled)
    && (forall h :: h in s.live ==> h !in s.recycled)
    && (forall h :: 1 <= h < s.nextFree <==> h in s.live || h in s.recycled)
    && s.nextFree - 1 == s.peak
    && |s.live| + |s.recycled| == s.peak
  }

  // ----- the factory -----

  class HandleFactory<T> {
    var handleMap: map<nat, T>
    var recycledHandles: seq<nat>
    var nextFree: nat
    ghost var peak: nat

    ghost function Model(): State<T>
      reads this
    {
      State(handleMap, recycledHandles, nextFree, peak)
    }

    constructor ()
      ensures handleMap == map[] && recycledHandles == [] && nextFree == 1 && peak == 0
      ensures Valid(Model())
    {
      handleMap, recycledHandles, nextFree := map[], [], 1;
      peak := 0;
    }

    /** The handle returned longest ago, or the next new one: never 0 and never one in use. */
    method GetHandle(object': T) returns (handle: nat)
      requires Valid(Model())
      modifies this
      ensures Valid(Model())
      ensures handle != 0 && handle !in old(handleMap)
      ensures handle == if old(recycledHandles) != [] then old(recycledHandles)[0] else old(nextFree)
      ensures handleMap == old(handleMap)[handle := object']
      ensures Model() == Got(old(Model()), object')
    {
      GetKeeps(Model(), object');
      if recycledHandles != [] {
        handle := recycledHandles[0];
        recycledHandles := recycledHandles[1..];
      } else {
        handle := nextFree;
        nextFree := nextFree + 1;
      }
      handleMap := handleMap[handle := object'];
      peak := if |handleMap| > peak then |handleMap| else peak;
    }

    method IsValid(handle: nat) returns (valid: bool)
      ensures valid <==> handle in handleMap
    {
      valid := handle in handleMap;
    }

    /** The lookup inserts a default for a handle that is not live, so callers check first. */
    method GetObjectByHandle(handle: nat) returns (object': T)
      requires handle in handleMap
      ensures object' == handleMap[handle]
    {
      object' := handleMap[handle];
    }

    method DeleteHandle(handle: nat)
      requires Valid(Model()) && handle in handleMap
      modifies this
      ensures Valid(Model())
      ensures Model() == Deleted(old(Model()), handle)
      ensures recycledHandles == old(recycledHandles) + [handle] && handleMap == old(handleMap) - {handle}
    {
      DeleteKeeps(Model(), handle);
      handleMap := handleMap - {handle};
      recycledHandles := recycledHandles + [handle];
    }
  }

  // ----- the operations on the state -----

  function NextHandle<T>(s: State<T>): nat { if s.recycled != [] then s.recycled[0] else s.nextFree }

  function Got<T>(s: State<T>, object': T): State<T> {
    var live := s.live[NextHandle(s) := object'];
    State(live, if s.recycled != [] then s.recycled[1..] else [], if s.recycled != [] then s.nextFree else s.nextFree + 1,
          if |live| > s.peak then |live| else s.peak)
  }

  function Deleted<T>(s: State<T>, handle: nat): State<T> {
    s.(live := s.live - {handle}, recycled := s.recycled + [handle])
  }

  lemma Popped(q: seq<nat>)
    requires Distinct(q) && q != []
    ensures Distinct(q[1..]) && q[0] !in q[1..]
    ensures forall h :: h in q <==> h == q[0] || h in q[1..]
  {
    assert q == [q[0]] + q[1..];
  }

  lemma Added<T>(live: map<nat, T>, h: nat, object': T)
    requires h !in live
    ensures |live[h := object']| == |live| + 1
  {
    assert live[h := object'].Keys == live.Keys + {h};
  }

  lemma GetKeeps<T>(s: State<T>, object': T)
    requires Valid(s)
    ensures Valid(Got(s, object')) && NextHandle(s) !in s.live && NextHandle(s) != 0
  {
    if s.recycled != [] { Popped(s.recycled); }
    assert NextHandle(s) !in s.live;
    hide Distinct;
    Added(s.live, NextHandle(s), object');
    if s.recycled == [] { NoneDistinct(); }
  }

  lemma NoneDistinct()
    ensures Distinct([])
  {
  }

  lemma DeleteKeeps<T>(s: State<T>, handle: nat)
    requires Valid(s) && handle in s.live
    ensures Valid(Deleted(s, handle))
  {
    assert (s.live - {handle}).Keys == s.live.Keys - {handle};
    assert handle !in s.recycled;
  }

  // ----- runs -----

  datatype Call<T> = Get(object': T) | Delete(handle: nat)

  /** A run in which only live handles are given back. */
  function Run<T>(calls: seq<Call<T>>): Option<State<T>> {
    if calls == [] then Some(State(map[], [], 1, 0))
    else
      match Run(calls[..|calls| - 1])
      case None => None
      case Some(s) =>
        match calls[|calls| - 1]
        case Get(o) => Some(Got(s, o))
        case Delete(h) => if h in s.live then Some(Deleted(s, h)) else None
  }

  /** The most handles live at once after any prefix of the calls. */
  function Peak<T>(calls: seq<Call<T>>): nat {
    if calls == [] then 0
    else
      var before := Peak(calls[..|calls| - 1]);
      var now := match Run(calls) case None => 0 case Some(s) => |s.live|;
      if now > before then now else before
  }

  /** In every run, whichever handles are given back: live and recycled handles share 1..nextFree-1 between them, and
      no more were ever made than were live at once. */
  lemma {:induction false} RunIsTight<T>(calls: seq<Call<T>>)
    requires Run(calls).Some?
    ensures Valid(Run(calls).value) && Run(calls).value.nextFree - 1 == Peak(calls)
  {
    if calls != [] {
      var n := |calls| - 1;
      var s := Run(calls[..n]).value;
      RunIsTight(calls[..n]);
      match calls[n]
      case Get(o) => GetKeeps(s, o);
      case Delete(h) =>
        DeleteKeeps(s, h);
        assert |(s.live - {h}).Keys| < |s.live.Keys| by { assert (s.live - {h}).Keys == s.live.Keys - {h}; }
    }
  }

  /** The object of the last request that was answered with `h`. */
  function LastGiven<T>(calls: seq<Call<T>>, h: nat): Option<T> {
    if calls == [] then None
    else
      var before, c := calls[..|calls| - 1], calls[|calls| - 1];
      var s := Run(before);
      if c.Get? && s.Some? && NextHandle(s.value) == h then Some(c.object') else LastGiven(before, h)
  }

  /** In every run a live handle stands for the object it was last given for. */
  lemma {:induction false} LiveIsLastGiven<T>(calls: seq<Call<T>>, h: nat)
    requires Run(calls).Some? && h in Run(calls).value.live
    ensures LastGiven(calls, h) == Some(Run(calls).value.live[h])
  {
    var n := |calls| - 1;
    var s := Run(calls[..n]).value;
    if !(calls[n].Get? && NextHandle(s) == h) {
      LiveIsLastGiven(calls[..n], h);
    }
  }

  /** The queue is used from the front: of the recycled handles, number `k` answers the request after `k` others,
      and no new handle is made before they are used up. */
  lemma {:induction false} RecycledInTurn<T>(s: State<T>, objects: seq<T>)
    requires Valid(s) && |objects| < |s.recycled|
    ensures var s' := GotAll(s, objects);
      && Valid(s') && s'.nextFree == s.nextFree && s'.recycled == s.recycled[|objects|..]
      && NextHandle(s') == s.recycled[|objects|]
  {
    if objects == [] {
      assert s.recycled[0..] == s.recycled;
    } else {
      var n := |objects| - 1;
      RecycledInTurn(s, objects[..n]);
      var before := GotAll(s, objects[..n]);
      GetKeeps(before, objects[n]);
      hide Valid;
      assert s.recycled[n..][1..] == s.recycled[n + 1..];
    }
  }

  function GotAll<T>(s: State<T>, objects: seq<T>): State<T> {
    if objects == [] then s else Got(GotAll(s, objects[..|objects| - 1]), objects[|objects| - 1])
  }

  // ----- the order of returns -----

  /** The place of the last return of `h` in the calls, or -1. */
  function LastDelete<T>(calls: seq<Call<T>>, h: nat): (k: int)
    ensures -1 <= k < |calls|
  {
    if calls == [] then -1
    else
      var c := calls[|calls| - 1];
      if c.Delete? && c.handle == h then |calls| - 1 else LastDelete(calls[..|calls| - 1], h)
  }

  /** The handles of a queue are in the order of their last returns. */
  ghost predicate InTurn<T>(calls: seq<Call<T>>, q: seq<nat>) {
    && (forall i :: 0 <= i < |q| ==> LastDelete(calls, q[i]) >= 0)
    && (forall i, j :: 0 <= i < j < |q| ==> LastDelete(calls, q[i]) < LastDelete(calls, q[j]))
  }

  /** So it is with the queue of any run. */
  lemma {:induction false} QueueInTurn<T>(calls: seq<Call<T>>)
    requires Run(calls).Some?
    ensures InTurn(calls, Run(calls).value.recycled)
  {
    if calls != [] {
      var n := |calls| - 1;
      var s := Run(calls[..n]).value;
      QueueInTurn(calls[..n]);
      RunIsTight(calls[..n]);
      var q, q' := s.recycled, Run(calls).value.recycled;
      match calls[n]
      case Get(_) =>
        assert forall i :: 0 <= i < |q'| ==> q'[i] == q[i + 1] && LastDelete(calls, q'[i]) == LastDelete(calls[..n], q'[i]);
      case Delete(h) =>
        assert forall i :: 0 <= i < |q| ==> q'[i] == q[i] && q'[i] != h && LastDelete(calls, q'[i]) == LastDelete(calls[..n], q'[i]);
        assert q'[|q|] == h && LastDelete(calls, h) == n;
    }
  }

  function Gets<T>(objects: seq<T>): (calls: seq<Call<T>>)
    ensures |calls| == |objects| && forall i :: 0 <= i < |calls| ==> calls[i] == Get(objects[i])
  {
    seq(|objects|, i requires 0 <= i < |objects| => Get(objects[i]))
  }

  lemma RunGet<T>(calls: seq<Call<T>>, object': T)
    requires Run(calls).Some?
    ensures Run(calls + [Get(object')]) == Some(Got(Run(calls).value, object'))
  {
    assert (calls + [Get(object')])[..|calls|] == calls;
    hide Got;
  }

  lemma {:induction false} RunGets<T>(calls: seq<Call<T>>, objects: seq<T>)
    requires Run(calls).Some?
    ensures Run(calls + Gets(objects)) == Some(GotAll(Run(calls).value, objects))
  {
    hide Got, Run;
    if objects == [] {
      assert calls + Gets(objects) == calls;
    } else {
      var n := |objects| - 1;
      RunGets(calls, objects[..n]);
      RunGet(calls + Gets(objects[..n]), objects[n]);
      assert calls + Gets(objects[..n]) + [Get(objects[n])] == calls + Gets(objects);
    }
  }

  /** Of two handles that wait to be used again, the one returned earlier is answered earlier: whenever requests have
      used up the other, they have used up this one. */
  lemma {:induction false} FirstInFirstOut<T>(calls: seq<Call<T>>, objects: seq<T>, g: nat, h: nat)
    requires Run(calls).Some? && g in Run(calls).value.recycled && h in Run(calls).value.recycled
    requires LastDelete(calls, g) < LastDelete(calls, h)
    ensures var later := Run(calls + Gets(objects));
      later.Some? && (h in later.value.live ==> g in later.value.live)
  {
    hide Run, Valid, LastDelete, InTurn, GotAll, Gets;
    var s := Run(calls).value;
    RunIsTight(calls);
    QueueInTurn(calls);
    RunGets(calls, objects);
    var i :| 0 <= i < |s.recycled| && s.recycled[i] == g;
    var j :| 0 <= j < |s.recycled| && s.recycled[j] == h;
    TurnIsPlace(calls, s.recycled, i, j);
    UsedUp(s, objects, i);
    UsedUp(s, objects, j);
  }

  lemma TurnIsPlace<T>(calls: seq<Call<T>>, q: seq<nat>, i: nat, j: nat)
    requires InTurn(calls, q) && i < |q| && j < |q| && LastDelete(calls, q[i]) < LastDelete(calls, q[j])
    ensures i < j
  {
    hide LastDelete;
  }

  /** After some requests, number `k` of the queue is in use exactly if there were more than `k`. */
  lemma {:induction false} UsedUp<T>(s: State<T>, objects: seq<T>, k: nat)
    requires Valid(s) && k < |s.recycled|
    ensures Valid(GotAll(s, objects)) && (s.recycled[k] in GotAll(s, objects).live <==> |objects| > k)
  {
    if objects != [] {
      var n := |objects| - 1;
      var before := GotAll(s, objects[..n]);
      UsedUp(s, objects[..n], k);
      GetKeeps(before, objects[n]);
      if n <= k {
        RecycledInTurn(s, objects[..n]);
        hide Valid, Distinct;
        NextOnly(before, objects[n], s.recycled[k]);
        RecycledDiffer(s, n, k);
      }
    }
  }

  lemma RecycledDiffer<T>(s: State<T>, i: nat, j: nat)
    requires Valid(s) && i <= j < |s.recycled|
    ensures s.recycled[i] == s.recycled[j] <==> i == j
  {
  }

  lemma NextOnly<T>(s: State<T>, object': T, h: nat)
    ensures h in Got(s, object').live <==> h in s.live || h == NextHandle(s)
  {
  }
}
