// The version history as the doubly linked list that SiLockContent and MvLockContent keep.
module HistoryList {
  import opened History

  type Ptr = int
  const NULL: Ptr := 0

  datatype Node = Node(timestamp: nat, data: int, next: Ptr, prev: Ptr)

  /** The loop of GetMinTimestamp. Each slot is loaded to compare and again to assign; other threads
      may set it in between, so the loads are given. */
  method GetMinTimestamp(cs: seq<nat>, ms: seq<nat>) returns (res: nat)
    requires 0 < |cs| == |ms|
    ensures res == MinLoop(cs, ms)
    ensures res == cs[0] || exists k | 0 < k < |ms| :: res == ms[k]
  {
    res := cs[0];
    var i := 1;
    assert cs[..1] == [cs[0]] && ms[..1] == [ms[0]];
    while i < |cs|
      invariant 1 <= i <= |cs| && res == MinLoop(cs[..i], ms[..i])
    {
      assert cs[..i + 1][..i] == cs[..i] && ms[..i + 1][..i] == ms[..i];
      if cs[i] < res {
        res := ms[i];
      }
      i := i + 1;
    }
    assert cs[..i] == cs && ms[..i] == ms;
    MinLoopAmong(cs, ms);
  }

  /** The loop of GetMaxTimestamp, which begins again at slot 0. */
  method GetMaxTimestamp(first: nat, cs: seq<nat>, ms: seq<nat>) returns (res: nat)
    requires |cs| == |ms| && forall k | 0 <= k < |cs| :: cs[k] <= ms[k]
    ensures res == MaxLoop([first] + cs, [first] + ms) && res >= first
    ensures forall k | 0 <= k < |cs| :: res >= cs[k]
    ensures res == first || exists k | 0 <= k < |ms| :: res == ms[k]
  {
    res := first;
    var i := 0;
    assert cs[..0] == [] && ms[..0] == [];
    while i < |cs|
      invariant 0 <= i <= |cs| && res == MaxLoop([first] + cs[..i], [first] + ms[..i])
    {
      assert ([first] + cs[..i + 1])[..i + 1] == [first] + cs[..i]
        && ([first] + ms[..i + 1])[..i + 1] == [first] + ms[..i];
      if cs[i] > res {
        res := ms[i];
      }
      i := i + 1;
    }
    assert cs[..i] == cs && ms[..i] == ms;
    forall k | 0 <= k <= |cs| ensures res >= ([first] + cs)[k] { MaxLoopAbove([first] + cs, [first] + ms, k); }
    assert ([first] + cs)[0] == first;
    forall k | 0 <= k < |cs| ensures res >= cs[k] { assert ([first] + cs)[k + 1] == cs[k]; }
    MaxLoopAmongAll(first, cs, ms);
  }

  predicate NoRepeat(ps: seq<Ptr>) {
    forall i, j | 0 <= i < j < |ps| :: ps[i] != ps[j]
  }

  /** Entry i of the list is linked to its neighbours, both ways. */
  predicate Linked(order: seq<Ptr>, nodes: map<Ptr, Node>, i: nat)
    requires i < |order|
  {
    && order[i] != NULL && order[i] in nodes
    && nodes[order[i]].next == (if i + 1 < |order| then order[i + 1] else NULL)
    && nodes[order[i]].prev == (if i > 0 then order[i - 1] else NULL)
  }

  predicate AllLinked(order: seq<Ptr>, nodes: map<Ptr, Node>) {
    && NoRepeat(order) && (forall i {:trigger Linked(order, nodes, i)} | 0 <= i < |order| :: Linked(order, nodes, i))
    && (forall p | p in nodes :: p in order)
  }

  /** The list as versions, newest first. */
  function VersionsOf(order: seq<Ptr>, nodes: map<Ptr, Node>): seq<Version> {
    seq(|order|, i requires 0 <= i < |order| =>
      if order[i] in nodes then Version(nodes[order[i]].timestamp, nodes[order[i]].data) else Version(0, 0))
  }

  class SiLockContent {
    var timestamp: nat
    var initial: int
    var nodes: map<Ptr, Node>
    var head: Ptr
    var tail: Ptr
    var length: nat
    ghost var order: seq<Ptr>

    ghost predicate Valid()
      reads this
    {
      && AllLinked(order, nodes) && length == |order|
      && head == (if order == [] then NULL else order[0]) && tail == (if order == [] then NULL else order[|order| - 1])
    }

    ghost function Versions(): seq<Version>
      reads this
    {
      VersionsOf(order, nodes)
    }

    constructor (data: int)
      ensures Valid() && Versions() == [] && initial == data && timestamp == 0
    {
      timestamp, initial, nodes, head, tail, length := 0, data, map[], NULL, NULL, 0;
      order := [];
    }

    method ReadAccess(t: nat) returns (data: int)
      requires Valid()
      ensures data == ReadAt(Versions(), t, initial)
    {
      ghost var h := Versions();
      ghost var i := 0;
      var entry := head;
      assert h[0..] == h;
      while entry != NULL
        invariant 0 <= i <= |order| && entry == (if i < |order| then order[i] else NULL)
        invariant ReadAt(h, t, initial) == ReadAt(h[i..], t, initial)
        invariant i < |order| ==> Linked(order, nodes, i)
        decreases |order| - i
      {
        assert i < |order| && h[i..][0] == h[i];
        if nodes[entry].timestamp <= t {
          break;
        }
        assert h[i..][1..] == h[i + 1..];
        assert i + 1 < |order| ==> Linked(order, nodes, i + 1);
        entry := nodes[entry].next;
        i := i + 1;
      }
      if entry == NULL {
        assert h[i..] == [];
        data := initial;
      } else {
        data := nodes[entry].data;
      }
    }

    /** A new version at the head; a long history is pruned. p is the new entry's address, the loads
        are those of GetMinTimestamp. */
    method WriteAccess(commitTs: nat, data: int, p: Ptr, cs: seq<nat>, ms: seq<nat>)
      requires Valid() && p != NULL && p !in nodes && 0 < |cs| == |ms| && commitTs > timestamp
      modifies this
      ensures Valid() && timestamp == commitTs && initial == old(initial)
      ensures Versions() == Written(old(Versions()), Version(commitTs, data), MinLoop(cs, ms))
    {
      timestamp := commitTs;
      PushHead(commitTs, data, p);
      CollectGarbage(cs, ms);
    }

    method PushHead(ts: nat, data: int, p: Ptr)
      requires Valid() && p != NULL && p !in nodes
      modifies this`nodes, this`head, this`tail, this`length, this`order
      ensures Valid() && Versions() == [Version(ts, data)] + old(Versions())
    {
      ghost var was, then_ := order, nodes;
      assert order != [] ==> Linked(order, nodes, 0);
      if head != NULL {
        nodes := nodes[p := Node(ts, data, head, NULL)][head := nodes[head].(prev := p)];
        head := p;
      } else {
        nodes := nodes[p := Node(ts, data, NULL, NULL)];
        head, tail := p, p;
      }
      length := length + 1;
      order := [p] + order;
      PushedLinks(was, then_, nodes, p, ts, data);
    }

    method CollectGarbage(cs: seq<nat>, ms: seq<nat>)
      requires Valid() && 0 < |cs| == |ms|
      modifies this`nodes, this`tail, this`length, this`order
      ensures Valid()
      ensures Versions() ==
        if |old(Versions())| > K_RECYCLE_LENGTH then Pruned(old(Versions()), MinLoop(cs, ms)) else old(Versions())
    {
      if length > K_RECYCLE_LENGTH {
        var min := GetMinTimestamp(cs, ms);
        ClearHistory(min);
      }
    }

    method ClearHistory(min: nat)
      requires Valid()
      modifies this`nodes, this`tail, this`length, this`order
      ensures Valid() && Versions() == Pruned(old(Versions()), min)
    {
      ghost var was, all := order, nodes;
      var left, entry, count := FreeTail(nodes, tail, length, min, order);
      nodes, tail, length := left, entry, count;
      if tail != NULL {
        nodes := nodes[tail := nodes[tail].(next := NULL)];
      }
      order := was[..count];
      CutLinks(was, all, count, left, nodes);
    }
  }

  /** The first n entries of the list are left, as they were, and the walk stands on the last of them. */
  ghost predicate Left(was: seq<Ptr>, nodes: map<Ptr, Node>, left: map<Ptr, Node>, entry: Ptr, n: nat) {
    && n <= |was| && (n == 0 <==> was == [])
    && entry == (if n == 0 then NULL else was[n - 1]) && (n > 0 ==> entry != NULL)
    && left.Keys == Elements(was[..n]) && (forall p | p in left :: p in nodes && left[p] == nodes[p])
  }

  /** Where the walk stands the links lead to the entry before. */
  lemma LeftLinks(was: seq<Ptr>, nodes: map<Ptr, Node>, left: map<Ptr, Node>, entry: Ptr, n: nat)
    requires AllLinked(was, nodes) && Left(was, nodes, left, entry, n)
    ensures n > 0 ==> entry in left && left[entry].prev == (if n > 1 then was[n - 2] else NULL)
    ensures n > 1 ==> left[entry].prev != NULL && left[entry].prev in left
    ensures n > 1 ==> left[left[entry].prev].timestamp == VersionsOf(was, nodes)[n - 2].timestamp
  {
    if n > 0 {
      assert Linked(was, nodes, n - 1) && was[n - 1] in was[..n];
    }
    if n > 1 {
      assert Linked(was, nodes, n - 2) && was[n - 2] in was[..n];
    }
  }

  /** One entry fewer. */
  lemma LeftLess(was: seq<Ptr>, nodes: map<Ptr, Node>, left: map<Ptr, Node>,
      entry: Ptr, n: nat, less: map<Ptr, Node>, next: Ptr)
    requires AllLinked(was, nodes) && Left(was, nodes, left, entry, n) && n > 1
    requires less == left - {entry} && next == was[n - 2]
    ensures Left(was, nodes, less, next, n - 1)
  {
    ShorterBy1(was, n);
    assert Linked(was, nodes, n - 2);
  }

  lemma PrunedLess(h: seq<Version>, n: nat, min: nat)
    requires 2 <= n <= |h| && h[n - 2].timestamp < min
    ensures Pruned(h[..n], min) == Pruned(h[..n - 1], min)
  {
    assert h[..n][..n - 1] == h[..n - 1] && h[..n][n - 2] == h[n - 2];
  }

  method FreeLast(ghost nodes: map<Ptr, Node>, left: map<Ptr, Node>, entry: Ptr,
      n: nat, ghost min: nat, ghost was: seq<Ptr>)
    returns (less: map<Ptr, Node>, next: Ptr, m: nat)
    requires AllLinked(was, nodes) && Left(was, nodes, left, entry, n)
    requires n > 1 && entry in left && left[entry].prev == was[n - 2]
    requires VersionsOf(was, nodes)[n - 2].timestamp < min
    ensures m == n - 1 && Left(was, nodes, less, next, m)
    ensures Pruned(VersionsOf(was, nodes)[..n], min) == Pruned(VersionsOf(was, nodes)[..m], min)
  {
    PrunedLess(VersionsOf(was, nodes), n, min);
    less, next, m := left - {entry}, left[entry].prev, n - 1;
    LeftLess(was, nodes, left, entry, n, less, next);
  }

  /** Entries are freed from the tail on while the next newer one is below the threshold. */
  method FreeTail(nodes: map<Ptr, Node>, tail: Ptr, length: nat, min: nat, ghost was: seq<Ptr>)
    returns (left: map<Ptr, Node>, entry: Ptr, n: nat)
    requires AllLinked(was, nodes) && length == |was| && tail == (if was == [] then NULL else was[|was| - 1])
    ensures Left(was, nodes, left, entry, n)
    ensures VersionsOf(was, nodes)[..n] == Pruned(VersionsOf(was, nodes), min)
  {
    ghost var h := VersionsOf(was, nodes);
    ghost var kept := Pruned(h, min);
    left, entry, n := nodes, tail, length;
    assert was[..n] == was && h[..n] == h && (n > 0 ==> Linked(was, nodes, n - 1));
    KeysOf(was, nodes);
    LeftLinks(was, nodes, left, entry, n);
    while entry != NULL && left[entry].prev != NULL && left[left[entry].prev].timestamp < min
      invariant Left(was, nodes, left, entry, n) && kept == Pruned(h[..n], min)
      invariant n > 0 ==> entry in left && left[entry].prev == (if n > 1 then was[n - 2] else NULL)
      invariant n > 1 ==> left[entry].prev != NULL && left[entry].prev in left
      invariant n > 1 ==> left[left[entry].prev].timestamp == h[n - 2].timestamp
      decreases n
    {
      left, entry, n := FreeLast(nodes, left, entry, n, min, was);
      LeftLinks(was, nodes, left, entry, n);
    }
    PrunedHere(h, n, min);
  }

  /** p has been put in front of a list. */
  predicate Pushed(was: seq<Ptr>, nodes: map<Ptr, Node>, now: map<Ptr, Node>, p: Ptr, ts: nat, data: int) {
    && p != NULL && p !in nodes
    && if was == [] then now == nodes[p := Node(ts, data, NULL, NULL)] else
         was[0] in nodes && now == nodes[p := Node(ts, data, was[0], NULL)][was[0] := nodes[was[0]].(prev := p)]
  }

  /** Entry i of the longer list: p, or what was entry i - 1. */
  lemma PushedLink(was: seq<Ptr>, nodes: map<Ptr, Node>, now: map<Ptr, Node>, p: Ptr, ts: nat, data: int, i: nat)
    requires AllLinked(was, nodes) && Pushed(was, nodes, now, p, ts, data) && i <= |was|
    ensures Linked([p] + was, now, i)
    ensures VersionsOf([p] + was, now)[i] == if i == 0 then Version(ts, data) else VersionsOf(was, nodes)[i - 1]
  {
    assert was != [] ==> Linked(was, nodes, 0);
    if i > 0 { assert Linked(was, nodes, i - 1); }
  }

  lemma PushedLinks(was: seq<Ptr>, nodes: map<Ptr, Node>, now: map<Ptr, Node>, p: Ptr, ts: nat, data: int)
    requires AllLinked(was, nodes) && Pushed(was, nodes, now, p, ts, data)
    ensures AllLinked([p] + was, now) && VersionsOf([p] + was, now) == [Version(ts, data)] + VersionsOf(was, nodes)
  {
    var order := [p] + was;
    PushedNoRepeat(was, nodes, now, p, ts, data);
    forall i | 0 <= i < |order| ensures Linked(order, now, i) { PushedLink(was, nodes, now, p, ts, data, i); }
    PushedVersions(was, nodes, now, p, ts, data);
  }

  lemma PushedNoRepeat(was: seq<Ptr>, nodes: map<Ptr, Node>, now: map<Ptr, Node>, p: Ptr, ts: nat, data: int)
    requires AllLinked(was, nodes) && Pushed(was, nodes, now, p, ts, data)
    ensures NoRepeat([p] + was) && forall q | q in now :: q in [p] + was
  {
    forall i | 0 <= i < |was| ensures was[i] != p { assert Linked(was, nodes, i); }
  }

  lemma PushedVersions(was: seq<Ptr>, nodes: map<Ptr, Node>, now: map<Ptr, Node>, p: Ptr, ts: nat, data: int)
    requires AllLinked(was, nodes) && Pushed(was, nodes, now, p, ts, data)
    ensures VersionsOf([p] + was, now) == [Version(ts, data)] + VersionsOf(was, nodes)
  {
    var now_, then_ := VersionsOf([p] + was, now), [Version(ts, data)] + VersionsOf(was, nodes);
    forall i | 0 <= i < |now_| ensures now_[i] == then_[i] { PushedLink(was, nodes, now, p, ts, data, i); }
  }

  function Elements(ps: seq<Ptr>): set<Ptr> {
    set p | p in ps
  }

  lemma KeysOf(order: seq<Ptr>, nodes: map<Ptr, Node>)
    requires AllLinked(order, nodes)
    ensures nodes.Keys == Elements(order)
  {
    forall p | p in nodes ensures p in order {}
    forall p | p in order ensures p in nodes {
      var i :| 0 <= i < |order| && order[i] == p;
      assert Linked(order, nodes, i);
    }
  }

  lemma ShorterBy1(was: seq<Ptr>, n: nat)
    requires 2 <= n <= |was| && NoRepeat(was)
    ensures Elements(was[..n - 1]) == Elements(was[..n]) - {was[n - 1]}
  {
    assert was[..n] == was[..n - 1] + [was[n - 1]];
    assert was[n - 1] !in was[..n - 1] by {
      forall i | 0 <= i < n - 1 ensures was[i] != was[n - 1] {}
    }
  }

  /** Where the loop stops nothing more is pruned. */
  lemma PrunedHere(h: seq<Version>, n: nat, min: nat)
    requires n <= |h| && (n >= 2 ==> h[n - 2].timestamp >= min)
    ensures Pruned(h[..n], min) == h[..n]
  {
    if n >= 2 { assert h[..n][n - 2] == h[n - 2]; }
  }

  lemma CutLinks(was: seq<Ptr>, all: map<Ptr, Node>, n: nat, left: map<Ptr, Node>, now: map<Ptr, Node>)
    requires AllLinked(was, all) && n <= |was| && (n == 0 ==> was == []) && left.Keys == Elements(was[..n])
    requires forall p | p in left :: p in all && left[p] == all[p]
    requires n > 0 ==> was[n - 1] in left && now == left[was[n - 1] := left[was[n - 1]].(next := NULL)]
    requires n == 0 ==> now == left
    ensures AllLinked(was[..n], now) && VersionsOf(was[..n], now) == VersionsOf(was, all)[..n]
  {
    forall i | 0 <= i < n ensures Linked(was[..n], now, i) && VersionsOf(was[..n], now)[i] == VersionsOf(was, all)[i] {
      assert Linked(was, all, i) && was[..n][i] == was[i] && was[i] in was[..n];
    }
  }
}
