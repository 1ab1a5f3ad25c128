// Making room in a full node: rebalance_or_split.
module BTreeRoom {
  import opened BTreeHeap
  import opened BTreeCut
  import opened BTreeReshape
  import opened BTreePlace
  import opened BTreeNode
  import opened BTreeSplit
  import opened BTreeRoot
  import opened BTreeTree

  lemma Neighbours(mem: Memory, root: Ptr, k: nat, but: Ptr, p: Ptr, i: nat)
    requires Tree(mem, root, k, but) && p in mem.rec && !mem.rec[p].leaf && i < mem.rec[p].count
    ensures var a, b := mem.rec[p].children[i], mem.rec[p].children[i + 1];
      && Siblings(View(mem), root, p, i, a, b) && LinkedSiblings(View(mem), p, a, b)
      && mem.up[a] == Link(p, i) && mem.up[b] == Link(p, i + 1)
      && mem.rec[a].leaf == mem.rec[b].leaf && mem.rec[a].maxCount == mem.rec[b].maxCount == k
      && mem.rec[a].level + 1 == mem.rec[p].level
  {
    var h := View(mem);
    var a, b := mem.rec[p].children[i], mem.rec[p].children[i + 1];
    assert h[p].kids[i] == a && h[p].kids[i + 1] == b;
    assert LinksOK(h, p) && KidOK(h, p, h[p].kids[i], i) && KidOK(h, p, h[p].kids[i + 1], i + 1);
    assert LinksOK(h, a) && LinksOK(h, b);
    NotKid(h, root, p, root);
    SiblingEdges(h, root, p, i, a, b);
    assert mem.rec[a].maxCount == k && mem.rec[b].maxCount == k;
  }

  lemma ParentOf(mem: Memory, root: Ptr, k: nat, but: Ptr, n: Ptr)
    requires Tree(mem, root, k, but) && n in mem.rec && n != root
    ensures var p, i := mem.up[n].parent, mem.up[n].position;
      && p in mem.rec && !mem.rec[p].leaf && i <= mem.rec[p].count
      && mem.rec[p].children[i] == n && mem.rec[p].Kids()[i] == n
      && mem.rec[n].level + 1 == mem.rec[p].level <= mem.rec[root].level
      && mem.rec[n].maxCount == k && mem.rec[p].maxCount == k
  {
    var h := View(mem);
    ParentListing(h, root, n);
    assert UpOK(h, root, n) && UpOK(h, root, h[n].parent);
    assert mem.rec[n].maxCount == k && mem.rec[mem.up[n].parent].maxCount == k;
  }

  ghost predicate RoomMade(mem: Memory, r: Memory, root: Ptr, k: nat, but: Ptr, node: Ptr, j: nat, node': Ptr, j': nat)
    requires mem.Ok() && Shape(View(mem), root)
  {
    && Tree(r, root, k, but) && Moved(mem, r, root, node, j, node', j')
    && r.rec[node'].count < k
  }

  /** Children i and i + 1 of p. */
  ghost predicate Beside(mem: Memory, p: Ptr, i: nat, a: Ptr, b: Ptr)
    requires mem.Ok()
  {
    && p in mem.rec && !mem.rec[p].leaf && i < mem.rec[p].count
    && mem.rec[p].children[i] == a && mem.rec[p].children[i + 1] == b && a in mem.rec && b in mem.rec
  }

  /** How many values n's left sibling has. */
  ghost function LeftCount(mem: Memory, n: Ptr): nat
    requires mem.Ok() && n in mem.rec
  {
    var p, i := mem.up[n].parent, mem.up[n].position;
    if p in mem.rec && 0 < i <= |mem.rec[p].children| && mem.rec[p].children[i - 1] in mem.rec then
      mem.rec[mem.rec[p].children[i - 1]].count else 0
  }

  /** How many values its right sibling has. */
  ghost function RightCount(mem: Memory, n: Ptr): nat
    requires mem.Ok() && n in mem.rec
  {
    var p, i := mem.up[n].parent, mem.up[n].position;
    if p in mem.rec && i + 1 < |mem.rec[p].children| && mem.rec[p].children[i + 1] in mem.rec then
      mem.rec[mem.rec[p].children[i + 1]].count else 0
  }

  ghost predicate HasLeft(mem: Memory, n: Ptr)
    requires mem.Ok() && n in mem.rec
  {
    mem.up[n].position > 0
  }

  ghost predicate HasRight(mem: Memory, n: Ptr)
    requires mem.Ok() && n in mem.rec
  {
    mem.up[n].parent in mem.rec && mem.up[n].position < mem.rec[mem.up[n].parent].count
  }

  /** How many values to give to a sibling with room for the given number, biased by the insertion. */
  function ToMove(room: nat, near: bool): (m: nat)
    requires room >= 1
    ensures 1 <= m <= room
    ensures if near then (2 * m <= room || m == 1) && room <= 2 * m + 1 else m == room
  {
    Max(1, room / (1 + if near then 1 else 0))
  }

  /** A left sibling that has c of k values takes some, and that makes room for an insertion at `at`. */
  predicate LeftFits(c: nat, k: nat, at: nat) {
    c < k && (at - ToMove(k - c, at < k) >= 0 || c + ToMove(k - c, at < k) < k)
  }

  /** Likewise a right sibling of a node that has n values. */
  predicate RightFits(c: nat, k: nat, n: nat, at: nat) {
    c < k && (at <= n - ToMove(k - c, at > 0) || c + ToMove(k - c, at > 0) < k)
  }

  /** The full node n shares with its left sibling for an insertion at `at`. */
  ghost predicate SharesLeft(mem: Memory, k: nat, n: Ptr, at: nat)
    requires mem.Ok() && n in mem.rec
  {
    HasLeft(mem, n) && LeftFits(LeftCount(mem, n), k, at)
  }

  ghost predicate SharesRight(mem: Memory, k: nat, n: Ptr, at: nat)
    requires mem.Ok() && n in mem.rec
  {
    HasRight(mem, n) && RightFits(RightCount(mem, n), k, mem.rec[n].count, at)
  }

  /** n's left sibling, child i of p. */
  method LeftSibling(mem: Memory, root: Ptr, k: nat, ghost but: Ptr, n: Ptr)
      returns (has: bool, p: Ptr, i: nat, left: Ptr)
    requires Tree(mem, root, k, but) && n in mem.rec && n != root
    ensures has <==> HasLeft(mem, n)
    ensures has ==> Beside(mem, p, i, left, n) && mem.rec[left].count == LeftCount(mem, n)
    ensures has ==> mem.rec[left].maxCount == mem.rec[n].maxCount == k
  {
    ParentOf(mem, root, k, but, n);
    has, p, i, left := mem.up[n].position > 0, mem.up[n].parent, 0, n;
    if has {
      i := mem.up[n].position - 1;
      left := mem.rec[p].children[i];
      Neighbours(mem, root, k, but, p, i);
    }
  }

  /** n's right sibling; n is child i of p. */
  method RightSibling(mem: Memory, root: Ptr, k: nat, ghost but: Ptr, n: Ptr)
      returns (has: bool, p: Ptr, i: nat, right: Ptr)
    requires Tree(mem, root, k, but) && n in mem.rec && n != root
    ensures has <==> HasRight(mem, n)
    ensures has ==> Beside(mem, p, i, n, right) && mem.rec[right].count == RightCount(mem, n)
    ensures has ==> mem.rec[right].maxCount == mem.rec[n].maxCount == k
  {
    ParentOf(mem, root, k, but, n);
    p, i, right := mem.up[n].parent, mem.up[n].position, n;
    has := i < mem.rec[p].count;
    if has {
      right := mem.rec[p].children[i + 1];
      Neighbours(mem, root, k, but, p, i);
    }
  }

  method ShareLeft(mem: Memory, root: Ptr, k: nat, p: Ptr, i: nat, left: Ptr, node: Ptr, at: nat, toMove: nat)
      returns (r: Memory, node': Ptr, at': nat)
    requires Tree(mem, root, k, NULL) && Beside(mem, p, i, left, node)
    requires mem.rec[node].count == mem.rec[node].maxCount == mem.rec[left].maxCount == k && at <= k
    requires 1 <= mem.rec[left].count && 1 <= toMove && mem.rec[left].count + toMove <= k
    requires at >= toMove || mem.rec[left].count + toMove < k
    ensures RoomMade(mem, r, root, k, NULL, node, at, node', at')
    ensures forall rm | RightEdge(mem, root, rm) :: RightEdge(r, root, rm)
    ensures r.rec.Keys == mem.rec.Keys && r.rec[node].count == k - toMove
  {
    Neighbours(mem, root, k, NULL, p, i);
    ghost var l := mem.rec[left].count;
    r := RebalanceRightToLeft(mem, left, node, toMove);
    if at < toMove {
      node', at' := left, at - toMove + r.rec[left].count + 1;
    } else {
      node', at' := node, at - toMove;
    }
    ghost var d := mem.rec[node].values[toMove - 1];
    ShiftTree(mem, r, root, k, p, i, left, node, d, NULL);
    ShiftMoved(mem, r, root, p, i, left, node, d, at + l + 1, node, at, node', at');
  }

  method ShareRight(mem: Memory, root: Ptr, k: nat, p: Ptr, i: nat, node: Ptr, right: Ptr, at: nat, toMove: nat)
      returns (r: Memory, node': Ptr, at': nat)
    requires Tree(mem, root, k, NULL) && Beside(mem, p, i, node, right)
    requires mem.rec[node].count == mem.rec[node].maxCount == mem.rec[right].maxCount == k && at <= k
    requires 1 <= mem.rec[right].count && 1 <= toMove && mem.rec[right].count + toMove <= k
    requires at <= k - toMove || mem.rec[right].count + toMove < k
    ensures RoomMade(mem, r, root, k, NULL, node, at, node', at')
    ensures forall rm | RightEdge(mem, root, rm) :: RightEdge(r, root, rm)
    ensures r.rec.Keys == mem.rec.Keys && r.rec[node].count == k - toMove
  {
    Neighbours(mem, root, k, NULL, p, i);
    r := RebalanceLeftToRight(mem, node, right, toMove);
    node', at' := node, at;
    if at > r.rec[node].count {
      node', at' := right, at - r.rec[node].count - 1;
    }
    ghost var d := mem.rec[node].values[mem.rec[node].count - toMove];
    ShiftTree(mem, r, root, k, p, i, node, right, d, NULL);
    ShiftMoved(mem, r, root, p, i, node, right, d, at, node, at, node', at');
  }

  /** Share values between the full node and its left sibling, if that makes room where the insertion is. */
  method TryLeft(mem: Memory, root: Ptr, k: nat, node: Ptr, at: nat)
      returns (done: bool, r: Memory, node': Ptr, at': nat)
    requires Tree(mem, root, k, NULL) && node in mem.rec && node != root
    requires mem.rec[node].count == mem.rec[node].maxCount && at <= mem.rec[node].count
    ensures done ==> RoomMade(mem, r, root, k, NULL, node, at, node', at')
    ensures done ==> forall rm | RightEdge(mem, root, rm) :: RightEdge(r, root, rm)
    ensures done <==> SharesLeft(mem, k, node, at)
    ensures done ==>
      r.rec.Keys == mem.rec.Keys && node in r.rec && r.rec[node].count == k - ToMove(k - LeftCount(mem, node), at < k)
  {
    done, r, node', at' := false, mem, node, at;
    var has, p, i, left := LeftSibling(mem, root, k, NULL, node);
    if has {
      var toMove;
      done, toMove := LeftAmount(mem.rec[left].count, mem.rec[left].maxCount, at);
      if done {
        r, node', at' := ShareLeft(mem, root, k, p, i, left, node, at, toMove);
      }
    }
  }

  /** How many values to give to a left sibling that has count of maxCount, if that makes room. */
  method LeftAmount(count: nat, maxCount: nat, at: nat) returns (fits: bool, toMove: nat)
    ensures fits <==> LeftFits(count, maxCount, at)
    ensures fits ==> toMove == ToMove(maxCount - count, at < maxCount)
  {
    fits, toMove := false, 0;
    if count < maxCount {
      toMove := ToMove(maxCount - count, at < maxCount);
      fits := at - toMove >= 0 || count + toMove < maxCount;
    }
  }

  /** Likewise with its right sibling. */
  method TryRight(mem: Memory, root: Ptr, k: nat, node: Ptr, at: nat)
      returns (done: bool, r: Memory, node': Ptr, at': nat)
    requires Tree(mem, root, k, NULL) && node in mem.rec && node != root
    requires mem.rec[node].count == mem.rec[node].maxCount && at <= mem.rec[node].count
    ensures done ==> RoomMade(mem, r, root, k, NULL, node, at, node', at')
    ensures done ==> forall rm | RightEdge(mem, root, rm) :: RightEdge(r, root, rm)
    ensures done <==> SharesRight(mem, k, node, at)
    ensures done ==>
      r.rec.Keys == mem.rec.Keys && node in r.rec && r.rec[node].count == k - ToMove(k - RightCount(mem, node), at > 0)
  {
    done, r, node', at' := false, mem, node, at;
    var has, p, i, right := RightSibling(mem, root, k, NULL, node);
    if has {
      var toMove;
      done, toMove := RightAmount(mem.rec[right].count, mem.rec[right].maxCount, mem.rec[node].count, at);
      if done {
        r, node', at' := ShareRight(mem, root, k, p, i, node, right, at, toMove);
      }
    }
  }

  /** How many values a node of n gives to a right sibling that has count of maxCount, if that makes room. */
  method RightAmount(count: nat, maxCount: nat, n: nat, at: nat) returns (fits: bool, toMove: nat)
    ensures fits <==> RightFits(count, maxCount, n, at)
    ensures fits ==> toMove == ToMove(maxCount - count, at > 0)
  {
    fits, toMove := false, 0;
    if count < maxCount {
      toMove := ToMove(maxCount - count, at > 0);
      fits := at <= n - toMove || count + toMove < maxCount;
    }
  }

  /** A split leaves an empty half only where the insertion will go. */
  lemma HalvesHeld(k: nat, at: nat, n: nat, dc: nat)
    requires k >= 3 && at <= k && dc == DestCount(k, k, at) && n == k - dc - 1
    ensures (n == 0 ==> at == 0) && (dc == 0 ==> at > n)
  {}

  /** Split the full node, whose parent p has room. */
  method SplitAt(mem: Memory, root: Ptr, k: nat, p: Ptr, i: nat, node: Ptr, at: nat, split: Ptr, ghost but: Ptr)
      returns (r: Memory, node': Ptr, at': nat)
    requires k >= 3 && mem.Ok() && Shape(View(mem), root) && Sized(mem, root, k, but) && (but == p || but == NULL)
    requires Before(View(mem), root, mem.up[root].parent) == []
    requires p in mem.rec && node in mem.rec && split !in mem.rec
    requires split != NULL && !mem.rec[p].leaf && i <= mem.rec[p].count
    requires mem.rec[p].Kids()[i] == node && mem.rec[p].count < k
    requires mem.rec[node].count == mem.rec[node].maxCount == k && at <= k
    ensures r.Ok() && split in r.rec && RoomMade(mem, r, root, k, node', node, at, node', at')
    ensures forall rm | RightEdge(mem, root, rm) && !mem.rec[root].leaf ::
      RightEdge(r, root, if rm == node then split else rm)
  {
    assert LinksOK(View(mem), p) && LinksOK(View(mem), node);
    SplitReadyView(mem, p, i, node, split);
    ghost var d;
    r, d := Split(mem, p, i, node, split, at);
    HalvesHeld(k, at, r.rec[node].count, r.rec[split].count);
    node', at' := node, at;
    if at > r.rec[node].count {
      node', at' := split, at - r.rec[node].count - 1;
    }
    CutTree(mem, r, root, k, p, i, node, d, split, but, node');
    CutMovedPlace(mem, r, root, p, i, node, d, split, at, node', at');
  }

  /** An unused address. */
  method Allocate(mem: Memory) returns (p: Ptr)
    ensures p !in mem.rec && p != NULL
  {
    p := 1;
    ghost var seen: set<Ptr> := {};
    while p in mem.rec
      invariant p >= 1 && seen <= mem.rec.Keys && |seen| == p - 1 && forall q | q in seen :: q < p
      decreases |mem.rec.Keys - seen|
    {
      seen := seen + {p};
      p := p + 1;
    }
  }

  lemma Weaken(mem: Memory, r: Memory, root: Ptr, k: nat, node: Ptr, j: nat, node': Ptr, j': nat)
    requires mem.Ok() && Shape(View(mem), root) && RoomMade(mem, r, root, k, NULL, node, j, node', j')
    ensures RoomMade(mem, r, root, k, node', node, j, node', j')
  {}

  /** Make room in a full node of a tree with an internal root; the iterator keeps its place. */
  method RebalanceOrSplit(mem: Memory, root: Ptr, rm: Ptr, k: nat, node: Ptr, at: nat)
      returns (r: Memory, rm': Ptr, node': Ptr, at': nat)
    requires Tree(mem, root, k, NULL) && RightEdge(mem, root, rm) && !mem.rec[root].leaf
    requires node in mem.rec && mem.rec[node].count == mem.rec[node].maxCount && at <= mem.rec[node].count
    ensures RoomMade(mem, r, root, k, node', node, at, node', at') && RightEdge(r, root, rm')
    ensures node != root && (SharesLeft(mem, k, node, at) || SharesRight(mem, k, node, at)) ==>
      r.rec.Keys == mem.rec.Keys
    decreases mem.rec[root].level - mem.rec[node].level
  {
    rm' := rm;
    var done;
    if node != root {
      done, r, node', at' := TryLeft(mem, root, k, node, at);
      if done {
        Weaken(mem, r, root, k, node, at, node', at');
        return;
      }
      done, r, node', at' := TryRight(mem, root, k, node, at);
      if done {
        Weaken(mem, r, root, k, node, at, node', at');
        return;
      }
      ParentOf(mem, root, k, NULL, node);
      if mem.rec[mem.up[node].parent].count == mem.rec[mem.up[node].parent].maxCount {
        r, rm', node', at' := SplitUnderFull(mem, root, rm, k, node, at);
      } else {
        r, rm', node', at' := SplitHere(mem, root, rm, k, mem.up[node].parent, mem.up[node].position, node, at, NULL);
      }
    } else {
      r, rm', node', at' := SplitRoot(mem, root, rm, k, at);
    }
  }

  method SplitHere(mem: Memory, root: Ptr, rm: Ptr, k: nat, p: Ptr, i: nat, node: Ptr, at: nat, ghost but: Ptr)
      returns (r: Memory, rm': Ptr, node': Ptr, at': nat)
    requires k >= 3 && mem.Ok() && Shape(View(mem), root) && Sized(mem, root, k, but) && (but == p || but == NULL)
    requires Before(View(mem), root, mem.up[root].parent) == [] && RightEdge(mem, root, rm) && !mem.rec[root].leaf
    requires p in mem.rec && node in mem.rec && !mem.rec[p].leaf
    requires i <= mem.rec[p].count && mem.rec[p].Kids()[i] == node
    requires mem.rec[p].count < k && mem.rec[node].count == mem.rec[node].maxCount == k && at <= k
    ensures RoomMade(mem, r, root, k, node', node, at, node', at') && RightEdge(r, root, rm')
  {
    rm' := rm;
    var split := Allocate(mem);
    r, node', at' := SplitAt(mem, root, k, p, i, node, at, split, but);
    if mem.rec[node].leaf && rm' == node {
      rm' := split;
    }
  }

  /** The parent is full too: make room there first. The node itself is not touched by that, only its link. */
  method SplitUnderFull(mem: Memory, root: Ptr, rm: Ptr, k: nat, node: Ptr, at: nat)
      returns (r: Memory, rm': Ptr, node': Ptr, at': nat)
    requires Tree(mem, root, k, NULL) && RightEdge(mem, root, rm)
    requires !mem.rec[root].leaf && node in mem.rec && node != root
    requires mem.rec[node].count == mem.rec[node].maxCount && at <= mem.rec[node].count
    requires mem.up[node].parent in mem.rec
    requires mem.rec[mem.up[node].parent].count == mem.rec[mem.up[node].parent].maxCount
    ensures RoomMade(mem, r, root, k, node', node, at, node', at') && RightEdge(r, root, rm')
    decreases mem.rec[root].level - mem.rec[node].level, 0
  {
    ParentOf(mem, root, k, NULL, node);
    var p, i := mem.up[node].parent, mem.up[node].position;
    var m1, rm1, p', i' := RebalanceOrSplit(mem, root, rm, k, p, i);
    assert m1.rec[node] == mem.rec[node] && KidOK(View(m1), p', node, i');
    SlotOf(View(m1), root, p', node, i');
    assert UpOK(View(m1), root, p') && LinksOK(View(m1), root) && LinksOK(View(m1), p');
    r, rm', node', at' := SplitHere(m1, root, rm1, k, p', i', node, at, p');
    MovedBelow(mem, m1, r, root, p, i, p', i', node, at, node', at');
  }

  method SplitRoot(mem: Memory, root: Ptr, rm: Ptr, k: nat, at: nat) returns (r: Memory, rm': Ptr, node': Ptr, at': nat)
    requires Tree(mem, root, k, NULL) && RightEdge(mem, root, rm) && !mem.rec[root].leaf
    requires mem.rec[root].count == mem.rec[root].maxCount && at <= mem.rec[root].count
    ensures RoomMade(mem, r, root, k, node', root, at, node', at') && RightEdge(r, root, rm')
  {
    var m := Allocate(mem);
    assert LinksOK(View(mem), root) && LinksOK(View(mem), mem.up[root].parent);
    NotKid(View(mem), root, root, root);
    var m1 := PushRoot(mem, root, m);
    PushTree(mem, m1, root, k, m);
    PushMoved(mem, m1, root, m, at);
    r, rm', node', at' := SplitHere(m1, root, rm, k, root, 0, m, at, root);
    MovedTwice(mem, m1, r, root, root, at, m, at, node', at');
  }
}
