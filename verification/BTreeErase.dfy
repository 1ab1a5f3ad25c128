// Removing a value from a leaf and mending the tree on the way up.
module BTreeErase {
  import opened BTreeWeave
  import opened BTreeHeap
  import opened BTreeCut
  import opened BTreeReshape
  import opened BTreeGap
  import opened BTreePlace
  import opened BTreeNode
  import opened BTreeSplit
  import opened BTreeTree
  import opened BTreeRoom
  import opened BTreeWalk

  // ----- merge_nodes -----

  lemma MergeIsCut(mem: Memory, r: Memory, root: Ptr, p: Ptr, i: nat, a: Ptr, d: Entry, b: Ptr)
    requires mem.Ok() && Shape(View(mem), root) && Before(View(mem), root, mem.up[root].parent) == []
    requires CutMemory(r, mem, p, i, a, d, b) && KidsAt(r, p) && KidsAt(r, a)
    ensures Shape(View(r), root) && Cut(View(r), View(mem), root, p, i, a, d, b) && a != root && b != root
  {
    var h, g := View(r), View(mem);
    LinksBuilt(r, p);
    LinksBuilt(r, a);
    assert LinksOK(g, p) && LinksOK(g, a) && LinksOK(g, b);
    CutMemoryCuts(r, mem, p, i, a, d, b);
    assert g[p].kids[i] == a && g[p].kids[i + 1] == b;
    SiblingEdges(g, root, p, i, a, b);
    JoinShape(h, g, root, p, i, a, d, b);
    CutLevels(h, g, root, p, i, a, d, b);
  }

  lemma MergeTree(mem: Memory, r: Memory, root: Ptr, k: nat, p: Ptr, i: nat, a: Ptr, d: Entry, b: Ptr, but: Ptr)
    requires Tree(mem, root, k, but) && CutMemory(r, mem, p, i, a, d, b)
    requires Cut(View(r), View(mem), root, p, i, a, d, b) && a != root && b != root && !mem.rec[p].leaf
    requires but == a || but == b || but == NULL
    ensures Tree(r, root, k, p)
    ensures forall rm | RightEdge(mem, root, rm) :: RightEdge(r, root, if rm == b then a else rm)
  {
    var h, g := View(r), View(mem);
    CutRootLink(h, g, root, p, i, a, d, b);
    assert h[root].parent in h;
    CutEdges(h, g, root, p, i, a, d, b, h[root].parent);
    MergeSized(mem, r, root, k, p, i, a, d, b, but);
    forall rm | RightEdge(mem, root, rm) ensures RightEdge(r, root, if rm == b then a else rm) {
      MergeRightEdge(mem, r, root, p, i, a, d, b, rm);
    }
  }

  lemma MergeSized(mem: Memory, r: Memory, root: Ptr, k: nat, p: Ptr, i: nat, a: Ptr, d: Entry, b: Ptr, but: Ptr)
    requires Sized(mem, root, k, but) && CutMemory(r, mem, p, i, a, d, b) && b != root && a != root && !mem.rec[p].leaf
    requires but == a || but == b || but == NULL
    ensures Sized(r, root, k, p)
  {
    forall n | n in r.rec
      ensures if n == root && r.rec[n].leaf then 1 <= r.rec[n].maxCount <= k else r.rec[n].maxCount == k
      ensures n != p ==> r.rec[n].count >= 1
    {
      assert mem.rec[n].maxCount == r.rec[n].maxCount;
      if n == a { assert |r.rec[a].Vals()| >= 1; }
    }
  }

  lemma MergeRootLeaf(h: map<Ptr, Nd<Ptr>>, g: map<Ptr, Nd<Ptr>>, root: Ptr, p: Ptr, i: nat, a: Ptr, d: Entry, b: Ptr)
    requires Cut(h, g, root, p, i, a, d, b)
    ensures root in h && root in g && g[root].leaf == h[root].leaf
  {
    CutLevels(h, g, root, p, i, a, d, b);
    if root != p && root != a { assert SameContent(h, g, root); }
  }

  /** The leaf on the right edge of the tree, after the merge. */
  lemma MergeLast(h: map<Ptr, Nd<Ptr>>, g: map<Ptr, Nd<Ptr>>, root: Ptr, p: Ptr, i: nat, a: Ptr, d: Entry, b: Ptr,
      rm: Ptr)
    requires Cut(h, g, root, p, i, a, d, b) && b != root
    requires rm in g && g[rm].leaf && After(g, root, rm) == []
    ensures var x := if rm == b then a else rm; x in h && h[x].leaf && After(h, root, x) == []
  {
    CutLevels(h, g, root, p, i, a, d, b);
    if rm == b {
      CutEdges(h, g, root, p, i, a, d, b, a);
    } else {
      SiblingEdges(g, root, p, i, a, b);
      CutEdges(h, g, root, p, i, a, d, b, rm);
      assert rm == p || rm == a || SameContent(h, g, rm);
    }
  }

  lemma MergeRightEdge(mem: Memory, r: Memory, root: Ptr, p: Ptr, i: nat, a: Ptr, d: Entry, b: Ptr, rm: Ptr)
    requires mem.Ok() && r.Ok() && Cut(View(r), View(mem), root, p, i, a, d, b)
    requires RightEdge(mem, root, rm) && b != root
    ensures RightEdge(r, root, if rm == b then a else rm)
  {
    MergeRootLeaf(View(r), View(mem), root, p, i, a, d, b);
    if !mem.rec[root].leaf { MergeLast(View(r), View(mem), root, p, i, a, d, b, rm); }
  }

  /** The tree lists the same, nothing below x's level has changed, and if x is a leaf, place j of x is place q of y. */
  ghost predicate Mended(mem: Memory, r: Memory, root: Ptr, x: Ptr, j: int, y: Ptr, q: int)
    requires mem.Ok() && r.Ok() && Shape(View(mem), root) && Shape(View(r), root) && x in mem.rec
  {
    && Listing(View(r), root) == Listing(View(mem), root) && LowerKept(mem, r, root, mem.rec[x].level)
    && r.rec[root].level == mem.rec[root].level
    && y in r.rec && r.rec[y].leaf == mem.rec[x].leaf && r.rec[y].level == mem.rec[x].level
    && (mem.rec[x].leaf && 0 <= j <= mem.rec[x].count ==>
          0 <= q <= r.rec[y].count && Prefix(View(r), root, y, q) == Prefix(View(mem), root, x, j))
  }

  lemma MergeLower(mem: Memory, r: Memory, root: Ptr, p: Ptr, i: nat, a: Ptr, d: Entry, b: Ptr)
    requires CutMemory(r, mem, p, i, a, d, b) && Cut(View(r), View(mem), root, p, i, a, d, b)
    ensures LowerKept(mem, r, root, mem.rec[a].level) && Listing(View(r), root) == Listing(View(mem), root)
  {
    var h, g := View(r), View(mem);
    CutLevels(h, g, root, p, i, a, d, b);
    CutContext(h, g, root, p, i, a, d, b, root);
    CutLower(r, mem, root, p, i, a, d, b);
    forall n {:trigger mem.rec[n]} | n in mem.rec && mem.rec[n].level < mem.rec[a].level
      ensures n in r.rec && r.rec[n] == mem.rec[n]
    {
      assert n in r.rec && n != p;
    }
    LowerBack(mem, r, root, mem.rec[a].level);
  }

  lemma LowerBack(mem: Memory, r: Memory, root: Ptr, level: nat)
    requires mem.Ok() && r.Ok() && Shape(View(mem), root) && Shape(View(r), root) && LowerKept(r, mem, root, level)
    requires forall n {:trigger mem.rec[n]} | n in mem.rec && mem.rec[n].level < level ::
      n in r.rec && r.rec[n] == mem.rec[n]
    ensures LowerKept(mem, r, root, level)
  {
    forall n | n in mem.rec && mem.rec[n].level < level
      ensures n in r.rec && r.rec[n] == mem.rec[n] && SamePlace(View(mem), View(r), root, n)
    {
      assert r.rec[n].level < level;
    }
  }

  lemma MergeMended(mem: Memory, r: Memory, root: Ptr, p: Ptr, i: nat, a: Ptr, d: Entry, b: Ptr, x: Ptr, j: int, q: int)
    requires CutMemory(r, mem, p, i, a, d, b) && Cut(View(r), View(mem), root, p, i, a, d, b)
    requires (x == a && q == j) || (x == b && q == j + mem.rec[a].count + 1)
    ensures Mended(mem, r, root, x, j, a, q)
  {
    MergeLower(mem, r, root, p, i, a, d, b);
    CutRootLink(View(r), View(mem), root, p, i, a, d, b);
    if mem.rec[x].leaf && 0 <= j <= mem.rec[x].count {
      CutPlace(View(r), View(mem), root, p, i, a, d, b, q, x, j);
    }
  }

  /** Merge right into left, its left sibling; the record of the last leaf follows. */
  method MergeNodes(mem: Memory, root: Ptr, rm: Ptr, k: nat, p: Ptr, i: nat, left: Ptr, right: Ptr,
      ghost but: Ptr, ghost x: Ptr, ghost j: int, ghost q: int)
    returns (r: Memory, rm': Ptr)
    requires Tree(mem, root, k, but) && RightEdge(mem, root, rm)
    requires Beside(mem, p, i, left, right) && (but == left || but == right || but == NULL)
    requires 1 + mem.rec[left].count + mem.rec[right].count <= mem.rec[left].maxCount
    requires (x == left && q == j) || (x == right && q == j + mem.rec[left].count + 1)
    ensures Tree(r, root, k, p) && RightEdge(r, root, rm')
    ensures Mended(mem, r, root, x, j, left, q) && r.up[left].parent == p && p in r.rec && !r.rec[p].leaf
  {
    rm' := rm;
    Neighbours(mem, root, k, but, p, i);
    SiblingLevels(View(mem), root, p, i, left, right);
    MergeReadyView(mem, p, i, left, right);
    r := Merge(mem, p, i, left, right);
    ghost var d := mem.rec[p].values[i];
    MergeIsCut(mem, r, root, p, i, left, d, right);
    MergeTree(mem, r, root, k, p, i, left, d, right, but);
    MergeMended(mem, r, root, p, i, left, d, right, x, j, q);
    if mem.rec[right].leaf && rm' == right {
      rm' := left;
    }
    MergedParent(mem, r, root, p, i, left, d, right);
  }

  lemma MergedParent(mem: Memory, r: Memory, root: Ptr, p: Ptr, i: nat, a: Ptr, d: Entry, b: Ptr)
    requires CutMemory(r, mem, p, i, a, d, b) && Cut(View(r), View(mem), root, p, i, a, d, b)
    ensures r.up[a].parent == p
  {
    CutLevels(View(r), View(mem), root, p, i, a, d, b);
  }

  lemma NoneEmpty(mem: Memory, root: Ptr, k: nat, but: Ptr)
    requires Tree(mem, root, k, but) && (but in mem.rec ==> mem.rec[but].count >= 1)
    ensures Tree(mem, root, k, NULL)
  {}

  lemma ShiftMended(mem: Memory, r: Memory, root: Ptr, p: Ptr, i: nat, a: Ptr,
      b: Ptr, d: Entry, k: int, x: Ptr, j: int, q: int)
    requires mem.Ok() && r.Ok() && Siblings(View(mem), root, p, i, a, b) && Shape(View(r), root)
    requires ShiftLocal(View(mem), View(r), p, i, a, b, d) && OthersKept(mem, r, p, a, b)
    requires (x == a && k == j) || (x == b && k == j + mem.rec[a].count + 1)
    requires (x == a && q == j && r.rec[a].count >= mem.rec[a].count)
      || (x == b && k == q + r.rec[a].count + 1 && r.rec[a].count <= mem.rec[a].count)
    ensures Mended(mem, r, root, x, j, x, q)
  {
    SiblingLevels(View(mem), root, p, i, a, b);
    ShiftLower(mem, r, root, p, i, a, b, d);
    ShiftSizes(mem, r, p, i, a, b, d);
    assert root == p || SameContent(View(mem), View(r), root);
    if mem.rec[x].leaf && 0 <= j <= mem.rec[x].count {
      ShiftMoved(mem, r, root, p, i, a, b, d, k, x, j, x, q);
    }
  }

  lemma ShiftSizes(mem: Memory, r: Memory, p: Ptr, i: nat, a: Ptr, b: Ptr, d: Entry)
    requires mem.Ok() && r.Ok() && ShiftLocal(View(mem), View(r), p, i, a, b, d)
    ensures a in r.rec && b in r.rec && mem.rec[a].leaf == r.rec[a].leaf && mem.rec[b].leaf == r.rec[b].leaf
    ensures mem.rec[a].level == r.rec[a].level && mem.rec[b].level == r.rec[b].level
    ensures mem.rec[a].count + mem.rec[b].count == r.rec[a].count + r.rec[b].count
  {
    var h, g := View(mem), View(r);
    assert |h[a].vals| + 1 + |h[b].vals| == |g[a].vals| + 1 + |g[b].vals|;
  }

  /** it.node is a non-root node with too few values, possibly none. */
  ghost predicate Short(mem: Memory, root: Ptr, rm: Ptr, k: nat, it: Iter) {
    it.node in mem.rec && it.node != root && Tree(mem, root, k, it.node)
      && RightEdge(mem, root, rm) && mem.rec[it.node].count < k / 2
  }

  /** The short node has been merged away or filled up, or left as it is if it has any value. */
  ghost predicate Outcome(mem: Memory, root: Ptr, k: nat, it: Iter, merged: bool, r: Memory, rm: Ptr, it': Iter)
    requires mem.Ok() && Shape(View(mem), root) && it.node in mem.rec
  {
    && r.Ok() && Shape(View(r), root) && RightEdge(r, root, rm)
    && Mended(mem, r, root, it.node, it.position, it'.node, it'.position)
    && (merged ==> it'.node != root && r.up[it'.node].parent in r.rec && Tree(r, root, k, r.up[it'.node].parent))
    && (!merged ==> Tree(r, root, k, NULL))
  }

  /** Values from the right sibling for the short node. */
  method BorrowRight(mem: Memory, root: Ptr, rm: Ptr, k: nat, p: Ptr, i: nat, node: Ptr,
      right: Ptr, toMove: nat, j: int) returns (r: Memory)
    requires Tree(mem, root, k, node) && RightEdge(mem, root, rm) && Beside(mem, p, i, node, right)
    requires 1 <= toMove < mem.rec[right].count && mem.rec[node].count <= mem.rec[right].count
    requires mem.rec[node].count + toMove <= mem.rec[node].maxCount
    ensures Outcome(mem, root, k, Iter(node, j), false, r, rm, Iter(node, j))
    ensures node in r.rec && r.rec[node].count == mem.rec[node].count + toMove
  {
    Neighbours(mem, root, k, node, p, i);
    r := RebalanceRightToLeft(mem, node, right, toMove);
    ghost var d := mem.rec[right].values[toMove - 1];
    ShiftTree(mem, r, root, k, p, i, node, right, d, node);
    NoneEmpty(r, root, k, node);
    ShiftMended(mem, r, root, p, i, node, right, d, j, node, j, j);
  }

  /** Values from the left sibling for the short node. */
  method BorrowLeft(mem: Memory, root: Ptr, rm: Ptr, k: nat, p: Ptr, i: nat, left: Ptr, it: Iter, toMove: nat)
      returns (r: Memory, it': Iter)
    requires Tree(mem, root, k, it.node) && RightEdge(mem, root, rm) && Beside(mem, p, i, left, it.node)
    requires 1 <= toMove < mem.rec[left].count && mem.rec[it.node].count <= mem.rec[left].count
    requires mem.rec[it.node].count + toMove <= mem.rec[it.node].maxCount
    ensures Outcome(mem, root, k, it, false, r, rm, it')
    ensures it.node in r.rec && r.rec[it.node].count == mem.rec[it.node].count + toMove
  {
    ghost var node, j := it.node, it.position;
    Neighbours(mem, root, k, node, p, i);
    r := RebalanceLeftToRight(mem, left, it.node, toMove);
    it' := Iter(it.node, it.position + toMove);
    ghost var d := mem.rec[left].values[mem.rec[left].count - toMove];
    ShiftTree(mem, r, root, k, p, i, left, node, d, node);
    NoneEmpty(r, root, k, node);
    ShiftMended(mem, r, root, p, i, left, node, d, j + mem.rec[left].count + 1, node, j, j + toMove);
  }

  function Min(a: nat, b: nat): nat { if a < b then a else b }

  /** How many values the short node ends up with. */
  function Filled(from: nat, to: nat): nat {
    if from >= to then to + Min((from - to) / 2, if from == 0 then 0 else from - 1) else to
  }

  /** How many values the short node gets from a sibling with from of them. */
  function HowMany(from: nat, to: nat, k: nat): (m: nat)
    requires to + 2 <= from <= k
    ensures 1 <= m < from && to + m <= k && to + m <= from - m <= to + m + 1
  {
    Min((from - to) / 2, from - 1)
  }

  /** The short node and its left sibling fit in one node with the value between them. */
  ghost predicate MergesLeft(mem: Memory, k: nat, n: Ptr)
    requires mem.Ok() && n in mem.rec
  {
    HasLeft(mem, n) && 1 + LeftCount(mem, n) + mem.rec[n].count <= k
  }

  ghost predicate MergesRight(mem: Memory, k: nat, n: Ptr)
    requires mem.Ok() && n in mem.rec
  {
    HasRight(mem, n) && 1 + mem.rec[n].count + RightCount(mem, n) <= k
  }

  /** It borrows from a sibling with more than the minimum, unless values are being erased from that end of it. */
  ghost predicate BorrowsRight(mem: Memory, k: nat, it: Iter)
    requires mem.Ok() && it.node in mem.rec
  {
    HasRight(mem, it.node) && RightCount(mem, it.node) > k / 2 && (mem.rec[it.node].count == 0 || it.position > 0)
  }

  ghost predicate BorrowsLeft(mem: Memory, k: nat, it: Iter)
    requires mem.Ok() && it.node in mem.rec
  {
    HasLeft(mem, it.node) && LeftCount(mem, it.node) > k / 2
      && (mem.rec[it.node].count == 0 || it.position < mem.rec[it.node].count)
  }

  method TryMergeLeft(mem: Memory, root: Ptr, rm: Ptr, k: nat, it: Iter)
      returns (done: bool, r: Memory, rm': Ptr, it': Iter)
    requires Short(mem, root, rm, k, it)
    ensures done ==> Outcome(mem, root, k, it, true, r, rm', it')
    ensures done <==> MergesLeft(mem, k, it.node)
  {
    done, r, rm', it' := false, mem, rm, it;
    var has, p, i, left := LeftSibling(mem, root, k, it.node, it.node);
    if has && 1 + mem.rec[left].count + mem.rec[it.node].count <= mem.rec[left].maxCount {
      r, rm', it' := MergeIntoLeft(mem, root, rm, k, p, i, left, it);
      done := true;
    }
  }

  method MergeIntoLeft(mem: Memory, root: Ptr, rm: Ptr, k: nat, p: Ptr, i: nat, left: Ptr, it: Iter)
      returns (r: Memory, rm': Ptr, it': Iter)
    requires Short(mem, root, rm, k, it) && Beside(mem, p, i, left, it.node)
    requires mem.rec[left].maxCount == mem.rec[it.node].maxCount == k
    requires 1 + mem.rec[left].count + mem.rec[it.node].count <= k
    ensures Outcome(mem, root, k, it, true, r, rm', it')
  {
    it' := Iter(left, it.position + 1 + mem.rec[left].count);
    r, rm' := MergeNodes(mem, root, rm, k, p, i, left, it.node, it.node, it.node, it.position, it'.position);
    MergedNotRoot(mem, r, root, it.node, it.position, left, it'.position, p);
  }

  lemma MergedNotRoot(mem: Memory, r: Memory, root: Ptr, x: Ptr, j: int, y: Ptr, q: int, p: Ptr)
    requires mem.Ok() && r.Ok() && Shape(View(mem), root) && Shape(View(r), root)
    requires x in mem.rec && Mended(mem, r, root, x, j, y, q)
    requires p in r.rec && !r.rec[p].leaf && r.up[y].parent == p
    ensures y != root
  {
    RootTest(r, root, y);
  }

  method TryMergeOrBorrowRight(mem: Memory, root: Ptr, rm: Ptr, k: nat, it: Iter)
      returns (done: bool, merged: bool, r: Memory, rm': Ptr)
    requires Short(mem, root, rm, k, it)
    ensures done ==> Outcome(mem, root, k, it, merged, r, rm', it)
    ensures done <==> MergesRight(mem, k, it.node) || BorrowsRight(mem, k, it)
    ensures merged <==> MergesRight(mem, k, it.node)
    ensures done && !merged ==>
      it.node in r.rec && r.rec[it.node].count == Filled(RightCount(mem, it.node), mem.rec[it.node].count)
  {
    done, merged, r, rm' := false, false, mem, rm;
    var has, p, i, right := RightSibling(mem, root, k, it.node, it.node);
    if has {
      var x := mem.rec[it.node];
      if 1 + x.count + mem.rec[right].count <= mem.rec[right].maxCount {
        r, rm' := MergeNodes(mem, root, rm, k, p, i, it.node, right, it.node, it.node, it.position, it.position);
        done, merged := true, true;
      } else if mem.rec[right].count > k / 2 && (x.count == 0 || it.position > 0) {
        var toMove := HowMany(mem.rec[right].count, x.count, k);
        r := BorrowRight(mem, root, rm, k, p, i, it.node, right, toMove, it.position);
        done := true;
      }
    }
  }

  method TryBorrowLeft(mem: Memory, root: Ptr, rm: Ptr, k: nat, it: Iter) returns (done: bool, r: Memory, it': Iter)
    requires Short(mem, root, rm, k, it)
    ensures done ==> Outcome(mem, root, k, it, false, r, rm, it')
    ensures done <==> BorrowsLeft(mem, k, it)
    ensures done ==> it.node in r.rec && r.rec[it.node].count == Filled(LeftCount(mem, it.node), mem.rec[it.node].count)
  {
    done, r, it' := false, mem, it;
    var has, p, i, left := LeftSibling(mem, root, k, it.node, it.node);
    if has {
      var x := mem.rec[it.node];
      if mem.rec[left].count > k / 2 && (x.count == 0 || it.position < x.count) {
        var toMove := HowMany(mem.rec[left].count, x.count, k);
        r, it' := BorrowLeft(mem, root, rm, k, p, i, left, it, toMove);
        done := true;
      }
    }
  }

  /** Mend the tree after a node has got short: merge it with a sibling, or let it borrow. */
  method TryMergeOrRebalance(mem: Memory, root: Ptr, rm: Ptr, k: nat, it: Iter)
      returns (merged: bool, r: Memory, rm': Ptr, it': Iter)
    requires Short(mem, root, rm, k, it)
    ensures Outcome(mem, root, k, it, merged, r, rm', it')
    ensures merged <==> MergesLeft(mem, k, it.node) || MergesRight(mem, k, it.node)
  {
    var done;
    done, r, rm', it' := TryMergeLeft(mem, root, rm, k, it);
    if done {
      return true, r, rm', it';
    }
    done, merged, r, rm' := TryMergeOrBorrowRight(mem, root, rm, k, it);
    if done {
      return merged, r, rm', it;
    }
    done, r, it' := TryBorrowLeft(mem, root, rm, k, it);
    if done {
      return false, r, rm, it';
    }
    StillShort(mem, root, rm, k, it);
    return false, mem, rm, it;
  }

  /** Only a node with values can be left short: an empty one would have a sibling to merge with or to borrow from. */
  lemma StillShort(mem: Memory, root: Ptr, rm: Ptr, k: nat, it: Iter)
    requires Short(mem, root, rm, k, it)
    requires !MergesLeft(mem, k, it.node) && !MergesRight(mem, k, it.node)
    requires !BorrowsLeft(mem, k, it) && !BorrowsRight(mem, k, it)
    ensures Outcome(mem, root, k, it, false, mem, rm, it)
  {
    ParentOf(mem, root, k, it.node, it.node);
    assert mem.rec[mem.up[it.node].parent].count >= 1;
    NoneEmpty(mem, root, k, it.node);
  }
}
