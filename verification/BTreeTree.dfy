// The invariant of the whole tree, and what each change of nodes keeps of it.
module BTreeTree {
  import opened BTreeWeave
  import opened BTreeHeap
  import opened BTreeCut
  import opened BTreeReshape
  import opened BTreeGap
  import opened BTreePlace
  import opened BTreeNode
  import opened BTreeSplit

  /** Every node but a leaf root has room for k values; no node but possibly one is empty. */
  predicate Sized(mem: Memory, root: Ptr, k: nat, but: Ptr) {
    && root in mem.rec
    && (forall n {:trigger mem.rec[n]} | n in mem.rec ::
          && (if n == root && mem.rec[n].leaf then 1 <= mem.rec[n].maxCount <= k else mem.rec[n].maxCount == k)
          && (n != but ==> mem.rec[n].count >= 1))
  }

  /** A well-formed tree: linked, sized, with the leftmost leaf behind the root. */
  ghost predicate Tree(mem: Memory, root: Ptr, k: nat, but: Ptr) {
    && k >= 3 && mem.Ok() && Shape(View(mem), root) && Sized(mem, root, k, but)
    && Before(View(mem), root, mem.up[root].parent) == []
  }

  /** rm is the leaf on the right edge, as an internal root records it. */
  ghost predicate RightEdge(mem: Memory, root: Ptr, rm: Ptr)
    requires mem.Ok() && Shape(View(mem), root)
  {
    mem.rec[root].leaf || (rm in mem.rec && mem.rec[rm].leaf && After(View(mem), root, rm) == [])
  }

  /** Below the given level nothing has changed. */
  ghost predicate LowerKept(mem: Memory, r: Memory, root: Ptr, level: nat)
    requires mem.Ok() && r.Ok() && Shape(View(mem), root) && Shape(View(r), root)
  {
    forall n {:trigger mem.rec[n]} | n in mem.rec && mem.rec[n].level < level ::
      n in r.rec && r.rec[n] == mem.rec[n] && SamePlace(View(mem), View(r), root, n)
  }

  /** The tree lists the same, and position q of y in r is position j of x in mem. */
  ghost predicate Moved(mem: Memory, r: Memory, root: Ptr, x: Ptr, j: nat, y: Ptr, q: nat)
    requires mem.Ok() && r.Ok() && Shape(View(mem), root) && Shape(View(r), root)
  {
    && Listing(View(r), root) == Listing(View(mem), root)
    && x in mem.rec && j <= mem.rec[x].count && y in r.rec && q <= r.rec[y].count
    && r.rec[y].leaf == mem.rec[x].leaf && r.rec[y].level == mem.rec[x].level
    && (if mem.rec[x].leaf then Prefix(View(r), root, y, q) == Prefix(View(mem), root, x, j)
        else KidOK(View(r), y, mem.rec[x].Kids()[j], q))
    && LowerKept(mem, r, root, mem.rec[x].level)
  }

  // ----- Sharing between siblings -----

  lemma ShiftSized(mem: Memory, r: Memory, root: Ptr, k: nat, p: Ptr, i: nat, a: Ptr, b: Ptr, d: Entry, but: Ptr)
    requires mem.Ok() && r.Ok() && Sized(mem, root, k, but)
    requires ShiftLocal(View(mem), View(r), p, i, a, b, d) && OthersKept(mem, r, p, a, b)
    requires 1 <= r.rec[a].count && 1 <= r.rec[b].count && root != a && root != b
    ensures Sized(r, root, k, but)
  {
    forall n | n in r.rec
      ensures if n == root && r.rec[n].leaf then 1 <= r.rec[n].maxCount <= k else r.rec[n].maxCount == k
      ensures n != but ==> r.rec[n].count >= 1
    {
      assert mem.rec[n].maxCount == r.rec[n].maxCount;
      if n == p { assert View(r)[p].leaf == View(mem)[p].leaf; }
    }
  }

  /** The leaves on the two edges of the tree stay on the edges. */
  lemma ShiftLeftEdge(mem: Memory, r: Memory, root: Ptr, p: Ptr, i: nat, a: Ptr, b: Ptr, d: Entry)
    requires mem.Ok() && r.Ok() && Siblings(View(mem), root, p, i, a, b) && Shape(View(r), root)
    requires ShiftLocal(View(mem), View(r), p, i, a, b, d)
    requires Before(View(mem), root, mem.up[root].parent) == []
    ensures Before(View(r), root, r.up[root].parent) == []
  {
    var h := View(mem);
    assert h[root].parent in h;
    SiblingLevels(h, root, p, i, a, b);
    ShiftEdges(h, View(r), root, p, i, a, b, d, h[root].parent);
    NotKid(h, root, a, root);
    NotKid(h, root, b, root);
    assert SameUp(h, View(r), root);
  }

  lemma ShiftRightEdge(mem: Memory, r: Memory, root: Ptr, p: Ptr, i: nat, a: Ptr, b: Ptr, d: Entry, rm: Ptr)
    requires mem.Ok() && r.Ok() && Siblings(View(mem), root, p, i, a, b) && Shape(View(r), root)
    requires ShiftLocal(View(mem), View(r), p, i, a, b, d) && RightEdge(mem, root, rm)
    ensures RightEdge(r, root, rm)
  {
    var h := View(mem);
    SiblingLevels(h, root, p, i, a, b);
    assert root == p || SameContent(h, View(r), root);
    if !mem.rec[root].leaf {
      ShiftEdges(h, View(r), root, p, i, a, b, d, rm);
      assert rm == p || rm == a || rm == b || SameContent(h, View(r), rm);
    }
  }

  lemma ShiftTree(mem: Memory, r: Memory, root: Ptr, k: nat, p: Ptr, i: nat, a: Ptr, b: Ptr, d: Entry, but: Ptr)
    requires Tree(mem, root, k, but) && r.Ok() && Siblings(View(mem), root, p, i, a, b)
    requires ShiftLocal(View(mem), View(r), p, i, a, b, d) && OthersKept(mem, r, p, a, b)
    requires 1 <= r.rec[a].count && 1 <= r.rec[b].count
    ensures Tree(r, root, k, but)
    ensures forall rm | RightEdge(mem, root, rm) :: RightEdge(r, root, rm)
  {
    ShiftContext(View(mem), View(r), root, p, i, a, b, d);
    SiblingLevels(View(mem), root, p, i, a, b);
    ShiftSized(mem, r, root, k, p, i, a, b, d, but);
    ShiftLeftEdge(mem, r, root, p, i, a, b, d);
    forall rm | RightEdge(mem, root, rm) ensures RightEdge(r, root, rm) {
      ShiftRightEdge(mem, r, root, p, i, a, b, d, rm);
    }
  }

  lemma ShiftLowerAt(mem: Memory, r: Memory, root: Ptr, p: Ptr, i: nat, a: Ptr, b: Ptr, d: Entry, n: Ptr)
    requires mem.Ok() && r.Ok() && Siblings(View(mem), root, p, i, a, b) && Shape(View(r), root)
    requires ShiftLocal(View(mem), View(r), p, i, a, b, d) && OthersKept(mem, r, p, a, b)
    requires n in mem.rec && mem.rec[n].level < mem.rec[a].level
    ensures n in r.rec && r.rec[n] == mem.rec[n] && SamePlace(View(mem), View(r), root, n)
  {
    SiblingLevels(View(mem), root, p, i, a, b);
    ShiftContext(View(mem), View(r), root, p, i, a, b, d);
    assert r.rec[n] == mem.rec[n];
  }

  lemma ShiftLower(mem: Memory, r: Memory, root: Ptr, p: Ptr, i: nat, a: Ptr, b: Ptr, d: Entry)
    requires mem.Ok() && r.Ok() && Siblings(View(mem), root, p, i, a, b) && Shape(View(r), root)
    requires ShiftLocal(View(mem), View(r), p, i, a, b, d) && OthersKept(mem, r, p, a, b)
    ensures LowerKept(mem, r, root, mem.rec[a].level) && Listing(View(r), root) == Listing(View(mem), root)
  {
    forall n | n in mem.rec && mem.rec[n].level < mem.rec[a].level
      ensures n in r.rec && r.rec[n] == mem.rec[n] && SamePlace(View(mem), View(r), root, n)
    {
      ShiftLowerAt(mem, r, root, p, i, a, b, d, n);
    }
    ShiftContext(View(mem), View(r), root, p, i, a, b, d);
  }

  lemma ShiftMoved(mem: Memory, r: Memory, root: Ptr, p: Ptr, i: nat, a: Ptr, b: Ptr,
      d: Entry, k: nat, x: Ptr, j: nat, y: Ptr, q: nat)
    requires mem.Ok() && r.Ok() && Siblings(View(mem), root, p, i, a, b) && Shape(View(r), root)
    requires ShiftLocal(View(mem), View(r), p, i, a, b, d) && OthersKept(mem, r, p, a, b)
    requires InHalf(View(mem), a, b, k, x, j) && InHalf(View(r), a, b, k, y, q)
    ensures Moved(mem, r, root, x, j, y, q)
  {
    var h, g := View(mem), View(r);
    SiblingLevels(h, root, p, i, a, b);
    ShiftLower(mem, r, root, p, i, a, b, d);
    assert h[a].leaf == h[b].leaf && h[a].lvl == h[b].lvl;
    if h[a].leaf {
      ShiftPlace(h, g, root, p, i, a, b, d, k, x, j, y, q);
    } else {
      ShiftSlot(h, g, root, p, i, a, b, d, k, x, j, y, q);
    }
  }

  // ----- Splitting -----

  lemma CutTree(mem: Memory, r: Memory, root: Ptr, k: nat, p: Ptr, i: nat,
      a: Ptr, d: Entry, b: Ptr, but: Ptr, but': Ptr)
    requires mem.Ok() && Shape(View(mem), root) && Sized(mem, root, k, but) && k >= 3
    requires Before(View(mem), root, mem.up[root].parent) == []
    requires CutMemory(mem, r, p, i, a, d, b) && KidsAt(r, p) && KidsAt(r, a) && KidsAt(r, b)
    requires but == p || but == NULL
    requires r.rec[b].maxCount == k && (r.rec[a].count == 0 ==> a == but') && (r.rec[b].count == 0 ==> b == but')
    ensures Cut(View(mem), View(r), root, p, i, a, d, b) && Tree(r, root, k, but')
    ensures forall rm | RightEdge(mem, root, rm) && !mem.rec[root].leaf :: RightEdge(r, root, if rm == a then b else rm)
  {
    LinksBuilt(r, p);
    LinksBuilt(r, a);
    LinksBuilt(r, b);
    var h, g := View(mem), View(r);
    CutMemoryCuts(mem, r, p, i, a, d, b);
    CutShape(h, g, root, p, i, a, d, b);
    CutLevels(h, g, root, p, i, a, d, b);
    CutSized(mem, r, root, k, p, i, a, d, b, but, but');
    CutEdges(h, g, root, p, i, a, d, b, h[root].parent);
    CutRootLink(h, g, root, p, i, a, d, b);
    forall rm | RightEdge(mem, root, rm) && !mem.rec[root].leaf ensures RightEdge(r, root, if rm == a then b else rm) {
      CutEdges(h, g, root, p, i, a, d, b, rm);
      if rm != a { assert rm == p || SameContent(h, g, rm); }
    }
  }

  lemma CutRootLink(h: map<Ptr, Nd<Ptr>>, g: map<Ptr, Nd<Ptr>>, root: Ptr, p: Ptr, i: nat, a: Ptr, d: Entry, b: Ptr)
    requires Cut(h, g, root, p, i, a, d, b)
    ensures root in g && g[root].parent == h[root].parent && g[root].lvl == h[root].lvl
  {
    NotKid(h, root, a, root);
    NotKid(h, root, p, root);
    assert SameUp(h, g, root);
  }

  lemma CutSized(mem: Memory, r: Memory, root: Ptr, k: nat, p: Ptr, i: nat,
      a: Ptr, d: Entry, b: Ptr, but: Ptr, but': Ptr)
    requires Sized(mem, root, k, but) && CutMemory(mem, r, p, i, a, d, b) && a != root && b != root && !mem.rec[p].leaf
    requires but == p || but == NULL
    requires r.rec[b].maxCount == k && (r.rec[a].count == 0 ==> a == but') && (r.rec[b].count == 0 ==> b == but')
    ensures Sized(r, root, k, but')
  {
    assert |r.rec[p].Vals()| == r.rec[p].count;
    forall n | n in r.rec
      ensures if n == root && r.rec[n].leaf then 1 <= r.rec[n].maxCount <= k else r.rec[n].maxCount == k
      ensures n != but' ==> r.rec[n].count >= 1
    {
      if n != a && n != b && n != p { assert r.rec[n] == mem.rec[n]; }
    }
  }

  lemma CutMovedPlace(mem: Memory, r: Memory, root: Ptr, p: Ptr, i: nat,
      a: Ptr, d: Entry, b: Ptr, k: nat, y: Ptr, q: nat)
    requires CutMemory(mem, r, p, i, a, d, b) && Cut(View(mem), View(r), root, p, i, a, d, b)
    requires InHalf(View(r), a, b, k, y, q)
    ensures k <= mem.rec[a].count && Moved(mem, r, root, a, k, y, q)
  {
    var h, g := View(mem), View(r);
    CutLevels(h, g, root, p, i, a, d, b);
    CutContext(h, g, root, p, i, a, d, b, root);
    if h[a].leaf {
      CutPlace(h, g, root, p, i, a, d, b, k, y, q);
    } else {
      CutSlot(h, g, root, p, i, a, d, b, k, y, q);
    }
    CutLower(mem, r, root, p, i, a, d, b);
  }

  lemma CutLower(mem: Memory, r: Memory, root: Ptr, p: Ptr, i: nat, a: Ptr, d: Entry, b: Ptr)
    requires CutMemory(mem, r, p, i, a, d, b) && Cut(View(mem), View(r), root, p, i, a, d, b)
    ensures LowerKept(mem, r, root, mem.rec[a].level)
  {
    var h, g := View(mem), View(r);
    CutLevels(h, g, root, p, i, a, d, b);
    forall n | n in mem.rec && mem.rec[n].level < mem.rec[a].level
      ensures n in r.rec && r.rec[n] == mem.rec[n] && SamePlace(h, g, root, n)
    {
      CutContext(h, g, root, p, i, a, d, b, n);
    }
  }

  // ----- The root's content moving down -----

  lemma PushTree(mem: Memory, r: Memory, root: Ptr, k: nat, m: Ptr)
    requires Tree(mem, root, k, NULL) && r.Ok() && !mem.rec[root].leaf && PushedLocal(View(mem), View(r), root, m)
    requires r.rec.Keys == mem.rec.Keys + {m}
    requires r.rec[m].maxCount == mem.rec[root].maxCount == r.rec[root].maxCount && m != root
    requires forall n {:trigger r.rec[n]} | n in mem.rec && n != root :: r.rec[n] == mem.rec[n]
    ensures Shape(View(r), root) && Sized(r, root, k, root)
    ensures Before(View(r), root, r.up[root].parent) == []
    ensures forall rm | RightEdge(mem, root, rm) :: RightEdge(r, root, rm)
  {
    PushSized(mem, r, root, k, m);
    var h, g := View(mem), View(r);
    PushShape(h, g, root, m);
    assert h[root].parent in h && g[root].parent == h[root].parent;
    PushContext(h, g, root, m, h[root].parent);
    forall rm | RightEdge(mem, root, rm) ensures RightEdge(r, root, rm) {
      PushContext(h, g, root, m, rm);
      assert rm != root;
    }
  }

  lemma PushSized(mem: Memory, r: Memory, root: Ptr, k: nat, m: Ptr)
    requires mem.Ok() && r.Ok() && Sized(mem, root, k, NULL)
    requires !mem.rec[root].leaf && PushedLocal(View(mem), View(r), root, m)
    requires r.rec.Keys == mem.rec.Keys + {m}
    requires r.rec[m].maxCount == mem.rec[root].maxCount == r.rec[root].maxCount && m != root
    requires forall n {:trigger r.rec[n]} | n in mem.rec && n != root :: r.rec[n] == mem.rec[n]
    ensures Sized(r, root, k, root)
  {
    assert |View(r)[m].vals| == r.rec[m].count && |View(mem)[root].vals| == mem.rec[root].count;
    assert !View(r)[root].leaf;
    forall n | n in r.rec
      ensures if n == root && r.rec[n].leaf then 1 <= r.rec[n].maxCount <= k else r.rec[n].maxCount == k
      ensures n != root ==> r.rec[n].count >= 1
    {
      if n != m && n != root { assert r.rec[n] == mem.rec[n]; }
    }
  }

  lemma PushMoved(mem: Memory, r: Memory, root: Ptr, m: Ptr, j: nat)
    requires mem.Ok() && r.Ok() && Shape(View(mem), root) && Shape(View(r), root)
    requires !mem.rec[root].leaf && PushedLocal(View(mem), View(r), root, m)
    requires r.rec.Keys == mem.rec.Keys + {m}
    requires forall n {:trigger r.rec[n]} | n in mem.rec && n != root :: r.rec[n] == mem.rec[n]
    requires j <= mem.rec[root].count
    ensures Moved(mem, r, root, root, j, m, j)
  {
    var h, g := View(mem), View(r);
    PushContext(h, g, root, m, root);
    assert LinksOK(h, root) && KidOK(g, m, g[m].kids[j], j);
    forall n | n in mem.rec && mem.rec[n].level < mem.rec[root].level
      ensures n in r.rec && r.rec[n] == mem.rec[n] && SamePlace(h, g, root, n)
    {
      PushContext(h, g, root, m, n);
    }
  }

  // ----- One move after another -----

  lemma MovedTwice(mem: Memory, r: Memory, s: Memory, root: Ptr, x: Ptr, j: nat, y: Ptr, q: nat, z: Ptr, t: nat)
    requires mem.Ok() && r.Ok() && s.Ok() && Shape(View(mem), root) && Shape(View(r), root) && Shape(View(s), root)
    requires Moved(mem, r, root, x, j, y, q) && Moved(r, s, root, y, q, z, t)
    ensures Moved(mem, s, root, x, j, z, t)
  {
    LowerTwice(mem, r, s, root, mem.rec[x].level);
    if !mem.rec[x].leaf {
      var c := mem.rec[x].Kids()[j];
      assert KidOK(View(r), y, c, q) && UpOK(View(r), root, c);
      SlotOf(View(r), root, y, c, q);
    }
  }

  lemma SlotOf(h: map<Ptr, Nd<Ptr>>, root: Ptr, n: Ptr, c: Ptr, j: nat)
    requires Shape(h, root) && n in h && !h[n].leaf && KidOK(h, n, c, j)
    ensures j < |h[n].kids| && h[n].kids[j] == c
  {
    assert UpOK(h, root, c) && LinksOK(h, n) && UpOK(h, root, n);
  }

  lemma LowerTwice(mem: Memory, r: Memory, s: Memory, root: Ptr, level: nat)
    requires mem.Ok() && r.Ok() && s.Ok() && Shape(View(mem), root) && Shape(View(r), root) && Shape(View(s), root)
    requires LowerKept(mem, r, root, level) && LowerKept(r, s, root, level)
    ensures LowerKept(mem, s, root, level)
  {
    forall n | n in mem.rec && mem.rec[n].level < level
      ensures n in s.rec && s.rec[n] == mem.rec[n] && SamePlace(View(mem), View(s), root, n)
    {
      assert r.rec[n] == mem.rec[n];
      assert s.rec[n] == r.rec[n];
    }
  }

  /** A move at the parent's level leaves the child alone; a move of the child then counts from the start. */
  lemma MovedBelow(mem: Memory, r: Memory, s: Memory, root: Ptr, p: Ptr, i: nat,
      p': Ptr, i': nat, x: Ptr, j: nat, z: Ptr, t: nat)
    requires mem.Ok() && r.Ok() && s.Ok() && Shape(View(mem), root) && Shape(View(r), root) && Shape(View(s), root)
    requires Moved(mem, r, root, p, i, p', i') && x in mem.rec
    requires mem.rec[x].level < mem.rec[p].level && j <= mem.rec[x].count
    requires x in r.rec && Moved(r, s, root, x, j, z, t)
    ensures Moved(mem, s, root, x, j, z, t)
  {
    assert r.rec[x] == mem.rec[x] && SamePlace(View(mem), View(r), root, x);
    forall n | n in mem.rec && mem.rec[n].level < mem.rec[x].level
      ensures n in r.rec && r.rec[n] == mem.rec[n] && SamePlace(View(mem), View(r), root, n)
    {
    }
    LowerTwice(mem, r, s, root, mem.rec[x].level);
  }
}
