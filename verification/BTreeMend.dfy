// The walk up the tree after a removal, and the root shrinking at its end.
module BTreeMend {
  import opened BTreeWeave
  import opened BTreeHeap
  import opened BTreeCut
  import opened BTreeReshape
  import opened BTreeNode
  import opened BTreeRoot
  import opened BTreeTree
  import opened BTreeWalk
  import opened BTreeInsert
  import opened BTreeErase

  /** What the tree has become: nothing at all, or a well-formed tree with the place where it was. */
  ghost predicate Mends(r: Memory, root: Ptr, rm: Ptr, k: nat, node: Ptr, at: nat, all: seq<Entry>, pre: seq<Entry>) {
    if root == NULL then all == [] && r == Memory(map[], map[])
    else Tree(r, root, k, NULL) && RightEdge(r, root, rm) && Placed(r, root, node, at, all, pre)
  }

  lemma PullTree(mem: Memory, r: Memory, root: Ptr, k: nat, m: Ptr)
    requires Tree(mem, root, k, root) && !mem.rec[root].leaf && r.Ok()
    requires PushedLocal(View(r), View(mem), root, m) && LinksOK(View(r), root)
    requires r.rec.Keys == mem.rec.Keys - {m} && m != root
    requires r.rec[root].maxCount == mem.rec[root].maxCount && r.rec[root].count == mem.rec[m].count
    requires forall n {:trigger r.rec[n]} | n in r.rec && n != root :: r.rec[n] == mem.rec[n]
    ensures Tree(r, root, k, NULL)
    ensures forall rm | RightEdge(mem, root, rm) :: RightEdge(r, root, rm)
    ensures forall node, at, all, pre | Placed(mem, root, node, at, all, pre) :: Placed(r, root, node, at, all, pre)
  {
    var h, g := View(r), View(mem);
    PullShape(h, g, root, m);
    assert h[root].parent in h && g[root].parent == h[root].parent;
    PushContext(h, g, root, m, h[root].parent);
    PulledSized(mem, r, root, k, m);
    forall rm | RightEdge(mem, root, rm) ensures RightEdge(r, root, rm) {
      assert rm != root && rm != m;
      PushContext(h, g, root, m, rm);
    }
    PushContext(h, g, root, m, root);
    forall node, at, all, pre | Placed(mem, root, node, at, all, pre) ensures Placed(r, root, node, at, all, pre) {
      assert node != root && node != m;
      PushContext(h, g, root, m, node);
    }
  }

  lemma PulledSized(mem: Memory, r: Memory, root: Ptr, k: nat, m: Ptr)
    requires Sized(mem, root, k, root) && !mem.rec[root].leaf && root in r.rec && m in mem.rec && !r.rec[root].leaf
    requires r.rec.Keys == mem.rec.Keys - {m} && m != root
    requires r.rec[root].maxCount == mem.rec[root].maxCount && r.rec[root].count == mem.rec[m].count
    requires forall n {:trigger r.rec[n]} | n in r.rec && n != root :: r.rec[n] == mem.rec[n]
    ensures Sized(r, root, k, NULL)
  {
    assert mem.rec[root].maxCount == k && mem.rec[m].count >= 1;
    forall n | n in r.rec
      ensures if n == root && r.rec[n].leaf then 1 <= r.rec[n].maxCount <= k else r.rec[n].maxCount == k
      ensures n != NULL ==> r.rec[n].count >= 1
    {
      if n != root { assert r.rec[n] == mem.rec[n]; }
    }
  }

  /** An empty internal root gives way to its only child. */
  method ShrinkRoot(mem: Memory, root: Ptr, rm: Ptr, k: nat, ghost node: Ptr, ghost at: nat, ghost all: seq<Entry>,
      ghost pre: seq<Entry>) returns (r: Memory, root': Ptr)
    requires Tree(mem, root, k, root) && RightEdge(mem, root, rm) && Placed(mem, root, node, at, all, pre)
    requires mem.rec[root].count == 0 && !mem.rec[root].leaf
    ensures root' != NULL && Mends(r, root', rm, k, node, at, all, pre)
  {
    assert LinksOK(View(mem), root);
    var m := mem.rec[root].children[0];
    OnlyChild(mem, root, m);
    if mem.rec[m].leaf {
      r, root' := MakeRoot(mem, root);
      assert node == m;
      assert View(r)[m].vals == View(mem)[m].vals;
    } else {
      r := PullRoot(mem, root);
      PullTree(mem, r, root, k, m);
      root' := root;
    }
  }

  lemma OnlyChild(mem: Memory, root: Ptr, m: Ptr)
    requires mem.Ok() && Shape(View(mem), root) && !mem.rec[root].leaf
    requires mem.rec[root].count == 0 && m == mem.rec[root].children[0]
    ensures mem.rec[root].Kids() == [m] && m in mem.rec
    ensures LinksOK(View(mem), m) && m != root && mem.up[m].parent == root
    ensures root !in mem.rec[m].Kids() && m !in mem.rec[m].Kids() && (!mem.rec[m].leaf ==> mem.up[root].parent != m)
  {
    var h := View(mem);
    assert LinksOK(h, root) && KidOK(h, root, h[root].kids[0], 0) && LinksOK(h, m);
    NotKid(h, root, m, root);
    KidFacts(h, m);
  }

  /** Shrink the tree if its root has become empty. */
  method TryShrink(mem: Memory, root: Ptr, rm: Ptr, k: nat, ghost node: Ptr, ghost at: nat, ghost all: seq<Entry>,
      ghost pre: seq<Entry>) returns (r: Memory, root': Ptr)
    requires Tree(mem, root, k, root) && RightEdge(mem, root, rm) && Placed(mem, root, node, at, all, pre)
    ensures Mends(r, root', rm, k, node, at, all, pre)
    ensures mem.rec[root].leaf && root' != NULL ==> r == mem && root' == root
  {
    if mem.rec[root].count > 0 {
      NoneEmpty(mem, root, k, root);
      return mem, root;
    }
    if mem.rec[root].leaf {
      LeafRootAlone(View(mem), root);
      assert mem.rec.Keys == View(mem).Keys;
      r := Memory(mem.rec - {root}, mem.up - {root});
      assert r.rec == map[] && r.up == map[];
      return r, NULL;
    }
    r, root' := ShrinkRoot(mem, root, rm, k, node, at, all, pre);
  }

  lemma MendedPlaced(mem: Memory, r: Memory, root: Ptr, x: Ptr, j: int, y: Ptr,
      q: int, res: Iter, all: seq<Entry>, pre: seq<Entry>)
    requires mem.Ok() && r.Ok() && Shape(View(mem), root) && Shape(View(r), root)
    requires x in mem.rec && Mended(mem, r, root, x, j, y, q)
    requires 0 <= res.position && Placed(mem, root, res.node, res.position, all, pre)
    requires mem.rec[x].leaf ==> res == Iter(x, j)
    ensures mem.rec[x].leaf ==> 0 <= q && Placed(r, root, y, q, all, pre)
    ensures !mem.rec[x].leaf ==> Placed(r, root, res.node, res.position, all, pre)
  {
    assert LinksOK(View(mem), x) && LinksOK(View(mem), res.node);
    if !mem.rec[x].leaf {
      assert mem.rec[res.node].level < mem.rec[x].level;
      assert r.rec[res.node] == mem.rec[res.node] && SamePlace(View(mem), View(r), root, res.node);
    }
  }

  /** Mend from a leaf that may have got short up to the root. The place in the leaf is kept track of. */
  method MendUp(mem: Memory, root: Ptr, rm: Ptr, k: nat, start: Iter, ghost all: seq<Entry>, ghost pre: seq<Entry>)
    returns (r: Memory, root': Ptr, rm': Ptr, res: Iter)
    requires start.node in mem.rec && 0 <= start.position
    requires Tree(mem, root, k, start.node) && RightEdge(mem, root, rm)
    requires Placed(mem, root, start.node, start.position, all, pre)
    ensures 0 <= res.position && Mends(r, root', rm', k, res.node, res.position, all, pre)
    ensures mem.rec[root].leaf && root' != NULL ==> r.rec[root'].leaf
  {
    r, root', rm', res := mem, root, rm, start;
    assert UpOK(View(mem), root, start.node) && LinksOK(View(mem), root);
    var it := start;
    while true
      invariant it.node in r.rec && Tree(r, root, k, it.node) && RightEdge(r, root, rm') && root' == root
      invariant 0 <= res.position && Placed(r, root, res.node, res.position, all, pre)
      invariant r.rec[it.node].leaf ==> res == it
      invariant r.rec[it.node].level <= r.rec[root].level == mem.rec[root].level
      invariant mem.rec[root].leaf ==> r == mem && it.node == root
      decreases mem.rec[root].level - r.rec[it.node].level
    {
      if it.node == root {
        r, root' := TryShrink(r, root, rm', k, res.node, res.position, all, pre);
        return;
      }
      if r.rec[it.node].count >= k / 2 {
        assert k / 2 >= 1;
        NoneEmpty(r, root, k, it.node);
        return;
      }
      ghost var m0, it0 := r, it;
      var merged;
      merged, r, rm', it := TryMergeOrRebalance(r, root, rm', k, it);
      MendedPlaced(m0, r, root, it0.node, it0.position, it.node, it.position, res, all, pre);
      if r.rec[it.node].leaf {
        res := it;
      }
      if !merged {
        return;
      }
      ClimbLevels(r, root, it.node);
      it := Iter(r.up[it.node].parent, it.position);
    }
  }

  lemma ClimbLevels(r: Memory, root: Ptr, n: Ptr)
    requires r.Ok() && Shape(View(r), root) && n in r.rec && n != root
    ensures r.up[n].parent in r.rec && r.rec[r.up[n].parent].level == r.rec[n].level + 1 <= r.rec[root].level
    ensures !r.rec[r.up[n].parent].leaf
  {
    UpStep(View(r), root, n);
    ParentListing(View(r), root, n);
  }
}
