// Changes at the root: node swap, and the tree growing and shrinking by a level.
module BTreeRoot {
  import opened BTreeHeap
  import opened BTreeReshape
  import opened BTreeNode
  import opened BTreeSplit

  function Max(a: nat, b: nat): nat { if a < b then b else a }

  /** Two nodes exchange values, children and count (and, for the proofs, level). */
  method SwapContents(a: Rec, b: Rec) returns (a': Rec, b': Rec)
    requires a.Ok() && b.Ok() && a.leaf == b.leaf && a.count <= b.maxCount && b.count <= a.maxCount
    ensures a'.Ok() && b'.Ok() && a'.leaf == b'.leaf == a.leaf
    ensures a'.maxCount == a.maxCount && a'.level == b.level && a'.count == b.count
    ensures a'.Vals() == b.Vals() && a'.Kids() == b.Kids()
    ensures b'.maxCount == b.maxCount && b'.level == a.level && b'.count == a.count
    ensures b'.Vals() == a.Vals() && b'.Kids() == a.Kids()
  {
    var n := Max(a.count, b.count);
    var av, bv := SwapRange(a.values, 0, b.values, 0, n);
    assert av[..b.count] == b.values[..b.count] && bv[..a.count] == a.values[..a.count];
    var ac, bc := a.children, b.children;
    if !a.leaf {
      ac, bc := SwapRange(a.children, 0, b.children, 0, n + 1);
      assert ac[..b.count + 1] == b.children[..b.count + 1] && bc[..a.count + 1] == a.children[..a.count + 1];
    }
    a' := a.(values := av, children := ac, count := b.count, level := b.level);
    b' := b.(values := bv, children := bc, count := a.count, level := a.level);
  }

  /** The children in slots 0..n of ks get p as their parent; positions stay. */
  method Reparent(up: map<Ptr, Link>, ks: seq<Ptr>, p: Ptr) returns (up': map<Ptr, Link>)
    requires Distinct(ks) && forall c | c in ks :: c in up
    ensures up'.Keys == up.Keys
    ensures forall c {:trigger up'[c]} | c in up :: up'[c] == if c in ks then up[c].(parent := p) else up[c]
  {
    up' := up;
    var i := 0;
    while i < |ks|
      invariant 0 <= i <= |ks| && up'.Keys == up.Keys
      invariant forall c {:trigger up'[c]} | c in up :: up'[c] == if c in ks[..i] then up[c].(parent := p) else up[c]
    {
      assert ks[..i + 1] == ks[..i] + [ks[i]] && ks[i] in ks;
      assert ks[i] in up && ks[i] in up'.Keys;
      up' := up'[ks[i] := up'[ks[i]].(parent := p)];
      i := i + 1;
    }
    assert ks[..i] == ks;
  }

  /** The internal root's content moves down into the new node m, its only child. */
  method PushRoot(mem: Memory, root: Ptr, m: Ptr) returns (r: Memory)
    requires mem.Ok() && root in mem.rec && m !in mem.rec && m != NULL && !mem.rec[root].leaf
    requires LinksOK(View(mem), root) && root !in mem.rec[root].Kids()
    ensures r.Ok() && PushedLocal(View(mem), View(r), root, m)
    ensures r.rec[m].maxCount == mem.rec[root].maxCount && r.rec[root].maxCount == mem.rec[root].maxCount
    ensures r.rec[m].count == mem.rec[root].count && r.rec[root].count == 0 && r.up[m] == Link(root, 0)
    ensures r.rec.Keys == mem.rec.Keys + {m}
    ensures forall n {:trigger r.rec[n]} | n in mem.rec && n != root :: r.rec[n] == mem.rec[n]
  {
    LinksRead(mem, root);
    var x := mem.rec[root];
    var node := NewInternal(x.maxCount, x.level + 1);
    node := node.(children := node.children[0 := m]);
    var m', root' := SwapContents(node, x);
    assert root'.Kids() == [m];
    var up1 := mem.up[m := Link(m, 0)];
    var up2 := Reparent(up1, root'.Kids(), root);
    var up3 := Reparent(up2, m'.Kids(), m);
    r := Memory(mem.rec[root := root'][m := m'], up3);
    PushedBuilt(mem, r, root, m);
  }

  lemma PushedBuilt(mem: Memory, r: Memory, root: Ptr, m: Ptr)
    requires mem.Ok() && r.Ok() && root in mem.rec && m !in mem.rec && m != NULL && !mem.rec[root].leaf
    requires KidsAt(mem, root) && root !in mem.rec[root].Kids()
    requires r.rec.Keys == mem.rec.Keys + {m}
    requires forall n {:trigger r.rec[n]} | n in mem.rec && n != root :: r.rec[n] == mem.rec[n]
    requires !r.rec[m].leaf && r.rec[m].level == mem.rec[root].level
    requires r.rec[m].Vals() == mem.rec[root].Vals() && r.rec[m].Kids() == mem.rec[root].Kids()
    requires !r.rec[root].leaf && r.rec[root].level == mem.rec[root].level + 1
    requires r.rec[root].Vals() == [] && r.rec[root].Kids() == [m]
    requires r.up[m] == Link(root, 0)
    requires forall c {:trigger r.up[c]} | c in mem.rec ::
      r.up[c] == if c in mem.rec[root].Kids() then mem.up[c].(parent := m) else mem.up[c]
    ensures PushedLocal(View(mem), View(r), root, m)
  {
    var h, g := View(mem), View(r);
    PushedLinks(mem, r, root, m);
    forall n | n in h && n != root ensures SameContent(h, g, n) { assert r.rec[n] == mem.rec[n]; }
    forall n | n in h && n != root && n !in h[root].kids ensures SameUp(h, g, n) { assert r.rec[n] == mem.rec[n]; }
  }

  lemma PushedLinks(mem: Memory, r: Memory, root: Ptr, m: Ptr)
    requires mem.Ok() && r.Ok() && root in mem.rec && m !in mem.rec && !mem.rec[root].leaf
    requires KidsAt(mem, root) && root !in mem.rec[root].Kids()
    requires r.rec.Keys == mem.rec.Keys + {m}
    requires forall n {:trigger r.rec[n]} | n in mem.rec && n != root :: r.rec[n] == mem.rec[n]
    requires !r.rec[m].leaf && r.rec[m].level == mem.rec[root].level && r.rec[m].Kids() == mem.rec[root].Kids()
    requires !r.rec[root].leaf && r.rec[root].level == mem.rec[root].level + 1 && r.rec[root].Kids() == [m]
    requires r.up[m] == Link(root, 0)
    requires forall c {:trigger r.up[c]} | c in mem.rec ::
      r.up[c] == if c in mem.rec[root].Kids() then mem.up[c].(parent := m) else mem.up[c]
    ensures LinksOK(View(r), m) && LinksOK(View(r), root)
  {
    var ks := mem.rec[root].Kids();
    forall j | 0 <= j < |ks|
      ensures ks[j] in r.rec && r.up[ks[j]] == Link(m, j) && r.rec[ks[j]].level + 1 == r.rec[m].level
    {
      var c := ks[j];
      assert c in ks && c in mem.rec && mem.up[c] == Link(root, j);
      assert r.rec[c] == mem.rec[c];
    }
    assert KidsAt(r, m) && KidsAt(r, root);
    LinksBuilt(r, m);
    LinksBuilt(r, root);
  }

  /** The only child of an empty internal root, itself internal, gives its content to the root and goes. */
  method PullRoot(mem: Memory, root: Ptr) returns (r: Memory)
    requires mem.Ok() && root in mem.rec && !mem.rec[root].leaf && mem.rec[root].count == 0 && LinksOK(View(mem), root)
    requires var m := mem.rec[root].Kids()[0];
      && m in mem.rec && !mem.rec[m].leaf && LinksOK(View(mem), m)
      && mem.rec[m].maxCount == mem.rec[root].maxCount
      && root !in mem.rec[m].Kids() && m !in mem.rec[m].Kids() && m != root && mem.up[root].parent != m
    ensures r.Ok() && r.rec.Keys == mem.rec.Keys - {mem.rec[root].Kids()[0]}
    ensures root in r.rec && mem.rec[root].Kids()[0] in mem.rec
    ensures var m := mem.rec[root].Kids()[0];
      && PushedLocal(View(r), View(mem), root, m) && LinksOK(View(r), root)
      && r.rec[root].maxCount == mem.rec[root].maxCount && r.rec[root].count == mem.rec[m].count
      && (forall n {:trigger r.rec[n]} | n in r.rec && n != root :: r.rec[n] == mem.rec[n])
  {
    LinksRead(mem, root);
    var m := mem.rec[root].children[0];
    assert mem.rec[root].Kids() == [m];
    LinksRead(mem, m);
    var m', root' := SwapContents(mem.rec[m], mem.rec[root]);
    var up1 := Reparent(mem.up, root'.Kids(), root);
    var up2 := Reparent(up1, m'.Kids(), m);
    r := Memory(mem.rec[root := root'] - {m}, up2 - {m});
    PulledBuilt(mem, r, root, m);
  }

  lemma PulledBuilt(mem: Memory, r: Memory, root: Ptr, m: Ptr)
    requires mem.Ok() && r.Ok() && root in mem.rec && m in mem.rec
    requires m != root && !mem.rec[root].leaf && !mem.rec[m].leaf
    requires KidsAt(mem, root) && mem.rec[root].Kids() == [m] && KidsAt(mem, m) && mem.rec[root].count == 0
    requires root !in mem.rec[m].Kids() && m !in mem.rec[m].Kids()
    requires r.rec.Keys == mem.rec.Keys - {m}
    requires forall n {:trigger r.rec[n]} | n in r.rec && n != root :: r.rec[n] == mem.rec[n]
    requires !r.rec[root].leaf && r.rec[root].level == mem.rec[m].level
    requires r.rec[root].Vals() == mem.rec[m].Vals() && r.rec[root].Kids() == mem.rec[m].Kids()
    requires forall c {:trigger r.up[c]} | c in r.rec ::
      r.up[c] == if c in mem.rec[m].Kids() then mem.up[c].(parent := root) else mem.up[c]
    ensures PushedLocal(View(r), View(mem), root, m) && LinksOK(View(r), root)
  {
    var h, g := View(r), View(mem);
    LinksBuilt(mem, root);
    LinksBuilt(mem, m);
    assert m in mem.rec[root].Kids();
    forall n | n in h && n != root ensures SameContent(h, g, n) { assert r.rec[n] == mem.rec[n]; }
    forall n | n in h && n != root && n !in h[root].kids ensures SameUp(h, g, n) { assert r.rec[n] == mem.rec[n]; }
    var ks := mem.rec[m].Kids();
    forall j | 0 <= j < |ks|
      ensures ks[j] in r.rec && r.up[ks[j]] == Link(root, j) && r.rec[ks[j]].level + 1 == r.rec[root].level
    {
      var c := ks[j];
      assert c in ks && c in mem.rec && mem.up[c] == Link(m, j);
      assert r.rec[c] == mem.rec[c];
    }
    assert KidsAt(r, root);
    LinksBuilt(r, root);
  }

  // ----- Between a leaf root and an internal root -----

  lemma LeafRootAlone(h: map<Ptr, Nd<Ptr>>, root: Ptr)
    requires Shape(h, root) && h[root].leaf
    ensures h.Keys == {root} && h[root].parent == root && h[root].lvl == 0
  {
    assert LinksOK(h, root);
    forall n | n in h ensures n == root { assert UpOK(h, root, n); }
  }

  /** A new internal root p over the leaf root. */
  method NewRoot(mem: Memory, root: Ptr, p: Ptr) returns (r: Memory)
    requires mem.Ok() && Shape(View(mem), root) && mem.rec[root].leaf && p !in mem.rec && p != NULL
    ensures r.Ok() && Shape(View(r), p) && r.rec.Keys == {root, p}
    ensures r.rec[root] == mem.rec[root] && r.up[root] == Link(p, 0)
    ensures !r.rec[p].leaf && r.rec[p].count == 0
    ensures r.rec[p].maxCount == mem.rec[root].maxCount && r.rec[p].Kids() == [root]
    ensures r.up[p].parent == root && Before(View(r), p, root) == [] && After(View(r), p, root) == []
    ensures Listing(View(r), p) == Listing(View(mem), root) == Listing(View(r), root)
  {
    LeafRootAlone(View(mem), root);
    assert mem.rec.Keys == View(mem).Keys;
    var x := NewInternal(mem.rec[root].maxCount, 1);
    x := x.(children := x.children[0 := root]);
    assert x.Kids() == [root] && mem.up[root].parent == root && mem.rec[root].level == 0;
    r := Memory(mem.rec[p := x], mem.up[p := Link(mem.up[root].parent, 0)][root := Link(p, 0)]);
    LeafUnderRoot(r, p, root);
  }

  lemma LeafUnderRoot(r: Memory, p: Ptr, c: Ptr)
    requires r.Ok() && p != c && r.rec.Keys == {p, c} && r.rec[c].leaf && r.rec[c].level == 0
    requires !r.rec[p].leaf && r.rec[p].level == 1 && r.rec[p].count == 0
    requires r.rec[p].Kids() == [c] && r.up[c] == Link(p, 0) && r.up[p].parent == c
    ensures Shape(View(r), p) && Before(View(r), p, c) == [] && After(View(r), p, c) == []
    ensures Listing(View(r), p) == Listing(View(r), c) == r.rec[c].Vals()
  {
    var g := View(r);
    assert g[p].kids == [c] && g[p].vals == [] && g[c].parent == p && g[c].pos == 0 && g[c].lvl == 0 && g[p].lvl == 1;
    assert KidOK(g, p, g[p].kids[0], 0);
    assert LinksOK(g, p) && LinksOK(g, c) && UpOK(g, p, c) && UpOK(g, p, p);
    assert Listings(g, [c], 1) == [Listing(g, c)];
    assert g[p].vals == [];
  }

  /** The only child of an empty root, a leaf, becomes the root. */
  method MakeRoot(mem: Memory, root: Ptr) returns (r: Memory, c: Ptr)
    requires mem.Ok() && Shape(View(mem), root) && !mem.rec[root].leaf && mem.rec[root].count == 0
    requires mem.rec[root].Kids()[0] in mem.rec && mem.rec[mem.rec[root].Kids()[0]].leaf
    ensures c == mem.rec[root].Kids()[0] && r.Ok() && Shape(View(r), c) && r.rec.Keys == {c} && r.rec[c] == mem.rec[c]
    ensures Listing(View(r), c) == Listing(View(mem), root)
    ensures mem.rec.Keys == {root, c}
  {
    c := mem.rec[root].children[0];
    ShallowTree(View(mem), root, c);
    assert mem.rec.Keys == View(mem).Keys && mem.up[root].parent == c;
    r := Memory(mem.rec - {root}, mem.up[c := mem.up[c].(parent := mem.up[root].parent)] - {root});
    assert r.rec.Keys == {c} && r.up.Keys == {c};
    assert LinksOK(View(r), c) && UpOK(View(r), c, c);
    ShallowListing(mem, root, c);
  }

  lemma ShallowTree(h: map<Ptr, Nd<Ptr>>, root: Ptr, c: Ptr)
    requires Shape(h, root) && !h[root].leaf && h[root].kids == [c] && c in h && h[c].leaf
    ensures h.Keys == {root, c} && h[root].lvl == 1 && h[c].lvl == 0
    ensures h[root].parent == c && h[c].parent == root && h[c].pos == 0
  {
    assert LinksOK(h, root) && LinksOK(h, c) && KidOK(h, root, h[root].kids[0], 0);
    forall n | n in h ensures n == root || n == c {
      assert LinksOK(h, n) && UpOK(h, root, n);
      if n != root {
        var q := h[n].parent;
        assert LinksOK(h, q) && UpOK(h, root, q);
        assert h[n].lvl == 0;
        assert KidOK(h, q, h[q].kids[h[n].pos], h[n].pos);
        assert q == root;
      }
    }
    assert LinksOK(h, h[root].parent);
  }

  lemma ShallowListing(mem: Memory, root: Ptr, c: Ptr)
    requires mem.Ok() && Shape(View(mem), root) && !mem.rec[root].leaf
    requires mem.rec[root].Kids() == [c] && c in mem.rec && mem.rec[c].leaf
    requires mem.rec[root].count == 0
    ensures Listing(View(mem), root) == mem.rec[c].Vals()
  {
    var h := View(mem);
    assert LinksOK(h, root) && KidOK(h, root, h[root].kids[0], 0);
    assert Listings(h, h[root].kids, h[root].lvl) == [Listing(h, c)];
  }
}
