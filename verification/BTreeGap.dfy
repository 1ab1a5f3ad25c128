// Iterators of a B-tree as places in its in-order listing.
module BTreeGap {
  import opened BTreeWeave
  import opened BTreeHeap
  import opened BTreeCut

  /** Everything listed before position p of node n. At an internal node this includes child p. */
  function Prefix<P>(h: map<P, Nd<P>>, root: P, n: P, p: nat): seq<Entry>
    requires Shape(h, root) && n in h && p <= |h[n].vals|
  {
    assert LinksOK(h, n);
    if h[n].leaf then Before(h, root, n) + h[n].vals[..p]
    else
      var fs := Listings(h, h[n].kids, h[n].lvl);
      Before(h, root, n) + WeavePre(fs, h[n].vals, p) + fs[p]
  }

  lemma LeafSplit(b: seq<Entry>, vs: seq<Entry>, p: nat, a: seq<Entry>)
    requires p < |vs|
    ensures (b + vs[..p]) + [vs[p]] <= b + vs + a
  {
    assert (b + vs + a)[..|b| + p + 1] == (b + vs[..p]) + [vs[p]];
  }

  lemma PrefixSplit(b: seq<Entry>, pre: seq<Entry>, f: seq<Entry>, v: Entry,
      g: seq<Entry>, post: seq<Entry>, a: seq<Entry>)
    ensures (b + pre + f) + [v] <= b + (pre + f + ([v] + g + post)) + a
  {
    assert b + (pre + f + ([v] + g + post)) + a == ((b + pre + f) + [v]) + (g + post + a);
  }

  lemma ChildSplit(b: seq<Entry>, fs: seq<seq<Entry>>, vs: seq<Entry>, p: nat, a: seq<Entry>)
    requires |fs| == |vs| + 1 && p < |vs|
    ensures (b + WeavePre(fs, vs, p) + fs[p]) + [vs[p]] <= b + Weave(fs, vs) + a
  {
    WeaveAt(fs, vs, p);
    PrefixSplit(b, WeavePre(fs, vs, p), fs[p], vs[p], fs[p + 1], WeavePost(fs, vs, p + 1), a);
  }

  /** The value at an iterator follows its prefix. */
  lemma PrefixNext<P>(h: map<P, Nd<P>>, root: P, n: P, p: nat)
    requires Shape(h, root) && n in h && p < |h[n].vals|
    ensures Prefix(h, root, n, p) + [h[n].vals[p]] <= Listing(h, root)
  {
    assert LinksOK(h, n);
    ListingAround(h, root, n);
    if h[n].leaf {
      LeafSplit(Before(h, root, n), h[n].vals, p, After(h, root, n));
    } else {
      ChildSplit(Before(h, root, n), Listings(h, h[n].kids, h[n].lvl), h[n].vals, p, After(h, root, n));
    }
  }

  /** The end of a node is the place its parent has for it. */
  lemma PrefixUp<P>(h: map<P, Nd<P>>, root: P, n: P)
    requires Shape(h, root) && n in h && n != root
    ensures h[n].parent in h && h[n].pos <= |h[h[n].parent].vals|
    ensures Prefix(h, root, n, |h[n].vals|) == Before(h, root, n) + Listing(h, n)
    ensures Prefix(h, root, n, |h[n].vals|) == Prefix(h, root, h[n].parent, h[n].pos)
  {
    var q := h[n].parent;
    ParentListing(h, root, n);
    PrefixEnd(h, root, n);
    var fs := Listings(h, h[q].kids, h[q].lvl);
    PlaceInParent(h, root, n, q, h[n].pos, fs, h[q].vals);
    assert !h[q].leaf;
  }

  lemma PrefixEnd<P>(h: map<P, Nd<P>>, root: P, n: P)
    requires Shape(h, root) && n in h
    ensures Prefix(h, root, n, |h[n].vals|) == Before(h, root, n) + Listing(h, n)
  {
    assert LinksOK(h, n);
    if !h[n].leaf {
      var fs, vs := Listings(h, h[n].kids, h[n].lvl), h[n].vals;
      WeaveAt(fs, vs, |vs|);
      assert WeavePost(fs, vs, |vs|) == [];
      assert Weave(fs, vs) == WeavePre(fs, vs, |vs|) + fs[|vs|];
      Regroup3(Before(h, root, n), WeavePre(fs, vs, |vs|), fs[|vs|]);
    } else {
      assert h[n].vals[..|h[n].vals|] == h[n].vals;
    }
  }

  /** What is before the child at p + 1 of n: the prefix of p and the value there. */
  lemma ChildPlace<P>(h: map<P, Nd<P>>, root: P, n: P, p: nat)
    requires Shape(h, root) && n in h && !h[n].leaf && p <= |h[n].vals|
    ensures |h[n].kids| == |h[n].vals| + 1
    ensures var c := h[n].kids[p];
      && KidOK(h, n, c, p) && c != root && LinksOK(h, c)
      && Prefix(h, root, c, |h[c].vals|) == Prefix(h, root, n, p)
      && Before(h, root, c) == if p == 0 then Before(h, root, n) else Prefix(h, root, n, p - 1) + [h[n].vals[p - 1]]
  {
    assert LinksOK(h, n);
    var c := h[n].kids[p];
    assert KidOK(h, n, h[n].kids[p], p);
    assert LinksOK(h, c);
    NotKid(h, root, n, root);
    PrefixUp(h, root, c);
    var fs, vs := Listings(h, h[n].kids, h[n].lvl), h[n].vals;
    PlaceInParent(h, root, c, n, p, fs, vs);
    if p > 0 {
      Regroup4(Before(h, root, n), WeavePre(fs, vs, p - 1), fs[p - 1], vs[p - 1]);
    }
  }

  lemma Regroup4(b: seq<Entry>, a: seq<Entry>, f: seq<Entry>, v: Entry)
    ensures b + (a + f + [v]) == b + a + f + [v]
    ensures b + [] == b
  {}

  /** The first place of a leaf is what is before it. */
  lemma PrefixFirst<P>(h: map<P, Nd<P>>, root: P, n: P)
    requires Shape(h, root) && n in h && h[n].leaf
    ensures Prefix(h, root, n, 0) == Before(h, root, n)
  {}

  /** Only the left edge has nothing before it, only the right edge nothing after. */
  lemma EdgeStep<P>(h: map<P, Nd<P>>, root: P, n: P)
    requires Shape(h, root) && n in h && n != root
    ensures h[n].parent in h && h[n].pos <= |h[h[n].parent].vals| && LinksOK(h, h[n].parent)
    ensures Before(h, root, n) == [] <==> h[n].pos == 0 && Before(h, root, h[n].parent) == []
    ensures After(h, root, n) == [] <==> h[n].pos == |h[h[n].parent].vals| && After(h, root, h[n].parent) == []
  {
    ParentListing(h, root, n);
  }

  /** A change that keeps back links and value counts above the leaves keeps the edges. */
  lemma {:induction false} EdgesKept<P>(h: map<P, Nd<P>>, g: map<P, Nd<P>>, root: P, n: P)
    requires Shape(h, root) && Shape(g, root) && n in h
    requires forall m | m in h :: SameUp(h, g, m) && (h[m].lvl > 0 ==> |g[m].vals| == |h[m].vals|)
    ensures n in g && (Before(g, root, n) == [] <==> Before(h, root, n) == [])
    ensures After(g, root, n) == [] <==> After(h, root, n) == []
    decreases h[root].lvl - h[n].lvl
  {
    assert SameUp(h, g, n);
    if n != root {
      var q := h[n].parent;
      EdgeStep(h, root, n);
      EdgeStep(g, root, n);
      assert UpOK(h, root, n) && KidOK(h, q, n, h[n].pos) && UpOK(h, root, q);
      EdgesKept(h, g, root, q);
    }
  }

  /** There is one leaf on each edge. */
  lemma {:induction false} RightEdgeUnique<P>(h: map<P, Nd<P>>, root: P, m: P, n: P)
    requires Shape(h, root) && m in h && n in h && h[m].lvl == h[n].lvl
    requires After(h, root, m) == [] && After(h, root, n) == []
    ensures m == n
    decreases h[root].lvl - h[n].lvl
  {
    assert UpOK(h, root, m) && UpOK(h, root, n);
    if m != root && n != root {
      EdgeStep(h, root, m);
      EdgeStep(h, root, n);
      assert KidOK(h, h[m].parent, m, h[m].pos) && KidOK(h, h[n].parent, n, h[n].pos);
      assert UpOK(h, root, h[n].parent);
      RightEdgeUnique(h, root, h[m].parent, h[n].parent);
    }
  }

  // ----- One leaf edited -----

  /** g is h with the values of leaf n replaced. */
  predicate LeafEdited<P(==)>(h: map<P, Nd<P>>, g: map<P, Nd<P>>, n: P) {
    && g.Keys == h.Keys && n in h && h[n].leaf && g[n] == h[n].(vals := g[n].vals)
    && (forall m | m in h && m != n :: g[m] == h[m])
  }

  lemma LeafEditShape<P>(h: map<P, Nd<P>>, g: map<P, Nd<P>>, root: P, n: P)
    requires Shape(h, root) && LeafEdited(h, g, n)
    ensures Shape(g, root)
    ensures forall m | m in h :: SameUp(h, g, m) && (h[m].lvl > 0 ==> |g[m].vals| == |h[m].vals|)
  {
    forall m | m in h
      ensures LinksOK(g, m) && UpOK(g, root, m) && SameUp(h, g, m) && (h[m].lvl > 0 ==> |g[m].vals| == |h[m].vals|)
    {
      assert LinksOK(h, m) && UpOK(h, root, m) && LinksOK(h, n);
      forall j | 0 <= j < |g[m].kids| ensures KidOK(g, m, g[m].kids[j], j) {
        assert KidOK(h, m, h[m].kids[j], j);
      }
    }
  }

  /** The leaf keeps its place, so the tree's listing changes exactly there. */
  lemma LeafEdit<P>(h: map<P, Nd<P>>, g: map<P, Nd<P>>, root: P, n: P)
    requires Shape(h, root) && LeafEdited(h, g, n)
    ensures Shape(g, root)
    ensures Before(g, root, n) == Before(h, root, n) && After(g, root, n) == After(h, root, n)
    ensures Listing(h, root) == Before(h, root, n) + h[n].vals + After(h, root, n)
    ensures Listing(g, root) == Before(h, root, n) + g[n].vals + After(h, root, n)
    ensures forall m | m in h ::
      && m in g && (Before(g, root, m) == [] <==> Before(h, root, m) == [])
      && (After(g, root, m) == [] <==> After(h, root, m) == [])
  {
    LeafEditShape(h, g, root, n);
    assert LinksOK(h, n);
    forall y | y in h && h[y].lvl > h[n].lvl ensures SameContent(h, g, y) {}
    forall y | y in h && h[y].lvl == h[n].lvl && y != n ensures Listing(g, y) == Listing(h, y) { assert LinksOK(h, y); }
    ContextKept(h, g, root, n);
    ListingAround(h, root, n);
    ListingAround(g, root, n);
    forall m | m in h
      ensures m in g && (Before(g, root, m) == [] <==> Before(h, root, m) == [])
      ensures After(g, root, m) == [] <==> After(h, root, m) == []
    {
      EdgesKept(h, g, root, m);
    }
  }
}
