// g is the tree h with one node cut in two around a value that moves up into the parent.
// Read from g to h the same relation says that two siblings were joined.
module BTreeCut {
  import opened BTreeWeave
  import opened BTreeHeap

  /** Child i of p, node a, is a alone in h and a, d, b in g; the children concerned are
      relinked and nothing else changes. */
  predicate CutLocal<P(==)>(h: map<P, Nd<P>>, g: map<P, Nd<P>>, p: P, i: nat, a: P, d: Entry, b: P) {
    && b !in h && g.Keys == h.Keys + {b} && p in h && a in h && p != a
    && i < |h[p].kids| && h[p].kids[i] == a && i <= |h[p].vals|
    && h[p].lvl == g[p].lvl && h[p].leaf == g[p].leaf && h[p].cap == g[p].cap
    && g[p].vals == h[p].vals[..i] + [d] + h[p].vals[i..]
    && g[p].kids == h[p].kids[..i + 1] + [b] + h[p].kids[i + 1..]
    && h[a].leaf == g[a].leaf == g[b].leaf && h[a].lvl == g[a].lvl == g[b].lvl && h[a].cap == g[a].cap
    && h[a].vals == g[a].vals + [d] + g[b].vals
    && h[a].kids == g[a].kids + g[b].kids
    && (forall m {:trigger SameContent(h, g, m)} | m in h && m != a && m != p :: SameContent(h, g, m))
    && (forall m {:trigger SameUp(h, g, m)} | m in h && m !in h[a].kids && m !in h[p].kids :: SameUp(h, g, m))
    && LinksOK(g, a) && LinksOK(g, b) && LinksOK(g, p)
  }

  predicate Cut<P(==)>(h: map<P, Nd<P>>, g: map<P, Nd<P>>, root: P, p: P, i: nat, a: P, d: Entry, b: P) {
    Shape(h, root) && Shape(g, root) && CutLocal(h, g, p, i, a, d, b)
  }

  lemma NotKid<P>(h: map<P, Nd<P>>, root: P, q: P, m: P)
    requires Shape(h, root) && q in h && m in h && (m == root || h[m].parent != q)
    ensures m !in h[q].kids
  {
    assert LinksOK(h, q) && LinksOK(h, h[root].parent);
    forall j | 0 <= j < |h[q].kids| ensures h[q].kids[j] != m {
      assert KidOK(h, q, h[q].kids[j], j);
    }
  }

  /** Cutting a node of a well-linked tree leaves a well-linked tree. */
  lemma CutShape<P>(h: map<P, Nd<P>>, g: map<P, Nd<P>>, root: P, p: P, i: nat, a: P, d: Entry, b: P)
    requires Shape(h, root) && CutLocal(h, g, p, i, a, d, b)
    ensures Shape(g, root)
  {
    NotKid(h, root, a, root);
    NotKid(h, root, p, root);
    assert SameUp(h, g, root);
    assert LinksOK(h, p) && KidOK(h, p, a, i) && LinksOK(h, a) && UpOK(h, root, p) && UpOK(h, root, a);
    assert LinksOK(h, h[root].parent);
    forall n | n in g ensures LinksOK(g, n) {
      if n != a && n != b && n != p { CutShapeLinks(h, g, root, p, i, a, d, b, n); }
    }
    forall n | n in g ensures UpOK(g, root, n) {
      CutShapeUp(h, g, root, p, i, a, d, b, n);
    }
    assert h[root].parent in g && g[h[root].parent].leaf by {
      if h[root].parent != a { assert SameContent(h, g, h[root].parent); }
    }
  }

  lemma CutShapeLinks<P>(h: map<P, Nd<P>>, g: map<P, Nd<P>>, root: P, p: P, i: nat, a: P, d: Entry, b: P, n: P)
    requires Shape(h, root) && CutLocal(h, g, p, i, a, d, b) && n in h && n != a && n != p
    ensures n in g && LinksOK(g, n)
  {
    assert SameContent(h, g, n) && LinksOK(h, n);
    forall j | 0 <= j < |g[n].kids| ensures KidOK(g, n, g[n].kids[j], j) {
      var c := h[n].kids[j];
      assert KidOK(h, n, c, j);
      assert LinksOK(h, h[root].parent);
      NotKid(h, root, a, c);
      NotKid(h, root, p, c);
      assert SameUp(h, g, c);
    }
  }

  lemma CutShapeUp<P>(h: map<P, Nd<P>>, g: map<P, Nd<P>>, root: P, p: P, i: nat, a: P, d: Entry, b: P, n: P)
    requires Shape(h, root) && CutLocal(h, g, p, i, a, d, b) && n in g && SameUp(h, g, root)
    requires LinksOK(h, p) && KidOK(h, p, a, i) && LinksOK(h, a) && UpOK(h, root, p) && UpOK(h, root, a)
    ensures UpOK(g, root, n)
  {
    if n == b {
      assert KidOK(g, p, g[p].kids[i + 1], i + 1);
    } else if n != root {
      assert UpOK(h, root, n) && LinksOK(h, h[n].parent) && KidOK(h, h[n].parent, n, h[n].pos);
      var q, j := h[n].parent, h[n].pos;
      if q == p {
        var k := if j <= i then j else j + 1;
        assert g[p].kids[k] == n && KidOK(g, p, g[p].kids[k], k);
      } else if q == a {
        var k := |g[a].kids|;
        if j < k {
          assert g[a].kids[j] == n && KidOK(g, a, g[a].kids[j], j);
        } else {
          assert g[b].kids[j - k] == n && KidOK(g, b, g[b].kids[j - k], j - k);
        }
      } else {
        NotKid(h, root, a, n);
        NotKid(h, root, p, n);
        assert SameUp(h, g, n) && SameContent(h, g, q);
      }
    }
  }

  /** Joining two siblings of a well-linked tree leaves a well-linked tree. */
  lemma JoinShape<P>(h: map<P, Nd<P>>, g: map<P, Nd<P>>, root: P, p: P, i: nat, a: P, d: Entry, b: P)
    requires Shape(g, root) && CutLocal(h, g, p, i, a, d, b) && g[root].parent != b
    requires LinksOK(h, a) && LinksOK(h, p)
    ensures Shape(h, root)
  {
    assert KidOK(g, p, g[p].kids[i], i) && KidOK(g, p, g[p].kids[i + 1], i + 1) && UpOK(g, root, p);
    NotKid(g, root, a, root);
    NotKid(g, root, b, root);
    NotKid(g, root, p, root);
    assert root in h && SameUp(h, g, root);
    assert LinksOK(g, g[root].parent);
    forall n | n in h ensures LinksOK(h, n) {
      if n != a && n != p { JoinShapeLinks(h, g, root, p, i, a, d, b, n); }
    }
    forall n | n in h ensures UpOK(h, root, n) {
      JoinShapeUp(h, g, root, p, i, a, d, b, n);
    }
    assert h[root].parent in h && h[h[root].parent].leaf by {
      if h[root].parent != a { assert SameContent(h, g, h[root].parent); }
    }
  }

  lemma JoinShapeLinks<P>(h: map<P, Nd<P>>, g: map<P, Nd<P>>, root: P, p: P, i: nat, a: P, d: Entry, b: P, n: P)
    requires Shape(g, root) && CutLocal(h, g, p, i, a, d, b) && n in h && n != a && n != p
    ensures LinksOK(h, n)
  {
    assert KidOK(g, p, g[p].kids[i + 1], i + 1);
    assert SameContent(h, g, n) && LinksOK(g, n);
    forall j | 0 <= j < |h[n].kids| ensures KidOK(h, n, h[n].kids[j], j) {
      var c := g[n].kids[j];
      assert KidOK(g, n, c, j);
      NotKid(g, root, a, c);
      NotKid(g, root, b, c);
      NotKid(g, root, p, c);
      assert SameUp(h, g, c);
    }
  }

  lemma JoinShapeUp<P>(h: map<P, Nd<P>>, g: map<P, Nd<P>>, root: P, p: P, i: nat, a: P, d: Entry, b: P, n: P)
    requires Shape(g, root) && CutLocal(h, g, p, i, a, d, b) && n in h && root in h && SameUp(h, g, root)
    requires LinksOK(h, a) && LinksOK(h, p)
    ensures UpOK(h, root, n)
  {
    assert KidOK(g, p, g[p].kids[i], i) && KidOK(g, p, g[p].kids[i + 1], i + 1) && UpOK(g, root, p);
    if n != root {
      assert UpOK(g, root, n) && LinksOK(g, g[n].parent) && KidOK(g, g[n].parent, n, g[n].pos);
      var q, j := g[n].parent, g[n].pos;
      if q == p {
        var k := if j <= i then j else j - 1;
        assert h[p].kids[k] == n && KidOK(h, p, h[p].kids[k], k);
      } else if q == a {
        assert h[a].kids[j] == n && KidOK(h, a, h[a].kids[j], j);
      } else if q == b {
        var k := j + |g[a].kids|;
        assert h[a].kids[k] == n && KidOK(h, a, h[a].kids[k], k);
      } else {
        NotKid(g, root, a, n);
        NotKid(g, root, b, n);
        NotKid(g, root, p, n);
        assert SameUp(h, g, n) && SameContent(h, g, q);
      }
    }
  }

  /** The levels around a cut. */
  lemma CutLevels<P>(h: map<P, Nd<P>>, g: map<P, Nd<P>>, root: P, p: P, i: nat, a: P, d: Entry, b: P)
    requires Cut(h, g, root, p, i, a, d, b)
    ensures LinksOK(h, p) && KidOK(h, p, a, i) && LinksOK(h, a) && UpOK(h, root, p) && UpOK(h, root, a)
    ensures LinksOK(g, p) && KidOK(g, p, a, i) && LinksOK(g, a) && KidOK(g, p, b, i + 1) && LinksOK(g, b)
    ensures UpOK(g, root, p) && UpOK(g, root, a) && UpOK(g, root, b)
    ensures a != root && b != root && h[a].lvl + 1 == h[p].lvl
    ensures |h[p].kids| == |h[p].vals| + 1
  {
    assert LinksOK(h, p) && KidOK(h, p, a, i);
    assert LinksOK(g, p);
    assert KidOK(g, p, g[p].kids[i], i) && KidOK(g, p, g[p].kids[i + 1], i + 1);
    assert LinksOK(h, root) && UpOK(h, root, p);
  }

  /** Below the cut level nothing changes but back links, and at it only a's content. */
  lemma CutBelow<P>(h: map<P, Nd<P>>, g: map<P, Nd<P>>, root: P, p: P, i: nat, a: P, d: Entry, b: P, m: P)
    requires Cut(h, g, root, p, i, a, d, b)
    requires m in h && h[m].lvl <= h[a].lvl && m != a
    ensures SameContent(h, g, m) && Listing(g, m) == Listing(h, m)
  {
    CutLevels(h, g, root, p, i, a, d, b);
    CutLow(h, g, root, p, i, a, d, b);
    assert SameContent(h, g, m) && LinksOK(h, m);
    ListingsSame(h, g, m, h[a].lvl);
  }

  lemma CutLow<P>(h: map<P, Nd<P>>, g: map<P, Nd<P>>, root: P, p: P, i: nat, a: P, d: Entry, b: P)
    requires Cut(h, g, root, p, i, a, d, b)
    ensures forall m | m in h && h[m].lvl < h[a].lvl :: SameContent(h, g, m) && LinksOK(h, m)
  {
    CutLevels(h, g, root, p, i, a, d, b);
    forall m | m in h && h[m].lvl < h[a].lvl ensures SameContent(h, g, m) && LinksOK(h, m) {
      assert SameContent(h, g, m) && LinksOK(h, m);
    }
  }

  /** The two halves and the value between them list what the whole node lists. */
  lemma CutListing<P>(h: map<P, Nd<P>>, g: map<P, Nd<P>>, root: P, p: P, i: nat, a: P, d: Entry, b: P)
    requires Cut(h, g, root, p, i, a, d, b)
    ensures Listing(h, a) == Listing(g, a) + [d] + Listing(g, b)
  {
    CutLevels(h, g, root, p, i, a, d, b);
    if !h[a].leaf {
      CutKids(h, g, root, p, i, a, d, b);
      WeaveJoin(Listings(g, g[a].kids, g[a].lvl), g[a].vals, d, Listings(g, g[b].kids, g[b].lvl), g[b].vals);
    }
  }

  lemma CutKids<P>(h: map<P, Nd<P>>, g: map<P, Nd<P>>, root: P, p: P, i: nat, a: P, d: Entry, b: P)
    requires Cut(h, g, root, p, i, a, d, b)
    ensures Listings(h, h[a].kids, h[a].lvl) == Listings(g, g[a].kids, g[a].lvl) + Listings(g, g[b].kids, g[b].lvl)
  {
    CutLevels(h, g, root, p, i, a, d, b);
    CutLow(h, g, root, p, i, a, d, b);
    ListingsSame(h, g, a, h[a].lvl);
    ListingsCat(g, g[a].kids, g[b].kids, h[a].lvl);
  }

  lemma ListingsCat<P>(g: map<P, Nd<P>>, k1: seq<P>, k2: seq<P>, bound: nat)
    ensures Listings(g, k1 + k2, bound) == Listings(g, k1, bound) + Listings(g, k2, bound)
  {}

  /** The parent's children list as before, with the cut child replaced by its two halves. */
  lemma CutParent<P>(h: map<P, Nd<P>>, g: map<P, Nd<P>>, root: P, p: P, i: nat, a: P, d: Entry, b: P)
    requires Cut(h, g, root, p, i, a, d, b)
    ensures |Listings(h, h[p].kids, h[p].lvl)| == |h[p].vals| + 1
    ensures Listings(h, h[p].kids, h[p].lvl)[i] == Listing(g, a) + [d] + Listing(g, b)
    ensures
      var fs := Listings(h, h[p].kids, h[p].lvl);
      Listings(g, g[p].kids, g[p].lvl) == fs[..i] + [Listing(g, a), Listing(g, b)] + fs[i + 1..]
    ensures Listing(g, p) == Listing(h, p)
  {
    CutLevels(h, g, root, p, i, a, d, b);
    CutListing(h, g, root, p, i, a, d, b);
    var fs, gs := Listings(h, h[p].kids, h[p].lvl), Listings(g, g[p].kids, g[p].lvl);
    forall j | 0 <= j < |fs| && j != i ensures gs[if j < i then j else j + 1] == fs[j] {
      var c := h[p].kids[j];
      assert KidOK(h, p, c, j);
      CutBelow(h, g, root, p, i, a, d, b, c);
      assert g[p].kids[if j < i then j else j + 1] == c;
    }
    var want := fs[..i] + [Listing(g, a), Listing(g, b)] + fs[i + 1..];
    assert |gs| == |want|;
    forall j | 0 <= j < |gs| ensures gs[j] == want[j] {
      if j < i {
      } else if j == i || j == i + 1 {
      } else {
        assert want[j] == fs[j - 1];
        assert gs[if j - 1 < i then j - 1 else j - 1 + 1] == fs[j - 1];
      }
    }
    assert gs == want;
    WeaveSplit(fs, h[p].vals, i, Listing(g, a), d, Listing(g, b));
  }

  lemma CutOnlyBelow<P>(h: map<P, Nd<P>>, g: map<P, Nd<P>>, root: P, p: P, i: nat, a: P, d: Entry, b: P)
    requires Cut(h, g, root, p, i, a, d, b)
    ensures OnlyBelow(h, g, p)
  {
    CutLevels(h, g, root, p, i, a, d, b);
    forall y | y in h && h[y].lvl > h[p].lvl ensures SameContent(h, g, y) {
      assert SameContent(h, g, y);
    }
    forall y | y in h && h[y].lvl >= h[p].lvl ensures SameUp(h, g, y) {
      assert UpOK(h, root, y);
      if y != root {
        assert LinksOK(h, h[y].parent) && KidOK(h, h[y].parent, y, h[y].pos);
      }
      NotKid(h, root, a, y);
      NotKid(h, root, p, y);
      assert SameUp(h, g, y);
    }
    forall y | y in h && h[y].lvl == h[p].lvl && y != p ensures y in g && Listing(g, y) == Listing(h, y) {
      CutElsewhere(h, g, root, p, i, a, d, b, y);
    }
  }

  /** A node other than p and a, no higher than p, keeps content and its children's listings. */
  lemma CutElsewhere<P>(h: map<P, Nd<P>>, g: map<P, Nd<P>>, root: P, p: P, i: nat, a: P, d: Entry, b: P, q: P)
    requires Cut(h, g, root, p, i, a, d, b)
    requires q in h && h[q].lvl <= h[p].lvl && q != p && q != a
    ensures SameContent(h, g, q)
    ensures Listings(g, h[q].kids, h[q].lvl) == Listings(h, h[q].kids, h[q].lvl)
    ensures Listing(g, q) == Listing(h, q)
  {
    CutLevels(h, g, root, p, i, a, d, b);
    assert SameContent(h, g, q) && LinksOK(h, q);
    var fs, gs := Listings(h, h[q].kids, h[q].lvl), Listings(g, h[q].kids, h[q].lvl);
    forall j | 0 <= j < |fs| ensures gs[j] == fs[j] {
      assert KidOK(h, q, h[q].kids[j], j);
      CutBelow(h, g, root, p, i, a, d, b, h[q].kids[j]);
    }
    assert fs == gs;
  }

  lemma CutParentContext<P>(h: map<P, Nd<P>>, g: map<P, Nd<P>>, root: P, p: P, i: nat, a: P, d: Entry, b: P)
    requires Cut(h, g, root, p, i, a, d, b)
    ensures Before(g, root, p) == Before(h, root, p) && After(g, root, p) == After(h, root, p)
  {
    CutParent(h, g, root, p, i, a, d, b);
    CutOnlyBelow(h, g, root, p, i, a, d, b);
    AboveKept(h, g, root, p, p);
  }

  /** The halves of the cut node stand where the node stood. */
  lemma CutHalves<P>(h: map<P, Nd<P>>, g: map<P, Nd<P>>, root: P, p: P, i: nat, a: P, d: Entry, b: P)
    requires Cut(h, g, root, p, i, a, d, b)
    ensures Before(g, root, a) == Before(h, root, a) && After(g, root, b) == After(h, root, a)
    ensures Before(g, root, b) == Before(h, root, a) + (Listing(g, a) + [d])
    ensures After(g, root, a) == ([d] + Listing(g, b)) + After(h, root, a)
  {
    CutLevels(h, g, root, p, i, a, d, b);
    CutParent(h, g, root, p, i, a, d, b);
    CutParentContext(h, g, root, p, i, a, d, b);
    var fs := Listings(h, h[p].kids, h[p].lvl);
    WeaveSplit(fs, h[p].vals, i, Listing(g, a), d, Listing(g, b));
    Regroup3(Before(h, root, p), WeavePre(fs, h[p].vals, i), Listing(g, a) + [d]);
    Regroup3(WeavePre(fs, h[p].vals, i), Listing(g, a), [d]);
    Regroup3([d] + Listing(g, b), WeavePost(fs, h[p].vals, i), After(h, root, p));
  }

  predicate SamePlace<P>(h: map<P, Nd<P>>, g: map<P, Nd<P>>, root: P, n: P)
    requires Shape(h, root) && Shape(g, root)
  {
    n in h && n in g && Before(g, root, n) == Before(h, root, n) && After(g, root, n) == After(h, root, n)
  }

  /** The definition of a child's place, with the parent's parts named. */
  lemma PlaceInParent<P>(h: map<P, Nd<P>>, root: P, n: P, q: P, j: nat, fs: seq<seq<Entry>>, vs: seq<Entry>)
    requires Shape(h, root) && n in h && n != root && h[n].parent == q && h[n].pos == j
    requires q in h && fs == Listings(h, h[q].kids, h[q].lvl) && vs == h[q].vals
    ensures |fs| == |vs| + 1 && j <= |vs|
    ensures Before(h, root, n) == Before(h, root, q) + WeavePre(fs, vs, j)
    ensures After(h, root, n) == WeavePost(fs, vs, j) + After(h, root, q)
  {
    assert UpOK(h, root, n) && LinksOK(h, q);
  }

  /** The other children of p move up to make room. */
  lemma CutSiblingPos<P>(h: map<P, Nd<P>>, g: map<P, Nd<P>>, root: P, p: P, i: nat, a: P, d: Entry, b: P, n: P)
    requires Cut(h, g, root, p, i, a, d, b)
    requires n in h && n != root && h[n].parent == p && n != a
    ensures n in g && g[n].parent == p && h[n].pos != i && h[n].pos <= |h[p].vals|
    ensures g[n].pos == if h[n].pos < i then h[n].pos else h[n].pos + 1
  {
    var j := h[n].pos;
    assert UpOK(h, root, n);
    var k := if j < i then j else j + 1;
    assert g[p].kids[k] == n;
    assert KidOK(g, p, g[p].kids[k], k);
  }

  lemma CutSibling<P>(h: map<P, Nd<P>>, g: map<P, Nd<P>>, root: P, p: P, i: nat, a: P, d: Entry, b: P, n: P)
    requires Cut(h, g, root, p, i, a, d, b)
    requires n in h && n != root && h[n].parent == p && n != a
    ensures SamePlace(h, g, root, n)
  {
    CutParent(h, g, root, p, i, a, d, b);
    CutParentContext(h, g, root, p, i, a, d, b);
    CutSiblingPos(h, g, root, p, i, a, d, b, n);
    var j, k := h[n].pos, g[n].pos;
    var fs := Listings(h, h[p].kids, h[p].lvl);
    WeaveSplitOther(fs, h[p].vals, i, Listing(g, a), d, Listing(g, b), j, k);
    PlaceInParent(h, root, n, p, j, fs, h[p].vals);
    PlaceInParent(g, root, n, p, k, Listings(g, g[p].kids, g[p].lvl), g[p].vals);
  }

  lemma CutGrandchildLeft<P>(h: map<P, Nd<P>>, g: map<P, Nd<P>>, root: P, p: P, i: nat, a: P, d: Entry, b: P, n: P)
    requires Cut(h, g, root, p, i, a, d, b)
    requires n in h && n != root && h[n].parent == a && h[n].pos <= |g[a].vals|
    ensures SamePlace(h, g, root, n)
  {
    CutLevels(h, g, root, p, i, a, d, b);
    CutHalves(h, g, root, p, i, a, d, b);
    CutKids(h, g, root, p, i, a, d, b);
    assert UpOK(h, root, n);
    var xs, ys := Listings(g, g[a].kids, g[a].lvl), Listings(g, g[b].kids, g[b].lvl);
    var j, vs := h[n].pos, h[a].vals;
    assert g[a].kids[j] == n;
    assert KidOK(g, a, g[a].kids[j], j);
    PlaceInParent(h, root, n, a, j, xs + ys, vs);
    PlaceInParent(g, root, n, a, j, xs, g[a].vals);
    assert (xs + ys)[..j] == xs[..j] && vs[..j] == g[a].vals[..j];
    WeavePreLocal(xs + ys, vs, xs, g[a].vals, j);
    WeaveJoinPost(xs, g[a].vals, d, ys, g[b].vals, j);
    Regroup3(WeavePost(xs, g[a].vals, j), [d] + Listing(g, b), After(h, root, a));
  }

  lemma CutMoved<P>(h: map<P, Nd<P>>, g: map<P, Nd<P>>, root: P, p: P, i: nat, a: P, d: Entry, b: P, n: P)
    requires Cut(h, g, root, p, i, a, d, b)
    requires n in h && n != root && h[n].parent == a && h[n].pos > |g[a].vals|
    ensures n in g && g[n].parent == b && g[n].pos == h[n].pos - |g[a].vals| - 1
    ensures !g[a].leaf && LinksOK(g, a) && LinksOK(g, b) && g[n].pos <= |g[b].vals|
  {
    CutLevels(h, g, root, p, i, a, d, b);
    assert UpOK(h, root, n);
    var m := h[n].pos - |g[a].vals| - 1;
    assert g[b].kids[m] == n;
    assert KidOK(g, b, g[b].kids[m], m);
  }

  lemma CutGrandchildRight<P>(h: map<P, Nd<P>>, g: map<P, Nd<P>>, root: P, p: P, i: nat, a: P, d: Entry, b: P, n: P)
    requires Cut(h, g, root, p, i, a, d, b)
    requires n in h && n != root && h[n].parent == a && h[n].pos > |g[a].vals|
    ensures SamePlace(h, g, root, n)
  {
    CutMoved(h, g, root, p, i, a, d, b, n);
    CutKids(h, g, root, p, i, a, d, b);
    CutHalves(h, g, root, p, i, a, d, b);
    var xs, ys := Listings(g, g[a].kids, g[a].lvl), Listings(g, g[b].kids, g[b].lvl);
    var xv, yv, m := g[a].vals, g[b].vals, g[n].pos;
    PlaceMoved(Before(h, root, n), After(h, root, n), Before(g, root, n), After(g, root, n),
               Before(h, root, a), After(h, root, a), Before(g, root, b),
                 After(g, root, b), xs, xv, d, ys, yv, m, h[n].pos) by {
      PlaceInParent(h, root, n, a, h[n].pos, xs + ys, xv + [d] + yv);
      PlaceInParent(g, root, n, b, m, ys, yv);
    }
  }

  lemma PlaceMoved(bhn: seq<Entry>, ahn: seq<Entry>, bgn: seq<Entry>, agn: seq<Entry>,
                   bha: seq<Entry>, aha: seq<Entry>, bgb: seq<Entry>, agb: seq<Entry>,
                   xs: seq<seq<Entry>>, xv: seq<Entry>, d: Entry, ys: seq<seq<Entry>>, yv: seq<Entry>, m: nat, j: nat)
    requires |xs| == |xv| + 1 && |ys| == |yv| + 1 && m <= |yv| && j == |xv| + 1 + m
    requires bhn == bha + WeavePre(xs + ys, xv + [d] + yv, j)
    requires ahn == WeavePost(xs + ys, xv + [d] + yv, j) + aha
    requires bgn == bgb + WeavePre(ys, yv, m) && agn == WeavePost(ys, yv, m) + agb
    requires bgb == bha + (Weave(xs, xv) + [d]) && agb == aha
    ensures bgn == bhn && agn == ahn
  {
    WeaveJoinRight(xs, xv, d, ys, yv, m);
    Regroup3(bha, Weave(xs, xv) + [d], WeavePre(ys, yv, m));
  }

  /** A cut keeps the listing and the place of every node but the one cut. */
  lemma {:induction false} CutContext<P>(h: map<P, Nd<P>>, g: map<P, Nd<P>>,
      root: P, p: P, i: nat, a: P, d: Entry, b: P, n: P)
    requires Cut(h, g, root, p, i, a, d, b) && n in h && n != a
    ensures SamePlace(h, g, root, n) && Listing(g, n) == Listing(h, n)
    decreases h[root].lvl - h[n].lvl
  {
    CutLevels(h, g, root, p, i, a, d, b);
    if h[n].lvl >= h[p].lvl {
      CutParent(h, g, root, p, i, a, d, b);
      CutOnlyBelow(h, g, root, p, i, a, d, b);
      AboveKept(h, g, root, p, n);
    } else {
      CutBelow(h, g, root, p, i, a, d, b, n);
      assert UpOK(h, root, n) && UpOK(h, root, p);
      var q := h[n].parent;
      assert LinksOK(h, q) && KidOK(h, q, n, h[n].pos);
      if q == p {
        CutSibling(h, g, root, p, i, a, d, b, n);
      } else if q == a {
        if h[n].pos <= |g[a].vals| {
          CutGrandchildLeft(h, g, root, p, i, a, d, b, n);
        } else {
          CutGrandchildRight(h, g, root, p, i, a, d, b, n);
        }
      } else {
        CutContext(h, g, root, p, i, a, d, b, q);
        CutElsewhere(h, g, root, p, i, a, d, b, q);
        NotKid(h, root, a, n);
        NotKid(h, root, p, n);
        assert SameUp(h, g, n);
        ChildContext(h, g, root, n);
      }
    }
  }
}
