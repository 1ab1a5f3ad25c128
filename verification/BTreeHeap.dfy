// The linked nodes of a B-tree as a value: a map from node identities to node contents.
// Everything here is about such maps; the node class produces and updates them.
module BTreeHeap {
  import opened BTreeWeave

  /** One node: values, children and the back links parent/pos. lvl is the height above the leaves. */
  datatype Nd<P> = Nd(leaf: bool, cap: nat, lvl: nat, vals: seq<Entry>, kids: seq<P>, parent: P, pos: nat)

  /** The in-order listing of the subtree under n. */
  function Listing<P>(h: map<P, Nd<P>>, n: P): seq<Entry>
    requires n in h
    decreases h[n].lvl, 1
  {
    if h[n].leaf then h[n].vals
    else
      var fs := Listings(h, h[n].kids, h[n].lvl);
      if |fs| == |h[n].vals| + 1 then Weave(fs, h[n].vals) else []
  }

  function Listings<P>(h: map<P, Nd<P>>, kids: seq<P>, bound: nat): seq<seq<Entry>>
    decreases bound, 0
  {
    seq(|kids|, i requires 0 <= i < |kids| =>
      if kids[i] in h && h[kids[i]].lvl < bound then Listing(h, kids[i]) else [])
  }

  /** The node's shape, and the links between it and its children, both ways. */
  predicate LinksOK<P>(h: map<P, Nd<P>>, n: P)
    requires n in h
  {
    var d := h[n];
    && (d.leaf <==> d.lvl == 0)
    && (d.leaf ==> d.kids == [])
    && (!d.leaf ==> |d.kids| == |d.vals| + 1)
    && (forall i | 0 <= i < |d.kids| :: KidOK(h, n, d.kids[i], i))
  }

  predicate KidOK<P>(h: map<P, Nd<P>>, n: P, k: P, i: nat)
    requires n in h
  {
    k in h && h[k].parent == n && h[k].pos == i && h[k].lvl + 1 == h[n].lvl
  }

  /** Every node but the root is the child its back links say it is. */
  predicate UpOK<P>(h: map<P, Nd<P>>, root: P, n: P)
    requires n in h && root in h
  {
    n != root ==>
      && h[n].lvl < h[root].lvl
      && h[n].parent in h
      && h[n].pos < |h[h[n].parent].kids|
      && h[h[n].parent].kids[h[n].pos] == n
  }

  /** The links form one tree with all leaves at the same depth; the root's parent is a leaf. */
  predicate Shape<P>(h: map<P, Nd<P>>, root: P) {
    && root in h
    && (forall n {:trigger LinksOK(h, n)} | n in h :: LinksOK(h, n))
    && (forall n {:trigger UpOK(h, root, n)} | n in h :: UpOK(h, root, n))
    && h[root].parent in h && h[h[root].parent].leaf
  }

  /** Everything the tree lists before the subtree under n. */
  function Before<P>(h: map<P, Nd<P>>, root: P, n: P): seq<Entry>
    requires Shape(h, root) && n in h
    decreases h[root].lvl - h[n].lvl
  {
    if n == root then [] else
      var q := h[n].parent;
      assert UpOK(h, root, n) && LinksOK(h, q) && UpOK(h, root, q) && KidOK(h, q, n, h[n].pos);
      Before(h, root, q) + WeavePre(Listings(h, h[q].kids, h[q].lvl), h[q].vals, h[n].pos)
  }

  /** Everything the tree lists after the subtree under n. */
  function After<P>(h: map<P, Nd<P>>, root: P, n: P): seq<Entry>
    requires Shape(h, root) && n in h
    decreases h[root].lvl - h[n].lvl
  {
    if n == root then [] else
      var q := h[n].parent;
      assert UpOK(h, root, n) && LinksOK(h, q) && UpOK(h, root, q) && KidOK(h, q, n, h[n].pos);
      WeavePost(Listings(h, h[q].kids, h[q].lvl), h[q].vals, h[n].pos) + After(h, root, q)
  }

  /** A child sits in its parent's listing between what precedes and what follows it there. */
  lemma ParentListing<P>(h: map<P, Nd<P>>, root: P, n: P)
    requires Shape(h, root) && n in h && n != root
    ensures h[n].parent in h && LinksOK(h, h[n].parent) && KidOK(h, h[n].parent, n, h[n].pos)
    ensures h[n].pos <= |h[h[n].parent].vals|
    ensures
      var q := h[n].parent;
      var fs := Listings(h, h[q].kids, h[q].lvl);
      && fs[h[n].pos] == Listing(h, n)
      && Listing(h, q) == WeavePre(fs, h[q].vals, h[n].pos) + Listing(h, n) + WeavePost(fs, h[q].vals, h[n].pos)
  {
    var q := h[n].parent;
    assert UpOK(h, root, n) && LinksOK(h, q) && KidOK(h, q, n, h[n].pos);
    var fs := Listings(h, h[q].kids, h[q].lvl);
    WeaveAt(fs, h[q].vals, h[n].pos);
  }

  lemma Regroup(b: seq<Entry>, p: seq<Entry>, s: seq<Entry>, q: seq<Entry>, a: seq<Entry>)
    ensures b + (p + s + q) + a == (b + p) + s + (q + a)
  {}

  /** The tree's listing is what is before a node, the node's own, and what is after it. */
  lemma {:induction false} ListingAround<P>(h: map<P, Nd<P>>, root: P, n: P)
    requires Shape(h, root) && n in h
    ensures Listing(h, root) == Before(h, root, n) + Listing(h, n) + After(h, root, n)
    decreases h[root].lvl - h[n].lvl
  {
    if n != root {
      var q := h[n].parent;
      ParentListing(h, root, n);
      assert UpOK(h, root, q);
      ListingAround(h, root, q);
      var fs := Listings(h, h[q].kids, h[q].lvl);
      var b, a := Before(h, root, q), After(h, root, q);
      var pre, post := WeavePre(fs, h[q].vals, h[n].pos), WeavePost(fs, h[q].vals, h[n].pos);
      Regroup(b, pre, Listing(h, n), post, a);
    }
  }

  predicate SameContent<P(==)>(h: map<P, Nd<P>>, g: map<P, Nd<P>>, n: P) {
    n in h && n in g && h[n].leaf == g[n].leaf && h[n].lvl == g[n].lvl
      && h[n].vals == g[n].vals && h[n].kids == g[n].kids
  }

  predicate SameUp<P(==)>(h: map<P, Nd<P>>, g: map<P, Nd<P>>, n: P) {
    n in h && n in g && h[n].lvl == g[n].lvl && h[n].parent == g[n].parent && h[n].pos == g[n].pos
  }

  /** A subtree all of whose nodes keep their content keeps its listing. */
  lemma {:induction false} ListingLow<P>(h: map<P, Nd<P>>, g: map<P, Nd<P>>, n: P, k: nat)
    requires forall m | m in h && h[m].lvl < k :: SameContent(h, g, m) && LinksOK(h, m)
    requires n in h && h[n].lvl < k
    ensures n in g && Listing(g, n) == Listing(h, n)
    decreases h[n].lvl
  {
    assert SameContent(h, g, n) && LinksOK(h, n);
    if !h[n].leaf {
      ListingsSame(h, g, n, k);
    }
  }

  lemma {:induction false} ListingsSame<P>(h: map<P, Nd<P>>, g: map<P, Nd<P>>, n: P, k: nat)
    requires forall m | m in h && h[m].lvl < k :: SameContent(h, g, m) && LinksOK(h, m)
    requires n in h && LinksOK(h, n) && h[n].lvl <= k
    ensures Listings(g, h[n].kids, h[n].lvl) == Listings(h, h[n].kids, h[n].lvl)
    decreases h[n].lvl, 0
  {
    var kids, b := h[n].kids, h[n].lvl;
    var fs, gs := Listings(h, kids, b), Listings(g, kids, b);
    forall i | 0 <= i < |kids| ensures gs[i] == fs[i] {
      assert KidOK(h, n, kids[i], i);
      assert SameContent(h, g, kids[i]);
      ListingLow(h, g, kids[i], k);
    }
  }

  /** From level k up the nodes keep content and back links; at level k itself all but x keep their listing. */
  predicate OnlyBelow<P(==)>(h: map<P, Nd<P>>, g: map<P, Nd<P>>, x: P) {
    && x in h && x in g
    && (forall y | y in h && h[y].lvl > h[x].lvl :: SameContent(h, g, y))
    && (forall y | y in h && h[y].lvl >= h[x].lvl :: SameUp(h, g, y))
    && (forall y | y in h && h[y].lvl == h[x].lvl && y != x :: y in g && Listing(g, y) == Listing(h, y))
  }

  lemma OnlyBelowParent<P>(h: map<P, Nd<P>>, g: map<P, Nd<P>>, root: P, x: P)
    requires Shape(h, root) && OnlyBelow(h, g, x) && x != root
    ensures UpOK(h, root, x) && OnlyBelow(h, g, h[x].parent) && h[h[x].parent].lvl == h[x].lvl + 1
    ensures Listing(g, x) == Listing(h, x) ==> Listing(g, h[x].parent) == Listing(h, h[x].parent)
    ensures Listings(g, h[h[x].parent].kids, h[h[x].parent].lvl)
      == Listings(h, h[h[x].parent].kids, h[h[x].parent].lvl)[h[x].pos := Listing(g, x)]
  {
    var q := h[x].parent;
    assert LinksOK(h, x) && UpOK(h, root, x) && LinksOK(h, q) && UpOK(h, root, q) && KidOK(h, q, x, h[x].pos);
    assert SameContent(h, g, q);
    forall y | y in h && h[y].lvl == h[q].lvl && y != q ensures Listing(g, y) == Listing(h, y) {
      assert LinksOK(h, y) && SameContent(h, g, y);
      var fs, gs := Listings(h, h[y].kids, h[y].lvl), Listings(g, h[y].kids, h[y].lvl);
      forall i | 0 <= i < |fs| ensures gs[i] == fs[i] {
        assert KidOK(h, y, h[y].kids[i], i);
      }
      assert gs == fs;
    }
    var fs, gs := Listings(h, h[q].kids, h[q].lvl), Listings(g, h[q].kids, h[q].lvl);
    forall i | 0 <= i < |fs| && i != h[x].pos ensures gs[i] == fs[i] {
      assert KidOK(h, q, h[q].kids[i], i);
    }
    assert SameUp(h, g, x);
    assert gs[h[x].pos] == Listing(g, x) && fs[h[x].pos] == Listing(h, x);
    assert gs == fs[h[x].pos := Listing(g, x)];
    if Listing(g, x) == Listing(h, x) {
      assert gs == fs;
    }
  }

  /** Changes confined to the subtree under x leave what is before and after x alone. */
  lemma {:induction false} ContextKept<P>(h: map<P, Nd<P>>, g: map<P, Nd<P>>, root: P, x: P)
    requires Shape(h, root) && Shape(g, root) && OnlyBelow(h, g, x)
    ensures Before(g, root, x) == Before(h, root, x)
    ensures After(g, root, x) == After(h, root, x)
    decreases h[root].lvl - h[x].lvl
  {
    if x != root {
      var q, j := h[x].parent, h[x].pos;
      assert UpOK(h, root, x) && LinksOK(h, q) && UpOK(h, root, q) && KidOK(h, q, x, j);
      assert SameUp(h, g, x) && SameContent(h, g, q) && UpOK(g, root, x);
      OnlyBelowParent(h, g, root, x);
      ContextKept(h, g, root, q);
      var fs, gs := Listings(h, h[q].kids, h[q].lvl), Listings(g, h[q].kids, h[q].lvl);
      var vs := h[q].vals;
      assert gs[..j] == fs[..j] && gs[j + 1..] == fs[j + 1..];
      WeavePreLocal(fs, vs, gs, vs, j);
      WeavePostLocal(fs, vs, j, gs, vs, j);
    }
  }

  /** If moreover x keeps its listing, every node at its level or above keeps listing and context. */
  lemma {:induction false} AboveKept<P>(h: map<P, Nd<P>>, g: map<P, Nd<P>>, root: P, x: P, y: P)
    requires Shape(h, root) && Shape(g, root) && OnlyBelow(h, g, x) && Listing(g, x) == Listing(h, x)
    requires y in h && h[y].lvl >= h[x].lvl
    ensures y in g && Listing(g, y) == Listing(h, y)
    ensures Before(g, root, y) == Before(h, root, y) && After(g, root, y) == After(h, root, y)
    decreases h[root].lvl - h[x].lvl
  {
    assert SameUp(h, g, y);
    if h[y].lvl == h[x].lvl {
      assert OnlyBelow(h, g, y);
      ContextKept(h, g, root, y);
    } else {
      assert LinksOK(h, y) && UpOK(h, root, y) && UpOK(h, root, x);
      assert x != root;
      var q := h[x].parent;
      assert LinksOK(h, q) && KidOK(h, q, x, h[x].pos) && UpOK(h, root, q);
      OnlyBelowParent(h, g, root, x);
      AboveKept(h, g, root, q, y);
    }
  }

  /** A child whose parent's context and listing parts are unchanged keeps its own context. */
  lemma ChildContext<P>(h: map<P, Nd<P>>, g: map<P, Nd<P>>, root: P, n: P)
    requires Shape(h, root) && Shape(g, root) && n != root && n in h && SameUp(h, g, n)
    requires h[n].parent in h && SameContent(h, g, h[n].parent)
    requires Before(g, root, h[n].parent) == Before(h, root, h[n].parent)
    requires After(g, root, h[n].parent) == After(h, root, h[n].parent)
    requires Listings(g, h[h[n].parent].kids, h[h[n].parent].lvl)
      == Listings(h, h[h[n].parent].kids, h[h[n].parent].lvl)
    ensures Before(g, root, n) == Before(h, root, n) && After(g, root, n) == After(h, root, n)
  {
    assert UpOK(h, root, n) && UpOK(g, root, n);
  }
}
