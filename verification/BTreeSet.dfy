// Overwriting one value: it changes in the listing where it stands, and nothing moves.
module BTreeSet {
  import opened BTreeWeave
  import opened BTreeHeap
  import opened BTreeCut
  import opened BTreeGap

  /** g is h with some values overwritten. */
  predicate SameFrame<P(==)>(h: map<P, Nd<P>>, g: map<P, Nd<P>>) {
    g.Keys == h.Keys && forall m | m in h :: g[m] == h[m].(vals := g[m].vals) && |g[m].vals| == |h[m].vals|
  }

  lemma FrameShape<P>(h: map<P, Nd<P>>, g: map<P, Nd<P>>, root: P)
    requires Shape(h, root) && SameFrame(h, g)
    ensures Shape(g, root)
  {
    forall m | m in g ensures LinksOK(g, m) && UpOK(g, root, m) {
      assert LinksOK(h, m) && UpOK(h, root, m);
      forall j | 0 <= j < |g[m].kids| ensures KidOK(g, m, g[m].kids[j], j) {
        assert KidOK(h, m, h[m].kids[j], j);
      }
    }
  }

  lemma {:induction false} WeaveLength(fs: seq<seq<Entry>>, vs: seq<Entry>, gs: seq<seq<Entry>>, ws: seq<Entry>)
    requires |fs| == |gs| == |vs| + 1 == |ws| + 1 && forall i | 0 <= i < |fs| :: |fs[i]| == |gs[i]|
    ensures |Weave(fs, vs)| == |Weave(gs, ws)|
    decreases |vs|
  {
    if |vs| > 0 { WeaveLength(fs[1..], vs[1..], gs[1..], ws[1..]); }
  }

  lemma {:induction false} WeavePreLength(fs: seq<seq<Entry>>, vs: seq<Entry>,
      gs: seq<seq<Entry>>, ws: seq<Entry>, j: nat)
    requires |fs| == |gs| == |vs| + 1 == |ws| + 1 && j <= |vs| && forall i | 0 <= i < |fs| :: |fs[i]| == |gs[i]|
    ensures |WeavePre(fs, vs, j)| == |WeavePre(gs, ws, j)|
  {
    if j > 0 { WeavePreLength(fs, vs, gs, ws, j - 1); }
  }

  lemma {:induction false} ListingLength<P>(h: map<P, Nd<P>>, g: map<P, Nd<P>>, root: P, n: P)
    requires Shape(h, root) && SameFrame(h, g) && n in h
    ensures |Listing(g, n)| == |Listing(h, n)|
    decreases h[n].lvl, 1
  {
    assert LinksOK(h, n);
    if !h[n].leaf {
      ListingLengths(h, g, root, n);
      WeaveLength(Listings(h, h[n].kids, h[n].lvl), h[n].vals, Listings(g, g[n].kids, g[n].lvl), g[n].vals);
    }
  }

  lemma {:induction false} ListingLengths<P>(h: map<P, Nd<P>>, g: map<P, Nd<P>>, root: P, n: P)
    requires Shape(h, root) && SameFrame(h, g) && n in h
    ensures forall i | 0 <= i < |h[n].kids| ::
      |Listings(g, g[n].kids, g[n].lvl)[i]| == |Listings(h, h[n].kids, h[n].lvl)[i]|
    decreases h[n].lvl, 0
  {
    assert LinksOK(h, n);
    forall i | 0 <= i < |h[n].kids|
      ensures |Listings(g, g[n].kids, g[n].lvl)[i]| == |Listings(h, h[n].kids, h[n].lvl)[i]|
    {
      assert KidOK(h, n, h[n].kids[i], i);
      ListingLength(h, g, root, h[n].kids[i]);
    }
  }

  lemma {:induction false} BeforeLength<P>(h: map<P, Nd<P>>, g: map<P, Nd<P>>, root: P, n: P)
    requires Shape(h, root) && Shape(g, root) && SameFrame(h, g) && n in h
    ensures |Before(g, root, n)| == |Before(h, root, n)|
    ensures Before(g, root, n) == [] <==> Before(h, root, n) == []
    ensures After(g, root, n) == [] <==> After(h, root, n) == []
    decreases h[root].lvl - h[n].lvl
  {
    forall m | m in h ensures SameUp(h, g, m) && (h[m].lvl > 0 ==> |g[m].vals| == |h[m].vals|) {}
    EdgesKept(h, g, root, n);
    if n != root {
      var q, i := h[n].parent, h[n].pos;
      ParentListing(h, root, n);
      assert UpOK(h, root, q);
      var fs, gs := Listings(h, h[q].kids, h[q].lvl), Listings(g, g[q].kids, g[q].lvl);
      PlaceInParent(h, root, n, q, i, fs, h[q].vals);
      PlaceInParent(g, root, n, q, i, gs, g[q].vals);
      BeforeLength(h, g, root, q);
      ListingLengths(h, g, root, q);
      WeavePreLength(fs, h[q].vals, gs, g[q].vals, i);
    }
  }

  lemma WeaveAround(fs: seq<seq<Entry>>, vs: seq<Entry>, p: nat)
    requires |fs| == |vs| + 1 && p < |vs|
    ensures Weave(fs, vs) == (WeavePre(fs, vs, p) + fs[p]) + [vs[p]] + (fs[p + 1] + WeavePost(fs, vs, p + 1))
  {
    WeaveAt(fs, vs, p);
    RegroupAround(WeavePre(fs, vs, p), fs[p], vs[p], fs[p + 1], WeavePost(fs, vs, p + 1));
  }

  lemma RegroupAround(a: seq<Entry>, b: seq<Entry>, v: Entry, c: seq<Entry>, d: seq<Entry>)
    ensures a + b + ([v] + c + d) == (a + b) + [v] + (c + d)
  {}

  /** A value overwritten in a row woven from children. */
  lemma WeaveSet(fs: seq<seq<Entry>>, vs: seq<Entry>, p: nat, x: Entry) returns (a: seq<Entry>, b: seq<Entry>)
    requires |fs| == |vs| + 1 && p < |vs|
    ensures a == WeavePre(fs, vs, p) + fs[p]
    ensures Weave(fs, vs) == a + [vs[p]] + b && Weave(fs, vs[p := x]) == a + [x] + b
  {
    var ws := vs[p := x];
    a, b := WeavePre(fs, vs, p) + fs[p], fs[p + 1] + WeavePost(fs, vs, p + 1);
    WeaveAround(fs, vs, p);
    WeaveAround(fs, ws, p);
    assert vs[..p] == ws[..p] && vs[p + 1..] == ws[p + 1..];
    WeavePreLocal(fs, vs, fs, ws, p);
    WeavePostLocal(fs, vs, p + 1, fs, ws, p + 1);
  }

  lemma SetOnlyBelow<P>(h: map<P, Nd<P>>, g: map<P, Nd<P>>, root: P, n: P, p: nat, x: Entry)
    requires Shape(h, root) && n in h && p < |h[n].vals| && g == h[n := h[n].(vals := h[n].vals[p := x])]
    ensures OnlyBelow(h, g, n)
    ensures Listings(g, h[n].kids, h[n].lvl) == Listings(h, h[n].kids, h[n].lvl)
  {
    forall m | m in h && h[m].lvl < h[n].lvl ensures SameContent(h, g, m) && LinksOK(h, m) { assert LinksOK(h, m); }
    assert LinksOK(h, n);
    ListingsSame(h, g, n, h[n].lvl);
    forall y | y in h && h[y].lvl == h[n].lvl && y != n ensures y in g && Listing(g, y) == Listing(h, y) {
      assert LinksOK(h, y);
      ListingsSame(h, g, y, h[n].lvl);
    }
  }

  lemma SetListing<P>(h: map<P, Nd<P>>, g: map<P, Nd<P>>, root: P, n: P, p: nat, x: Entry)
      returns (a: seq<Entry>, b: seq<Entry>)
    requires Shape(h, root) && n in h && p < |h[n].vals| && g == h[n := h[n].(vals := h[n].vals[p := x])]
    ensures Before(h, root, n) + a == Prefix(h, root, n, p)
    ensures Listing(h, n) == a + [h[n].vals[p]] + b && Listing(g, n) == a + [x] + b
  {
    assert LinksOK(h, n);
    if h[n].leaf {
      a, b := h[n].vals[..p], h[n].vals[p + 1..];
    } else {
      SetOnlyBelow(h, g, root, n, p, x);
      var fs := Listings(h, h[n].kids, h[n].lvl);
      a, b := WeaveSet(fs, h[n].vals, p, x);
      Regroup3(Before(h, root, n), WeavePre(fs, h[n].vals, p), fs[p]);
    }
  }

  /** Overwriting the value at position p of n overwrites the listing's at its rank. */
  lemma SetValue<P>(h: map<P, Nd<P>>, g: map<P, Nd<P>>, root: P, n: P, p: nat, x: Entry)
    requires Shape(h, root) && n in h && p < |h[n].vals| && g == h[n := h[n].(vals := h[n].vals[p := x])]
    ensures Shape(g, root) && SameFrame(h, g) && |Prefix(h, root, n, p)| < |Listing(h, root)|
    ensures Listing(g, root) == Listing(h, root)[|Prefix(h, root, n, p)| := x]
  {
    FrameShape(h, g, root);
    SetOnlyBelow(h, g, root, n, p, x);
    ContextKept(h, g, root, n);
    ListingAround(h, root, n);
    ListingAround(g, root, n);
    var a, b := SetListing(h, g, root, n, p, x);
    SetIn(Before(h, root, n), a, h[n].vals[p], x, b, After(h, root, n));
  }

  lemma SetIn(b: seq<Entry>, p: seq<Entry>, v: Entry, x: Entry, q: seq<Entry>, a: seq<Entry>)
    ensures b + (p + [x] + q) + a == (b + (p + [v] + q) + a)[|b + p| := x]
  {}
}
