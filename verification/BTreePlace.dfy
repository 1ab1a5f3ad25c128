// Where an iterator goes when the node it is on is cut, joined or shares values with a sibling.
module BTreePlace {
  import opened BTreeWeave
  import opened BTreeHeap
  import opened BTreeCut
  import opened BTreeReshape
  import opened BTreeGap

  /** Positions of two leaf siblings around their delimiter, as positions of one row of values. */
  lemma RowPlace<P>(h: map<P, Nd<P>>, root: P, a: P, d: Entry, b: P, x: P, p: nat, row: seq<Entry>, k: nat)
    requires Shape(h, root) && a in h && b in h && h[a].leaf && h[b].leaf
    requires Before(h, root, b) == Before(h, root, a) + (Listing(h, a) + [d])
    requires row == h[a].vals + [d] + h[b].vals
    requires (x == a && p <= |h[a].vals| && k == p) || (x == b && p <= |h[b].vals| && k == p + |h[a].vals| + 1)
    ensures Prefix(h, root, x, p) == Before(h, root, a) + row[..k]
  {
    if x == a && k == p {
      assert row[..k] == h[a].vals[..p];
    } else {
      assert row[..k] == (h[a].vals + [d]) + h[b].vals[..p];
      Regroup3(Before(h, root, a), h[a].vals + [d], h[b].vals[..p]);
    }
  }

  /** Position k of the row h[a], cut in two in g, is position q of y. */
  predicate InHalf<P(==)>(g: map<P, Nd<P>>, a: P, b: P, k: nat, y: P, q: nat)
    requires a in g && b in g
  {
    (y == a && q == k <= |g[a].vals|) || (y == b && q <= |g[b].vals| && k == q + |g[a].vals| + 1)
  }

  lemma CutPlace<P>(h: map<P, Nd<P>>, g: map<P, Nd<P>>, root: P, p: P, i: nat,
      a: P, d: Entry, b: P, k: nat, y: P, q: nat)
    requires Cut(h, g, root, p, i, a, d, b) && h[a].leaf && InHalf(g, a, b, k, y, q)
    ensures k <= |h[a].vals| && Prefix(g, root, y, q) == Prefix(h, root, a, k)
  {
    CutHalves(h, g, root, p, i, a, d, b);
    RowPlace(g, root, a, d, b, y, q, h[a].vals, k);
  }

  /** The child at slot k of an internal node is afterwards in the half that has the slot. */
  lemma CutSlot<P>(h: map<P, Nd<P>>, g: map<P, Nd<P>>, root: P, p: P, i: nat,
      a: P, d: Entry, b: P, k: nat, y: P, q: nat)
    requires Cut(h, g, root, p, i, a, d, b) && !h[a].leaf && InHalf(g, a, b, k, y, q)
    ensures k < |h[a].kids| && KidOK(g, y, h[a].kids[k], q)
  {
    CutLevels(h, g, root, p, i, a, d, b);
    assert KidOK(g, y, g[y].kids[q], q);
  }

  lemma ShiftPlace<P>(h: map<P, Nd<P>>, g: map<P, Nd<P>>, root: P, p: P, i: nat, a: P,
      b: P, d: Entry, k: nat, x: P, j: nat, y: P, q: nat)
    requires Siblings(h, root, p, i, a, b) && ShiftLocal(h, g, p, i, a, b, d) && h[a].leaf && h[b].leaf
    requires InHalf(h, a, b, k, x, j) && InHalf(g, a, b, k, y, q)
    ensures Shape(g, root) && Prefix(g, root, y, q) == Prefix(h, root, x, j)
  {
    ShiftContext(h, g, root, p, i, a, b, d);
    var row := h[a].vals + [h[p].vals[i]] + h[b].vals;
    RowPlace(h, root, a, h[p].vals[i], b, x, j, row, k);
    RowPlace(g, root, a, d, b, y, q, row, k);
  }

  lemma ShiftSlot<P>(h: map<P, Nd<P>>, g: map<P, Nd<P>>, root: P, p: P, i: nat, a: P,
      b: P, d: Entry, k: nat, x: P, j: nat, y: P, q: nat)
    requires Siblings(h, root, p, i, a, b) && ShiftLocal(h, g, p, i, a, b, d) && !h[a].leaf && !h[b].leaf
    requires InHalf(h, a, b, k, x, j) && InHalf(g, a, b, k, y, q)
    ensures j < |h[x].kids| && KidOK(g, y, h[x].kids[j], q)
  {
    SiblingLevels(h, root, p, i, a, b);
    var all := h[a].kids + h[b].kids;
    assert h[x].kids[j] == all[k];
    assert all == g[a].kids + g[b].kids;
    assert g[y].kids[q] == all[k];
    assert KidOK(g, y, g[y].kids[q], q);
  }

  // ----- The edges -----

  /** The right one of two siblings is not on the left edge, the left one not on the right. */
  lemma SiblingEdges<P>(h: map<P, Nd<P>>, root: P, p: P, i: nat, a: P, b: P)
    requires Shape(h, root) && p in h && a in h && b in h && i + 1 < |h[p].kids|
    requires h[p].kids[i] == a && h[p].kids[i + 1] == b
    ensures After(h, root, a) != [] && Before(h, root, b) != []
    ensures Before(h, root, h[root].parent) == [] ==> h[root].parent != b
  {
    assert LinksOK(h, p) && KidOK(h, p, h[p].kids[i], i) && KidOK(h, p, h[p].kids[i + 1], i + 1);
    NotKid(h, root, p, root);
    EdgeStep(h, root, a);
    EdgeStep(h, root, b);
  }

  /** The leaf on the left edge stays there when values are shared out between siblings. */
  lemma ShiftEdges<P>(h: map<P, Nd<P>>, g: map<P, Nd<P>>, root: P, p: P, i: nat, a: P, b: P, d: Entry, n: P)
    requires Siblings(h, root, p, i, a, b) && ShiftLocal(h, g, p, i, a, b, d) && n in h
    ensures Shape(g, root) && n in g
    ensures Before(h, root, n) == [] ==> Before(g, root, n) == []
    ensures After(h, root, n) == [] ==> After(g, root, n) == []
  {
    ShiftContext(h, g, root, p, i, a, b, d);
    SiblingEdges(h, root, p, i, a, b);
  }

  /** After a cut the left edge is where it was, and the right edge too unless it was the node cut. */
  lemma CutEdges<P>(h: map<P, Nd<P>>, g: map<P, Nd<P>>, root: P, p: P, i: nat, a: P, d: Entry, b: P, n: P)
    requires Cut(h, g, root, p, i, a, d, b) && n in h
    ensures n in g && (Before(g, root, n) == [] <==> Before(h, root, n) == [])
    ensures n != a ==> (After(g, root, n) == [] <==> After(h, root, n) == [])
    ensures After(g, root, b) == After(h, root, a)
  {
    CutHalves(h, g, root, p, i, a, d, b);
    if n != a { CutContext(h, g, root, p, i, a, d, b, n); }
  }
}
