// Different places of a tree have different ranks in the listing: an iterator is determined
// by how much is listed before it.
module BTreeOrder {
  import opened BTreeWeave
  import opened BTreeHeap
  import opened BTreeCut
  import opened BTreeGap
  import opened BTreeNode
  import opened BTreeTree
  import opened BTreeWalk

  lemma {:induction false} WeavePreGrows(fs: seq<seq<Entry>>, vs: seq<Entry>, j: nat, k: nat)
    requires |fs| == |vs| + 1 && j < k <= |vs|
    ensures |WeavePre(fs, vs, j)| + |fs[j]| + 1 <= |WeavePre(fs, vs, k)|
    decreases k
  {
    if j < k - 1 { WeavePreGrows(fs, vs, j, k - 1); }
  }

  /** The stretch of ranks of n's subtree ends before that of m begins, with a value between. */
  predicate Apart<P>(h: map<P, Nd<P>>, root: P, n: P, m: P)
    requires Shape(h, root) && n in h && m in h
  {
    |Before(h, root, n)| + |Listing(h, n)| < |Before(h, root, m)|
  }

  lemma ChildStretch<P>(h: map<P, Nd<P>>, root: P, c: P)
    requires Shape(h, root) && c in h && c != root
    ensures h[c].parent in h
    ensures |Before(h, root, h[c].parent)| <= |Before(h, root, c)|
    ensures |Before(h, root, c)| + |Listing(h, c)| <= |Before(h, root, h[c].parent)| + |Listing(h, h[c].parent)|
  {
    ParentListing(h, root, c);
  }

  lemma SiblingsApart<P>(h: map<P, Nd<P>>, root: P, n: P, m: P)
    requires Shape(h, root) && n in h && m in h && n != root && m != root
    requires h[n].parent == h[m].parent && h[n].pos < h[m].pos
    ensures Apart(h, root, n, m)
  {
    ParentListing(h, root, n);
    ParentListing(h, root, m);
    var q := h[n].parent;
    var fs := Listings(h, h[q].kids, h[q].lvl);
    PlaceInParent(h, root, n, q, h[n].pos, fs, h[q].vals);
    PlaceInParent(h, root, m, q, h[m].pos, fs, h[q].vals);
    WeavePreGrows(fs, h[q].vals, h[n].pos, h[m].pos);
  }

  lemma {:induction false} LevelApart<P>(h: map<P, Nd<P>>, root: P, n: P, m: P)
    requires Shape(h, root) && n in h && m in h && h[n].lvl == h[m].lvl && n != m
    ensures Apart(h, root, n, m) || Apart(h, root, m, n)
    decreases h[root].lvl - h[n].lvl
  {
    assert UpOK(h, root, n) && UpOK(h, root, m);
    var q, r := h[n].parent, h[m].parent;
    ParentListing(h, root, n);
    ParentListing(h, root, m);
    assert UpOK(h, root, q);
    if q == r {
      assert h[n].pos != h[m].pos;
      if h[n].pos < h[m].pos {
        SiblingsApart(h, root, n, m);
      } else {
        SiblingsApart(h, root, m, n);
      }
    } else {
      LevelApart(h, root, q, r);
      ChildStretch(h, root, n);
      ChildStretch(h, root, m);
    }
  }

  /** A value of a node has its rank inside the node's stretch. */
  lemma OwnStretch<P>(h: map<P, Nd<P>>, root: P, n: P, p: nat)
    requires Shape(h, root) && n in h && p < |h[n].vals|
    ensures |Before(h, root, n)| <= |Prefix(h, root, n, p)| < |Before(h, root, n)| + |Listing(h, n)|
  {
    assert LinksOK(h, n);
    if !h[n].leaf {
      var fs, vs := Listings(h, h[n].kids, h[n].lvl), h[n].vals;
      WeaveAt(fs, vs, p);
    }
  }

  lemma {:induction false} NodeRanks<P>(h: map<P, Nd<P>>, root: P, n: P, p: nat, q: nat)
    requires Shape(h, root) && n in h && p < q <= |h[n].vals|
    ensures |Prefix(h, root, n, p)| < |Prefix(h, root, n, q)|
  {
    assert LinksOK(h, n);
    if !h[n].leaf {
      WeavePreGrows(Listings(h, h[n].kids, h[n].lvl), h[n].vals, p, q);
    }
  }

  /** A value rank of n is not inside the stretch of any child of n. */
  lemma NotInChild<P>(h: map<P, Nd<P>>, root: P, n: P, p: nat, c: P)
    requires Shape(h, root) && n in h && p < |h[n].vals| && c in h && c != root && h[c].parent == n
    ensures |Prefix(h, root, n, p)| < |Before(h, root, c)|
      || |Before(h, root, c)| + |Listing(h, c)| <= |Prefix(h, root, n, p)|
  {
    ParentListing(h, root, c);
    var fs, vs, i := Listings(h, h[n].kids, h[n].lvl), h[n].vals, h[c].pos;
    PlaceInParent(h, root, c, n, i, fs, vs);
    var before := |Before(h, root, n)|;
    assert |Prefix(h, root, n, p)| == before + |WeavePre(fs, vs, p)| + |fs[p]|;
    assert |Before(h, root, c)| == before + |WeavePre(fs, vs, i)|;
    if p < i {
      WeavePreGrows(fs, vs, p, i);
    } else if i < p {
      WeavePreGrows(fs, vs, i, p);
    }
  }

  /** The stretch of n's subtree either avoids the rank of m's value p, or n is not below m. */
  lemma {:induction false} HigherRank<P>(h: map<P, Nd<P>>, root: P, n: P, m: P, p: nat)
    requires Shape(h, root) && n in h && m in h && h[n].lvl < h[m].lvl && p < |h[m].vals|
    ensures |Prefix(h, root, m, p)| < |Before(h, root, n)|
      || |Before(h, root, n)| + |Listing(h, n)| <= |Prefix(h, root, m, p)|
    decreases h[m].lvl - h[n].lvl
  {
    assert UpOK(h, root, n) && UpOK(h, root, m) && LinksOK(h, m);
    ParentListing(h, root, n);
    var q := h[n].parent;
    ChildStretch(h, root, n);
    if q == m {
      NotInChild(h, root, m, p, n);
    } else if h[q].lvl == h[m].lvl {
      LevelApart(h, root, q, m);
      OwnStretch(h, root, m, p);
    } else {
      HigherRank(h, root, q, m, p);
    }
  }

  /** Two iterators on values are the same if as much is listed before the one as before the other. */
  lemma PlaceUnique(mem: Memory, root: Ptr, x: Iter, y: Iter)
    requires mem.Ok() && Shape(View(mem), root) && At(mem, x) && At(mem, y)
    requires |PrefixAt(mem, root, x)| == |PrefixAt(mem, root, y)|
    ensures x == y
  {
    var h := View(mem);
    OwnStretch(h, root, x.node, x.position);
    OwnStretch(h, root, y.node, y.position);
    if h[x.node].lvl < h[y.node].lvl {
      HigherRank(h, root, x.node, y.node, y.position);
    } else if h[y.node].lvl < h[x.node].lvl {
      HigherRank(h, root, y.node, x.node, x.position);
    } else if x.node != y.node {
      LevelApart(h, root, x.node, y.node);
    } else if x.position < y.position {
      NodeRanks(h, root, x.node, x.position, y.position);
    } else if y.position < x.position {
      NodeRanks(h, root, x.node, y.position, x.position);
    }
  }

  /** The value at an iterator is the listing's at its rank. */
  lemma ValueAt(mem: Memory, root: Ptr, it: Iter)
    requires mem.Ok() && Shape(View(mem), root) && At(mem, it)
    ensures PrefixAt(mem, root, it) + [mem.rec[it.node].values[it.position]] <= Listing(View(mem), root)
    ensures |PrefixAt(mem, root, it)| < |Listing(View(mem), root)|
    ensures Listing(View(mem), root)[|PrefixAt(mem, root, it)|] == mem.rec[it.node].values[it.position]
  {
    PrefixNext(View(mem), root, it.node, it.position);
  }

  /** One step forward and one step back. */
  method ThereAndBack(mem: Memory, root: Ptr, k: nat, it: Iter) returns (back: Iter)
    requires Tree(mem, root, k, NULL) && At(mem, it)
    ensures back == it
  {
    var next := Increment(mem, root, k, it);
    back := Decrement(mem, root, k, next);
    PlaceUnique(mem, root, back, it);
  }

  /** From the first value to the end, step by step: exactly the in-order listing. */
  method Scan(mem: Memory, root: Ptr, k: nat) returns (all: seq<Entry>)
    requires Tree(mem, root, k, NULL)
    ensures all == Listing(View(mem), root)
  {
    ghost var h := View(mem);
    var it := Iter(mem.up[root].parent, 0);
    assert mem.rec[it.node].count >= 1;
    PrefixFirst(h, root, it.node);
    all := [];
    while it.position < mem.rec[it.node].count
      invariant (At(mem, it) || AtEnd(mem, root, it)) && all == PrefixAt(mem, root, it)
      decreases |Listing(h, root)| - |all|
    {
      ValueAt(mem, root, it);
      all := all + [mem.rec[it.node].values[it.position]];
      it := Increment(mem, root, k, it);
    }
    EndPrefix(mem, root, it.node);
  }
}
