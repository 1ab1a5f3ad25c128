// Moving values between siblings, and growing and shrinking at the root.
module BTreeReshape {
  import opened BTreeWeave
  import opened BTreeHeap
  import opened BTreeCut

  // ----- Moving values between siblings -----

  /** Children i and i+1 of p, nodes a and b, share the same values and children around a
      new delimiter d; the children concerned are relinked and nothing else changes. */
  predicate ShiftLocal<P(==)>(h: map<P, Nd<P>>, g: map<P, Nd<P>>, p: P, i: nat, a: P, b: P, d: Entry) {
    && g.Keys == h.Keys && p in h && a in h && b in h && p != a && p != b && a != b
    && i + 1 < |h[p].kids| && h[p].kids[i] == a && h[p].kids[i + 1] == b && |h[p].kids| == |h[p].vals| + 1
    && g[p] == h[p].(vals := h[p].vals[i := d])
    && g[a] == h[a].(vals := g[a].vals, kids := g[a].kids)
    && g[b] == h[b].(vals := g[b].vals, kids := g[b].kids)
    && h[a].vals + [h[p].vals[i]] + h[b].vals == g[a].vals + [d] + g[b].vals
    && h[a].kids + h[b].kids == g[a].kids + g[b].kids
    && (forall m {:trigger SameContent(h, g, m)} | m in h && m != a && m != b && m != p :: SameContent(h, g, m))
    && (forall m {:trigger SameUp(h, g, m)} | m in h && m !in h[a].kids && m !in h[b].kids :: SameUp(h, g, m))
    && LinksOK(g, a) && LinksOK(g, b)
  }

  /** The tree with children i and i+1 of p joined, as a stepping stone. */
  function Joined<P(==)>(h: map<P, Nd<P>>, root: P, p: P, i: nat, a: P, b: P): map<P, Nd<P>>
    requires p in h && a in h && b in h && i + 1 < |h[p].kids| && |h[p].kids| == |h[p].vals| + 1
  {
    map n | n in h.Keys - {b} ::
      if n == a then h[a].(vals := h[a].vals + [h[p].vals[i]] + h[b].vals, kids := h[a].kids + h[b].kids)
      else if n == p then
        h[p].(vals := h[p].vals[..i] + h[p].vals[i + 1..], kids := h[p].kids[..i + 1] + h[p].kids[i + 2..])
      else if n != root && h[n].parent == b then h[n].(parent := a, pos := h[n].pos + |h[a].vals| + 1)
      else if n != root && h[n].parent == p && h[n].pos > i + 1 then h[n].(pos := h[n].pos - 1)
      else h[n]
  }

  predicate Siblings<P(==)>(h: map<P, Nd<P>>, root: P, p: P, i: nat, a: P, b: P) {
    && Shape(h, root) && p in h && a in h && b in h && h[root].parent != b
    && i + 1 < |h[p].kids| && h[p].kids[i] == a && h[p].kids[i + 1] == b
  }

  lemma SiblingLevels<P>(h: map<P, Nd<P>>, root: P, p: P, i: nat, a: P, b: P)
    requires Siblings(h, root, p, i, a, b)
    ensures LinksOK(h, p) && KidOK(h, p, a, i) && KidOK(h, p, b, i + 1) && LinksOK(h, a) && LinksOK(h, b)
    ensures UpOK(h, root, p) && a != root && b != root && p != a && p != b && a != b
    ensures |h[p].kids| == |h[p].vals| + 1
  {
    assert LinksOK(h, p) && KidOK(h, p, h[p].kids[i], i) && KidOK(h, p, h[p].kids[i + 1], i + 1);
    assert LinksOK(h, a) && LinksOK(h, b) && UpOK(h, root, p);
    NotKid(h, root, p, root);
  }

  lemma JoinedLinks<P>(h: map<P, Nd<P>>, root: P, p: P, i: nat, a: P, b: P)
    requires Siblings(h, root, p, i, a, b)
    ensures |h[p].kids| == |h[p].vals| + 1
    ensures a in Joined(h, root, p, i, a, b) && LinksOK(Joined(h, root, p, i, a, b), a)
    ensures p in Joined(h, root, p, i, a, b) && LinksOK(Joined(h, root, p, i, a, b), p)
  {
    SiblingLevels(h, root, p, i, a, b);
    var m := Joined(h, root, p, i, a, b);
    NotKid(h, root, a, root);
    NotKid(h, root, b, root);
    NotKid(h, root, p, root);
    forall j | 0 <= j < |m[a].kids| ensures KidOK(m, a, m[a].kids[j], j) {
      if j < |h[a].kids| {
        assert KidOK(h, a, h[a].kids[j], j);
      } else {
        assert KidOK(h, b, h[b].kids[j - |h[a].kids|], j - |h[a].kids|);
      }
    }
    forall j | 0 <= j < |m[p].kids| ensures KidOK(m, p, m[p].kids[j], j) {
      if j <= i {
        assert KidOK(h, p, h[p].kids[j], j);
      } else {
        assert KidOK(h, p, h[p].kids[j + 1], j + 1);
      }
    }
  }

  lemma JoinedRows<P>(h: map<P, Nd<P>>, root: P, p: P, i: nat, a: P, b: P)
    requires p in h && a in h && b in h && a != p && a != b && b != p
    requires i + 1 < |h[p].kids| && |h[p].kids| == |h[p].vals| + 1 && h[p].kids[i + 1] == b
    ensures var m := Joined(h, root, p, i, a, b);
      && h[p].vals == m[p].vals[..i] + [h[p].vals[i]] + m[p].vals[i..]
      && h[p].kids == m[p].kids[..i + 1] + [b] + m[p].kids[i + 1..]
  {}

  /** Only the children of the joined nodes and of their parent have got other links. */
  lemma JoinedUps<P>(h: map<P, Nd<P>>, root: P, p: P, i: nat, a: P, b: P)
    requires Siblings(h, root, p, i, a, b) && a != p && a != b && b != p && |h[p].kids| == |h[p].vals| + 1
    ensures var m := Joined(h, root, p, i, a, b);
      forall x {:trigger SameUp(m, h, x)} | x in m && x !in m[a].kids && x !in m[p].kids :: SameUp(m, h, x)
  {
    SiblingLevels(h, root, p, i, a, b);
    var m := Joined(h, root, p, i, a, b);
    forall x | x in m && x != root && h[x].parent == b ensures x in m[a].kids {
      assert UpOK(h, root, x) && m[a].kids[|h[a].kids| + h[x].pos] == x;
    }
    forall x | x in m && x != root && h[x].parent == p && h[x].pos > i + 1 ensures x in m[p].kids {
      assert UpOK(h, root, x) && m[p].kids[h[x].pos - 1] == x;
    }
  }

  lemma JoinedCuts<P>(h: map<P, Nd<P>>, root: P, p: P, i: nat, a: P, b: P)
    requires Siblings(h, root, p, i, a, b)
    ensures |h[p].kids| == |h[p].vals| + 1
    ensures Cut(Joined(h, root, p, i, a, b), h, root, p, i, a, h[p].vals[i], b)
  {
    SiblingLevels(h, root, p, i, a, b);
    JoinedLinks(h, root, p, i, a, b);
    JoinedRows(h, root, p, i, a, b);
    JoinedUps(h, root, p, i, a, b);
    JoinShape(Joined(h, root, p, i, a, b), h, root, p, i, a, h[p].vals[i], b);
  }

  lemma ShiftCuts<P>(h: map<P, Nd<P>>, g: map<P, Nd<P>>, root: P, p: P, i: nat, a: P, b: P, d: Entry)
    requires Siblings(h, root, p, i, a, b) && ShiftLocal(h, g, p, i, a, b, d)
    ensures Cut(Joined(h, root, p, i, a, b), g, root, p, i, a, d, b)
  {
    SiblingLevels(h, root, p, i, a, b);
    JoinedCuts(h, root, p, i, a, b);
    var m := Joined(h, root, p, i, a, b);
    assert g[p].vals == m[p].vals[..i] + [d] + m[p].vals[i..];
    assert g[p].kids == h[p].kids == m[p].kids[..i + 1] + [b] + m[p].kids[i + 1..];
    forall x | x in m && x != a && x != p ensures SameContent(m, g, x) {
      assert SameContent(h, g, x);
    }
    forall x | x in m && x !in m[a].kids && x !in m[p].kids ensures SameUp(m, g, x) {
      assert x !in h[a].kids && x !in h[b].kids;
      assert SameUp(h, g, x) && SameUp(m, h, x);
    }
    forall j | 0 <= j < |g[p].kids| ensures KidOK(g, p, g[p].kids[j], j) {
      var c := h[p].kids[j];
      assert KidOK(h, p, c, j);
      NotKid(h, root, a, c);
      NotKid(h, root, b, c);
      assert SameUp(h, g, c);
    }
    CutShape(m, g, root, p, i, a, d, b);
  }

  /** Moving values between siblings keeps the shape, the listing of the tree and the place of every other node. */
  lemma ShiftContext<P>(h: map<P, Nd<P>>, g: map<P, Nd<P>>, root: P, p: P, i: nat, a: P, b: P, d: Entry)
    requires Siblings(h, root, p, i, a, b) && ShiftLocal(h, g, p, i, a, b, d)
    ensures Shape(g, root)
    ensures forall n | n in h && n != a && n != b :: SamePlace(h, g, root, n) && Listing(g, n) == Listing(h, n)
    ensures Before(g, root, a) == Before(h, root, a) && After(g, root, b) == After(h, root, b)
    ensures Before(g, root, b) == Before(h, root, a) + (Listing(g, a) + [d])
    ensures Before(h, root, b) == Before(h, root, a) + (Listing(h, a) + [h[p].vals[i]])
    ensures After(g, root, a) == ([d] + Listing(g, b)) + After(h, root, b)
    ensures After(h, root, a) == ([h[p].vals[i]] + Listing(h, b)) + After(h, root, b)
  {
    var m := Joined(h, root, p, i, a, b);
    JoinedCuts(h, root, p, i, a, b);
    ShiftCuts(h, g, root, p, i, a, b, d);
    forall n | n in h && n != a && n != b ensures SamePlace(h, g, root, n) && Listing(g, n) == Listing(h, n) {
      CutContext(m, h, root, p, i, a, h[p].vals[i], b, n);
      CutContext(m, g, root, p, i, a, d, b, n);
    }
    CutHalves(m, h, root, p, i, a, h[p].vals[i], b);
    CutHalves(m, g, root, p, i, a, d, b);
  }

  // ----- The root -----

  /** In g the content of h's internal root has moved down into m, the root's only child. */
  predicate PushedLocal<P(==)>(h: map<P, Nd<P>>, g: map<P, Nd<P>>, root: P, m: P) {
    && m !in h && g.Keys == h.Keys + {m} && root in h && !h[root].leaf && !g[m].leaf && !g[root].leaf
    && g[m].vals == h[root].vals && g[m].kids == h[root].kids && g[m].lvl == h[root].lvl
    && g[root].vals == [] && g[root].kids == [m] && g[root].lvl == h[root].lvl + 1
    && g[root].parent == h[root].parent
    && (forall n {:trigger SameContent(h, g, n)} | n in h && n != root :: SameContent(h, g, n))
    && (forall n {:trigger SameUp(h, g, n)} | n in h && n != root && n !in h[root].kids :: SameUp(h, g, n))
    && LinksOK(g, m) && LinksOK(g, root)
  }

  lemma PushShape<P>(h: map<P, Nd<P>>, g: map<P, Nd<P>>, root: P, m: P)
    requires Shape(h, root) && PushedLocal(h, g, root, m)
    ensures Shape(g, root)
  {
    assert LinksOK(h, root) && KidOK(g, root, g[root].kids[0], 0);
    assert SameContent(h, g, h[root].parent);
    forall n | n in g ensures LinksOK(g, n) {
      if n != root && n != m {
        assert SameContent(h, g, n) && LinksOK(h, n);
        forall j | 0 <= j < |g[n].kids| ensures KidOK(g, n, g[n].kids[j], j) {
          var c := h[n].kids[j];
          assert KidOK(h, n, c, j);
          NotKid(h, root, n, root);
          NotKid(h, root, root, c);
          assert SameUp(h, g, c);
        }
      }
    }
    forall n | n in g ensures UpOK(g, root, n) {
      if n != root && n != m {
        assert UpOK(h, root, n) && LinksOK(h, h[n].parent) && KidOK(h, h[n].parent, n, h[n].pos);
        assert SameContent(h, g, n);
        if h[n].parent == root {
          assert KidOK(g, m, g[m].kids[h[n].pos], h[n].pos);
          assert UpOK(g, root, n);
        } else {
          NotKid(h, root, root, n);
          assert SameUp(h, g, n) && SameContent(h, g, h[n].parent);
          assert UpOK(g, root, n);
        }
      }
    }
  }

  lemma PullShape<P>(h: map<P, Nd<P>>, g: map<P, Nd<P>>, root: P, m: P)
    requires Shape(g, root) && PushedLocal(h, g, root, m) && LinksOK(h, root)
    ensures Shape(h, root)
  {
    assert KidOK(g, root, g[root].kids[0], 0) && LinksOK(g, g[root].parent);
    assert SameContent(h, g, h[root].parent);
    forall n | n in h ensures LinksOK(h, n) {
      if n != root {
        assert SameContent(h, g, n) && LinksOK(g, n);
        forall j | 0 <= j < |h[n].kids| ensures KidOK(h, n, h[n].kids[j], j) {
          var c := g[n].kids[j];
          assert KidOK(g, n, c, j);
          NotKid(g, root, n, root);
          NotKid(g, root, n, m);
          NotKid(g, root, m, c);
          assert SameUp(h, g, c);
        }
      }
    }
    forall n | n in h ensures UpOK(h, root, n) {
      if n != root {
        assert UpOK(g, root, n) && LinksOK(g, g[n].parent) && KidOK(g, g[n].parent, n, g[n].pos);
        assert g[n].parent != root && UpOK(g, root, g[n].parent);
        if g[n].parent == m {
          assert KidOK(h, root, h[root].kids[g[n].pos], g[n].pos);
          assert UpOK(h, root, n);
        } else {
          NotKid(g, root, m, n);
          assert SameUp(h, g, n) && SameContent(h, g, g[n].parent);
          assert UpOK(h, root, n);
        }
      }
    }
  }

  /** Moving the root's content down a level keeps the listing and the place of every node. */
  lemma {:induction false} PushContext<P>(h: map<P, Nd<P>>, g: map<P, Nd<P>>, root: P, m: P, n: P)
    requires Shape(h, root) && Shape(g, root) && PushedLocal(h, g, root, m) && n in h
    ensures SamePlace(h, g, root, n) && Listing(g, n) == Listing(h, n)
    ensures Before(g, root, m) == [] && After(g, root, m) == [] && Listing(g, m) == Listing(h, root)
    decreases h[root].lvl - h[n].lvl
  {
    assert LinksOK(h, root) && LinksOK(g, m) && LinksOK(g, root) && KidOK(g, root, g[root].kids[0], 0);
    forall x | x in h && h[x].lvl < h[root].lvl ensures SameContent(h, g, x) && LinksOK(h, x) {
      assert SameContent(h, g, x) && LinksOK(h, x);
    }
    ListingsSame(h, g, root, h[root].lvl);
    assert Listings(g, g[root].kids, g[root].lvl) == [Listing(g, m)];
    if n != root {
      assert UpOK(h, root, n);
      var q := h[n].parent;
      assert LinksOK(h, q) && KidOK(h, q, n, h[n].pos) && UpOK(h, root, q);
      ListingLow(h, g, n, h[root].lvl);
      PushContext(h, g, root, m, q);
      if q == root {
        assert KidOK(g, m, g[m].kids[h[n].pos], h[n].pos);
        PlaceInParent(h, root, n, root, h[n].pos, Listings(h, h[root].kids, h[root].lvl), h[root].vals);
        PlaceInParent(g, root, n, m, h[n].pos, Listings(h, h[root].kids, h[root].lvl), h[root].vals);
      } else {
        NotKid(h, root, root, n);
        assert SameUp(h, g, n) && SameContent(h, g, q);
        ListingsSame(h, g, q, h[root].lvl);
        ChildContext(h, g, root, n);
      }
    }
  }
}
