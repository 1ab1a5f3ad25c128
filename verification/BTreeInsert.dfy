// Insertion at a leaf place, making room first where needed.
module BTreeInsert {
  import opened BTreeWeave
  import opened BTreeHeap
  import opened BTreeGap
  import opened BTreeNode
  import opened BTreeRoot
  import opened BTreeTree
  import opened BTreeRoom
  import opened BTreeWalk

  /** The place at of leaf node is the one with pre before it in a tree that lists all. */
  ghost predicate Placed(mem: Memory, root: Ptr, node: Ptr, at: nat, all: seq<Entry>, pre: seq<Entry>)
    requires mem.Ok() && Shape(View(mem), root)
  {
    && node in mem.rec && mem.rec[node].leaf && at <= mem.rec[node].count
    && Listing(View(mem), root) == all && Prefix(View(mem), root, node, at) == pre
  }

  lemma PlacedPrefix(mem: Memory, root: Ptr, node: Ptr, at: nat, all: seq<Entry>, pre: seq<Entry>)
    requires mem.Ok() && Shape(View(mem), root) && Placed(mem, root, node, at, all, pre)
    ensures pre <= all
    ensures all == pre + (mem.rec[node].Vals()[at..] + After(View(mem), root, node))
  {
    var h := View(mem);
    ListingAround(h, root, node);
    RowSplit(Before(h, root, node), h[node].vals, at, After(h, root, node));
  }

  lemma RowSplit(b: seq<Entry>, vs: seq<Entry>, at: nat, a: seq<Entry>)
    requires at <= |vs|
    ensures b + vs + a == (b + vs[..at]) + (vs[at..] + a)
  {}

  /** insert_value on a leaf. */
  method InsertValue(mem: Memory, root: Ptr, k: nat, node: Ptr, at: nat, v: Entry,
      ghost all: seq<Entry>, ghost pre: seq<Entry>) returns (r: Memory)
    requires Tree(mem, root, k, node) && Placed(mem, root, node, at, all, pre)
    requires mem.rec[node].count < mem.rec[node].maxCount
    ensures Tree(r, root, k, NULL) && pre <= all && Listing(View(r), root) == pre + [v] + all[|pre|..]
    ensures At(r, Iter(node, at)) && PrefixAt(r, root, Iter(node, at)) == pre && r.rec[node].values[at] == v
    ensures forall rm | RightEdge(mem, root, rm) :: RightEdge(r, root, rm)
    ensures r.rec[root].leaf == mem.rec[root].leaf
  {
    var x := mem.rec[node];
    var vs := InsertSlot(x.values, x.count, at, v);
    r := Memory(mem.rec[node := x.(values := vs, count := x.count + 1)], mem.up);
    EditedTree(mem, r, root, k, node, node, NULL);
    InsertedPlace(mem, r, root, node, at, v, vs, all, pre);
  }

  lemma InsertedPlace(mem: Memory, r: Memory, root: Ptr, node: Ptr, at: nat, v: Entry,
      vs: seq<Entry>, all: seq<Entry>, pre: seq<Entry>)
    requires mem.Ok() && r.Ok() && Shape(View(mem), root) && Shape(View(r), root)
    requires Placed(mem, root, node, at, all, pre) && node in r.rec
    requires mem.rec[node].count < mem.rec[node].maxCount
    requires r.rec[node] == mem.rec[node].(values := vs, count := mem.rec[node].count + 1)
    requires |vs| == |mem.rec[node].values|
    requires vs[..mem.rec[node].count + 1]
      == mem.rec[node].values[..at] + [v] + mem.rec[node].values[at..mem.rec[node].count]
    requires Before(View(r), root, node) == Before(View(mem), root, node)
    requires Listing(View(r), root) == Before(View(mem), root, node) + r.rec[node].Vals() + After(View(mem), root, node)
    ensures pre <= all && Listing(View(r), root) == pre + [v] + all[|pre|..]
    ensures At(r, Iter(node, at)) && PrefixAt(r, root, Iter(node, at)) == pre && r.rec[node].values[at] == v
  {
    var x := mem.rec[node];
    InsertedAt(x.values, vs, x.count, at, v);
    PlacedPrefix(mem, root, node, at, all, pre);
    Around(Before(View(mem), root, node), x.values[..at], v, x.values[at..x.count], After(View(mem), root, node));
  }

  lemma InsertedAt(vs: seq<Entry>, ws: seq<Entry>, n: nat, at: nat, v: Entry)
    requires at <= n < |vs| && |ws| == |vs| && ws[..n + 1] == vs[..at] + [v] + vs[at..n]
    ensures ws[at] == v && ws[..n + 1][..at] == vs[..at] && vs[..n][at..] == vs[at..n] && vs[..n][..at] == vs[..at]
  {
    assert ws[at] == ws[..n + 1][at];
  }

  lemma Around(b: seq<Entry>, p: seq<Entry>, v: Entry, q: seq<Entry>, a: seq<Entry>)
    ensures b + (p + [v] + q) + a == (b + p) + [v] + (q + a)
    ensures (b + p + (q + a))[|b + p|..] == q + a
  {}

  /** A leaf's values replaced: it is still in the same place of a well-linked tree. */
  lemma EditedShape(mem: Memory, r: Memory, root: Ptr, node: Ptr)
    requires mem.Ok() && Shape(View(mem), root) && node in mem.rec && mem.rec[node].leaf
    requires r.Ok() && r.up == mem.up && r.rec == mem.rec[node := r.rec[node]] && SameKind(r.rec[node], mem.rec[node])
    ensures LeafEdited(View(mem), View(r), node) && Shape(View(r), root)
  {
    assert LinksOK(View(mem), node);
    LeafEditShape(View(mem), View(r), root, node);
  }

  lemma EditedSized(mem: Memory, r: Memory, root: Ptr, k: nat, node: Ptr, but: Ptr, but': Ptr)
    requires Sized(mem, root, k, but) && node in mem.rec && mem.rec[node].leaf && (but == node || but == NULL)
    requires node in r.rec && r.rec == mem.rec[node := r.rec[node]] && SameKind(r.rec[node], mem.rec[node])
    requires NULL !in mem.rec && (r.rec[node].count >= 1 || but' == node)
    ensures Sized(r, root, k, but')
  {}

  /** A leaf's values replaced: the rest of the invariant stays. */
  lemma EditedTree(mem: Memory, r: Memory, root: Ptr, k: nat, node: Ptr, but: Ptr, but': Ptr)
    requires Tree(mem, root, k, but) && node in mem.rec && mem.rec[node].leaf && (but == node || but == NULL)
    requires r.Ok() && r.up == mem.up && r.rec == mem.rec[node := r.rec[node]] && SameKind(r.rec[node], mem.rec[node])
    requires r.rec[node].count >= 1 || but' == node
    ensures Tree(r, root, k, but')
    ensures Before(View(r), root, node) == Before(View(mem), root, node)
    ensures After(View(r), root, node) == After(View(mem), root, node)
    ensures Listing(View(mem), root)
      == Before(View(mem), root, node) + mem.rec[node].Vals() + After(View(mem), root, node)
    ensures Listing(View(r), root) == Before(View(mem), root, node) + r.rec[node].Vals() + After(View(mem), root, node)
    ensures forall rm | RightEdge(mem, root, rm) :: RightEdge(r, root, rm)
  {
    EditedShape(mem, r, root, node);
    EditedSized(mem, r, root, k, node, but, but');
    LeafEdit(View(mem), View(r), root, node);
    assert View(mem)[root].parent in View(mem);
  }

  lemma MovedPlaced(mem: Memory, r: Memory, root: Ptr, k: nat, node: Ptr, at: nat,
      node': Ptr, at': nat, all: seq<Entry>, pre: seq<Entry>)
    requires mem.Ok() && Shape(View(mem), root) && Placed(mem, root, node, at, all, pre)
    requires RoomMade(mem, r, root, k, node', node, at, node', at')
    ensures Placed(r, root, node', at', all, pre)
  {}

  /** A full leaf root smaller than a node may be: a root twice the size takes over. */
  method GrowRoot(mem: Memory, root: Ptr, k: nat, at: nat, ghost all: seq<Entry>, ghost pre: seq<Entry>)
      returns (r: Memory, root': Ptr)
    requires Tree(mem, root, k, root) && mem.rec[root].leaf && Placed(mem, root, root, at, all, pre)
    requires mem.rec[root].count == mem.rec[root].maxCount < k
    ensures Tree(r, root', k, root') && r.rec[root'].leaf && Placed(r, root', root', at, all, pre)
    ensures r.rec[root'].count < r.rec[root'].maxCount
  {
    LeafRootAlone(View(mem), root);
    assert mem.rec.Keys == View(mem).Keys;
    var m := mem.rec[root].maxCount;
    root' := Allocate(mem);
    var a, b := SwapContents(NewLeaf(if k < 2 * m then k else 2 * m), mem.rec[root]);
    r := Memory(mem.rec[root' := a] - {root}, mem.up[root' := Link(root', 0)] - {root});
    assert r.rec.Keys == {root'} && r.up.Keys == {root'};
    var h, g := View(mem), View(r);
    assert LinksOK(g, root') && UpOK(g, root', root');
    assert h[root].vals == g[root'].vals;
  }

  /** A full leaf root of full size: an internal root is put over it and it is split. */
  method SplitLeafRoot(mem: Memory, root: Ptr, k: nat, at: nat, ghost all: seq<Entry>, ghost pre: seq<Entry>)
    returns (r: Memory, root': Ptr, rm': Ptr, node': Ptr, at': nat)
    requires Tree(mem, root, k, root) && mem.rec[root].leaf && Placed(mem, root, root, at, all, pre)
    requires mem.rec[root].count == mem.rec[root].maxCount == k
    ensures Tree(r, root', k, node') && RightEdge(r, root', rm') && !r.rec[root'].leaf
    ensures Placed(r, root', node', at', all, pre) && r.rec[node'].count < r.rec[node'].maxCount
  {
    root' := Allocate(mem);
    var m1 := NewRoot(mem, root, root');
    PlacedInNewRoot(mem, m1, root, root', at, all, pre);
    r, rm', node', at' := SplitHere(m1, root', root, k, root', 0, root, at, root');
    MovedPlaced(m1, r, root', k, root, at, node', at', all, pre);
    assert r.rec[node'].maxCount == k;
    InternalStays(m1, r, root', k, node');
  }

  lemma PlacedInNewRoot(mem: Memory, m1: Memory, root: Ptr, root': Ptr, at: nat, all: seq<Entry>, pre: seq<Entry>)
    requires mem.Ok() && Shape(View(mem), root) && mem.rec[root].leaf && Placed(mem, root, root, at, all, pre)
    requires m1.Ok() && Shape(View(m1), root') && root in m1.rec && m1.rec[root] == mem.rec[root]
    requires Before(View(m1), root', root) == [] && Listing(View(m1), root') == Listing(View(mem), root)
    ensures Placed(m1, root', root, at, all, pre)
  {}

  lemma InternalStays(mem: Memory, r: Memory, root: Ptr, k: nat, node: Ptr)
    requires mem.Ok() && Shape(View(mem), root) && !mem.rec[root].leaf
    requires Tree(r, root, k, node) && node in r.rec && r.rec[node].leaf && node != root
    ensures !r.rec[root].leaf
  {
    assert UpOK(View(r), root, node) && LinksOK(View(r), root);
  }

  /** The node that may be empty while something is inserted: a leaf root just made. */
  function MaybeEmpty(mem: Memory, root: Ptr): Ptr
    requires root in mem.rec
  {
    if mem.rec[root].leaf then root else NULL
  }

  /** From any iterator to the leaf place before it: an internal value's is behind the value before. */
  method LeafPlace(mem: Memory, root: Ptr, k: nat, it: Iter) returns (node: Ptr, at: nat)
    requires root in mem.rec && Tree(mem, root, k, MaybeEmpty(mem, root)) && (At(mem, it) || AtEnd(mem, root, it))
    ensures Placed(mem, root, node, at, Listing(View(mem), root), PrefixAt(mem, root, it))
  {
    node, at := it.node, it.position;
    if !mem.rec[it.node].leaf {
      assert UpOK(View(mem), root, it.node) && LinksOK(View(mem), root) && LinksOK(View(mem), it.node);
      var prev := Decrement(mem, root, k, it);
      LeafPrefixStep(mem, root, prev.node, prev.position);
      ChildPlaceNotEmpty(mem, root, k, it);
      node, at := prev.node, prev.position + 1;
    }
  }

  /** The values before an internal one include its left child's. */
  lemma ChildPlaceNotEmpty(mem: Memory, root: Ptr, k: nat, it: Iter)
    requires Tree(mem, root, k, NULL) && At(mem, it) && !mem.rec[it.node].leaf
    ensures PrefixAt(mem, root, it) != []
  {
    var h := View(mem);
    ChildPlace(h, root, it.node, it.position);
    var c := h[it.node].kids[it.position];
    PrefixEnd(h, root, c);
    assert mem.rec[c].count >= 1;
    ListingNotEmpty(h, c);
  }

  lemma ListingNotEmpty<P>(h: map<P, Nd<P>>, n: P)
    requires n in h && LinksOK(h, n) && |h[n].vals| >= 1
    ensures Listing(h, n) != []
  {
    if !h[n].leaf {
      var fs := Listings(h, h[n].kids, h[n].lvl);
      WeaveAt(fs, h[n].vals, 0);
      assert |WeavePost(fs, h[n].vals, 0)| >= 1;
      assert |Weave(fs, h[n].vals)| >= 1 && Listing(h, n) == Weave(fs, h[n].vals);
    } else {
      assert Listing(h, n) == h[n].vals;
    }
  }

  lemma SidesCount(b: seq<Entry>, vs: seq<Entry>, a: seq<Entry>)
    ensures |b + vs + a| >= |vs|
  {}

  /** The node with room is one of full size: a small leaf root could not hold all the values. */
  lemma RoomIsWide(mem: Memory, r: Memory, root: Ptr, k: nat, node: Ptr, at: nat, node': Ptr, at': nat)
    requires mem.Ok() && Shape(View(mem), root) && node in mem.rec && mem.rec[node].count == k
    requires RoomMade(mem, r, root, k, node', node, at, node', at')
    ensures r.rec[node'].maxCount == k
  {
    ListingAround(View(mem), root, node);
    var h := View(mem);
    assert h[node].vals == mem.rec[node].Vals() && |h[node].vals| == k;
    SidesCount(Before(h, root, node), h[node].vals, After(h, root, node));
    if node' == root && r.rec[root].leaf {
      assert Listing(View(r), root) == r.rec[root].Vals();
    }
  }

  /** Room for one more value at the place of a full leaf. */
  method MakeRoom(mem: Memory, root: Ptr, rm: Ptr, size: nat, k: nat, node: Ptr,
      at: nat, ghost all: seq<Entry>, ghost pre: seq<Entry>)
    returns (r: Memory, root': Ptr, rm': Ptr, size': nat, node': Ptr, at': nat)
    requires root in mem.rec && Tree(mem, root, k, MaybeEmpty(mem, root))
    requires RightEdge(mem, root, rm) && Placed(mem, root, node, at, all, pre)
    requires mem.rec[node].count == mem.rec[node].maxCount && (!mem.rec[root].leaf ==> size == |all|)
    ensures Tree(r, root', k, node') && RightEdge(r, root', rm') && Placed(r, root', node', at', all, pre)
    ensures r.rec[node'].count < r.rec[node'].maxCount && (!r.rec[root'].leaf ==> size' == |all| + 1)
  {
    r, root', rm', size', node', at' := mem, root, rm, size, node, at;
    if mem.rec[root].leaf {
      LeafRootAlone(View(mem), root);
      assert node in View(mem).Keys;
    }
    if mem.rec[node].maxCount < k {
      r, root' := GrowRoot(mem, root, k, at, all, pre);
      node' := root';
    } else if mem.rec[root].leaf {
      assert |all| == mem.rec[root].count;
      r, root', rm', node', at' := SplitLeafRoot(mem, root, k, at, all, pre);
      size' := mem.rec[root].count + 1;
    } else {
      r, rm', node', at' := RebalanceOrSplit(mem, root, rm, k, node, at);
      MovedPlaced(mem, r, root, k, node, at, node', at', all, pre);
      RoomIsWide(mem, r, root, k, node, at, node', at');
      size' := size + 1;
    }
  }

  /** internal_insert: v goes in front of it. */
  method InternalInsert(mem: Memory, root: Ptr, rm: Ptr, size: nat, k: nat, it: Iter, v: Entry)
    returns (r: Memory, root': Ptr, rm': Ptr, size': nat, it': Iter)
    requires root in mem.rec && Tree(mem, root, k, MaybeEmpty(mem, root)) && RightEdge(mem, root, rm)
    requires At(mem, it) || AtEnd(mem, root, it)
    requires !mem.rec[root].leaf ==> size == |Listing(View(mem), root)|
    ensures Tree(r, root', k, NULL) && RightEdge(r, root', rm')
    ensures var l, i := Listing(View(mem), root), |PrefixAt(mem, root, it)|;
      && i <= |l| && Listing(View(r), root') == l[..i] + [v] + l[i..]
      && At(r, it') && PrefixAt(r, root', it') == l[..i] && r.rec[it'.node].values[it'.position] == v
      && (!r.rec[root'].leaf ==> size' == |l| + 1)
  {
    ghost var all, pre := Listing(View(mem), root), PrefixAt(mem, root, it);
    var node, at := LeafPlace(mem, root, k, it);
    r, root', rm', size' := mem, root, rm, size;
    if mem.rec[node].count == mem.rec[node].maxCount {
      r, root', rm', size', node, at := MakeRoom(mem, root, rm, size, k, node, at, all, pre);
    } else {
      if !mem.rec[root].leaf {
        size' := size + 1;
      }
      StillTree(mem, root, k, node);
    }
    PlacedPrefix(r, root', node, at, all, pre);
    r := InsertValue(r, root', k, node, at, v, all, pre);
    it' := Iter(node, at);
    assert all[..|pre|] == pre;
  }

  lemma StillTree(mem: Memory, root: Ptr, k: nat, node: Ptr)
    requires root in mem.rec && Tree(mem, root, k, MaybeEmpty(mem, root)) && node in mem.rec && mem.rec[node].leaf
    ensures Tree(mem, root, k, node)
  {
    if mem.rec[root].leaf {
      LeafRootAlone(View(mem), root);
      assert node in View(mem).Keys;
    }
  }
}
