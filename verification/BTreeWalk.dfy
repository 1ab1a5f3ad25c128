// Iterators: stepping forwards and backwards through the in-order listing.
module BTreeWalk {
  import opened BTreeWeave
  import opened BTreeHeap
  import opened BTreeCut
  import opened BTreeGap
  import opened BTreeNode
  import opened BTreeTree

  /** An iterator; position is -1 before the first value and count behind the last. */
  datatype Iter = Iter(node: Ptr, position: int)

  /** it points at a value of the tree. */
  ghost predicate At(mem: Memory, it: Iter) {
    it.node in mem.rec && 0 <= it.position < mem.rec[it.node].count
  }

  /** What the tree lists before it. */
  ghost function PrefixAt(mem: Memory, root: Ptr, it: Iter): seq<Entry>
    requires mem.Ok() && Shape(View(mem), root) && it.node in mem.rec && 0 <= it.position <= mem.rec[it.node].count
  {
    Prefix(View(mem), root, it.node, it.position)
  }

  /** it is behind the last value, on the last leaf. */
  ghost predicate AtEnd(mem: Memory, root: Ptr, it: Iter)
    requires mem.Ok() && Shape(View(mem), root)
  {
    && it.node in mem.rec && mem.rec[it.node].leaf && it.position == mem.rec[it.node].count
    && After(View(mem), root, it.node) == []
  }

  /** n is the root exactly if the node it calls its parent is a leaf. */
  lemma RootTest(mem: Memory, root: Ptr, n: Ptr)
    requires mem.Ok() && Shape(View(mem), root) && n in mem.rec
    ensures mem.up[n].parent in mem.rec && (mem.rec[mem.up[n].parent].leaf <==> n == root)
  {
    if n != root { ParentListing(View(mem), root, n); }
  }

  lemma EndPrefix(mem: Memory, root: Ptr, n: Ptr)
    requires mem.Ok() && Shape(View(mem), root) && n in mem.rec && After(View(mem), root, n) == []
    ensures Prefix(View(mem), root, n, mem.rec[n].count) == Listing(View(mem), root)
  {
    PrefixEnd(View(mem), root, n);
    ListingAround(View(mem), root, n);
  }

  /** From the end of a node up to the first ancestor that has something more to list. */
  method ClimbRight(mem: Memory, root: Ptr, start: Ptr) returns (node: Ptr, position: nat)
    requires mem.Ok() && Shape(View(mem), root) && start in mem.rec
    ensures node in mem.rec && position <= mem.rec[node].count
    ensures Prefix(View(mem), root, node, position) == Prefix(View(mem), root, start, mem.rec[start].count)
    ensures position == mem.rec[node].count ==> node == root && After(View(mem), root, start) == []
  {
    ghost var h := View(mem);
    node, position := start, mem.rec[start].count;
    RootTest(mem, root, node);
    while position == mem.rec[node].count && !mem.rec[mem.up[node].parent].leaf
      invariant node in mem.rec && position <= mem.rec[node].count
      invariant mem.up[node].parent in mem.rec && (mem.rec[mem.up[node].parent].leaf <==> node == root)
      invariant Prefix(h, root, node, position) == Prefix(h, root, start, mem.rec[start].count)
      invariant position == mem.rec[node].count ==> After(h, root, node) == After(h, root, start)
      decreases h[root].lvl - h[node].lvl
    {
      PrefixUp(h, root, node);
      EdgeStep(h, root, node);
      assert UpOK(h, root, node) && KidOK(h, h[node].parent, node, h[node].pos) && UpOK(h, root, h[node].parent);
      UpStep(h, root, node);
      position := mem.up[node].position;
      node := mem.up[node].parent;
      RootTest(mem, root, node);
    }
  }

  lemma UpStep(h: map<Ptr, Nd<Ptr>>, root: Ptr, n: Ptr)
    requires Shape(h, root) && n in h && n != root
    ensures h[n].parent in h && h[h[n].parent].lvl == h[n].lvl + 1 <= h[root].lvl
    ensures h[n].pos == |h[h[n].parent].vals| ==> After(h, root, n) == After(h, root, h[n].parent)
  {
    ParentListing(h, root, n);
    assert UpOK(h, root, h[n].parent);
    var q := h[n].parent;
    PlaceInParent(h, root, n, q, h[n].pos, Listings(h, h[q].kids, h[q].lvl), h[q].vals);
  }

  /** Down along first children to a leaf. */
  method DescendFirst(mem: Memory, root: Ptr, start: Ptr) returns (node: Ptr)
    requires mem.Ok() && Shape(View(mem), root) && start in mem.rec
    ensures node in mem.rec && mem.rec[node].leaf && Before(View(mem), root, node) == Before(View(mem), root, start)
  {
    ghost var h := View(mem);
    node := start;
    while !mem.rec[node].leaf
      invariant node in mem.rec && Before(h, root, node) == Before(h, root, start)
      decreases h[node].lvl
    {
      ChildPlace(h, root, node, 0);
      assert mem.rec[node].Kids()[0] == mem.rec[node].children[0];
      node := mem.rec[node].children[0];
    }
  }

  /** Down along last children to a leaf. */
  method DescendLast(mem: Memory, root: Ptr, start: Ptr) returns (node: Ptr)
    requires mem.Ok() && Shape(View(mem), root) && start in mem.rec
    ensures node in mem.rec && mem.rec[node].leaf
    ensures Prefix(View(mem), root, node, mem.rec[node].count) == Prefix(View(mem), root, start, mem.rec[start].count)
  {
    ghost var h := View(mem);
    node := start;
    while !mem.rec[node].leaf
      invariant node in mem.rec
      invariant Prefix(h, root, node, mem.rec[node].count) == Prefix(h, root, start, mem.rec[start].count)
      decreases h[node].lvl
    {
      var c := mem.rec[node].count;
      ChildPlace(h, root, node, c);
      assert mem.rec[node].Kids()[c] == mem.rec[node].children[c];
      node := mem.rec[node].children[c];
    }
  }

  lemma LeafPrefixStep(mem: Memory, root: Ptr, n: Ptr, p: nat)
    requires mem.Ok() && Shape(View(mem), root) && n in mem.rec && mem.rec[n].leaf && p < mem.rec[n].count
    ensures Prefix(View(mem), root, n, p + 1) == Prefix(View(mem), root, n, p) + [mem.rec[n].values[p]]
  {
    var vs := View(mem)[n].vals;
    assert vs[..p + 1] == vs[..p] + [mem.rec[n].values[p]];
  }

  /** ++it: one value further, or the end. */
  method Increment(mem: Memory, root: Ptr, k: nat, it: Iter) returns (next: Iter)
    requires Tree(mem, root, k, NULL) && At(mem, it)
    ensures At(mem, next) || AtEnd(mem, root, next)
    ensures PrefixAt(mem, root, next) == PrefixAt(mem, root, it) + [mem.rec[it.node].values[it.position]]
  {
    var node, position := it.node, it.position;
    if mem.rec[node].leaf {
      LeafPrefixStep(mem, root, node, position);
      position := position + 1;
      if position < mem.rec[node].count {
        return Iter(node, position);
      }
      var n', p' := ClimbRight(mem, root, node);
      if p' == mem.rec[n'].count {
        return Iter(node, position);
      }
      return Iter(n', p');
    } else {
      next := FirstBehind(mem, root, k, it);
    }
  }

  /** From a value of an internal node to the first one of the child behind it. */
  method FirstBehind(mem: Memory, root: Ptr, k: nat, it: Iter) returns (next: Iter)
    requires Tree(mem, root, k, NULL) && At(mem, it) && !mem.rec[it.node].leaf
    ensures At(mem, next)
    ensures PrefixAt(mem, root, next) == PrefixAt(mem, root, it) + [mem.rec[it.node].values[it.position]]
  {
    var node, position := it.node, it.position;
    ChildPlace(View(mem), root, node, position + 1);
    var c := mem.rec[node].children[position + 1];
    assert mem.rec[node].Kids()[position + 1] == c;
    var n' := DescendFirst(mem, root, c);
    PrefixFirst(View(mem), root, n');
    assert mem.rec[n'].count >= 1;
    return Iter(n', 0);
  }

  /** From the front of a leaf up to the first ancestor that lists something before it. */
  method ClimbLeft(mem: Memory, root: Ptr, start: Ptr) returns (node: Ptr, position: int)
    requires mem.Ok() && Shape(View(mem), root) && start in mem.rec && mem.rec[start].leaf
    ensures node in mem.rec && -1 <= position < mem.rec[node].count
    ensures position >= 0 ==>
      Prefix(View(mem), root, node, position) + [mem.rec[node].values[position]] == Before(View(mem), root, start)
    ensures position < 0 ==> Before(View(mem), root, start) == []
  {
    ghost var h := View(mem);
    node, position := start, -1;
    RootTest(mem, root, node);
    while position < 0 && !mem.rec[mem.up[node].parent].leaf
      invariant node in mem.rec && -1 <= position < mem.rec[node].count
      invariant mem.up[node].parent in mem.rec && (mem.rec[mem.up[node].parent].leaf <==> node == root)
      invariant position >= 0 ==>
        Prefix(h, root, node, position) + [mem.rec[node].values[position]] == Before(h, root, start)
      invariant position < 0 ==> Before(h, root, node) == Before(h, root, start)
      decreases h[root].lvl - h[node].lvl, position < 0
    {
      ghost var q, i := h[node].parent, h[node].pos;
      UpStep(h, root, node);
      ParentListing(h, root, node);
      assert UpOK(h, root, node);
      ChildPlace(h, root, q, i);
      position := mem.up[node].position - 1;
      node := mem.up[node].parent;
      RootTest(mem, root, node);
    }
  }

  /** --it: one value back; before the first value it stays there at position -1. */
  method Decrement(mem: Memory, root: Ptr, k: nat, it: Iter) returns (prev: Iter)
    requires Tree(mem, root, k, NULL) && (At(mem, it) || AtEnd(mem, root, it))
    ensures PrefixAt(mem, root, it) == [] ==> prev == Iter(it.node, -1)
    ensures PrefixAt(mem, root, it) != [] ==>
      At(mem, prev) && PrefixAt(mem, root, prev) + [mem.rec[prev.node].values[prev.position]] == PrefixAt(mem, root, it)
    ensures !mem.rec[it.node].leaf ==>
      At(mem, prev) && mem.rec[prev.node].leaf && prev.position == mem.rec[prev.node].count - 1
  {
    var node, position := it.node, it.position;
    if mem.rec[node].leaf {
      position := position - 1;
      if position >= 0 {
        LeafPrefixStep(mem, root, node, position);
        return Iter(node, position);
      }
      PrefixFirst(View(mem), root, node);
      var n', p' := ClimbLeft(mem, root, node);
      if p' < 0 {
        return Iter(node, position);
      }
      return Iter(n', p');
    } else {
      prev := LastBefore(mem, root, k, it);
    }
  }

  /** From a value of an internal node to the last one of the child before it. */
  method LastBefore(mem: Memory, root: Ptr, k: nat, it: Iter) returns (prev: Iter)
    requires Tree(mem, root, k, NULL) && At(mem, it) && !mem.rec[it.node].leaf
    ensures At(mem, prev) && mem.rec[prev.node].leaf && prev.position == mem.rec[prev.node].count - 1
    ensures PrefixAt(mem, root, prev) + [mem.rec[prev.node].values[prev.position]] == PrefixAt(mem, root, it)
  {
    var node, position := it.node, it.position;
    ChildPlace(View(mem), root, node, position);
    var c := mem.rec[node].children[position];
    assert mem.rec[node].Kids()[position] == c;
    var n' := DescendLast(mem, root, c);
    assert mem.rec[n'].count >= 1;
    LeafPrefixStep(mem, root, n', mem.rec[n'].count - 1);
    return Iter(n', mem.rec[n'].count - 1);
  }
}
