// Taking one value out of a leaf; swapping an internal value with the one before it.
module BTreeRemove {
  import opened BTreeWeave
  import opened BTreeHeap
  import opened BTreeGap
  import opened BTreeNode
  import opened BTreeSplit
  import opened BTreeTree
  import opened BTreeWalk
  import opened BTreeOrder
  import opened BTreeInsert
  import opened BTreeSet

  function Removing(l: seq<Entry>, i: nat): seq<Entry>
    requires i < |l|
  {
    l[..i] + l[i + 1..]
  }

  /** remove_value on a leaf, which may leave it empty. */
  method RemoveValue(mem: Memory, root: Ptr, k: nat, node: Ptr, at: nat) returns (r: Memory)
    requires Tree(mem, root, k, NULL) && node in mem.rec && mem.rec[node].leaf && at < mem.rec[node].count
    ensures Tree(r, root, k, node) && forall rm | RightEdge(mem, root, rm) :: RightEdge(r, root, rm)
    ensures node in r.rec && r.rec[root].leaf == mem.rec[root].leaf
    ensures var l, i := Listing(View(mem), root), |Prefix(View(mem), root, node, at)|;
      i < |l| && Placed(r, root, node, at, Removing(l, i), l[..i])
  {
    var x := mem.rec[node];
    var vs := RemoveSlot(x.values, x.count, at);
    r := Memory(mem.rec[node := x.(values := vs, count := x.count - 1)], mem.up);
    EditedTree(mem, r, root, k, node, NULL, node);
    RemovedPlace(mem, r, root, node, at, vs);
  }

  lemma RemovedPlace(mem: Memory, r: Memory, root: Ptr, node: Ptr, at: nat, vs: seq<Entry>)
    requires mem.Ok() && r.Ok() && Shape(View(mem), root) && Shape(View(r), root) && node in mem.rec && node in r.rec
    requires mem.rec[node].leaf && at < mem.rec[node].count
    requires r.rec[node] == mem.rec[node].(values := vs, count := mem.rec[node].count - 1)
    requires |vs| == |mem.rec[node].values|
    requires vs[..mem.rec[node].count - 1]
      == mem.rec[node].values[..at] + mem.rec[node].values[at + 1..mem.rec[node].count]
    requires Before(View(r), root, node) == Before(View(mem), root, node)
    requires Listing(View(mem), root)
      == Before(View(mem), root, node) + mem.rec[node].Vals() + After(View(mem), root, node)
    requires Listing(View(r), root) == Before(View(mem), root, node) + r.rec[node].Vals() + After(View(mem), root, node)
    ensures var l, i := Listing(View(mem), root), |Prefix(View(mem), root, node, at)|;
      i < |l| && Placed(r, root, node, at, Removing(l, i), l[..i])
  {
    var x := mem.rec[node];
    var b, a := Before(View(mem), root, node), After(View(mem), root, node);
    Without(x.values, vs, x.count, at);
    RowWithout(b, x.values[..at], x.values[at], x.values[at + 1..x.count], a);
  }

  lemma Without(vs: seq<Entry>, ws: seq<Entry>, n: nat, at: nat)
    requires at < n <= |vs| && |ws| == |vs| && ws[..n - 1] == vs[..at] + vs[at + 1..n]
    ensures vs[..n] == vs[..at] + [vs[at]] + vs[at + 1..n] && ws[..n - 1][..at] == vs[..at] == vs[..n][..at]
  {}

  lemma RowWithout(b: seq<Entry>, p: seq<Entry>, v: Entry, q: seq<Entry>, a: seq<Entry>)
    ensures var l := b + (p + [v] + q) + a;
      && |b + p| < |l| && l[..|b + p|] == b + p && b + (p + q) + a == Removing(l, |b + p|)
  {
    var l, i := b + (p + [v] + q) + a, |b + p|;
    assert l == (b + p) + [v] + (q + a);
    assert b + (p + q) + a == (b + p) + (q + a);
  }

  predicate Overwritten(mem: Memory, r: Memory)
    requires mem.Ok()
  {
    r.Ok() && r.up == mem.up && r.rec.Keys == mem.rec.Keys && forall n {:trigger r.rec[n]} | n in mem.rec ::
      r.rec[n] == mem.rec[n].(values := r.rec[n].values)
  }

  lemma OverwrittenFrame(mem: Memory, r: Memory)
    requires mem.Ok() && Overwritten(mem, r)
    ensures SameFrame(View(mem), View(r))
  {
    var h, g := View(mem), View(r);
    forall m | m in h ensures g[m] == h[m].(vals := g[m].vals) && |g[m].vals| == |h[m].vals| {
      assert r.rec[m] == mem.rec[m].(values := r.rec[m].values);
    }
  }

  lemma OverwrittenTree(mem: Memory, r: Memory, root: Ptr, k: nat)
    requires Tree(mem, root, k, NULL) && Overwritten(mem, r)
    ensures Tree(r, root, k, NULL)
    ensures forall rm | RightEdge(mem, root, rm) :: RightEdge(r, root, rm)
  {
    var h, g := View(mem), View(r);
    OverwrittenFrame(mem, r);
    FrameShape(h, g, root);
    assert h[root].parent in h;
    BeforeLength(h, g, root, h[root].parent);
    forall rm | RightEdge(mem, root, rm) ensures RightEdge(r, root, rm) {
      if !mem.rec[root].leaf { BeforeLength(h, g, root, rm); }
    }
  }

  lemma OverwrittenPrefix(mem: Memory, r: Memory, root: Ptr, m: Ptr, q: nat)
    requires mem.Ok() && Overwritten(mem, r) && Shape(View(mem), root) && Shape(View(r), root)
    requires m in mem.rec && mem.rec[m].leaf && q <= mem.rec[m].count
    ensures m in r.rec && r.rec[m].leaf && r.rec[m].count == mem.rec[m].count
    ensures |Prefix(View(r), root, m, q)| == |Prefix(View(mem), root, m, q)|
  {
    OverwrittenFrame(mem, r);
    BeforeLength(View(mem), View(r), root, m);
    assert r.rec[m] == mem.rec[m].(values := r.rec[m].values);
  }

  /** One value overwritten: the tree stays well-formed and its listing changes at that rank. */
  lemma OneSet(mem: Memory, r: Memory, root: Ptr, k: nat, it: Iter, v: Entry)
    requires Tree(mem, root, k, NULL) && At(mem, it)
    requires var x := mem.rec[it.node];
      r == mem.(rec := mem.rec[it.node := x.(values := x.values[it.position := v])])
    ensures Overwritten(mem, r) && Tree(r, root, k, NULL)
    ensures |PrefixAt(mem, root, it)| < |Listing(View(mem), root)|
    ensures Listing(View(r), root) == Listing(View(mem), root)[|PrefixAt(mem, root, it)| := v]
  {
    SetView(mem, r, it.node, it.position, v);
    OverwrittenTree(mem, r, root, k);
    SetValue(View(mem), View(r), root, it.node, it.position, v);
  }

  lemma SetView(mem: Memory, r: Memory, n: Ptr, p: nat, v: Entry)
    requires mem.Ok() && n in mem.rec && p < mem.rec[n].count
    requires var x := mem.rec[n]; r == mem.(rec := mem.rec[n := x.(values := x.values[p := v])])
    ensures r.Ok() && Overwritten(mem, r)
    ensures View(r) == View(mem)[n := View(mem)[n].(vals := View(mem)[n].vals[p := v])]
  {
    assert r.rec[n].Vals() == mem.rec[n].Vals()[p := v];
  }

  /** The values at x and at the leaf place y change places. */
  method SwapValues(mem: Memory, root: Ptr, k: nat, x: Iter, y: Iter) returns (r: Memory)
    requires Tree(mem, root, k, NULL) && At(mem, x) && At(mem, y) && x.node != y.node && mem.rec[y.node].leaf
    ensures Tree(r, root, k, NULL) && forall rm | RightEdge(mem, root, rm) :: RightEdge(r, root, rm)
    ensures r.rec[root].leaf == mem.rec[root].leaf
    ensures At(r, y) && r.rec[y.node].leaf && |PrefixAt(r, root, y)| == |PrefixAt(mem, root, y)|
    ensures var l, i, j := Listing(View(mem), root), |PrefixAt(mem, root, x)|, |PrefixAt(mem, root, y)|;
      i < |l| && j < |l| && Listing(View(r), root) == l[i := l[j]][j := l[i]]
  {
    var u, v := mem.rec[x.node].values[x.position], mem.rec[y.node].values[y.position];
    ValueAt(mem, root, x);
    ValueAt(mem, root, y);
    ghost var m1 := mem.(rec := mem.rec[x.node := mem.rec[x.node].(values := mem.rec[x.node].values[x.position := v])]);
    OneSet(mem, m1, root, k, x, v);
    assert At(m1, y) && m1.rec[y.node] == mem.rec[y.node];
    r := mem.(rec := mem.rec[x.node := mem.rec[x.node].(values := mem.rec[x.node].values[x.position := v])]
                            [y.node := mem.rec[y.node].(values := mem.rec[y.node].values[y.position := u])]);
    OneSet(m1, r, root, k, y, u);
    OverwrittenTree(mem, r, root, k);
    OverwrittenPrefix(mem, m1, root, y.node, y.position);
    OverwrittenPrefix(mem, r, root, y.node, y.position);
  }
}
