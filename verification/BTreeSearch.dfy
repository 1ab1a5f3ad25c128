// Searching: within a node, by four methods that agree, and down the tree.
module BTreeSearch {
  import opened BTreeWeave
  import opened BTreeHeap
  import opened BTreeGap
  import opened BTreeNode
  import opened BTreeWalk
  import opened BTreeOrder

  /** Whether a search for k goes past a value with key x: a lower bound passes smaller keys, an upper
      bound equal ones too. */
  predicate Passes(upper: bool, x: int, k: int) {
    if upper then x <= k else x < k
  }

  /** The first position in [s, e) that the search does not go past. */
  function FirstNot(vs: seq<Entry>, s: nat, e: nat, k: int, upper: bool): (r: nat)
    requires s <= e <= |vs|
    ensures s <= r <= e
    ensures forall j | s <= j < r :: Passes(upper, vs[j].key, k)
    ensures r < e ==> !Passes(upper, vs[r].key, k)
    decreases e - s
  {
    if s < e && Passes(upper, vs[s].key, k) then FirstNot(vs, s + 1, e, k, upper) else s
  }

  predicate SortedPart(vs: seq<Entry>, s: nat, e: nat)
    requires e <= |vs|
  {
    forall i, j | s <= i < j < e :: vs[i].key <= vs[j].key
  }

  lemma {:induction false} FirstNotUnique(vs: seq<Entry>, s: nat, e: nat, k: int, upper: bool, r: nat)
    requires s <= r <= e <= |vs|
    requires forall j | s <= j < r :: Passes(upper, vs[j].key, k)
    requires r < e ==> !Passes(upper, vs[r].key, k)
    ensures r == FirstNot(vs, s, e, k, upper)
    decreases r - s
  {
    if s < r {
      assert Passes(upper, vs[s].key, k);
      FirstNotUnique(vs, s + 1, e, k, upper, r);
    }
  }

  method LinearSearchPlain(vs: seq<Entry>, s: nat, e: nat, k: int, upper: bool) returns (r: nat)
    requires s <= e <= |vs|
    ensures r == FirstNot(vs, s, e, k, upper)
  {
    r := s;
    while r < e
      invariant s <= r <= e && forall j | s <= j < r :: Passes(upper, vs[j].key, k)
    {
      if !Passes(upper, vs[r].key, k) {
        break;
      }
      r := r + 1;
    }
    FirstNotUnique(vs, s, e, k, upper, r);
  }

  method BinarySearchPlain(vs: seq<Entry>, s: nat, e: nat, k: int, upper: bool) returns (r: nat)
    requires s <= e <= |vs| && SortedPart(vs, s, e)
    ensures r == FirstNot(vs, s, e, k, upper)
  {
    r := s;
    var hi := e;
    while r != hi
      invariant s <= r <= hi <= e
      invariant forall j | s <= j < r :: Passes(upper, vs[j].key, k)
      invariant forall j | hi <= j < e :: !Passes(upper, vs[j].key, k)
      decreases hi - r
    {
      var mid := (r + hi) / 2;
      if Passes(upper, vs[mid].key, k) {
        r := mid + 1;
      } else {
        hi := mid;
      }
    }
    FirstNotUnique(vs, s, e, k, upper, r);
  }

  const K_EXACT_MATCH := 0x4000_0000

  /** s | kExactMatch */
  function WithExact(s: nat): nat {
    if Exact(s) then s else s + K_EXACT_MATCH
  }

  /** s & kExactMatch */
  predicate Exact(s: nat) {
    s / K_EXACT_MATCH % 2 == 1
  }

  /** s & kMatchMask */
  function Masked(s: nat): nat {
    s % K_EXACT_MATCH
  }

  /** The position a lower-bound search finds, with the exact bit set if its key is k. */
  function Encoded(vs: seq<Entry>, s: nat, e: nat, k: int): nat
    requires s <= e <= |vs|
  {
    var p := FirstNot(vs, s, e, k, false);
    if p < e && vs[p].key == k then WithExact(p) else p
  }

  /** The mask and the bit recover the position and whether it holds the key. */
  lemma Decoded(vs: seq<Entry>, s: nat, e: nat, k: int)
    requires s <= e <= |vs| && e < K_EXACT_MATCH
    ensures Masked(Encoded(vs, s, e, k)) == FirstNot(vs, s, e, k, false)
    ensures SortedPart(vs, s, e) ==> (Exact(Encoded(vs, s, e, k)) <==> exists j | s <= j < e :: vs[j].key == k)
  {
    var p := FirstNot(vs, s, e, k, false);
    assert p / K_EXACT_MATCH == 0 && (p + K_EXACT_MATCH) / K_EXACT_MATCH == 1
      && (p + K_EXACT_MATCH) % K_EXACT_MATCH == p;
    if SortedPart(vs, s, e) {
      if j :| s <= j < e && vs[j].key == k {
        assert !Passes(false, vs[j].key, k);
        assert p <= j;
      }
    }
  }

  method LinearSearchCompareTo(vs: seq<Entry>, s: nat, e: nat, k: int) returns (r: nat)
    requires s <= e <= |vs|
    ensures r == Encoded(vs, s, e, k)
  {
    var i := s;
    while i < e
      invariant s <= i <= e && forall j | s <= j < i :: Passes(false, vs[j].key, k)
    {
      var c := vs[i].key - k;
      if c == 0 {
        FirstNotUnique(vs, s, e, k, false, i);
        return WithExact(i);
      } else if c > 0 {
        break;
      }
      i := i + 1;
    }
    FirstNotUnique(vs, s, e, k, false, i);
    return i;
  }

  /** Stops at an equal key and searches what is left of it again. */
  method BinarySearchCompareTo(vs: seq<Entry>, s: nat, e: nat, k: int) returns (r: nat)
    requires s <= e <= |vs| && e < K_EXACT_MATCH && SortedPart(vs, s, e)
    ensures r == Encoded(vs, s, e, k)
    decreases e - s
  {
    r := s;
    var hi := e;
    while r != hi
      invariant s <= r <= hi <= e
      invariant forall j | s <= j < r :: vs[j].key < k
      invariant forall j | hi <= j < e :: vs[j].key > k
      decreases hi - r
    {
      var mid := (r + hi) / 2;
      var c := vs[mid].key - k;
      if c < 0 {
        r := mid + 1;
      } else if c > 0 {
        hi := mid;
      } else {
        ghost var from := r;
        r := BinarySearchCompareTo(vs, r, mid, k);
        ghost var p := FirstNot(vs, from, mid, k, false);
        FirstNotUnique(vs, s, e, k, false, p);
        Decoded(vs, from, mid, k);
        assert vs[p].key == k;
        r := WithExact(r);
        return;
      }
    }
    FirstNotUnique(vs, s, e, k, false, r);
  }

  // ----- Down the tree -----

  /** In a sorted row the search goes past exactly what is before the boundary. */
  lemma PassedBefore(l: seq<Entry>, k: int, upper: bool, x: nat)
    requires Sorted(l) && x < |l|
    ensures Passes(upper, l[x].key, k) <==> x < FirstNot(l, 0, |l|, k, upper)
  {
    var c := FirstNot(l, 0, |l|, k, upper);
    forall j | c <= j < |l| ensures !Passes(upper, l[j].key, k) {
      assert l[c].key <= l[j].key;
    }
  }

  /** The values of a node are sorted, and the listing's boundary for k lies at the node's own. */
  lemma NodeBoundary(mem: Memory, root: Ptr, n: Ptr, k: int, upper: bool, p: nat)
    requires mem.Ok() && Shape(View(mem), root) && n in mem.rec && Sorted(Listing(View(mem), root))
    requires p == FirstNot(mem.rec[n].values, 0, mem.rec[n].count, k, upper)
    ensures var l := Listing(View(mem), root); var c := FirstNot(l, 0, |l|, k, upper);
      && (p > 0 ==> |Prefix(View(mem), root, n, p - 1)| < c)
      && (p < mem.rec[n].count ==> c <= |Prefix(View(mem), root, n, p)|)
  {
    var h, l := View(mem), Listing(View(mem), root);
    var c := FirstNot(l, 0, |l|, k, upper);
    if p > 0 {
      ValueAt(mem, root, Iter(n, p - 1));
      assert Passes(upper, mem.rec[n].values[p - 1].key, k);
      PassedBefore(l, k, upper, |Prefix(h, root, n, p - 1)|);
    }
    if p < mem.rec[n].count {
      ValueAt(mem, root, Iter(n, p));
      PassedBefore(l, k, upper, |Prefix(h, root, n, p)|);
    }
  }

  /** The leaf place where k would go. */
  method Locate(mem: Memory, root: Ptr, k: int, upper: bool) returns (node: Ptr, position: nat)
    requires mem.Ok() && Shape(View(mem), root) && Sorted(Listing(View(mem), root))
    ensures node in mem.rec && mem.rec[node].leaf && position <= mem.rec[node].count
    ensures var l := Listing(View(mem), root);
      |Prefix(View(mem), root, node, position)| == FirstNot(l, 0, |l|, k, upper)
  {
    ghost var h, l := View(mem), Listing(View(mem), root);
    ghost var c := FirstNot(l, 0, |l|, k, upper);
    node := root;
    ListingAround(h, root, root);
    while true
      invariant node in mem.rec && |Before(h, root, node)| <= c <= |Before(h, root, node)| + |Listing(h, node)|
      decreases h[node].lvl
    {
      position := LinearSearchPlain(mem.rec[node].values, 0, mem.rec[node].count, k, upper);
      NodeBoundary(mem, root, node, k, upper, position);
      PrefixEnd(h, root, node);
      if mem.rec[node].leaf {
        if position > 0 { LeafPrefixStep(mem, root, node, position - 1); }
        PrefixFirst(h, root, node);
        break;
      }
      ChildPlace(h, root, node, position);
      var child := mem.rec[node].children[position];
      assert mem.rec[node].Kids()[position] == child;
      PrefixEnd(h, root, child);
      node := child;
    }
  }

  /** From a place behind a node's last value up to the value it is in front of; NULL if there is none. */
  method InternalLast(mem: Memory, root: Ptr, start: Ptr, at: nat) returns (it: Iter)
    requires mem.Ok() && Shape(View(mem), root) && start in mem.rec && at <= mem.rec[start].count
    ensures it.node == NULL ==> Prefix(View(mem), root, start, at) == Listing(View(mem), root)
    ensures it.node != NULL ==> At(mem, it) && PrefixAt(mem, root, it) == Prefix(View(mem), root, start, at)
  {
    ghost var h := View(mem);
    var node: Ptr, position: nat := start, at;
    while position == mem.rec[node].count
      invariant node in mem.rec && position <= mem.rec[node].count
      invariant Prefix(h, root, node, position) == Prefix(h, root, start, at)
      decreases h[root].lvl - h[node].lvl
    {
      RootTest(mem, root, node);
      if node != root {
        PrefixUp(h, root, node);
        UpStep(h, root, node);
      } else {
        EndPrefix(mem, root, root);
      }
      position := mem.up[node].position;
      node := mem.up[node].parent;
      if mem.rec[node].leaf {
        return Iter(NULL, position);
      }
    }
    return Iter(node, position);
  }

  /** The first value not passed by the search, or NULL. */
  method Bound(mem: Memory, root: Ptr, k: int, upper: bool) returns (it: Iter)
    requires mem.Ok() && Shape(View(mem), root) && Sorted(Listing(View(mem), root))
    ensures var l := Listing(View(mem), root); var c := FirstNot(l, 0, |l|, k, upper);
      if it.node == NULL then c == |l| else At(mem, it) && |PrefixAt(mem, root, it)| == c
  {
    var node, position := Locate(mem, root, k, upper);
    it := InternalLast(mem, root, node, position);
  }
}
