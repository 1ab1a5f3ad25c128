// The B-tree multimap: its operations are those of a sorted sequence.
module BTreeMultimap {
  import opened BTreeWeave
  import opened BTreeHeap
  import opened BTreeGap
  import opened BTreeNode
  import opened BTreeTree
  import opened BTreeRoom
  import opened BTreeWalk
  import opened BTreeOrder
  import opened BTreeSearch
  import opened BTreeInsert
  import opened BTreeMend
  import opened BTreeRemove

  function Inserting(l: seq<Entry>, i: nat, v: Entry): seq<Entry>
    requires i <= |l|
  {
    l[..i] + [v] + l[i..]
  }

  /** v may stand before rank i of the sorted l. */
  predicate Fits(l: seq<Entry>, i: nat, v: Entry) {
    i <= |l| && (forall j | 0 <= j < i :: l[j].key <= v.key) && (forall j | i <= j < |l| :: v.key <= l[j].key)
  }

  lemma InsertingSorted(l: seq<Entry>, i: nat, v: Entry)
    requires Sorted(l) && Fits(l, i, v)
    ensures Sorted(Inserting(l, i, v))
  {
    var m := Inserting(l, i, v);
    forall a, b | 0 <= a < b < |m| ensures m[a].key <= m[b].key {
      assert m[a] == if a < i then l[a] else if a == i then v else l[a - 1];
      assert m[b] == if b < i then l[b] else if b == i then v else l[b - 1];
    }
  }

  lemma RemovingSorted(l: seq<Entry>, i: nat)
    requires Sorted(l) && i < |l|
    ensures Sorted(Removing(l, i))
  {
    var m := Removing(l, i);
    forall a, b | 0 <= a < b < |m| ensures m[a].key <= m[b].key {
      assert m[a] == l[if a < i then a else a + 1] && m[b] == l[if b < i then b else b + 1];
    }
  }

  /** The place behind all values with v's key or a smaller one fits v. */
  lemma UpperFits(l: seq<Entry>, v: Entry)
    requires Sorted(l)
    ensures Fits(l, FirstNot(l, 0, |l|, v.key, true), v)
    ensures forall j | 0 <= j < |l| :: l[j].key <= v.key <==> j < FirstNot(l, 0, |l|, v.key, true)
  {
    forall j | 0 <= j < |l| ensures l[j].key <= v.key <==> j < FirstNot(l, 0, |l|, v.key, true) {
      PassedBefore(l, v.key, true, j);
    }
  }

  /** What insertion leaves behind: the tree with v at rank i of l, and the iterator on it. */
  ghost predicate Inserted(r: Memory, root: Ptr, rm: Ptr, size: nat, k: nat, it: Iter, l: seq<Entry>, i: nat, v: Entry)
    requires i <= |l|
  {
    && Tree(r, root, k, NULL) && RightEdge(r, root, rm) && Listing(View(r), root) == Inserting(l, i, v)
    && At(r, it) && |PrefixAt(r, root, it)| == i && (!r.rec[root].leaf ==> size == |l| + 1)
    && Sorted(Inserting(l, i, v))
  }

  /** v goes in front of `at`, which has rank i among l. */
  method InsertAt(mem: Memory, root: Ptr, rm: Ptr, size: nat, k: nat, at: Iter, v: Entry,
      ghost l: seq<Entry>, ghost i: nat)
      returns (r: Memory, root': Ptr, rm': Ptr, size': nat, it: Iter)
    requires root in mem.rec && Tree(mem, root, k, MaybeEmpty(mem, root)) && RightEdge(mem, root, rm)
    requires At(mem, at) || AtEnd(mem, root, at)
    requires l == Listing(View(mem), root) && i == |PrefixAt(mem, root, at)| && (!mem.rec[root].leaf ==> size == |l|)
    requires Sorted(l) && Fits(l, i, v)
    ensures i <= |l| && Inserted(r, root', rm', size', k, it, l, i, v)
  {
    InsertingSorted(l, i, v);
    r, root', rm', size', it := InternalInsert(mem, root, rm, size, k, at, v);
  }

  /** Behind the last value of a leaf: step on from that value. */
  method StepOn(mem: Memory, root: Ptr, k: nat, at: Iter) returns (it: Iter)
    requires Tree(mem, root, k, NULL) && at.node in mem.rec
    requires mem.rec[at.node].leaf && 0 <= at.position <= mem.rec[at.node].count
    ensures (At(mem, it) || AtEnd(mem, root, it)) && PrefixAt(mem, root, it) == PrefixAt(mem, root, at)
  {
    it := at;
    if at.position == mem.rec[at.node].count {
      assert mem.rec[at.node].count >= 1;
      LeafPrefixStep(mem, root, at.node, at.position - 1);
      it := Increment(mem, root, k, Iter(at.node, at.position - 1));
    }
  }

  /** The value at it goes, after an internal one has changed places with the one before it. */
  method TakeOut(mem: Memory, root: Ptr, rm: Ptr, k: nat, it: Iter)
      returns (r: Memory, iter: Iter, internal: bool, ghost pre: seq<Entry>)
    requires Tree(mem, root, k, NULL) && RightEdge(mem, root, rm) && At(mem, it)
    ensures iter.node in r.rec && 0 <= iter.position && Tree(r, root, k, iter.node) && RightEdge(r, root, rm)
    ensures r.rec[root].leaf == mem.rec[root].leaf
    ensures var l, i := Listing(View(mem), root), |PrefixAt(mem, root, it)|;
      i < |l| && Placed(r, root, iter.node, iter.position, Removing(l, i), pre)
        && i == |pre| + if internal then 1 else 0
  {
    ghost var l, i := Listing(View(mem), root), |PrefixAt(mem, root, it)|;
    ValueAt(mem, root, it);
    iter, internal, r := it, false, mem;
    if !mem.rec[it.node].leaf {
      ChildPlaceNotEmpty(mem, root, k, it);
      iter := Decrement(mem, root, k, it);
      r := SwapValues(mem, root, k, it, iter);
      internal := true;
    }
    ghost var j, l1 := |PrefixAt(r, root, iter)|, Listing(View(r), root);
    r := RemoveValue(r, root, k, iter.node, iter.position);
    SwappedOut(l, l1, i, j, internal);
    pre := l1[..j];
  }

  /** What erase leaves behind: the tree without value i of l, and the iterator in front of what followed it. */
  ghost predicate Erased(r: Memory, root: Ptr, rm: Ptr, size: nat, k: nat, res: Iter, l: seq<Entry>, i: nat)
    requires i < |l|
  {
    if root == NULL then Removing(l, i) == [] && i == 0 && r == Memory(map[], map[]) && res == Iter(NULL, 0)
    else
      && Tree(r, root, k, NULL) && RightEdge(r, root, rm) && Listing(View(r), root) == Removing(l, i)
      && (At(r, res) || AtEnd(r, root, res)) && |PrefixAt(r, root, res)| == i
      && (!r.rec[root].leaf ==> size == |l| - 1)
  }

  method EraseAt(mem: Memory, root: Ptr, rm: Ptr, size: nat, k: nat, it: Iter)
    returns (r: Memory, root': Ptr, rm': Ptr, size': nat, res: Iter)
    requires root != NULL && Tree(mem, root, k, NULL) && RightEdge(mem, root, rm) && At(mem, it)
    requires !mem.rec[root].leaf ==> size == |Listing(View(mem), root)|
    ensures |PrefixAt(mem, root, it)| < |Listing(View(mem), root)|
    ensures Erased(r, root', rm', size', k, res, Listing(View(mem), root), |PrefixAt(mem, root, it)|)
  {
    ghost var l, i := Listing(View(mem), root), |PrefixAt(mem, root, it)|;
    ValueAt(mem, root, it);
    size' := size;
    if !mem.rec[root].leaf {
      size' := size - 1;
    }
    var iter, internal;
    ghost var pre;
    r, iter, internal, pre := TakeOut(mem, root, rm, k, it);
    r, root', rm', res := MendUp(r, root, rm, k, iter, Removing(l, i), pre);
    if root' == NULL {
      res := Iter(NULL, 0);
      assert |Removing(l, i)| == |l| - 1;
      return;
    }
    res := StepOn(r, root', k, res);
    if internal {
      res := StepOver(r, root', k, res, |pre|);
    }
  }

  /** Removing a value that has changed places with the one before it. */
  lemma SwappedOut(l: seq<Entry>, m: seq<Entry>, i: nat, j: nat, internal: bool)
    requires i < |l| && (if internal then i == j + 1 && m == l[i := l[j]][j := l[i]] else i == j && m == l)
    ensures j < |m| && Removing(m, j) == Removing(l, i)
    ensures Removing(l, i) == [] ==> i == 0
  {
    if Removing(l, i) == [] { assert |Removing(l, i)| == |l| - 1; }
  }

  method StepOver(mem: Memory, root: Ptr, k: nat, it: Iter, ghost j: nat) returns (next: Iter)
    requires Tree(mem, root, k, NULL) && (At(mem, it) || AtEnd(mem, root, it))
    requires |PrefixAt(mem, root, it)| == j < |Listing(View(mem), root)|
    ensures (At(mem, next) || AtEnd(mem, root, next)) && |PrefixAt(mem, root, next)| == j + 1
  {
    if AtEnd(mem, root, it) {
      EndPrefix(mem, root, it.node);
    }
    next := Increment(mem, root, k, it);
  }

  /** The first root: a leaf with room for one value. */
  method FirstRoot(k: nat) returns (mem: Memory, root: Ptr)
    requires k >= 3
    ensures root in mem.rec && root != NULL && mem.rec[root].leaf && mem.rec[root].maxCount == 1
    ensures Tree(mem, root, k, root) && (forall rm :: RightEdge(mem, root, rm)) && Listing(View(mem), root) == []
    ensures AtEnd(mem, root, Iter(root, 0)) && PrefixAt(mem, root, Iter(root, 0)) == []
  {
    root := Allocate(Memory(map[], map[]));
    mem := Memory(map[root := NewLeaf(1)], map[root := Link(root, 0)]);
    assert LinksOK(View(mem), root) && UpOK(View(mem), root, root);
  }

  class BTree {
    const kNodeValues: nat
    var mem: Memory
    var root: Ptr
    var rightmost: Ptr // kept for an internal root only
    var size: nat      // likewise

    ghost predicate Valid()
      reads this
    {
      kNodeValues >= 3 &&
      if root == NULL then mem == Memory(map[], map[])
      else
        && Tree(mem, root, kNodeValues, NULL) && RightEdge(mem, root, rightmost)
        && Sorted(Listing(View(mem), root))
        && (!mem.rec[root].leaf ==> size == |Listing(View(mem), root)|)
    }

    ghost function Contents(): seq<Entry>
      reads this
      requires Valid()
    {
      if root == NULL then [] else Listing(View(mem), root)
    }

    /** How many values are before it; defined on values and at the end. */
    ghost function Rank(it: Iter): nat
      reads this
      requires Valid() && root != NULL && it.node in mem.rec && 0 <= it.position <= mem.rec[it.node].count
    {
      |PrefixAt(mem, root, it)|
    }

    /** it is the iterator in front of rank i: a value's, or the end. */
    ghost predicate Points(it: Iter, i: nat)
      reads this
      requires Valid()
    {
      if root == NULL then i == 0 && it == Iter(NULL, 0)
      else (At(mem, it) || AtEnd(mem, root, it)) && Rank(it) == i
    }

    constructor (nodeValues: nat)
      requires nodeValues >= 3
      ensures Valid() && Contents() == [] && kNodeValues == nodeValues
    {
      kNodeValues := nodeValues;
      mem, root, rightmost, size := Memory(map[], map[]), NULL, NULL, 0;
    }

    /** An iterator before the end points at the value of its rank, and there is only one. */
    lemma PointsUnique(x: Iter, y: Iter, i: nat)
      requires Valid() && Points(x, i) && Points(y, i)
      ensures x == y
      ensures i < |Contents()| ==> At(mem, x) && mem.rec[x.node].values[x.position] == Contents()[i]
      ensures i <= |Contents()|
    {
      if root != NULL {
        PointsWhere(x, i);
        PointsWhere(y, i);
        if i < |Contents()| {
          PlaceUnique(mem, root, x, y);
        } else {
          RightEdgeUnique(View(mem), root, x.node, y.node);
        }
      }
    }

    lemma PointsWhere(x: Iter, i: nat)
      requires Valid() && Points(x, i) && root != NULL
      ensures i <= |Contents()| && (i < |Contents()| <==> At(mem, x)) && (i == |Contents()| <==> AtEnd(mem, root, x))
      ensures At(mem, x) ==> mem.rec[x.node].values[x.position] == Contents()[i]
      ensures AtEnd(mem, root, x) ==> View(mem)[x.node].lvl == 0
    {
      if At(mem, x) { ValueAt(mem, root, x); }
      if AtEnd(mem, root, x) {
        EndPrefix(mem, root, x.node);
        assert LinksOK(View(mem), x.node);
      }
    }

    method Size() returns (n: nat)
      requires Valid()
      ensures n == |Contents()|
    {
      if root == NULL {
        return 0;
      }
      assert LinksOK(View(mem), root);
      n := if mem.rec[root].leaf then mem.rec[root].count else size;
    }

    method Begin() returns (it: Iter)
      requires Valid()
      ensures Points(it, 0)
    {
      if root == NULL {
        return Iter(NULL, 0);
      }
      it := Iter(mem.up[root].parent, 0);
      assert mem.rec[it.node].count >= 1;
      PrefixFirst(View(mem), root, it.node);
    }

    method End() returns (it: Iter)
      requires Valid()
      ensures Points(it, |Contents()|)
    {
      if root == NULL {
        return Iter(NULL, 0);
      }
      var last := if mem.rec[root].leaf then root else rightmost;
      EndPrefix(mem, root, last);
      it := Iter(last, mem.rec[last].count);
    }

    /** lower_bound, or with upper set upper_bound. */
    method BoundOrEnd(key: int, upper: bool) returns (it: Iter)
      requires Valid()
      ensures Points(it, FirstNot(Contents(), 0, |Contents()|, key, upper))
      ensures forall j | 0 <= j < |Contents()| ::
        Passes(upper, Contents()[j].key, key) <==> j < FirstNot(Contents(), 0, |Contents()|, key, upper)
    {
      forall j | 0 <= j < |Contents()|
        ensures Passes(upper, Contents()[j].key, key) <==> j < FirstNot(Contents(), 0, |Contents()|, key, upper)
      {
        PassedBefore(Contents(), key, upper, j);
      }
      if root == NULL {
        it := End();
        return;
      }
      it := Bound(mem, root, key, upper);
      if it.node == NULL {
        it := End();
      }
    }

    /** insert_multi: behind all values with an equal key. */
    method InsertMulti(v: Entry) returns (it: Iter)
      requires Valid()
      modifies this
      ensures Valid() && Sorted(old(Contents()))
      ensures var i := FirstNot(old(Contents()), 0, |old(Contents())|, v.key, true);
        && (forall j | 0 <= j < |old(Contents())| :: old(Contents())[j].key <= v.key <==> j < i)
        && Contents() == Inserting(old(Contents()), i, v) && Points(it, i) && At(mem, it)
    {
      UpperFits(Contents(), v);
      mem, root, rightmost, size, it := InsertBehind(v);
    }

    method InsertBehind(v: Entry) returns (r: Memory, root': Ptr, rm': Ptr, size': nat, it: Iter)
      requires Valid()
      ensures var i := FirstNot(Contents(), 0, |Contents()|, v.key, true);
        i <= |Contents()| && Inserted(r, root', rm', size', kNodeValues, it, Contents(), i, v)
    {
      UpperFits(Contents(), v);
      ghost var l := Contents();
      ghost var i := FirstNot(l, 0, |l|, v.key, true);
      var m, top, at := UpperPlace(v.key);
      r, root', rm', size', it := InsertAt(m, top, rightmost, size, kNodeValues, at, v, l, i);
    }

    /** Behind all values with the key or a smaller one, in a tree that has got a root if it had none. */
    method UpperPlace(key: int) returns (m: Memory, top: Ptr, at: Iter)
      requires Valid()
      ensures top in m.rec && Tree(m, top, kNodeValues, MaybeEmpty(m, top)) && RightEdge(m, top, rightmost)
      ensures (At(m, at) || AtEnd(m, top, at)) && (!m.rec[top].leaf ==> size == |Contents()|)
      ensures Listing(View(m), top) == Contents()
      ensures |PrefixAt(m, top, at)| == FirstNot(Contents(), 0, |Contents()|, key, true)
    {
      m, top := mem, root;
      if root == NULL {
        m, top := FirstRoot(kNodeValues);
        at := Iter(top, 0);
      } else {
        at := BoundOrEnd(key, true);
      }
    }

    /** erase: the value at it goes; the result points at the one that followed it, or is the end. */
    method Erase(it: Iter) returns (res: Iter)
      requires Valid() && root != NULL && At(mem, it)
      modifies this
      ensures Valid() && old(Rank(it)) < |old(Contents())|
      ensures Contents() == Removing(old(Contents()), old(Rank(it))) && Points(res, old(Rank(it)))
    {
      ghost var l, i := Contents(), Rank(it);
      mem, root, rightmost, size, res := EraseAt(mem, root, rightmost, size, kNodeValues, it);
      RemovingSorted(l, i);
    }
  }
}
