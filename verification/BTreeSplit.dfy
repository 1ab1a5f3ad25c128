// Splitting a node and merging two, in place: records and back links.
module BTreeSplit {
  import opened BTreeWeave
  import opened BTreeHeap
  import opened BTreeCut
  import opened BTreeNode

  /** r is mem with node a cut in two around d: b is new, d and b go into a's parent p after slot i. */
  ghost predicate CutMemory(mem: Memory, r: Memory, p: Ptr, i: nat, a: Ptr, d: Entry, b: Ptr) {
    && mem.Ok() && r.Ok() && b !in mem.rec && r.rec.Keys == mem.rec.Keys + {b} && p in mem.rec && a in mem.rec && p != a
    && SameKind(r.rec[p], mem.rec[p]) && SameKind(r.rec[a], mem.rec[a])
    && r.rec[b].leaf == mem.rec[a].leaf && r.rec[b].level == mem.rec[a].level
    && i < |mem.rec[p].Kids()| && mem.rec[p].Kids()[i] == a && i <= mem.rec[p].count
    && r.rec[p].Vals() == mem.rec[p].Vals()[..i] + [d] + mem.rec[p].Vals()[i..]
    && r.rec[p].Kids() == mem.rec[p].Kids()[..i + 1] + [b] + mem.rec[p].Kids()[i + 1..]
    && mem.rec[a].Vals() == r.rec[a].Vals() + [d] + r.rec[b].Vals()
    && mem.rec[a].Kids() == r.rec[a].Kids() + r.rec[b].Kids()
    && (forall n {:trigger r.rec[n]} | n in mem.rec && n != a && n != p :: r.rec[n] == mem.rec[n])
    && (forall n {:trigger r.up[n]} | n in mem.rec && n !in mem.rec[a].Kids() && n !in mem.rec[p].Kids() ::
         r.up[n] == mem.up[n])
  }

  lemma CutMemoryCuts(mem: Memory, r: Memory, p: Ptr, i: nat, a: Ptr, d: Entry, b: Ptr)
    requires CutMemory(mem, r, p, i, a, d, b)
    requires LinksOK(View(r), a) && LinksOK(View(r), b) && LinksOK(View(r), p)
    ensures CutLocal(View(mem), View(r), p, i, a, d, b)
  {
    var h, g := View(mem), View(r);
    forall n | n in h && n != a && n != p ensures SameContent(h, g, n) {
      assert r.rec[n] == mem.rec[n];
    }
    forall n | n in h && n !in h[a].kids && n !in h[p].kids ensures SameUp(h, g, n) {
      assert r.up[n] == mem.up[n];
      if n != a && n != p { assert r.rec[n] == mem.rec[n]; }
    }
  }

  predicate KidsAt(r: Memory, n: Ptr)
    requires r.Ok() && n in r.rec
  {
    var x := r.rec[n];
    (x.leaf <==> x.level == 0) && KidsLinked(r, n) && forall c | c in x.Kids() ::
      c in r.rec && r.rec[c].level + 1 == x.level
  }

  lemma LinksBuilt(r: Memory, n: Ptr)
    requires r.Ok() && n in r.rec && KidsAt(r, n)
    ensures LinksOK(View(r), n)
  {
    var g := View(r);
    forall j | 0 <= j < |g[n].kids| ensures KidOK(g, n, g[n].kids[j], j) {
      var c := r.rec[n].Kids()[j];
      assert c in r.rec[n].Kids() && r.up[c] == Link(n, j);
    }
  }

  lemma LinksRead(r: Memory, n: Ptr)
    requires r.Ok() && n in r.rec && LinksOK(View(r), n)
    ensures KidsAt(r, n) && Distinct(r.rec[n].Kids())
  {
    var g := View(r);
    KidFacts(g, n);
    var ks := r.rec[n].Kids();
    forall k | 0 <= k < |ks| ensures ks[k] in r.up && r.up[ks[k]] == Link(n, k) {
      assert KidOK(g, n, g[n].kids[k], k);
    }
  }

  /** A value d and a child c go into q, the parent p, behind child i. */
  method InsertInParent(q: Rec, p: Ptr, i: nat, d: Entry, c: Ptr, up: map<Ptr, Link>)
      returns (q': Rec, up': map<Ptr, Link>)
    requires q.Ok() && !q.leaf && i <= q.count < q.maxCount && c !in up && Distinct(q.Kids())
    requires forall k {:trigger q.children[k]} | 0 <= k <= q.count ::
      q.children[k] in up && up[q.children[k]] == Link(p, k)
    ensures q'.Ok() && Inserted(q, q', p, i, d, c, up, up')
  {
    var qv := InsertSlot(q.values, q.count, i, Entry(0, 0));
    qv := qv[i := d];
    InsertedSlot(q.values, q.count, i, d, qv[..q.count + 1], qv);
    var qc: seq<Ptr>;
    up', qc := InsertChild(up, p, q.children, i, q.count, c);
    q' := q.(values := qv, children := qc, count := q.count + 1);
    InsertedBuilt(q, q', p, i, d, c, up, up');
  }

  lemma InsertedBuilt(q: Rec, q': Rec, p: Ptr, i: nat, d: Entry, c: Ptr, up: map<Ptr, Link>, up': map<Ptr, Link>)
    requires q.Ok() && !q.leaf && i <= q.count < q.maxCount
    requires q' == q.(values := q'.values, children := q'.children, count := q.count + 1)
    requires |q'.values| == |q.values| && |q'.children| == |q.children|
    requires q'.values[..q.count + 1] == q.values[..q.count][..i] + [d] + q.values[..q.count][i..]
    requires var cs := q.children[..q.count + 1]; q'.children[..q.count + 2] == cs[..i + 1] + [c] + cs[i + 1..]
    requires up'.Keys == up.Keys + {c}
    requires forall k {:trigger q'.children[..q.count + 2][k]} | 0 <= k <= q.count + 1 ::
      q'.children[..q.count + 2][k] in up' && up'[q'.children[..q.count + 2][k]] == Link(p, k)
    requires forall x {:trigger up'[x]} | x in up && x !in q.children[..q.count + 1] :: up'[x] == up[x]
    ensures q'.Ok() && Inserted(q, q', p, i, d, c, up, up')
  {
    assert q'.Kids() == q'.children[..q.count + 2];
  }

  method InsertChild(up: map<Ptr, Link>, p: Ptr, cs: seq<Ptr>, i: nat, n: nat, c: Ptr)
      returns (up': map<Ptr, Link>, ds: seq<Ptr>)
    requires i <= n && n + 1 < |cs| && c !in up && Distinct(cs[..n + 1])
    requires forall k {:trigger cs[k]} | 0 <= k <= n :: cs[k] in up && up[cs[k]] == Link(p, k)
    ensures |ds| == |cs| && ds[..n + 2] == cs[..n + 1][..i + 1] + [c] + cs[..n + 1][i + 1..]
    ensures up'.Keys == up.Keys + {c}
    ensures forall k {:trigger ds[..n + 2][k]} | 0 <= k <= n + 1 ::
      ds[..n + 2][k] in up' && up'[ds[..n + 2][k]] == Link(p, k)
    ensures forall x {:trigger up'[x]} | x in up && x !in cs[..n + 1] :: up'[x] == up[x]
  {
    up', ds := OpenChildSlot(up, p, cs, i + 1, n + 1);
    ghost var up1 := up';
    ds := ds[i + 1 := c];
    up' := up'[c := Link(p, i + 1)];
    assert ds[..n + 2] == cs[..i + 1] + [c] + cs[i + 1..n + 1];
    assert cs[..n + 1][..i + 1] == cs[..i + 1] && cs[..n + 1][i + 1..] == cs[i + 1..n + 1];
    InsertedChild(up, up1, cs, ds[..n + 2], p, i, n, c);
  }

  lemma InsertedSlot(vs: seq<Entry>, n: nat, i: nat, d: Entry, ws: seq<Entry>, us: seq<Entry>)
    requires i <= n < |vs| == |us| && ws == us[..n + 1]
    requires us[i] == d && (forall k | 0 <= k < i :: us[k] == vs[k])
    requires forall k {:trigger us[k]} | i < k <= n :: us[k] == vs[k - 1]
    ensures ws == vs[..n][..i] + [d] + vs[..n][i..]
  {}

  lemma InsertedChild(up: map<Ptr, Link>, up1: map<Ptr, Link>, cs: seq<Ptr>,
      ds: seq<Ptr>, p: Ptr, i: nat, n: nat, c: Ptr)
    requires i <= n && n + 1 < |cs| && c !in up && Distinct(cs[..n + 1])
    requires forall k {:trigger cs[k]} | 0 <= k <= n :: cs[k] in up && up[cs[k]] == Link(p, k)
    requires ds == cs[..i + 1] + [c] + cs[i + 1..n + 1] && up1.Keys == up.Keys
    requires forall k {:trigger cs[k]} | i + 1 <= k <= n :: up1[cs[k]] == Link(p, k + 1)
    requires forall x {:trigger up1[x]} | x in up && x !in cs[i + 1..n + 1] :: up1[x] == up[x]
    ensures var up' := up1[c := Link(p, i + 1)];
      && (forall k {:trigger ds[k]} | 0 <= k <= n + 1 :: ds[k] in up' && up'[ds[k]] == Link(p, k))
      && (forall x {:trigger up'[x]} | x in up && x !in cs[..n + 1] :: up'[x] == up[x])
  {
    var up' := up1[c := Link(p, i + 1)];
    var ks := cs[..n + 1];
    forall k | 0 <= k <= n + 1 ensures ds[k] in up' && up'[ds[k]] == Link(p, k) {
      if k <= i {
        assert ds[k] == cs[k] == ks[k];
        forall j | i + 1 <= j <= n ensures cs[j] != cs[k] { assert ks[j] == cs[j]; }
        assert cs[k] !in cs[i + 1..n + 1];
      } else if k > i + 1 {
        assert ds[k] == cs[k - 1];
      }
    }
    forall x | x in up && x !in ks ensures up'[x] == up[x] {
      forall j | i + 1 <= j <= n ensures cs[j] != x { assert ks[j] == cs[j]; }
      assert x !in cs[i + 1..n + 1];
    }
  }

  /** How many values the right half of a split gets: biased by where the insertion will happen. */
  function DestCount(count: nat, maxCount: nat, insertPosition: nat): (c: nat)
    requires count >= 1
    ensures c < count
    ensures if insertPosition == 0 then c + 1 == count
      else if insertPosition == maxCount then c == 0 else c == count - c || c == count - c - 1
  {
    if insertPosition == 0 then count - 1 else if insertPosition == maxCount then 0 else count / 2
  }

  /** c, with its value d before it, has gone into q behind child i: the outcome of InsertInParent. */
  ghost predicate Inserted(q: Rec, q': Rec, p: Ptr, i: nat, d: Entry, c: Ptr, up: map<Ptr, Link>, up': map<Ptr, Link>)
    requires q.Ok() && q'.Ok()
  {
    && SameKind(q', q) && !q.leaf && q'.count == q.count + 1 && i <= q.count
    && q'.Vals() == q.Vals()[..i] + [d] + q.Vals()[i..]
    && q'.Kids() == q.Kids()[..i + 1] + [c] + q.Kids()[i + 1..]
    && up'.Keys == up.Keys + {c}
    && (forall k {:trigger q'.Kids()[k]} | 0 <= k <= q.count + 1 ::
         q'.Kids()[k] in up' && up'[q'.Kids()[k]] == Link(p, k))
    && (forall x {:trigger up'[x]} | x in up && x !in q.Kids() :: up'[x] == up[x])
  }

  /** a keeps k values and b gets those after value k: the outcome of SplitOff. */
  ghost predicate Parted(a: Rec, a': Rec, b': Rec, b: Ptr, k: nat, up: map<Ptr, Link>, up': map<Ptr, Link>)
    requires a.Ok() && a'.Ok() && b'.Ok()
  {
    && SameKind(a', a) && SameKind(b', a) && k < a.count && a'.count == k && b'.count == a.count - k - 1
    && a'.Vals() == a.Vals()[..k] && b'.Vals() == a.Vals()[k + 1..]
    && (a.leaf ==> a'.Kids() == b'.Kids() == [])
    && (!a.leaf ==> a'.Kids() == a.Kids()[..k + 1] && b'.Kids() == a.Kids()[k + 1..])
    && up'.Keys == up.Keys
    && (forall j {:trigger b'.Kids()[j]} | 0 <= j < |b'.Kids()| ::
         b'.Kids()[j] in up' && up'[b'.Kids()[j]] == Link(b, j))
    && (forall x {:trigger up'[x]} | x in up && x !in b'.Kids() :: up'[x] == up[x])
  }

  /** The upper dc values of a, and the children among them, move to the new node dest. */
  method SplitOff(a: Rec, dest: Ptr, dc: nat, k: nat, up: map<Ptr, Link>)
      returns (a': Rec, b': Rec, up': map<Ptr, Link>)
    requires a.Ok() && (a.leaf ==> a.level == 0) && dc < a.count && k == a.count - dc - 1
    requires Distinct(a.Kids()) && forall c | c in a.Kids() :: c in up
    ensures a'.Ok() && b'.Ok() && Parted(a, a', b', dest, k, up, up')
  {
    var b := if a.leaf then NewLeaf(a.maxCount) else NewInternal(a.maxCount, a.level);
    var av, bv := SwapRange(a.values, a.count - dc, b.values, 0, dc);
    av := av[k := Entry(0, 0)];
    assert bv[..dc] == a.values[..a.count][k + 1..];
    var ac, bc := a.children, b.children;
    up' := up;
    if !a.leaf {
      up', bc, ac := SplitOffKids(a, dest, dc, k, up, b.children);
    }
    a', b' := a.(values := av, children := ac, count := k), b.(values := bv, children := bc, count := dc);
  }

  method SplitOffKids(a: Rec, dest: Ptr, dc: nat, k: nat, up: map<Ptr, Link>, ds: seq<Ptr>)
      returns (up': map<Ptr, Link>, bc: seq<Ptr>, ac: seq<Ptr>)
    requires a.Ok() && !a.leaf && dc < a.count && k == a.count - dc - 1 && |ds| == a.maxCount + 1
    requires Distinct(a.Kids()) && forall c | c in a.Kids() :: c in up
    ensures |ac| == |a.children| && |bc| == |ds| && ac[..k + 1] == a.Kids()[..k + 1]
    ensures bc[..dc + 1] == a.Kids()[k + 1..]
    ensures up'.Keys == up.Keys
    ensures forall j {:trigger bc[..dc + 1][j]} | 0 <= j <= dc ::
      bc[..dc + 1][j] in up' && up'[bc[..dc + 1][j]] == Link(dest, j)
    ensures forall x {:trigger up'[x]} | x in up && x !in bc[..dc + 1] :: up'[x] == up[x]
  {
    up', bc, ac := AdoptKids(up, dest, ds, 0, a.children, k + 1, dc + 1, true, a.Kids()[k + 1..]);
    assert bc[..dc + 1] == a.Kids()[k + 1..];
    assert ac[..k + 1] == a.Kids()[..k + 1];
  }

  ghost predicate SplitReady(mem: Memory, p: Ptr, i: nat, node: Ptr, dest: Ptr) {
    && mem.Ok() && p in mem.rec && node in mem.rec && dest !in mem.rec && dest != NULL && p != node
    && KidsAt(mem, p) && KidsAt(mem, node) && !mem.rec[p].leaf
    && i <= mem.rec[p].count && mem.rec[p].Kids()[i] == node
    && Distinct(mem.rec[p].Kids()) && Distinct(mem.rec[node].Kids())
    && (forall c | c in mem.rec[node].Kids() :: c != p && c != node && c !in mem.rec[p].Kids())
    && (forall c | c in mem.rec[p].Kids() :: c != p)
  }

  lemma SplitReadyView(mem: Memory, p: Ptr, i: nat, node: Ptr, dest: Ptr)
    requires mem.Ok() && p in mem.rec && node in mem.rec && dest !in mem.rec && dest != NULL
    requires LinksOK(View(mem), p) && LinksOK(View(mem), node)
    requires i < |mem.rec[p].Kids()| && mem.rec[p].Kids()[i] == node
    ensures SplitReady(mem, p, i, node, dest)
  {
    LinksRead(mem, p);
    LinksRead(mem, node);
    assert node in mem.rec[p].Kids();
  }

  ghost predicate SplitDone(mem: Memory, r: Memory, p: Ptr, i: nat, a: Ptr, b: Ptr,
      k: nat, q': Rec, a': Rec, b': Rec, up1: map<Ptr, Link>)
    requires SplitReady(mem, p, i, a, b)
  {
    && r.rec == mem.rec[p := q'][a := a'][b := b'] && q'.Ok() && a'.Ok() && b'.Ok() && k < mem.rec[a].count
    && Inserted(mem.rec[p], q', p, i, mem.rec[a].values[k], b, mem.up, up1)
    && Parted(mem.rec[a], a', b', b, k, up1, r.up)
  }

  lemma SplitCut(mem: Memory, r: Memory, p: Ptr, i: nat, a: Ptr, b: Ptr, k: nat,
      q': Rec, a': Rec, b': Rec, up1: map<Ptr, Link>)
    requires SplitReady(mem, p, i, a, b) && SplitDone(mem, r, p, i, a, b, k, q', a', b', up1)
    ensures CutMemory(mem, r, p, i, a, mem.rec[a].values[k], b)
  {
    ThreeRecs(mem, r, p, a, b, q', a', b');
    PartedWhole(mem.rec[a], a', b', b, k, up1, r.up);
    SplitUps(mem, r, p, i, a, b, k, q', a', b', up1);
  }

  /** The two halves and the value between them are the node that was split. */
  lemma PartedWhole(a: Rec, a': Rec, b': Rec, b: Ptr, k: nat, up: map<Ptr, Link>, up': map<Ptr, Link>)
    requires a.Ok() && a'.Ok() && b'.Ok() && Parted(a, a', b', b, k, up, up')
    ensures a.Vals() == a'.Vals() + [a.values[k]] + b'.Vals() && a.Kids() == a'.Kids() + b'.Kids()
  {
    assert a.Vals()[k] == a.values[k];
    SliceAll(a.Vals(), k);
  }

  lemma SliceAll(vs: seq<Entry>, k: nat)
    requires k < |vs|
    ensures vs == vs[..k] + [vs[k]] + vs[k + 1..]
  {}

  lemma ThreeRecs(mem: Memory, r: Memory, p: Ptr, a: Ptr, b: Ptr, q': Rec, a': Rec, b': Rec)
    requires mem.Ok() && p in mem.rec && a in mem.rec && b !in mem.rec && b != NULL && p != a
    requires q'.Ok() && a'.Ok() && b'.Ok()
    requires r.rec == mem.rec[p := q'][a := a'][b := b'] && r.up.Keys == mem.up.Keys + {b}
    ensures r.Ok() && r.rec.Keys == mem.rec.Keys + {b} && r.rec[p] == q' && r.rec[a] == a' && r.rec[b] == b'
    ensures forall n {:trigger r.rec[n]} | n in mem.rec && n != a && n != p :: r.rec[n] == mem.rec[n]
  {}

  lemma SplitUps(mem: Memory, r: Memory, p: Ptr, i: nat, a: Ptr, b: Ptr, k: nat,
      q': Rec, a': Rec, b': Rec, up1: map<Ptr, Link>)
    requires SplitReady(mem, p, i, a, b) && SplitDone(mem, r, p, i, a, b, k, q', a', b', up1)
    ensures forall n {:trigger r.up[n]} | n in mem.rec && n !in mem.rec[a].Kids() && n !in mem.rec[p].Kids() ::
      r.up[n] == mem.up[n]
  {
    forall n | n in mem.rec && n !in mem.rec[a].Kids() && n !in mem.rec[p].Kids() ensures r.up[n] == mem.up[n] {
      assert n !in b'.Kids();
      assert up1[n] == mem.up[n];
    }
  }

  /** A node whose children were linked to it in up0, and have not been moved since. */
  lemma KidsBuilt(r: Memory, n: Ptr, x: Rec, up0: map<Ptr, Link>, moved: seq<Ptr>)
    requires r.Ok() && n in r.rec && r.rec[n] == x && (x.leaf <==> x.level == 0)
    requires forall k {:trigger x.Kids()[k]} | 0 <= k < |x.Kids()| ::
      x.Kids()[k] in up0 && up0[x.Kids()[k]] == Link(n, k)
    requires forall y {:trigger r.up[y]} | y in r.up && y in up0 && y !in moved :: r.up[y] == up0[y]
    requires forall c | c in x.Kids() :: c !in moved && c in r.rec && r.rec[c].level + 1 == x.level
    ensures KidsAt(r, n)
  {
    var ks := x.Kids();
    forall k | 0 <= k < |ks| ensures ks[k] in r.up && r.up[ks[k]] == Link(n, k) {
      var c := x.Kids()[k];
      assert c in x.Kids() && c !in moved && r.up[c] == up0[c];
    }
  }

  lemma InsertedMember<T>(xs: seq<T>, i: nat, x: T, ys: seq<T>, j: nat)
    requires i <= |xs| && ys == xs[..i] + [x] + xs[i..] && j < |ys|
    ensures ys[j] == x || ys[j] in xs
  {
    if j < i { assert ys[j] == xs[j]; } else if j > i { assert ys[j] == xs[j - 1]; }
  }

  lemma InsertedKids(q: Rec, q': Rec, p: Ptr, i: nat, d: Entry, c: Ptr, up: map<Ptr, Link>, up': map<Ptr, Link>)
    requires q.Ok() && q'.Ok() && Inserted(q, q', p, i, d, c, up, up')
    ensures forall x | x in q'.Kids() :: x == c || x in q.Kids()
  {
    var ks := q'.Kids();
    forall j | 0 <= j < |ks| ensures ks[j] == c || ks[j] in q.Kids() {
      InsertedMember(q.Kids(), i + 1, c, ks, j);
    }
  }

  lemma PartedKids(a: Rec, a': Rec, b': Rec, b: Ptr, k: nat, up: map<Ptr, Link>, up': map<Ptr, Link>)
    requires a.Ok() && a'.Ok() && b'.Ok() && Parted(a, a', b', b, k, up, up') && Distinct(a.Kids())
    ensures |a'.Kids()| <= |a.Kids()| && forall j | 0 <= j < |a'.Kids()| :: a'.Kids()[j] == a.Kids()[j]
    ensures forall c | c in a'.Kids() :: c in a.Kids() && c !in b'.Kids()
    ensures forall c | c in b'.Kids() :: c in a.Kids()
  {
    if !a.leaf { HalvesApart(a.Kids(), k + 1, a'.Kids(), b'.Kids()); }
  }

  lemma HalvesApart(ks: seq<Ptr>, m: nat, xs: seq<Ptr>, ys: seq<Ptr>)
    requires Distinct(ks) && m <= |ks| && xs == ks[..m] && ys == ks[m..]
    ensures forall j | 0 <= j < |xs| :: xs[j] == ks[j]
    ensures (forall x | x in xs :: x in ks && x !in ys) && forall y | y in ys :: y in ks
  {
    forall j | 0 <= j < |ys| ensures ys[j] == ks[m + j] {}
  }

  /** Where the parent's children are: the new node and the old ones, none of which has been moved. */
  lemma SplitParentKids(mem: Memory, r: Memory, p: Ptr, i: nat, a: Ptr, b: Ptr,
      k: nat, q': Rec, a': Rec, b': Rec, up1: map<Ptr, Link>)
    requires SplitReady(mem, p, i, a, b) && SplitDone(mem, r, p, i, a, b, k, q', a', b', up1)
    ensures forall c | c in q'.Kids() :: c !in b'.Kids() && (c == b || c in mem.rec[p].Kids())
  {
    InsertedKids(mem.rec[p], q', p, i, mem.rec[a].values[k], b, mem.up, up1);
    PartedKids(mem.rec[a], a', b', b, k, up1, r.up);
  }

  lemma SplitParentLinks(mem: Memory, r: Memory, p: Ptr, i: nat, a: Ptr, b: Ptr,
      k: nat, q': Rec, a': Rec, b': Rec, up1: map<Ptr, Link>)
    requires SplitReady(mem, p, i, a, b) && SplitDone(mem, r, p, i, a, b, k, q', a', b', up1)
    ensures r.Ok() && KidsAt(r, p)
  {
    ThreeRecs(mem, r, p, a, b, q', a', b');
    SplitParentKids(mem, r, p, i, a, b, k, q', a', b', up1);
    assert mem.rec[p].Kids()[i] in mem.rec[p].Kids();
    KidsBuilt(r, p, q', up1, b'.Kids());
  }

  lemma SplitNodeLinks(mem: Memory, r: Memory, p: Ptr, i: nat, a: Ptr, b: Ptr, k: nat,
      q': Rec, a': Rec, b': Rec, up1: map<Ptr, Link>)
    requires SplitReady(mem, p, i, a, b) && SplitDone(mem, r, p, i, a, b, k, q', a', b', up1)
    ensures r.Ok() && KidsAt(r, a) && KidsAt(r, b)
  {
    var x, xs := mem.rec[a], a'.Kids();
    ThreeRecs(mem, r, p, a, b, q', a', b');
    PartedKids(x, a', b', b, k, up1, r.up);
    forall j {:trigger xs[j]} | 0 <= j < |xs| ensures xs[j] in up1 && up1[xs[j]] == Link(a, j) {
      var c := x.Kids()[j];
      assert xs[j] == c && c in x.Kids();
    }
    KidsBuilt(r, a, a', up1, b'.Kids());
    KidsBuilt(r, b, b', r.up, []);
  }

  /** node, child i of p, gives its upper values to the new node dest and the value between to p. */
  method Split(mem: Memory, p: Ptr, i: nat, node: Ptr, dest: Ptr, insertPosition: nat)
      returns (r: Memory, ghost d: Entry)
    requires SplitReady(mem, p, i, node, dest)
    requires 1 <= mem.rec[node].count && mem.rec[p].count < mem.rec[p].maxCount
    ensures r.Ok() && node in r.rec && p in r.rec && dest in r.rec
    ensures r.rec[dest].count == DestCount(mem.rec[node].count, mem.rec[node].maxCount, insertPosition)
    ensures r.rec[node].count == mem.rec[node].count - r.rec[dest].count - 1
    ensures r.rec[dest].maxCount == mem.rec[node].maxCount
    ensures d == mem.rec[node].Vals()[r.rec[node].count] && CutMemory(mem, r, p, i, node, d, dest)
    ensures KidsAt(r, p) && KidsAt(r, node) && KidsAt(r, dest)
  {
    var a, q := mem.rec[node], mem.rec[p];
    var dc := DestCount(a.count, a.maxCount, insertPosition);
    var k := a.count - dc - 1;
    var q', up1 := InsertInParent(q, p, i, a.values[k], dest, mem.up);
    var a', b', up2 := SplitOff(a, dest, dc, k, up1);
    r, d := Memory(mem.rec[p := q'][node := a'][dest := b'], up2), a.values[k];
    SplitCut(mem, r, p, i, node, dest, k, q', a', b', up1);
    SplitParentLinks(mem, r, p, i, node, dest, k, q', a', b', up1);
    SplitNodeLinks(mem, r, p, i, node, dest, k, q', a', b', up1);
  }

  // ----- remove_value, merge -----

  /** Value i of count goes, those after it move left by 1, one swap at a time. */
  method RemoveSlot(vs: seq<Entry>, count: nat, i: nat) returns (ws: seq<Entry>)
    requires i < count <= |vs|
    ensures |ws| == |vs| && ws[..count - 1] == vs[..i] + vs[i + 1..count]
  {
    ws := vs;
    var j := i;
    while j < count - 1
      invariant i <= j <= count - 1 && |ws| == |vs|
      invariant forall k {:trigger ws[k]} | 0 <= k < i || j < k < count :: ws[k] == vs[k]
      invariant forall k {:trigger ws[k]} | i <= k < j :: ws[k] == vs[k + 1]
    {
      ws := Swapped(ws, j, j + 1);
      j := j + 1;
    }
  }

  lemma SlicePrefix(vs: seq<Entry>, n: nat, i: nat)
    requires i < n <= |vs|
    ensures vs[..n][..i] == vs[..i] && vs[..n][i + 1..] == vs[i + 1..n]
  {}

  /** Value i and child i + 1 have gone from q, the parent p: the outcome of RemoveFromParent. */
  ghost predicate Removed(q: Rec, q': Rec, p: Ptr, i: nat, up: map<Ptr, Link>, up': map<Ptr, Link>)
    requires q.Ok() && q'.Ok()
  {
    && SameKind(q', q) && !q.leaf && i < q.count && q'.count == q.count - 1
    && q'.Vals() == q.Vals()[..i] + q.Vals()[i + 1..]
    && q'.Kids() == q.Kids()[..i + 1] + q.Kids()[i + 2..]
    && up'.Keys == up.Keys
    && (forall k {:trigger q'.Kids()[k]} | 0 <= k < q.count :: q'.Kids()[k] in up' && up'[q'.Kids()[k]] == Link(p, k))
    && (forall x {:trigger up'[x]} | x in up && x !in q'.Kids() :: up'[x] == up[x])
  }

  lemma RemovedBuilt(q: Rec, q': Rec, p: Ptr, i: nat, up: map<Ptr, Link>, up': map<Ptr, Link>)
    requires q.Ok() && !q.leaf && i < q.count
    requires q' == q.(values := q'.values, children := q'.children, count := q.count - 1)
    requires |q'.values| == |q.values| && q'.values[..q.count - 1] == q.values[..i] + q.values[i + 1..q.count]
    requires |q'.children| == |q.children|
    requires q'.children[..q.count] == q.children[..q.count + 1][..i + 1] + q.children[..q.count + 1][i + 2..]
    requires up'.Keys == up.Keys
    requires forall k {:trigger q'.children[..q.count][k]} | 0 <= k < q.count ::
      q'.children[..q.count][k] in up' && up'[q'.children[..q.count][k]] == Link(p, k)
    requires forall x {:trigger up'[x]} | x in up && x !in q'.children[..q.count] :: up'[x] == up[x]
    ensures q'.Ok() && Removed(q, q', p, i, up, up')
  {
    SlicePrefix(q.values, q.count, i);
    assert q'.Kids() == q'.children[..q.count];
  }

  method RemoveFromParent(q: Rec, p: Ptr, i: nat, up: map<Ptr, Link>) returns (q': Rec, up': map<Ptr, Link>)
    requires q.Ok() && !q.leaf && i < q.count && Distinct(q.Kids())
    requires forall k {:trigger q.children[k]} | 0 <= k <= q.count ::
      q.children[k] in up && up[q.children[k]] == Link(p, k)
    ensures q'.Ok() && Removed(q, q', p, i, up, up')
  {
    var qc: seq<Ptr>;
    up', qc := RemoveChild(up, p, q.children, i, q.count);
    var qv := RemoveSlot(q.values, q.count, i);
    q' := q.(values := qv, children := qc, count := q.count - 1);
    RemovedBuilt(q, q', p, i, up, up');
  }

  method RemoveChild(up: map<Ptr, Link>, p: Ptr, cs: seq<Ptr>, i: nat, n: nat)
      returns (up': map<Ptr, Link>, ds: seq<Ptr>)
    requires i < n < |cs| && Distinct(cs[..n + 1])
    requires forall k {:trigger cs[k]} | 0 <= k <= n :: cs[k] in up && up[cs[k]] == Link(p, k)
    ensures |ds| == |cs| && ds[..n] == cs[..n + 1][..i + 1] + cs[..n + 1][i + 2..]
    ensures up'.Keys == up.Keys
    ensures forall k {:trigger ds[..n][k]} | 0 <= k < n :: ds[..n][k] in up' && up'[ds[..n][k]] == Link(p, k)
    ensures forall x {:trigger up'[x]} | x in up && x !in ds[..n] :: up'[x] == up[x]
  {
    up', ds := CloseChildSlot(up, p, cs, i + 1, n);
    assert cs[..n + 1][..i + 1] == cs[..i + 1] && cs[..n + 1][i + 2..] == cs[i + 2..n + 1];
    RemovedChild(up, up', cs, ds[..n], p, i, n);
  }

  lemma NotBehind(cs: seq<Ptr>, n: nat, k: nat, j: nat)
    requires k < j <= n < |cs| && Distinct(cs[..n + 1])
    ensures cs[k] !in cs[j..n + 1]
  {
    var ks, rest := cs[..n + 1], cs[j..n + 1];
    forall l | 0 <= l < |rest| ensures rest[l] != cs[k] {
      assert rest[l] == ks[j + l] && ks[k] == cs[k];
    }
  }

  lemma RemovedChild(up: map<Ptr, Link>, up': map<Ptr, Link>, cs: seq<Ptr>, ds: seq<Ptr>, p: Ptr, i: nat, n: nat)
    requires i < n < |cs| && Distinct(cs[..n + 1])
    requires forall k {:trigger cs[k]} | 0 <= k <= n :: cs[k] in up && up[cs[k]] == Link(p, k)
    requires ds == cs[..i + 1] + cs[i + 2..n + 1] && up'.Keys == up.Keys
    requires forall k {:trigger cs[k]} | i + 1 < k <= n :: up'[cs[k]] == Link(p, k - 1)
    requires forall x {:trigger up'[x]} | x in up && x !in cs[i + 2..n + 1] :: up'[x] == up[x]
    ensures forall k {:trigger ds[k]} | 0 <= k < n :: ds[k] in up' && up'[ds[k]] == Link(p, k)
    ensures forall x {:trigger up'[x]} | x in up && x !in ds :: up'[x] == up[x]
  {
    forall k | 0 <= k < n ensures ds[k] in up' && up'[ds[k]] == Link(p, k) {
      if k <= i {
        assert ds[k] == cs[k];
        if i + 2 <= n { NotBehind(cs, n, k, i + 2); }
      } else {
        assert ds[k] == cs[k + 1];
      }
    }
    forall x | x in up && x !in ds ensures up'[x] == up[x] {
      assert x !in cs[i + 2..n + 1];
    }
  }

  /** a has taken d and all of b: the outcome of TakeAll. */
  ghost predicate Joined(a: Rec, a': Rec, n: Ptr, d: Entry, b: Rec, up: map<Ptr, Link>, up': map<Ptr, Link>)
    requires a.Ok() && a'.Ok() && b.Ok()
  {
    && SameKind(a', a) && a'.Vals() == a.Vals() + [d] + b.Vals() && a'.Kids() == a.Kids() + b.Kids()
    && up'.Keys == up.Keys
    && (forall j {:trigger b.Kids()[j]} | 0 <= j < |b.Kids()| ::
         b.Kids()[j] in up' && up'[b.Kids()[j]] == Link(n, a.count + 1 + j))
    && (forall x {:trigger up'[x]} | x in up && x !in b.Kids() :: up'[x] == up[x])
  }

  method TakeAll(a: Rec, n: Ptr, d: Entry, b: Rec, up: map<Ptr, Link>) returns (a': Rec, up': map<Ptr, Link>)
    requires a.Ok() && b.Ok() && a.leaf == b.leaf && 1 + a.count + b.count <= a.maxCount
    requires Distinct(b.Kids()) && forall c | c in b.Kids() :: c in up
    ensures a'.Ok() && Joined(a, a', n, d, b, up, up')
  {
    var av, bv := SwapRange(a.values[a.count := d], a.count + 1, b.values, 0, b.count);
    assert av[..a.count + 1 + b.count] == a.Vals() + [d] + b.Vals();
    var ac, bc := a.children, b.children;
    up' := up;
    if !a.leaf {
      up', ac, bc := AdoptKids(up, n, a.children, 1 + a.count, b.children, 0, b.count + 1, true, b.Kids());
      assert ac[..a.count + 1 + b.count + 1] == a.Kids() + b.Kids();
    }
    a' := a.(values := av, children := ac, count := 1 + a.count + b.count);
  }

  ghost predicate MergeReady(mem: Memory, p: Ptr, i: nat, a: Ptr, b: Ptr) {
    && mem.Ok() && p in mem.rec && a in mem.rec && b in mem.rec && p != a
    && p != b && a != b && mem.rec[a].leaf == mem.rec[b].leaf
    && KidsAt(mem, p) && KidsAt(mem, a) && KidsAt(mem, b) && !mem.rec[p].leaf
    && i < mem.rec[p].count && mem.rec[p].Kids()[i] == a && mem.rec[p].Kids()[i + 1] == b
    && Distinct(mem.rec[p].Kids()) && Distinct(mem.rec[a].Kids()) && Distinct(mem.rec[b].Kids())
    && (forall c | c in mem.rec[a].Kids() ::
         c != p && c != a && c != b && c !in mem.rec[p].Kids() && c !in mem.rec[b].Kids())
    && (forall c | c in mem.rec[b].Kids() :: c != p && c != a && c != b && c !in mem.rec[p].Kids())
    && (forall c | c in mem.rec[p].Kids() :: c != p)
  }

  lemma MergeReadyView(mem: Memory, p: Ptr, i: nat, a: Ptr, b: Ptr)
    requires mem.Ok() && LinkedSiblings(View(mem), p, a, b) && i == mem.up[a].position
    ensures MergeReady(mem, p, i, a, b)
  {
    var h := View(mem);
    SiblingFacts(h, p, a, b);
    LinksRead(mem, p);
    LinksRead(mem, a);
    LinksRead(mem, b);
  }

  ghost predicate MergeDone(mem: Memory, r: Memory, p: Ptr, i: nat, a: Ptr, b: Ptr, q': Rec,
      a': Rec, up1: map<Ptr, Link>, up2: map<Ptr, Link>)
    requires MergeReady(mem, p, i, a, b)
  {
    && r.rec == mem.rec[p := q'][a := a'] - {b} && r.up == up2 - {b} && q'.Ok() && a'.Ok()
    && Joined(mem.rec[a], a', a, mem.rec[p].values[i], mem.rec[b], mem.up, up1)
    && Removed(mem.rec[p], q', p, i, up1, up2)
  }

  lemma MergeUps(mem: Memory, r: Memory, p: Ptr, i: nat, a: Ptr, b: Ptr, q': Rec,
      a': Rec, up1: map<Ptr, Link>, up2: map<Ptr, Link>)
    requires MergeReady(mem, p, i, a, b) && MergeDone(mem, r, p, i, a, b, q', a', up1, up2)
    ensures forall n {:trigger mem.up[n]} | n in r.rec && n !in a'.Kids() && n !in q'.Kids() :: r.up[n] == mem.up[n]
  {
    forall n | n in r.rec && n !in a'.Kids() && n !in q'.Kids() ensures r.up[n] == mem.up[n] {
      assert n !in mem.rec[b].Kids();
      assert up1[n] == mem.up[n];
    }
  }

  lemma TwoRecs(mem: Memory, r: Memory, p: Ptr, a: Ptr, b: Ptr, q': Rec, a': Rec)
    requires mem.Ok() && p in mem.rec && a in mem.rec && b in mem.rec && p != a && a != b && p != b
    requires q'.Ok() && a'.Ok() && r.rec == mem.rec[p := q'][a := a'] - {b} && r.up.Keys == mem.up.Keys - {b}
    ensures r.Ok() && mem.rec.Keys == r.rec.Keys + {b} && b !in r.rec && r.rec[p] == q' && r.rec[a] == a'
    ensures forall n {:trigger mem.rec[n]} | n in r.rec && n != a && n != p :: mem.rec[n] == r.rec[n]
  {}

  lemma MergeCut(mem: Memory, r: Memory, p: Ptr, i: nat, a: Ptr, b: Ptr, q': Rec,
      a': Rec, up1: map<Ptr, Link>, up2: map<Ptr, Link>)
    requires MergeReady(mem, p, i, a, b) && MergeDone(mem, r, p, i, a, b, q', a', up1, up2)
    ensures CutMemory(r, mem, p, i, a, mem.rec[p].values[i], b)
  {
    TwoRecs(mem, r, p, a, b, q', a');
    MergeUps(mem, r, p, i, a, b, q', a', up1, up2);
    RemovedWhole(mem.rec[p], q', p, i, up1, up2);
  }

  /** With the value and the child that have gone between them, the rest is the old node. */
  lemma RemovedWhole(q: Rec, q': Rec, p: Ptr, i: nat, up: map<Ptr, Link>, up': map<Ptr, Link>)
    requires q.Ok() && q'.Ok() && Removed(q, q', p, i, up, up')
    ensures q.Vals() == q'.Vals()[..i] + [q.values[i]] + q'.Vals()[i..]
    ensures q.Kids() == q'.Kids()[..i + 1] + [q.Kids()[i + 1]] + q'.Kids()[i + 1..]
  {
    RemovedAround(q.Vals(), q'.Vals(), i);
    RemovedAround(q.Kids(), q'.Kids(), i + 1);
  }

  lemma RemovedAround<T>(vs: seq<T>, ws: seq<T>, i: nat)
    requires i < |vs| && ws == vs[..i] + vs[i + 1..]
    ensures vs == ws[..i] + [vs[i]] + ws[i..]
  {
    assert ws[..i] == vs[..i] && ws[i..] == vs[i + 1..];
  }

  lemma RemovedKids(q: Rec, q': Rec, p: Ptr, i: nat, up: map<Ptr, Link>, up': map<Ptr, Link>)
    requires q.Ok() && q'.Ok() && Removed(q, q', p, i, up, up') && Distinct(q.Kids())
    ensures forall c | c in q'.Kids() :: c in q.Kids() && c != q.Kids()[i + 1]
  {
    var cs, ks := q.Kids(), q'.Kids();
    forall j | 0 <= j < |ks| ensures ks[j] in cs && ks[j] != cs[i + 1] {
      assert ks[j] == cs[if j <= i then j else j + 1];
    }
  }

  lemma JoinedKids(mem: Memory, a: Ptr, a': Rec, d: Entry, b: Rec, up': map<Ptr, Link>)
    requires mem.Ok() && a in mem.rec && KidsAt(mem, a) && a'.Ok() && b.Ok()
    requires Joined(mem.rec[a], a', a, d, b, mem.up, up') && mem.rec[a].leaf == b.leaf
    requires forall c | c in mem.rec[a].Kids() :: c !in b.Kids()
    ensures forall j {:trigger a'.Kids()[j]} | 0 <= j < |a'.Kids()| ::
      a'.Kids()[j] in up' && up'[a'.Kids()[j]] == Link(a, j)
    ensures forall c | c in a'.Kids() :: c in mem.rec[a].Kids() || c in b.Kids()
  {
    var xs, ys, ks := mem.rec[a].Kids(), b.Kids(), a'.Kids();
    forall j {:trigger ks[j]} | 0 <= j < |ks|
      ensures ks[j] in up' && up'[ks[j]] == Link(a, j) && (ks[j] in xs || ks[j] in ys)
    {
      if j < |xs| {
        assert ks[j] == xs[j] && xs[j] in xs;
      } else {
        assert ks[j] == ys[j - |xs|];
      }
    }
  }

  lemma MergeParentLinks(mem: Memory, r: Memory, p: Ptr, i: nat, a: Ptr, b: Ptr, q': Rec,
      a': Rec, up1: map<Ptr, Link>, up2: map<Ptr, Link>)
    requires MergeReady(mem, p, i, a, b) && MergeDone(mem, r, p, i, a, b, q', a', up1, up2)
    ensures r.Ok() && KidsAt(r, p)
  {
    TwoRecs(mem, r, p, a, b, q', a');
    RemovedKids(mem.rec[p], q', p, i, up1, up2);
    KidsBuilt(r, p, q', up2, [b]);
  }

  lemma MergeNodeLinks(mem: Memory, r: Memory, p: Ptr, i: nat, a: Ptr, b: Ptr, q': Rec,
      a': Rec, up1: map<Ptr, Link>, up2: map<Ptr, Link>)
    requires MergeReady(mem, p, i, a, b) && MergeDone(mem, r, p, i, a, b, q', a', up1, up2)
    ensures r.Ok() && KidsAt(r, a)
  {
    TwoRecs(mem, r, p, a, b, q', a');
    RemovedKids(mem.rec[p], q', p, i, up1, up2);
    JoinedKids(mem, a, a', mem.rec[p].values[i], mem.rec[b], up1);
    KidsBuilt(r, a, a', up1, q'.Kids());
  }

  /** node takes over the value between it and src, its right sibling, and all that src has; src is freed. */
  method Merge(mem: Memory, p: Ptr, i: nat, node: Ptr, src: Ptr) returns (r: Memory)
    requires MergeReady(mem, p, i, node, src)
    requires 1 + mem.rec[node].count + mem.rec[src].count <= mem.rec[node].maxCount
    ensures r.Ok() && node in r.rec && p in r.rec
    ensures CutMemory(r, mem, p, i, node, mem.rec[p].values[i], src)
    ensures KidsAt(r, p) && KidsAt(r, node)
  {
    var a', up1 := TakeAll(mem.rec[node], node, mem.rec[p].values[i], mem.rec[src], mem.up);
    assert forall k {:trigger mem.rec[p].children[k]} | 0 <= k <= mem.rec[p].count ::
      mem.rec[p].children[k] == mem.rec[p].Kids()[k] && mem.rec[p].Kids()[k] in mem.rec[p].Kids();
    var q', up2 := RemoveFromParent(mem.rec[p], p, i, up1);
    r := Memory(mem.rec[p := q'][node := a'] - {src}, up2 - {src});
    MergeCut(mem, r, p, i, node, src, q', a', up1, up2);
    MergeParentLinks(mem, r, p, i, node, src, q', a', up1, up2);
    MergeNodeLinks(mem, r, p, i, node, src, q', a', up1, up2);
  }
}
