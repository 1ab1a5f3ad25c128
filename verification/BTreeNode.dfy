// The node memory of the B-tree and the in-place node primitives. Memory is a map from
// addresses to node records, so that links, aliasing and deallocation are all explicit.
// Value and child slots are fixed-length; only the first count (+ 1) are in use.
module BTreeNode {
  import opened BTreeWeave
  import opened BTreeHeap
  import opened BTreeReshape

  type Ptr = int
  const NULL: Ptr := 0

  /** A node's own fields. The back links to the parent are kept beside them, in Memory.up.
      level, the height above the leaves, is for the proofs: no branch depends on it. */
  datatype Rec = Rec(leaf: bool, maxCount: nat, values: seq<Entry>, children: seq<Ptr>, count: nat, level: nat)
  {
    predicate Ok() {
      count <= maxCount && |values| == maxCount && |children| == if leaf then 0 else maxCount + 1
    }

    function Vals(): seq<Entry>
      requires Ok()
    {
      values[..count]
    }

    function Kids(): seq<Ptr>
      requires Ok()
    {
      if leaf then [] else children[..count + 1]
    }
  }

  datatype Link = Link(parent: Ptr, position: nat)

  datatype Memory = Memory(rec: map<Ptr, Rec>, up: map<Ptr, Link>) {
    predicate Ok() {
      NULL !in rec && up.Keys == rec.Keys && forall n | n in rec :: rec[n].Ok()
    }
  }

  /** The memory as linked nodes. */
  ghost function View(mem: Memory): map<Ptr, Nd<Ptr>>
    requires mem.Ok()
  {
    map n | n in mem.rec ::
      Nd(mem.rec[n].leaf, mem.rec[n].maxCount, mem.rec[n].level, mem.rec[n].Vals(),
        mem.rec[n].Kids(), mem.up[n].parent, mem.up[n].position)
  }

  function NewLeaf(maxCount: nat): (r: Rec)
    ensures r.Ok()
  {
    Rec(true, maxCount, seq(maxCount, i => Entry(0, 0)), [], 0, 0)
  }

  function NewInternal(maxCount: nat, level: nat): (r: Rec)
    ensures r.Ok()
  {
    Rec(false, maxCount, seq(maxCount, i => Entry(0, 0)), seq(maxCount + 1, i => NULL), 0, level)
  }

  function Swapped(vs: seq<Entry>, i: nat, j: nat): seq<Entry>
    requires i < |vs| && j < |vs|
  {
    vs[i := vs[j]][j := vs[i]]
  }

  // ----- Value slots -----

  /** x goes in at i; what was from i on moves right by 1, one swap at a time. */
  method InsertSlot(vs: seq<Entry>, count: nat, i: nat, x: Entry) returns (ws: seq<Entry>)
    requires i <= count < |vs|
    ensures |ws| == |vs| && ws[..count + 1] == vs[..i] + [x] + vs[i..count]
  {
    ws := vs[count := x];
    var j := count;
    while j > i
      invariant i <= j <= count && |ws| == |vs|
      invariant forall k | 0 <= k < j :: ws[k] == vs[k]
      invariant ws[j] == x
      invariant forall k | j < k <= count :: ws[k] == vs[k - 1]
    {
      ws := Swapped(ws, j, j - 1);
      j := j - 1;
    }
  }

  /** The first m of count values have gone: the rest close up. With m == 0 nothing moves. */
  method CloseUp(vs: seq<Entry>, m: nat, count: nat) returns (ws: seq<Entry>)
    requires m <= count <= |vs|
    ensures |ws| == |vs| && ws[..count - m] == vs[m..count]
  {
    ws := vs;
    var i := m;
    while i < count
      invariant m <= i <= count && |ws| == |vs|
      invariant forall k {:trigger ws[k]} | 0 <= k < i - m :: ws[k] == vs[k + m]
      invariant forall k {:trigger ws[k]} | i <= k < count :: ws[k] == vs[k]
    {
      ws := Swapped(ws, i - m, i);
      i := i + 1;
    }
  }

  /** Make room for m values at the front. */
  method OpenUp(vs: seq<Entry>, m: nat, count: nat) returns (ws: seq<Entry>)
    requires count + m <= |vs|
    ensures |ws| == |vs| && ws[m..count + m] == vs[..count]
  {
    ws := vs;
    var i := count;
    while i > 0
      invariant 0 <= i <= count && |ws| == |vs|
      invariant forall k {:trigger ws[k]} | 0 <= k < i :: ws[k] == vs[k]
      invariant forall k {:trigger ws[k]} | i + m <= k < count + m :: ws[k] == vs[k - m]
    {
      i := i - 1;
      ws := Swapped(ws, i, i + m);
    }
  }

  /** Swap m values of ws from `from` on with m values of vs from `at` on. */
  method SwapRange<T>(vs: seq<T>, at: nat, ws: seq<T>, from: nat, m: nat) returns (vs': seq<T>, ws': seq<T>)
    requires at + m <= |vs| && from + m <= |ws|
    ensures vs' == vs[..at] + ws[from..from + m] + vs[at + m..]
    ensures ws' == ws[..from] + vs[at..at + m] + ws[from + m..]
  {
    vs', ws' := vs, ws;
    var i := 0;
    while i < m
      invariant 0 <= i <= m && |vs'| == |vs| && |ws'| == |ws|
      invariant forall k {:trigger vs'[k]} | 0 <= k < |vs| ::
        vs'[k] == if at <= k < at + i then ws[k - at + from] else vs[k]
      invariant forall k {:trigger ws'[k]} | 0 <= k < |ws| ::
        ws'[k] == if from <= k < from + i then vs[k - from + at] else ws[k]
    {
      vs', ws' := vs'[at + i := ws'[from + i]], ws'[from + i := vs'[at + i]];
      i := i + 1;
    }
  }

  // ----- Child slots -----

  predicate Distinct(ks: seq<Ptr>) {
    forall j, k | 0 <= j < k < |ks| :: ks[j] != ks[k]
  }

  predicate KeptOutside(cs: seq<Ptr>, ds: seq<Ptr>, f: nat, m: nat) {
    |cs| == |ds| && forall k {:trigger cs[k]} | 0 <= k < |ds| && !(f <= k < f + m) :: cs[k] == ds[k]
  }

  /** The nodes ks are now linked to n at positions at, at+1, ...; no other link has changed. */
  predicate Relinked(up: map<Ptr, Link>, up': map<Ptr, Link>, n: Ptr, at: nat, ks: seq<Ptr>) {
    && up'.Keys == up.Keys
    && (forall k {:trigger ks[k]} | 0 <= k < |ks| :: ks[k] in up && up'[ks[k]] == Link(n, at + k))
    && (forall c {:trigger up'[c]} | c in up && c !in ks :: up'[c] == up[c])
  }

  lemma RelinkStep(up: map<Ptr, Link>, up': map<Ptr, Link>, n: Ptr, at: nat, ks: seq<Ptr>, i: nat)
    requires i < |ks| && Distinct(ks) && Relinked(up, up', n, at, ks[..i]) && ks[i] in up
    ensures Relinked(up, up'[ks[i] := Link(n, at + i)], n, at, ks[..i + 1])
  {
    var ls := ks[..i + 1];
    assert ls == ks[..i] + [ks[i]];
    assert forall k {:trigger ls[k]} | 0 <= k < i :: ls[k] == ks[..i][k] && ls[k] != ks[i];
  }

  /** n takes the m children in slots f on of fs, which are ks, into its slots at on of ts, left to right;
      the old slots are emptied if clear. */
  method AdoptKids(up: map<Ptr, Link>, n: Ptr, ts: seq<Ptr>, at: nat, fs: seq<Ptr>, f: nat, m: nat,
      clear: bool, ghost ks: seq<Ptr>)
      returns (up': map<Ptr, Link>, ts': seq<Ptr>, fs': seq<Ptr>)
    requires at + m <= |ts| && f + m <= |fs| && ks == fs[f..f + m]
    requires Distinct(ks) && forall c | c in ks :: c in up
    ensures ts' == ts[..at] + ks + ts[at + m..]
    ensures KeptOutside(fs', fs, f, m) && (!clear ==> fs' == fs)
    ensures Relinked(up, up', n, at, ks)
  {
    up', ts', fs' := up, ts, fs;
    var i := 0;
    while i < m
      invariant 0 <= i <= m && |ts'| == |ts| && |fs'| == |fs|
      invariant forall k {:trigger ts'[k]} | 0 <= k < |ts| :: ts'[k] == if at <= k < at + i then ks[k - at] else ts[k]
      invariant forall k {:trigger fs'[k]} | f + i <= k < f + m :: fs'[k] == ks[k - f]
      invariant KeptOutside(fs', fs, f, i) && (!clear ==> fs' == fs)
      invariant Relinked(up, up', n, at, ks[..i])
    {
      var c := fs'[f + i];
      RelinkStep(up, up', n, at, ks, i);
      ts' := ts'[at + i := c];
      up' := up'[c := Link(n, at + i)];
      if clear {
        fs' := fs'[f + i := NULL];
      }
      i := i + 1;
    }
    assert ks[..m] == ks;
  }

  /** The children of n in slots m..m+c, which are ks, move down to slots 0..c. */
  method CloseUpKids(up: map<Ptr, Link>, n: Ptr, ts: seq<Ptr>, m: nat, c: nat, ghost ks: seq<Ptr>)
      returns (up': map<Ptr, Link>, ts': seq<Ptr>)
    requires 0 < m && m + c <= |ts| && ks == ts[m..m + c] && Distinct(ks) && forall x | x in ks :: x in up
    ensures |ts'| == |ts| && ts'[..c] == ks
    ensures Relinked(up, up', n, 0, ks)
  {
    up', ts' := up, ts;
    var i := 0;
    while i < c
      invariant 0 <= i <= c && |ts'| == |ts|
      invariant forall k {:trigger ts'[k]} | 0 <= k < i :: ts'[k] == ks[k]
      invariant forall k {:trigger ts'[k]} | i + m <= k < m + c :: ts'[k] == ks[k - m]
      invariant Relinked(up, up', n, 0, ks[..i])
    {
      RelinkStep(up, up', n, 0, ks, i);
      up' := up'[ts'[i + m] := Link(n, i)];
      ts' := ts'[i := ts'[i + m]][i + m := NULL];
      i := i + 1;
    }
    assert ks[..c] == ks;
  }

  /** The first c children of n, which are ks, move up by m slots, right to left. */
  method OpenUpKids(up: map<Ptr, Link>, n: Ptr, ts: seq<Ptr>, m: nat, c: nat, ghost ks: seq<Ptr>)
      returns (up': map<Ptr, Link>, ts': seq<Ptr>)
    requires 0 < m && m + c <= |ts| && ks == ts[..c] && Distinct(ks) && forall x | x in ks :: x in up
    ensures |ts'| == |ts| && ts'[m..m + c] == ks
    ensures Relinked(up, up', n, m, ks)
  {
    up', ts' := up, ts;
    var i := c;
    while i > 0
      invariant 0 <= i <= c && |ts'| == |ts|
      invariant forall k {:trigger ts'[k]} | 0 <= k < i :: ts'[k] == ks[k]
      invariant forall k {:trigger ts'[k]} | i + m <= k < m + c :: ts'[k] == ks[k - m]
      invariant up'.Keys == up.Keys && (forall k {:trigger ks[k]} | 0 <= k < |ks| :: ks[k] in up)
      invariant forall k {:trigger ks[k]} | i <= k < c :: up'[ks[k]] == Link(n, m + k)
      invariant forall x {:trigger up'[x]} | x in up && x !in ks :: up'[x] == up[x]
    {
      i := i - 1;
      assert ts'[i] == ks[i];
      up' := up'[ts'[i] := Link(n, i + m)];
      ts' := ts'[i + m := ts'[i]][i := NULL];
    }
  }

  // ----- insert_value, remove_value -----

  /** Children of n in slots i..count move right by 1 and slot i is emptied. */
  method OpenChildSlot(up: map<Ptr, Link>, n: Ptr, ts: seq<Ptr>, i: nat, count: nat)
      returns (up': map<Ptr, Link>, ts': seq<Ptr>)
    requires 1 <= i <= count < |ts| && Distinct(ts[..count])
    requires forall k {:trigger ts[k]} | i <= k < count :: ts[k] in up && up[ts[k]].parent == n
    ensures |ts'| == |ts| && ts'[..count + 1] == ts[..i] + [NULL] + ts[i..count]
    ensures up'.Keys == up.Keys
    ensures forall k {:trigger ts[k]} | i <= k < count :: up'[ts[k]] == Link(n, k + 1)
    ensures forall x {:trigger up'[x]} | x in up && x !in ts[i..count] :: up'[x] == up[x]
  {
    up', ts' := up, ts;
    var j := count;
    while j > i
      invariant i <= j <= count && |ts'| == |ts| && up'.Keys == up.Keys
      invariant forall k {:trigger ts'[k]} | 0 <= k < j :: ts'[k] == ts[k]
      invariant forall k {:trigger ts'[k]} | j < k <= count :: ts'[k] == ts[k - 1]
      invariant OpenedFrom(up, up', n, ts, i, count, j)
    {
      ts' := ts'[j := ts'[j - 1]];
      OpenedStep(up, up', n, ts, i, count, j);
      up' := up'[ts'[j] := up'[ts'[j]].(position := j)];
      j := j - 1;
    }
    ts' := ts'[i := NULL];
  }

  /** The children of n in slots j..count have been linked to the slot above, those from i not yet. */
  ghost predicate OpenedFrom(up: map<Ptr, Link>, up': map<Ptr, Link>, n: Ptr, ts: seq<Ptr>, i: nat, count: nat, j: nat)
    requires i <= count < |ts| && forall k {:trigger ts[k]} | i <= k < count :: ts[k] in up
  {
    && up'.Keys == up.Keys
    && (forall k {:trigger ts[k]} | i <= k < count :: up'[ts[k]] == if k < j then up[ts[k]] else Link(n, k + 1))
    && (forall x {:trigger up'[x]} | x in up && x !in ts[i..count] :: up'[x] == up[x])
  }

  lemma OpenedStep(up: map<Ptr, Link>, up': map<Ptr, Link>, n: Ptr, ts: seq<Ptr>, i: nat, count: nat, j: nat)
    requires i < j <= count < |ts| && Distinct(ts[..count])
    requires forall k {:trigger ts[k]} | i <= k < count :: ts[k] in up && up[ts[k]].parent == n
    requires OpenedFrom(up, up', n, ts, i, count, j)
    ensures up'[ts[j - 1]].parent == n && OpenedFrom(up, up'[ts[j - 1] := Link(n, j)], n, ts, i, count, j - 1)
  {
    OthersDiffer(ts, count, j - 1);
    assert ts[i..count][j - 1 - i] == ts[j - 1];
  }

  lemma OthersDiffer(ts: seq<Ptr>, n: nat, j: nat)
    requires j < n <= |ts| && Distinct(ts[..n])
    ensures forall k {:trigger ts[k]} | 0 <= k < n && k != j :: ts[k] != ts[j]
  {
    var ks := ts[..n];
    assert forall k {:trigger ts[k]} | 0 <= k < n :: ks[k] == ts[k];
  }

  /** The children of n in slots i+1..j have been linked to the slot below, those up to count not yet. */
  ghost predicate ClosedTo(up: map<Ptr, Link>, up': map<Ptr, Link>, n: Ptr, ts: seq<Ptr>, i: nat, count: nat, j: nat)
    requires i <= count < |ts| && forall k {:trigger ts[k]} | i < k <= count :: ts[k] in up
  {
    && up'.Keys == up.Keys
    && (forall k {:trigger ts[k]} | i < k <= count :: up'[ts[k]] == if j < k then up[ts[k]] else Link(n, k - 1))
    && (forall x {:trigger up'[x]} | x in up && x !in ts[i + 1..count + 1] :: up'[x] == up[x])
  }

  lemma ClosedStep(up: map<Ptr, Link>, up': map<Ptr, Link>, n: Ptr, ts: seq<Ptr>, i: nat, count: nat, j: nat)
    requires i <= j < count < |ts| && Distinct(ts[..count + 1])
    requires forall k {:trigger ts[k]} | i < k <= count :: ts[k] in up && up[ts[k]].parent == n
    requires ClosedTo(up, up', n, ts, i, count, j)
    ensures up'[ts[j + 1]].parent == n && ClosedTo(up, up'[ts[j + 1] := Link(n, j)], n, ts, i, count, j + 1)
  {
    OthersDiffer(ts, count + 1, j + 1);
    assert ts[i + 1..count + 1][j - i] == ts[j + 1];
  }

  /** The child of n in slot i goes and those after it move left by 1. */
  method CloseChildSlot(up: map<Ptr, Link>, n: Ptr, ts: seq<Ptr>, i: nat, count: nat)
      returns (up': map<Ptr, Link>, ts': seq<Ptr>)
    requires 1 <= i <= count < |ts| && Distinct(ts[..count + 1])
    requires forall k {:trigger ts[k]} | i < k <= count :: ts[k] in up && up[ts[k]].parent == n
    ensures |ts'| == |ts| && ts'[..count] == ts[..i] + ts[i + 1..count + 1]
    ensures up'.Keys == up.Keys
    ensures forall k {:trigger ts[k]} | i < k <= count :: up'[ts[k]] == Link(n, k - 1)
    ensures forall x {:trigger up'[x]} | x in up && x !in ts[i + 1..count + 1] :: up'[x] == up[x]
  {
    up', ts' := up, ts;
    var j := i;
    while j < count
      invariant i <= j <= count && |ts'| == |ts| && up'.Keys == up.Keys
      invariant forall k {:trigger ts'[k]} | 0 <= k < i || j < k <= count :: ts'[k] == ts[k]
      invariant forall k {:trigger ts'[k]} | i <= k < j :: ts'[k] == ts[k + 1]
      invariant ClosedTo(up, up', n, ts, i, count, j)
    {
      ts' := ts'[j := ts'[j + 1]];
      ClosedStep(up, up', n, ts, i, count, j);
      up' := up'[ts'[j] := up'[ts'[j]].(position := j)];
      j := j + 1;
    }
    ts' := ts'[count := NULL];
  }

  // ----- rebalance_right_to_left -----

  ghost predicate LinkedSiblings(h: map<Ptr, Nd<Ptr>>, p: Ptr, a: Ptr, b: Ptr) {
    && p in h && a in h && b in h && h[a].pos + 1 == h[b].pos < |h[p].kids|
    && h[p].kids[h[a].pos] == a && h[p].kids[h[b].pos] == b
    && LinksOK(h, p) && LinksOK(h, a) && LinksOK(h, b)
  }

  lemma KidFacts(h: map<Ptr, Nd<Ptr>>, n: Ptr)
    requires n in h && LinksOK(h, n)
    ensures Distinct(h[n].kids) && n !in h[n].kids
    ensures forall c | c in h[n].kids :: c in h && h[c].parent == n && h[c].lvl + 1 == h[n].lvl
  {
    forall j, k | 0 <= j < k < |h[n].kids| ensures h[n].kids[j] != h[n].kids[k] {
      assert KidOK(h, n, h[n].kids[j], j) && KidOK(h, n, h[n].kids[k], k);
    }
    forall c | c in h[n].kids ensures c in h && h[c].parent == n && h[c].lvl + 1 == h[n].lvl {
      var j :| 0 <= j < |h[n].kids| && h[n].kids[j] == c;
      assert KidOK(h, n, h[n].kids[j], j);
    }
  }

  lemma SiblingFacts(h: map<Ptr, Nd<Ptr>>, p: Ptr, a: Ptr, b: Ptr)
    requires LinkedSiblings(h, p, a, b)
    ensures p != a && p != b && a != b && h[a].leaf == h[b].leaf && h[a].lvl == h[b].lvl && h[p].lvl == h[a].lvl + 1
    ensures h[a].parent == p && h[b].parent == p && !h[p].leaf
    ensures Distinct(h[a].kids) && Distinct(h[b].kids)
    ensures forall c | c in h[a].kids :: c in h && c != a && c != b && c != p && c !in h[b].kids
    ensures forall c | c in h[b].kids :: c in h && c != a && c != b && c != p
  {
    assert KidOK(h, p, h[p].kids[h[a].pos], h[a].pos) && KidOK(h, p, h[p].kids[h[b].pos], h[b].pos);
    KidFacts(h, a);
    KidFacts(h, b);
  }

  lemma TwoRelinks(up: map<Ptr, Link>, up1: map<Ptr, Link>, up2: map<Ptr, Link>,
      x: Ptr, at: nat, y: Ptr, at': nat, xs: seq<Ptr>, ys: seq<Ptr>, ks: seq<Ptr>)
    requires ks == xs + ys && Distinct(ks) && Relinked(up, up1, x, at, xs) && Relinked(up1, up2, y, at', ys)
    ensures up2.Keys == up.Keys
    ensures forall k | 0 <= k < |ks| ::
      ks[k] in up && up2[ks[k]] == if k < |xs| then Link(x, at + k) else Link(y, at' + k - |xs|)
    ensures forall c {:trigger up2[c]} | c in up && c !in ks :: up2[c] == up[c]
  {
    forall k | 0 <= k < |ks|
      ensures ks[k] in up && up2[ks[k]] == if k < |xs| then Link(x, at + k) else Link(y, at' + k - |xs|)
    {
      if k < |xs| {
        assert ks[k] == xs[k];
        forall j | 0 <= j < |ys| ensures ys[j] != ks[k] { assert ys[j] == ks[|xs| + j]; }
        assert ks[k] !in ys;
      } else {
        assert ks[k] == ys[k - |xs|];
      }
    }
  }

  predicate SameKind(x: Rec, y: Rec) {
    x.leaf == y.leaf && x.maxCount == y.maxCount && x.level == y.level
  }

  predicate KidsLinked(r: Memory, n: Ptr)
    requires r.Ok() && n in r.rec
  {
    var ks := r.rec[n].Kids();
    forall k {:trigger ks[k]} | 0 <= k < |ks| :: ks[k] in r.up && r.up[ks[k]] == Link(n, k)
  }

  /** A memory that differs from mem in the records of a, b and p only, with a's and b's
      values and children redistributed and the children relinked. */
  ghost predicate Redistributed(mem: Memory, r: Memory, p: Ptr, i: nat, a: Ptr, b: Ptr, d: Entry, ks: seq<Ptr>)
    requires mem.Ok()
  {
    && r.Ok() && r.rec.Keys == mem.rec.Keys && p in mem.rec && a in mem.rec && b in mem.rec
    && i < mem.rec[p].count && mem.rec[a].leaf == mem.rec[b].leaf
    && r.rec[p] == mem.rec[p].(values := mem.rec[p].values[i := d])
    && SameKind(r.rec[a], mem.rec[a]) && SameKind(r.rec[b], mem.rec[b])
    && (forall n {:trigger r.rec[n]} | n in mem.rec && n != a && n != b && n != p :: r.rec[n] == mem.rec[n])
    && (forall n {:trigger r.up[n]} | n in mem.rec && n !in ks :: r.up[n] == mem.up[n])
    && mem.rec[a].Vals() + [mem.rec[p].values[i]] + mem.rec[b].Vals() == r.rec[a].Vals() + [d] + r.rec[b].Vals()
    && mem.rec[a].Kids() + mem.rec[b].Kids() == r.rec[a].Kids() + r.rec[b].Kids()
    && KidsLinked(r, a)
    && KidsLinked(r, b)
  }

  lemma RedistributedKids(mem: Memory, r: Memory, p: Ptr, i: nat, a: Ptr,
      b: Ptr, d: Entry, ks: seq<Ptr>, n: Ptr, j: nat)
    requires mem.Ok() && LinkedSiblings(View(mem), p, a, b) && Redistributed(mem, r, p, i, a, b, d, ks)
    requires n == a || n == b
    requires j < |r.rec[n].Kids()|
    ensures KidOK(View(r), n, r.rec[n].Kids()[j], j)
  {
    var h := View(mem);
    SiblingFacts(h, p, a, b);
    KidFacts(h, a);
    KidFacts(h, b);
    var c, both := r.rec[n].Kids()[j], h[a].kids + h[b].kids;
    assert both == r.rec[a].Kids() + r.rec[b].Kids();
    assert c in r.rec[a].Kids() + r.rec[b].Kids();
    assert c in h && h[c].lvl + 1 == h[a].lvl;
    assert r.rec[c] == mem.rec[c];
  }

  lemma SiblingPlaces(mem: Memory, p: Ptr, i: nat, a: Ptr, b: Ptr)
    requires mem.Ok() && LinkedSiblings(View(mem), p, a, b) && mem.up[a].position == i
    ensures var h := View(mem);
      && p != a && p != b && a != b
      && i + 1 < |h[p].kids| && h[p].kids[i] == a && h[p].kids[i + 1] == b && |h[p].kids| == |h[p].vals| + 1
    ensures mem.rec[a].leaf == mem.rec[b].leaf
    ensures forall n | n == p || n == a || n == b :: n !in mem.rec[a].Kids() && n !in mem.rec[b].Kids()
  {
    SiblingFacts(View(mem), p, a, b);
  }

  lemma RedistributedRecords(mem: Memory, r: Memory, p: Ptr, i: nat, a: Ptr, b: Ptr, d: Entry, ks: seq<Ptr>)
    requires mem.Ok() && LinkedSiblings(View(mem), p, a, b) && Redistributed(mem, r, p, i, a, b, d, ks)
    requires forall c | c in ks :: c in mem.rec[a].Kids() || c in mem.rec[b].Kids()
    requires mem.up[a].position == i
    ensures var h, g := View(mem), View(r);
      && g[p] == h[p].(vals := h[p].vals[i := d])
      && g[a] == h[a].(vals := g[a].vals, kids := g[a].kids)
      && g[b] == h[b].(vals := g[b].vals, kids := g[b].kids)
  {
    SiblingPlaces(mem, p, i, a, b);
    assert r.up[a] == mem.up[a] && r.up[b] == mem.up[b] && r.up[p] == mem.up[p];
    assert r.rec[p].Vals() == mem.rec[p].Vals()[i := d];
    assert r.rec[p].Kids() == mem.rec[p].Kids();
  }

  lemma RedistributedElsewhere(mem: Memory, r: Memory, p: Ptr, i: nat, a: Ptr, b: Ptr, d: Entry, ks: seq<Ptr>)
    requires mem.Ok() && LinkedSiblings(View(mem), p, a, b) && Redistributed(mem, r, p, i, a, b, d, ks)
    requires forall c | c in ks :: c in mem.rec[a].Kids() || c in mem.rec[b].Kids()
    ensures forall n {:trigger SameContent(View(mem), View(r), n)} | n in View(mem) && n != a && n != b && n != p ::
      SameContent(View(mem), View(r), n)
    ensures forall n {:trigger SameUp(View(mem), View(r), n)} | n in View(mem)
      && n !in View(mem)[a].kids && n !in View(mem)[b].kids :: SameUp(View(mem), View(r), n)
  {
    var h, g := View(mem), View(r);
    forall n | n in h && n != a && n != b && n != p ensures SameContent(h, g, n) {
      assert r.rec[n] == mem.rec[n];
    }
    forall n | n in h && n !in h[a].kids && n !in h[b].kids ensures SameUp(h, g, n) {
      assert n !in ks;
      assert r.up[n] == mem.up[n];
      if n != a && n != b && n != p { assert r.rec[n] == mem.rec[n]; }
    }
  }

  lemma RedistributedLinks(mem: Memory, r: Memory, p: Ptr, i: nat, a: Ptr, b: Ptr, d: Entry, ks: seq<Ptr>, n: Ptr)
    requires mem.Ok() && LinkedSiblings(View(mem), p, a, b) && Redistributed(mem, r, p, i, a, b, d, ks)
    requires n == a || n == b
    ensures LinksOK(View(r), n)
  {
    var g := View(r);
    assert LinksOK(View(mem), n);
    forall j | 0 <= j < |g[n].kids| ensures KidOK(g, n, g[n].kids[j], j) {
      RedistributedKids(mem, r, p, i, a, b, d, ks, n, j);
    }
  }

  lemma RedistributedContent(mem: Memory, r: Memory, p: Ptr, i: nat, a: Ptr, b: Ptr, d: Entry)
    requires mem.Ok() && r.Ok() && a in mem.rec && b in mem.rec && p in mem.rec && a in r.rec && b in r.rec
    requires i < mem.rec[p].count
    requires mem.rec[a].Vals() + [mem.rec[p].values[i]] + mem.rec[b].Vals() == r.rec[a].Vals() + [d] + r.rec[b].Vals()
    requires mem.rec[a].Kids() + mem.rec[b].Kids() == r.rec[a].Kids() + r.rec[b].Kids()
    ensures var h, g := View(mem), View(r);
      && h[a].vals + [h[p].vals[i]] + h[b].vals == g[a].vals + [d] + g[b].vals
      && h[a].kids + h[b].kids == g[a].kids + g[b].kids
  {
    assert mem.rec[p].values[i] == mem.rec[p].Vals()[i];
  }

  lemma RedistributedFrame(mem: Memory, r: Memory, p: Ptr, i: nat, a: Ptr, b: Ptr, d: Entry, ks: seq<Ptr>)
    requires mem.Ok() && LinkedSiblings(View(mem), p, a, b) && Redistributed(mem, r, p, i, a, b, d, ks)
    requires forall c | c in ks :: c in mem.rec[a].Kids() || c in mem.rec[b].Kids()
    ensures forall n {:trigger SameContent(View(mem), View(r), n)} | n in View(mem) && n != a && n != b && n != p ::
      SameContent(View(mem), View(r), n)
    ensures forall n {:trigger SameUp(View(mem), View(r), n)} | n in View(mem)
      && n !in View(mem)[a].kids && n !in View(mem)[b].kids :: SameUp(View(mem), View(r), n)
    ensures LinksOK(View(r), a) && LinksOK(View(r), b)
  {
    RedistributedElsewhere(mem, r, p, i, a, b, d, ks);
    RedistributedLinks(mem, r, p, i, a, b, d, ks, a);
    RedistributedLinks(mem, r, p, i, a, b, d, ks, b);
  }

  lemma RedistributedShifts(mem: Memory, r: Memory, p: Ptr, i: nat, a: Ptr, b: Ptr, d: Entry, ks: seq<Ptr>)
    requires mem.Ok() && LinkedSiblings(View(mem), p, a, b) && mem.up[a].position == i
    requires Redistributed(mem, r, p, i, a, b, d, ks)
    requires forall c | c in ks :: c in mem.rec[a].Kids() || c in mem.rec[b].Kids()
    ensures ShiftLocal(View(mem), View(r), p, i, a, b, d)
  {
    SiblingPlaces(mem, p, i, a, b);
    RedistributedContent(mem, r, p, i, a, b, d);
    RedistributedRecords(mem, r, p, i, a, b, d, ks);
    RedistributedFrame(mem, r, p, i, a, b, d, ks);
  }

  /** m values go from the front of bs, through slot i of ps, to the end of as. */
  method ValuesRightToLeft(vs: seq<Entry>, n: nat, bs: seq<Entry>, c: nat, ps: seq<Entry>, i: nat, m: nat)
    returns (vs': seq<Entry>, bs': seq<Entry>, ps': seq<Entry>)
    requires n + m <= |vs| && 1 <= m <= c <= |bs| && i < |ps|
    ensures |vs'| == |vs| && |bs'| == |bs| && ps' == ps[i := bs[m - 1]]
    ensures vs'[..n + m] == vs[..n] + [ps[i]] + bs[..m - 1] && bs'[..c - m] == bs[m..c]
  {
    vs', ps' := vs[n := ps[i]], ps[i := vs[n]];
    ps', bs' := ps'[i := bs[m - 1]], bs[m - 1 := ps'[i]];
    vs', bs' := SwapRange(vs', n + 1, bs', 0, m - 1);
    assert bs'[m..c] == bs[m..c];
    bs' := CloseUp(bs', m, c);
  }

  /** The children ks of b, in slots 0..c: the first m go to a, behind its n + 1, the rest close up. */
  method KidsRightToLeft(up: map<Ptr, Link>, a: Ptr, cs: seq<Ptr>, n: nat, b: Ptr, ds: seq<Ptr>, c: nat, m: nat,
      ghost ks: seq<Ptr>)
      returns (up': map<Ptr, Link>, cs': seq<Ptr>, ds': seq<Ptr>)
    requires n + 1 + m <= |cs| && 1 <= m <= c < |ds| && ks == ds[..c + 1]
    requires Distinct(ks) && forall x | x in ks :: x in up
    ensures |cs'| == |cs| && |ds'| == |ds|
    ensures cs'[..n + m + 1] == cs[..n + 1] + ks[..m] && ds'[..c - m + 1] == ks[m..]
    ensures up'.Keys == up.Keys
    ensures forall k {:trigger ks[k]} | 0 <= k < |ks| ::
      ks[k] in up && up'[ks[k]] == if k < m then Link(a, n + 1 + k) else Link(b, k - m)
    ensures forall x {:trigger up'[x]} | x in up && x !in ks :: up'[x] == up[x]
  {
    ghost var xs, ys := ks[..m], ks[m..];
    assert ks == xs + ys;
    DistinctParts(xs, ys, up);
    up', cs', ds' := AdoptKids(up, a, cs, n + 1, ds, 0, m, false, xs);
    ghost var up1 := up';
    up', ds' := CloseUpKids(up', b, ds', m, c - m + 1, ys);
    TwoRelinks(up, up1, up', a, n + 1, b, 0, xs, ys, ks);
  }

  lemma KidSlots(h: map<Ptr, Nd<Ptr>>, n: Ptr, cs: seq<Ptr>, c: nat)
    requires n in h && LinksOK(h, n) && c < |cs| && h[n].kids == cs[..c + 1]
    ensures Distinct(cs[..c + 1]) && forall x | x in cs[..c + 1] :: x in h
  {
    KidFacts(h, n);
  }

  /** The nodes other than the two siblings and their parent keep their records, these three their size. */
  predicate OthersKept(mem: Memory, r: Memory, p: Ptr, a: Ptr, b: Ptr) {
    && r.rec.Keys == mem.rec.Keys && p in mem.rec && a in mem.rec && b in mem.rec
    && r.rec[p].count == mem.rec[p].count && r.rec[p].maxCount == mem.rec[p].maxCount
    && r.rec[a].maxCount == mem.rec[a].maxCount && r.rec[b].maxCount == mem.rec[b].maxCount
    && r.rec[a].count + r.rec[b].count == mem.rec[a].count + mem.rec[b].count
    && (forall n {:trigger r.rec[n]} | n in mem.rec && n != a && n != b && n != p :: r.rec[n] == mem.rec[n])
  }

  lemma SliceAround(vs: seq<Entry>, m: nat, c: nat)
    requires 1 <= m <= c <= |vs|
    ensures vs[..c] == vs[..m - 1] + [vs[m - 1]] + vs[m..c]
  {}

  lemma SliceAt(vs: seq<Entry>, j: nat, c: nat)
    requires j < c <= |vs|
    ensures vs[..c] == vs[..j] + [vs[j]] + vs[j + 1..c]
  {}

  lemma Regroup5(a: seq<Entry>, d: Entry, b: seq<Entry>, e: Entry, c: seq<Entry>)
    ensures a + [d] + (b + [e] + c) == (a + [d] + b) + [e] + c
  {}

  /** m values have gone from b to its left sibling a, e between them. */
  ghost predicate LeftShared(a: Rec, a': Rec, b: Rec, b': Rec, e: Entry, m: nat)
    requires a.Ok() && a'.Ok() && b.Ok() && b'.Ok()
  {
    && 1 <= m <= b.count && SameKind(a', a) && SameKind(b', b) && b.leaf == a.leaf
    && a'.count == a.count + m && b'.count == b.count - m
    && a'.Vals() == a.Vals() + [e] + b.values[..m - 1] && b'.Vals() == b.values[m..b.count]
  }

  /** The records after that. */
  ghost predicate LeftRecords(mem: Memory, r: Memory, p: Ptr, i: nat, a: Ptr, b: Ptr, m: nat)
    requires mem.Ok() && r.Ok()
  {
    && p in mem.rec && a in mem.rec && b in mem.rec && i < mem.rec[p].count && a in r.rec && b in r.rec
    && LeftShared(mem.rec[a], r.rec[a], mem.rec[b], r.rec[b], mem.rec[p].values[i], m)
    && var q := mem.rec[p].(values := mem.rec[p].values[i := mem.rec[b].values[m - 1]]);
    r.rec == mem.rec[p := q][a := r.rec[a]][b := r.rec[b]]
  }

  /** The first m of b's children, ks, have gone to the end of a's, xs: ra and rb are those they have now. */
  ghost predicate LeftMoved(xs: seq<Ptr>, ra: seq<Ptr>, a: Ptr, ks: seq<Ptr>, rb: seq<Ptr>, b: Ptr, m: nat,
      up: map<Ptr, Link>, up': map<Ptr, Link>)
  {
    && up'.Keys == up.Keys
    && (ks == [] ==> ra == xs && rb == [])
    && (ks != [] ==> m <= |ks| && ra == xs + ks[..m] && rb == ks[m..])
    && (forall k {:trigger ks[k]} | 0 <= k < |ks| ::
         ks[k] in up' && up'[ks[k]] == if k < m then Link(a, |xs| + k) else Link(b, k - m))
    && (forall z {:trigger up'[z]} | z in up && z !in ks :: up'[z] == up[z])
  }

  ghost predicate LeftKids(mem: Memory, r: Memory, a: Ptr, b: Ptr, m: nat)
    requires mem.Ok() && r.Ok() && a in mem.rec && b in mem.rec && a in r.rec && b in r.rec
  {
    LeftMoved(mem.rec[a].Kids(), r.rec[a].Kids(), a, mem.rec[b].Kids(), r.rec[b].Kids(), b, m, mem.up, r.up)
  }

  lemma LeftKidsLinked(mem: Memory, r: Memory, p: Ptr, a: Ptr, b: Ptr, m: nat)
    requires mem.Ok() && r.Ok() && LinkedSiblings(View(mem), p, a, b)
    requires a in r.rec && b in r.rec && LeftKids(mem, r, a, b, m)
    ensures KidsLinked(r, a)
    ensures KidsLinked(r, b)
  {
    var xs, ks, ra, rb := mem.rec[a].Kids(), mem.rec[b].Kids(), r.rec[a].Kids(), r.rec[b].Kids();
    assert forall c | c in xs :: c !in ks by { SiblingFacts(View(mem), p, a, b); }
    forall k | 0 <= k < |xs| ensures xs[k] in r.up && r.up[xs[k]] == Link(a, k) { LinkedKid(mem, a, k); }
    if ks != [] { AppendedLinked(r.up, a, b, xs, ks, m, |xs|, ra, rb); }
  }

  /** Children xs of a, then the first m of ks go to a and the others to b. */
  lemma AppendedLinked(up: map<Ptr, Link>, a: Ptr, b: Ptr, xs: seq<Ptr>, ks: seq<Ptr>, m: nat, n: nat,
      ra: seq<Ptr>, rb: seq<Ptr>)
    requires |xs| == n && m <= |ks| && ra == xs + ks[..m] && rb == ks[m..]
    requires forall k | 0 <= k < |xs| :: xs[k] in up && up[xs[k]] == Link(a, k)
    requires forall k {:trigger ks[k]} | 0 <= k < |ks| ::
      ks[k] in up && up[ks[k]] == if k < m then Link(a, n + k) else Link(b, k - m)
    ensures forall k {:trigger ra[k]} | 0 <= k < |ra| :: ra[k] in up && up[ra[k]] == Link(a, k)
    ensures forall k {:trigger rb[k]} | 0 <= k < |rb| :: rb[k] in up && up[rb[k]] == Link(b, k)
  {
    forall k | 0 <= k < |ra| ensures ra[k] in up && up[ra[k]] == Link(a, k) {
      if k < n { assert ra[k] == xs[k]; } else { assert ra[k] == ks[k - n]; }
    }
    forall k | 0 <= k < |rb| ensures rb[k] in up && up[rb[k]] == Link(b, k) {
      assert rb[k] == ks[k + m];
    }
  }

  lemma LinkedKid(mem: Memory, n: Ptr, k: nat)
    requires mem.Ok() && n in mem.rec && LinksOK(View(mem), n) && k < |mem.rec[n].Kids()|
    ensures var c := mem.rec[n].Kids()[k]; c in mem.rec[n].Kids() && c in mem.up && mem.up[c] == Link(n, k)
  {
    assert KidOK(View(mem), n, View(mem)[n].kids[k], k);
  }

  lemma LeftContent(a: Rec, a': Rec, b: Rec, b': Rec, e: Entry, m: nat)
    requires a.Ok() && a'.Ok() && b.Ok() && b'.Ok() && LeftShared(a, a', b, b', e, m)
    ensures a.Vals() + [e] + b.Vals() == a'.Vals() + [b.values[m - 1]] + b'.Vals()
  {
    SliceAround(b.values, m, b.count);
    Regroup5(a.Vals(), e, b.values[..m - 1], b.values[m - 1], b.values[m..b.count]);
  }

  lemma LeftContentKids(xs: seq<Ptr>, ra: seq<Ptr>, a: Ptr, ks: seq<Ptr>, rb: seq<Ptr>, b: Ptr, m: nat,
      up: map<Ptr, Link>, up': map<Ptr, Link>)
    requires LeftMoved(xs, ra, a, ks, rb, b, m, up, up')
    ensures xs + ks == ra + rb
  {
    if ks != [] { assert ks == ks[..m] + ks[m..]; }
  }

  lemma MovedLeftDone(mem: Memory, r: Memory, p: Ptr, i: nat, a: Ptr, b: Ptr, m: nat)
    requires mem.Ok() && r.Ok() && LinkedSiblings(View(mem), p, a, b) && mem.up[a].position == i
    requires LeftRecords(mem, r, p, i, a, b, m) && LeftKids(mem, r, a, b, m)
    ensures ShiftLocal(View(mem), View(r), p, i, a, b, mem.rec[b].values[m - 1])
  {
    SiblingPlaces(mem, p, i, a, b);
    LeftKidsLinked(mem, r, p, a, b, m);
    LeftContentKids(mem.rec[a].Kids(), r.rec[a].Kids(), a, mem.rec[b].Kids(), r.rec[b].Kids(), b, m, mem.up, r.up);
    LeftRedistributed(mem, r, p, i, a, b, m, mem.rec[b].Kids());
    RedistributedShifts(mem, r, p, i, a, b, mem.rec[b].values[m - 1], mem.rec[b].Kids());
  }

  lemma LeftRedistributed(mem: Memory, r: Memory, p: Ptr, i: nat, a: Ptr, b: Ptr, m: nat, ks: seq<Ptr>)
    requires mem.Ok() && r.Ok() && p != a && p != b && a != b
    requires LeftRecords(mem, r, p, i, a, b, m) && KidsLinked(r, a) && KidsLinked(r, b)
    requires mem.rec[a].Kids() + mem.rec[b].Kids() == r.rec[a].Kids() + r.rec[b].Kids()
    requires forall n {:trigger r.up[n]} | n in mem.rec && n !in ks :: r.up[n] == mem.up[n]
    ensures Redistributed(mem, r, p, i, a, b, mem.rec[b].values[m - 1], ks)
  {
    LeftContent(mem.rec[a], r.rec[a], mem.rec[b], r.rec[b], mem.rec[p].values[i], m);
    LeftFrame(mem, r, p, i, a, b, m);
  }

  lemma LeftFrame(mem: Memory, r: Memory, p: Ptr, i: nat, a: Ptr, b: Ptr, m: nat)
    requires mem.Ok() && r.Ok() && LeftRecords(mem, r, p, i, a, b, m) && p != a && p != b && a != b
    ensures r.rec.Keys == mem.rec.Keys
    ensures r.rec[p] == mem.rec[p].(values := mem.rec[p].values[i := mem.rec[b].values[m - 1]])
    ensures forall n {:trigger r.rec[n]} | n in mem.rec && n != a && n != b && n != p :: r.rec[n] == mem.rec[n]
  {}

  lemma LeftOthersKept(mem: Memory, r: Memory, p: Ptr, i: nat, a: Ptr, b: Ptr, m: nat)
    requires mem.Ok() && r.Ok() && LeftRecords(mem, r, p, i, a, b, m) && p != a && p != b && a != b
    ensures OthersKept(mem, r, p, a, b)
  {}

  method MovedLeftKids(a: Rec, node: Ptr, b: Rec, src: Ptr, m: nat, up: map<Ptr, Link>)
      returns (ac: seq<Ptr>, bc: seq<Ptr>, up': map<Ptr, Link>)
    requires a.Ok() && b.Ok() && a.leaf == b.leaf && 1 <= m <= b.count && a.count + m <= a.maxCount
    requires Distinct(b.Kids()) && forall c | c in b.Kids() :: c in up
    ensures |ac| == |a.children| && |bc| == |b.children|
    ensures a.leaf ==> LeftMoved([], [], node, [], [], src, m, up, up')
    ensures !a.leaf ==>
      LeftMoved(a.Kids(), ac[..a.count + m + 1], node, b.Kids(), bc[..b.count - m + 1], src, m, up, up')
  {
    ac, bc, up' := a.children, b.children, up;
    if !a.leaf {
      up', ac, bc := KidsRightToLeft(up, node, a.children, a.count, src, b.children, b.count, m, b.Kids());
    }
  }

  method MovedLeftRecs(a: Rec, node: Ptr, b: Rec, src: Ptr, q: Rec, i: nat, toMove: nat, up: map<Ptr, Link>)
      returns (a': Rec, b': Rec, q': Rec, up': map<Ptr, Link>)
    requires a.Ok() && b.Ok() && q.Ok() && i < q.count && a.leaf == b.leaf
    requires 1 <= toMove <= b.count && a.count + toMove <= a.maxCount
    requires Distinct(b.Kids()) && forall c | c in b.Kids() :: c in up
    ensures q' == q.(values := q.values[i := b.values[toMove - 1]])
    ensures a'.Ok() && b'.Ok() && LeftShared(a, a', b, b', q.values[i], toMove)
    ensures LeftMoved(a.Kids(), a'.Kids(), node, b.Kids(), b'.Kids(), src, toMove, up, up')
  {
    var av, bv, qv := ValuesRightToLeft(a.values, a.count, b.values, b.count, q.values, i, toMove);
    var ac, bc;
    ac, bc, up' := MovedLeftKids(a, node, b, src, toMove, up);
    a', b' := a.(values := av, children := ac, count := a.count + toMove),
      b.(values := bv, children := bc, count := b.count - toMove);
    q' := q.(values := qv);
  }

  lemma LeftRecordsBuilt(mem: Memory, r: Memory, p: Ptr, i: nat, a: Ptr, b: Ptr, m: nat, q': Rec, a': Rec, b': Rec)
    requires mem.Ok() && p in mem.rec && a in mem.rec && b in mem.rec && p != a && p != b && a != b
    requires i < mem.rec[p].count && a'.Ok() && b'.Ok()
    requires LeftShared(mem.rec[a], a', mem.rec[b], b', mem.rec[p].values[i], m)
    requires q' == mem.rec[p].(values := mem.rec[p].values[i := mem.rec[b].values[m - 1]])
    requires r.rec == mem.rec[p := q'][a := a'][b := b'] && r.up.Keys == mem.up.Keys
    ensures r.Ok() && r.rec[a] == a' && r.rec[b] == b' && LeftRecords(mem, r, p, i, a, b, m)
  {}

  method MoveLeft(mem: Memory, p: Ptr, i: nat, node: Ptr, src: Ptr, toMove: nat) returns (r: Memory)
    requires mem.Ok() && p in mem.rec && node in mem.rec && src in mem.rec && p != node && p != src && node != src
    requires i < mem.rec[p].count && mem.rec[node].leaf == mem.rec[src].leaf
    requires 1 <= toMove <= mem.rec[src].count && mem.rec[node].count + toMove <= mem.rec[node].maxCount
    requires Distinct(mem.rec[src].Kids()) && forall c | c in mem.rec[src].Kids() :: c in mem.rec
    ensures r.Ok()
    ensures LeftRecords(mem, r, p, i, node, src, toMove) && LeftKids(mem, r, node, src, toMove)
  {
    var a', b', q', up := MovedLeftRecs(mem.rec[node], node, mem.rec[src], src, mem.rec[p], i, toMove, mem.up);
    r := Memory(mem.rec[p := q'][node := a'][src := b'], up);
    LeftRecordsBuilt(mem, r, p, i, node, src, toMove, q', a', b');
  }

  /** Values go from src, the right sibling of node, through the parent to the end of node. */
  method RebalanceRightToLeft(mem: Memory, node: Ptr, src: Ptr, toMove: nat) returns (r: Memory)
    requires mem.Ok() && node in mem.rec && src in mem.rec
    requires LinkedSiblings(View(mem), mem.up[node].parent, node, src)
    requires 1 <= toMove <= mem.rec[src].count && mem.rec[node].count <= mem.rec[src].count
    requires mem.rec[node].count + toMove <= mem.rec[node].maxCount
    ensures r.Ok()
    ensures ShiftLocal(View(mem), View(r), mem.up[node].parent,
      mem.up[node].position, node, src, mem.rec[src].values[toMove - 1])
    ensures OthersKept(mem, r, mem.up[node].parent, node, src) && r.rec[node].count == mem.rec[node].count + toMove
  {
    SiblingFacts(View(mem), mem.up[node].parent, node, src);
    if !mem.rec[src].leaf { KidSlots(View(mem), src, mem.rec[src].children, mem.rec[src].count); }
    r := MoveLeft(mem, mem.up[node].parent, mem.up[node].position, node, src, toMove);
    MovedLeftDone(mem, r, mem.up[node].parent, mem.up[node].position, node, src, toMove);
    LeftOthersKept(mem, r, mem.up[node].parent, mem.up[node].position, node, src, toMove);
  }

  // ----- rebalance_left_to_right -----

  method ValuesLeftToRight(vs: seq<Entry>, n: nat, bs: seq<Entry>, c: nat, ps: seq<Entry>, i: nat, m: nat)
    returns (vs': seq<Entry>, bs': seq<Entry>, ps': seq<Entry>)
    requires 1 <= m <= n <= |vs| && c + m <= |bs| && i < |ps|
    ensures |vs'| == |vs| && |bs'| == |bs| && ps' == ps[i := vs[n - m]]
    ensures vs'[..n - m] == vs[..n - m] && bs'[..c + m] == vs[n - m + 1..n] + [ps[i]] + bs[..c]
  {
    bs' := OpenUp(bs, m, c);
    bs', ps' := bs'[m - 1 := ps[i]], ps[i := bs'[m - 1]];
    ps', vs' := ps'[i := vs[n - m]], vs[n - m := ps'[i]];
    vs', bs' := SwapRange(vs', n - m + 1, bs', 0, m - 1);
  }

  /** The last m of the children cs, in slots 0..n, which are ks, go to the front of b, whose own,
      in slots 0..c, are ls. */
  method KidsLeftToRight(up: map<Ptr, Link>, cs: seq<Ptr>, n: nat, b: Ptr, ds: seq<Ptr>, c: nat, m: nat,
      ghost ks: seq<Ptr>, ghost ls: seq<Ptr>)
      returns (up': map<Ptr, Link>, cs': seq<Ptr>, ds': seq<Ptr>)
    requires 1 <= m <= n < |cs| && c + m < |ds| && ks == cs[..n + 1] && ls == ds[..c + 1]
    requires Distinct(ls + ks[n - m + 1..]) && forall x | x in ls + ks[n - m + 1..] :: x in up
    ensures |cs'| == |cs| && |ds'| == |ds|
    ensures cs'[..n - m + 1] == ks[..n - m + 1] && ds'[..c + m + 1] == ks[n - m + 1..] + ls
    ensures up'.Keys == up.Keys
    ensures var rb := ks[n - m + 1..] + ls;
      && (forall k {:trigger rb[k]} | 0 <= k < |rb| :: rb[k] in up' && up'[rb[k]] == Link(b, k))
      && (forall x {:trigger up'[x]} | x in up && x !in rb :: up'[x] == up[x])
  {
    ghost var ys := ks[n - m + 1..];
    DistinctParts(ls, ys, up);
    up', ds' := OpenUpKids(up, b, ds, m, c + 1, ls);
    ghost var up1, ds1 := up', ds';
    up', ds', cs' := AdoptKids(up', b, ds', 0, cs, n - m + 1, m, true, ys);
    AfterAdopting(ds', ds1, ls, ys, m, c + 1, c + m + 1);
    TwoRelinks(up, up1, up', b, m, b, 0, ls, ys, ls + ys);
    KidsLeftToRightLinks(up, up', b, ls, ys, m);
  }

  lemma AfterAdopting(ds': seq<Ptr>, ds: seq<Ptr>, xs: seq<Ptr>, ys: seq<Ptr>, m: nat, c: nat, end: nat)
    requires |ys| == m && end == m + c <= |ds| && ds' == ds[..0] + ys + ds[0 + m..] && ds[m..m + c] == xs
    ensures |ds'| == |ds| && ds'[..end] == ys + xs
  {}

  lemma DistinctParts(xs: seq<Ptr>, ys: seq<Ptr>, up: map<Ptr, Link>)
    requires Distinct(xs + ys) && forall x | x in xs + ys :: x in up
    ensures Distinct(xs) && Distinct(ys) && (forall x | x in xs :: x in up) && forall y | y in ys :: y in up
  {
    forall j, k | 0 <= j < k < |xs| ensures xs[j] != xs[k] { assert (xs + ys)[j] == xs[j] && (xs + ys)[k] == xs[k]; }
    forall j, k | 0 <= j < k < |ys|
      ensures ys[j] != ys[k]
    {
      assert (xs + ys)[|xs| + j] == ys[j] && (xs + ys)[|xs| + k] == ys[k];
    }
  }

  lemma KidsLeftToRightLinks(up: map<Ptr, Link>, up': map<Ptr, Link>, b: Ptr, xs: seq<Ptr>, ys: seq<Ptr>, m: nat)
    requires |ys| == m && up'.Keys == up.Keys
    requires var ks := xs + ys; forall k | 0 <= k < |ks| ::
      ks[k] in up && up'[ks[k]] == if k < |xs| then Link(b, m + k) else Link(b, 0 + k - |xs|)
    requires forall x {:trigger up'[x]} | x in up && x !in xs + ys :: up'[x] == up[x]
    ensures var rb := ys + xs;
      && (forall k {:trigger rb[k]} | 0 <= k < |rb| :: rb[k] in up' && up'[rb[k]] == Link(b, k))
      && (forall x {:trigger up'[x]} | x in up && x !in rb :: up'[x] == up[x])
  {
    var ks, rb := xs + ys, ys + xs;
    forall k | 0 <= k < |rb| ensures rb[k] in up' && up'[rb[k]] == Link(b, k) {
      if k < m { assert rb[k] == ks[|xs| + k]; } else { assert rb[k] == ks[k - m]; }
    }
    forall x | x in up && x !in rb ensures up'[x] == up[x] {
      assert x !in ks;
    }
  }

  /** m values have gone from a to its right sibling b, e between them. */
  ghost predicate RightShared(a: Rec, a': Rec, b: Rec, b': Rec, e: Entry, m: nat)
    requires a.Ok() && a'.Ok() && b.Ok() && b'.Ok()
  {
    && 1 <= m <= a.count && SameKind(a', a) && SameKind(b', b) && b.leaf == a.leaf
    && a'.count == a.count - m && b'.count == b.count + m
    && a'.Vals() == a.values[..a.count - m]
    && b'.Vals() == a.values[a.count - m + 1..a.count] + [e] + b.Vals()
  }

  /** The records after that. */
  ghost predicate RightRecords(mem: Memory, r: Memory, p: Ptr, i: nat, a: Ptr, b: Ptr, m: nat)
    requires mem.Ok() && r.Ok()
  {
    && p in mem.rec && a in mem.rec && b in mem.rec && i < mem.rec[p].count && a in r.rec && b in r.rec
    && RightShared(mem.rec[a], r.rec[a], mem.rec[b], r.rec[b], mem.rec[p].values[i], m)
    && var q := mem.rec[p].(values := mem.rec[p].values[i := mem.rec[a].values[mem.rec[a].count - m]]);
    r.rec == mem.rec[p := q][a := r.rec[a]][b := r.rec[b]]
  }

  /** The last m children of a, ks, have gone to the front of b's, ls: ra and rb are those they have now. */
  ghost predicate RightMoved(ks: seq<Ptr>, ra: seq<Ptr>, b: Ptr, ls: seq<Ptr>, rb: seq<Ptr>, m: nat,
      up: map<Ptr, Link>, up': map<Ptr, Link>)
  {
    && up'.Keys == up.Keys
    && (ks == [] ==> ra == [] && rb == [])
    && (ks != [] ==> m <= |ks| && ra == ks[..|ks| - m] && rb == ks[|ks| - m..] + ls)
    && (forall k {:trigger rb[k]} | 0 <= k < |rb| :: rb[k] in up' && up'[rb[k]] == Link(b, k))
    && (forall z {:trigger up'[z]} | z in up && z !in rb :: up'[z] == up[z])
  }

  ghost predicate RightKids(mem: Memory, r: Memory, a: Ptr, b: Ptr, m: nat)
    requires mem.Ok() && r.Ok() && a in mem.rec && b in mem.rec && a in r.rec && b in r.rec
  {
    RightMoved(mem.rec[a].Kids(), r.rec[a].Kids(), b, mem.rec[b].Kids(), r.rec[b].Kids(), m, mem.up, r.up)
  }

  lemma RightKidsLinked(mem: Memory, r: Memory, p: Ptr, a: Ptr, b: Ptr, m: nat)
    requires mem.Ok() && r.Ok() && LinkedSiblings(View(mem), p, a, b)
    requires a in r.rec && b in r.rec && RightKids(mem, r, a, b, m)
    ensures KidsLinked(r, a)
    ensures forall c | c in r.rec[b].Kids() :: c in mem.rec[a].Kids() || c in mem.rec[b].Kids()
  {
    var ks, ls := mem.rec[a].Kids(), mem.rec[b].Kids();
    assert Distinct(ks) && forall c | c in ks :: c !in ls by { SiblingFacts(View(mem), p, a, b); }
    forall k | 0 <= k < |ks| ensures ks[k] in mem.up && mem.up[ks[k]] == Link(a, k) { LinkedKid(mem, a, k); }
    RightStayed(ks, r.rec[a].Kids(), a, ls, r.rec[b].Kids(), b, m, mem.up, r.up);
  }

  /** The children that stay keep their links. */
  lemma RightStayed(ks: seq<Ptr>, ra: seq<Ptr>, a: Ptr, ls: seq<Ptr>, rb: seq<Ptr>, b: Ptr, m: nat,
      up: map<Ptr, Link>, up': map<Ptr, Link>)
    requires RightMoved(ks, ra, b, ls, rb, m, up, up') && Distinct(ks) && forall c | c in ks :: c !in ls
    requires forall k | 0 <= k < |ks| :: ks[k] in up && up[ks[k]] == Link(a, k)
    ensures forall k {:trigger ra[k]} | 0 <= k < |ra| :: ra[k] in up' && up'[ra[k]] == Link(a, k)
    ensures forall c | c in rb :: c in ks || c in ls
  {
    if ks != [] { MovedMembers(ks, ls, |ks| - m, ra, rb); }
  }

  lemma MovedMembers(ks: seq<Ptr>, ls: seq<Ptr>, j: nat, ra: seq<Ptr>, rb: seq<Ptr>)
    requires Distinct(ks) && (forall c | c in ks :: c !in ls) && j <= |ks| && ra == ks[..j] && rb == ks[j..] + ls
    ensures forall k | 0 <= k < j :: ra[k] == ks[k] && ra[k] !in rb
    ensures forall c | c in rb :: c in ks || c in ls
  {
    forall k, i | 0 <= k < j && 0 <= i < |rb| ensures ra[k] != rb[i] {
      assert ra[k] == ks[k] && ks[k] in ks;
      if i < |ks| - j { assert rb[i] == ks[j + i]; } else { assert rb[i] == ls[i - (|ks| - j)]; }
    }
  }

  lemma RightVals(xs: seq<Entry>, e: Entry, ys: seq<Entry>, pre: seq<Entry>, d: Entry, mid: seq<Entry>, zs: seq<Entry>)
    requires xs == pre + [d] + mid && zs == mid + [e] + ys
    ensures xs + [e] + ys == pre + [d] + zs
  {}

  lemma RightContent(a: Rec, a': Rec, b: Rec, b': Rec, e: Entry, m: nat)
    requires a.Ok() && a'.Ok() && b.Ok() && b'.Ok() && RightShared(a, a', b, b', e, m)
    ensures a.Vals() + [e] + b.Vals() == a'.Vals() + [a.values[a.count - m]] + b'.Vals()
  {
    var n := a.count;
    SliceAt(a.values, n - m, n);
    RightVals(a.Vals(), e, b.Vals(), a'.Vals(), a.values[n - m], a.values[n - m + 1..n], b'.Vals());
  }

  lemma RightContentKids(ks: seq<Ptr>, ra: seq<Ptr>, b: Ptr, ls: seq<Ptr>, rb: seq<Ptr>, m: nat,
      up: map<Ptr, Link>, up': map<Ptr, Link>)
    requires RightMoved(ks, ra, b, ls, rb, m, up, up') && (ks == [] ==> ls == [])
    ensures ks + ls == ra + rb
  {
    if ks != [] { assert ks == ks[..|ks| - m] + ks[|ks| - m..]; }
  }

  lemma MovedRightDone(mem: Memory, r: Memory, p: Ptr, i: nat, a: Ptr, b: Ptr, m: nat)
    requires mem.Ok() && r.Ok() && LinkedSiblings(View(mem), p, a, b) && mem.up[a].position == i
    requires RightRecords(mem, r, p, i, a, b, m) && RightKids(mem, r, a, b, m)
    ensures ShiftLocal(View(mem), View(r), p, i, a, b, mem.rec[a].values[mem.rec[a].count - m])
  {
    SiblingPlaces(mem, p, i, a, b);
    RightKidsLinked(mem, r, p, a, b, m);
    assert KidsLinked(r, b);
    RightContentKids(mem.rec[a].Kids(), r.rec[a].Kids(), b, mem.rec[b].Kids(), r.rec[b].Kids(), m, mem.up, r.up);
    RightRedistributed(mem, r, p, i, a, b, m, r.rec[b].Kids());
    RedistributedShifts(mem, r, p, i, a, b, mem.rec[a].values[mem.rec[a].count - m], r.rec[b].Kids());
  }

  lemma RightRedistributed(mem: Memory, r: Memory, p: Ptr, i: nat, a: Ptr, b: Ptr, m: nat, ks: seq<Ptr>)
    requires mem.Ok() && r.Ok() && p != a && p != b && a != b
    requires RightRecords(mem, r, p, i, a, b, m) && KidsLinked(r, a) && KidsLinked(r, b)
    requires mem.rec[a].Kids() + mem.rec[b].Kids() == r.rec[a].Kids() + r.rec[b].Kids()
    requires forall n {:trigger r.up[n]} | n in mem.rec && n !in ks :: r.up[n] == mem.up[n]
    ensures Redistributed(mem, r, p, i, a, b, mem.rec[a].values[mem.rec[a].count - m], ks)
  {
    RightContent(mem.rec[a], r.rec[a], mem.rec[b], r.rec[b], mem.rec[p].values[i], m);
    RightFrame(mem, r, p, i, a, b, m);
  }

  lemma RightFrame(mem: Memory, r: Memory, p: Ptr, i: nat, a: Ptr, b: Ptr, m: nat)
    requires mem.Ok() && r.Ok() && RightRecords(mem, r, p, i, a, b, m) && p != a && p != b && a != b
    ensures r.rec.Keys == mem.rec.Keys
    ensures r.rec[p] == mem.rec[p].(values := mem.rec[p].values[i := mem.rec[a].values[mem.rec[a].count - m]])
    ensures forall n {:trigger r.rec[n]} | n in mem.rec && n != a && n != b && n != p :: r.rec[n] == mem.rec[n]
  {}

  lemma RightOthersKept(mem: Memory, r: Memory, p: Ptr, i: nat, a: Ptr, b: Ptr, m: nat)
    requires mem.Ok() && r.Ok() && RightRecords(mem, r, p, i, a, b, m) && p != a && p != b && a != b
    ensures OthersKept(mem, r, p, a, b)
  {}

  method MovedRightKids(a: Rec, b: Rec, dest: Ptr, m: nat, up: map<Ptr, Link>)
      returns (ac: seq<Ptr>, bc: seq<Ptr>, up': map<Ptr, Link>)
    requires a.Ok() && b.Ok() && a.leaf == b.leaf && 1 <= m <= a.count && b.count + m <= b.maxCount
    requires !a.leaf ==> var moved := b.Kids() + a.Kids()[a.count - m + 1..];
      Distinct(moved) && forall c | c in moved :: c in up
    ensures |ac| == |a.children| && |bc| == |b.children|
    ensures a.leaf ==> RightMoved([], [], dest, [], [], m, up, up')
    ensures !a.leaf ==>
      RightMoved(a.Kids(), ac[..a.count - m + 1], dest, b.Kids(), bc[..b.count + m + 1], m, up, up')
  {
    ac, bc, up' := a.children, b.children, up;
    if !a.leaf {
      up', ac, bc := KidsLeftToRight(up, a.children, a.count, dest, b.children, b.count, m, a.Kids(), b.Kids());
    }
  }

  method MovedRightRecs(a: Rec, b: Rec, dest: Ptr, q: Rec, i: nat, toMove: nat, ghost d: Entry, up: map<Ptr, Link>)
      returns (a': Rec, b': Rec, q': Rec, up': map<Ptr, Link>)
    requires a.Ok() && b.Ok() && q.Ok() && i < q.count && a.leaf == b.leaf
    requires 1 <= toMove <= a.count && b.count + toMove <= b.maxCount && d == a.values[a.count - toMove]
    requires !a.leaf ==> var moved := b.Kids() + a.Kids()[a.count - toMove + 1..];
      Distinct(moved) && forall c | c in moved :: c in up
    ensures q' == q.(values := q.values[i := d])
    ensures a'.Ok() && b'.Ok() && RightShared(a, a', b, b', q.values[i], toMove)
    ensures RightMoved(a.Kids(), a'.Kids(), dest, b.Kids(), b'.Kids(), toMove, up, up')
  {
    var av, bv, qv := ValuesLeftToRight(a.values, a.count, b.values, b.count, q.values, i, toMove);
    var ac, bc;
    ac, bc, up' := MovedRightKids(a, b, dest, toMove, up);
    a', b' := a.(values := av, children := ac, count := a.count - toMove),
      b.(values := bv, children := bc, count := b.count + toMove);
    q' := q.(values := qv);
  }

  lemma RightRecordsBuilt(mem: Memory, r: Memory, p: Ptr, i: nat, a: Ptr, b: Ptr, m: nat, d: Entry,
      q': Rec, a': Rec, b': Rec)
    requires mem.Ok() && p in mem.rec && a in mem.rec && b in mem.rec && p != a && p != b && a != b
    requires i < mem.rec[p].count && a'.Ok() && b'.Ok()
    requires RightShared(mem.rec[a], a', mem.rec[b], b', mem.rec[p].values[i], m)
    requires d == mem.rec[a].values[mem.rec[a].count - m] && q' == mem.rec[p].(values := mem.rec[p].values[i := d])
    requires r.rec == mem.rec[p := q'][a := a'][b := b'] && r.up.Keys == mem.up.Keys
    ensures r.Ok() && r.rec[a] == a' && r.rec[b] == b' && RightRecords(mem, r, p, i, a, b, m)
  {}

  method MoveRight(mem: Memory, p: Ptr, i: nat, node: Ptr, dest: Ptr, toMove: nat) returns (r: Memory)
    requires mem.Ok() && p in mem.rec && node in mem.rec && dest in mem.rec && p != node && p != dest && node != dest
    requires i < mem.rec[p].count && mem.rec[node].leaf == mem.rec[dest].leaf
    requires 1 <= toMove <= mem.rec[node].count && mem.rec[dest].count + toMove <= mem.rec[dest].maxCount
    requires !mem.rec[node].leaf ==>
      var moved := mem.rec[dest].Kids() + mem.rec[node].Kids()[mem.rec[node].count - toMove + 1..];
      Distinct(moved) && forall c | c in moved :: c in mem.rec
    ensures r.Ok()
    ensures RightRecords(mem, r, p, i, node, dest, toMove) && RightKids(mem, r, node, dest, toMove)
  {
    ghost var d := mem.rec[node].values[mem.rec[node].count - toMove];
    var a', b', q', up := MovedRightRecs(mem.rec[node], mem.rec[dest], dest, mem.rec[p], i, toMove, d, mem.up);
    r := Memory(mem.rec[p := q'][node := a'][dest := b'], up);
    RightRecordsBuilt(mem, r, p, i, node, dest, toMove, d, q', a', b');
  }

  lemma MovingRightDistinct(h: map<Ptr, Nd<Ptr>>, p: Ptr, a: Ptr, b: Ptr, m: nat)
    requires LinkedSiblings(h, p, a, b) && m <= |h[a].kids|
    ensures var ks := h[b].kids + h[a].kids[m..]; Distinct(ks) && forall c | c in ks :: c in h
  {
    SiblingFacts(h, p, a, b);
    var ds, ks := h[b].kids, h[b].kids + h[a].kids[m..];
    forall k | |ds| <= k < |ks| ensures ks[k] == h[a].kids[k - |ds| + m] && ks[k] in h[a].kids {}
    forall k | 0 <= k < |ds| ensures ks[k] == ds[k] && ks[k] in h[b].kids {}
  }

  lemma MovingRightReady(mem: Memory, p: Ptr, node: Ptr, dest: Ptr, m: nat)
    requires mem.Ok() && node in mem.rec && dest in mem.rec
    requires LinkedSiblings(View(mem), p, node, dest) && 1 <= m <= mem.rec[node].count
    ensures p in mem.rec && p != node && p != dest && node != dest && mem.rec[node].leaf == mem.rec[dest].leaf
    ensures mem.up[node].position < mem.rec[p].count
    ensures !mem.rec[node].leaf ==>
      var moved := mem.rec[dest].Kids() + mem.rec[node].Kids()[mem.rec[node].count - m + 1..];
      Distinct(moved) && forall c | c in moved :: c in mem.rec
  {
    SiblingFacts(View(mem), p, node, dest);
    if !mem.rec[node].leaf { MovingRightDistinct(View(mem), p, node, dest, mem.rec[node].count - m + 1); }
  }

  /** Values go from the end of node through the parent to dest, its right sibling. */
  method RebalanceLeftToRight(mem: Memory, node: Ptr, dest: Ptr, toMove: nat) returns (r: Memory)
    requires mem.Ok() && node in mem.rec && dest in mem.rec
    requires LinkedSiblings(View(mem), mem.up[node].parent, node, dest)
    requires 1 <= toMove <= mem.rec[node].count && mem.rec[dest].count <= mem.rec[node].count
    requires mem.rec[dest].count + toMove <= mem.rec[dest].maxCount
    ensures r.Ok()
    ensures ShiftLocal(View(mem), View(r), mem.up[node].parent, mem.up[node].position,
      node, dest, mem.rec[node].values[mem.rec[node].count - toMove])
    ensures OthersKept(mem, r, mem.up[node].parent, node, dest) && r.rec[node].count == mem.rec[node].count - toMove
  {
    MovingRightReady(mem, mem.up[node].parent, node, dest, toMove);
    r := MoveRight(mem, mem.up[node].parent, mem.up[node].position, node, dest, toMove);
    MovedRightDone(mem, r, mem.up[node].parent, mem.up[node].position, node, dest, toMove);
    RightOthersKept(mem, r, mem.up[node].parent, mem.up[node].position, node, dest, toMove);
  }
}
