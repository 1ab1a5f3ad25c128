// Sequence algebra of a B-tree node: the in-order listing of an internal node
// weaves the listings of its children with its own values.
module BTreeWeave {

  datatype Entry = Entry(key: int, data: int)

  predicate Sorted(s: seq<Entry>) {
    forall i, j | 0 <= i < j < |s| :: s[i].key <= s[j].key
  }

  /** fs[0], vs[0], fs[1], vs[1], ..., fs[|vs|] */
  function Weave(fs: seq<seq<Entry>>, vs: seq<Entry>): seq<Entry>
    requires |fs| == |vs| + 1
    decreases |vs|
  {
    if |vs| == 0 then fs[0] else fs[0] + [vs[0]] + Weave(fs[1..], vs[1..])
  }

  /** What stands before child j. */
  function WeavePre(fs: seq<seq<Entry>>, vs: seq<Entry>, j: nat): seq<Entry>
    requires j <= |vs| && j <= |fs|
  {
    if j == 0 then [] else WeavePre(fs, vs, j - 1) + fs[j - 1] + [vs[j - 1]]
  }

  /** What stands after child j. */
  function WeavePost(fs: seq<seq<Entry>>, vs: seq<Entry>, j: nat): seq<Entry>
    requires |fs| == |vs| + 1 && j <= |vs|
    decreases |vs| - j
  {
    if j == |vs| then [] else [vs[j]] + fs[j + 1] + WeavePost(fs, vs, j + 1)
  }

  lemma {:induction false} WeavePostTail(fs: seq<seq<Entry>>, vs: seq<Entry>, j: nat)
    requires |fs| == |vs| + 1 && 1 <= j <= |vs|
    ensures WeavePost(fs, vs, j) == WeavePost(fs[1..], vs[1..], j - 1)
    decreases |vs| - j
  {
    if j < |vs| { WeavePostTail(fs, vs, j + 1); }
  }

  lemma {:induction false} WeavePreTail(fs: seq<seq<Entry>>, vs: seq<Entry>, j: nat)
    requires |fs| == |vs| + 1 && 1 <= j <= |vs|
    ensures WeavePre(fs, vs, j) == fs[0] + [vs[0]] + WeavePre(fs[1..], vs[1..], j - 1)
  {
    if j > 1 { WeavePreTail(fs, vs, j - 1); }
  }

  /** Child j splits the listing into what is before it, itself and what is after. */
  lemma {:induction false} WeaveAt(fs: seq<seq<Entry>>, vs: seq<Entry>, j: nat)
    requires |fs| == |vs| + 1 && j <= |vs|
    ensures Weave(fs, vs) == WeavePre(fs, vs, j) + fs[j] + WeavePost(fs, vs, j)
    decreases j, |vs|
  {
    if j > 0 {
      WeaveAt(fs[1..], vs[1..], j - 1);
      WeavePreTail(fs, vs, j);
      WeavePostTail(fs, vs, j);
    } else if |vs| > 0 {
      WeaveAt(fs[1..], vs[1..], 0);
      WeavePostTail(fs, vs, 1);
    }
  }

  /** The part before child j depends only on the first j children and values. */
  lemma {:induction false} WeavePreLocal(fs: seq<seq<Entry>>, vs: seq<Entry>,
      gs: seq<seq<Entry>>, ws: seq<Entry>, j: nat)
    requires j <= |vs| && j <= |fs| && j <= |ws| && j <= |gs|
    requires fs[..j] == gs[..j] && vs[..j] == ws[..j]
    ensures WeavePre(fs, vs, j) == WeavePre(gs, ws, j)
  {
    if j > 0 {
      assert fs[j - 1] == fs[..j][j - 1] == gs[j - 1];
      assert vs[j - 1] == vs[..j][j - 1] == ws[j - 1];
      assert fs[..j - 1] == fs[..j][..j - 1] == gs[..j][..j - 1];
      assert vs[..j - 1] == vs[..j][..j - 1] == ws[..j][..j - 1];
      WeavePreLocal(fs, vs, gs, ws, j - 1);
    }
  }

  /** The part after a child depends only on what follows it. */
  lemma {:induction false} WeavePostLocal(fs: seq<seq<Entry>>, vs: seq<Entry>,
      j: nat, gs: seq<seq<Entry>>, ws: seq<Entry>, k: nat)
    requires |fs| == |vs| + 1 && j <= |vs| && |gs| == |ws| + 1 && k <= |ws|
    requires fs[j + 1..] == gs[k + 1..] && vs[j..] == ws[k..]
    ensures WeavePost(fs, vs, j) == WeavePost(gs, ws, k)
    decreases |vs| - j
  {
    assert |vs| - j == |vs[j..]| == |ws[k..]| == |ws| - k;
    if j < |vs| {
      assert fs[j + 1] == fs[j + 1..][0] == gs[k + 1];
      assert vs[j] == vs[j..][0] == ws[k];
      assert fs[j + 2..] == fs[j + 1..][1..] == gs[k + 2..];
      assert vs[j + 1..] == vs[j..][1..] == ws[k + 1..];
      WeavePostLocal(fs, vs, j + 1, gs, ws, k + 1);
    }
  }

  /** Two nodes joined by a delimiter list as one node with the children and values joined. */
  lemma {:induction false} WeaveJoin(fs: seq<seq<Entry>>, vs: seq<Entry>, d: Entry, gs: seq<seq<Entry>>, ws: seq<Entry>)
    requires |fs| == |vs| + 1 && |gs| == |ws| + 1
    ensures Weave(fs + gs, vs + [d] + ws) == Weave(fs, vs) + [d] + Weave(gs, ws)
    decreases |vs|
  {
    var hs, us := fs + gs, vs + [d] + ws;
    if |vs| == 0 {
      assert hs[1..] == gs && us[1..] == ws;
    } else {
      assert hs[1..] == fs[1..] + gs && us[1..] == vs[1..] + [d] + ws;
      WeaveJoin(fs[1..], vs[1..], d, gs, ws);
    }
  }

  lemma WeaveJoinPostLast(fs: seq<seq<Entry>>, vs: seq<Entry>, d: Entry, gs: seq<seq<Entry>>, ws: seq<Entry>)
    requires |fs| == |vs| + 1 && |gs| == |ws| + 1
    ensures WeavePost(fs + gs, vs + [d] + ws, |vs|) == [d] + Weave(gs, ws)
  {
    var hs, us, n := fs + gs, vs + [d] + ws, |vs|;
    assert hs[n + 2..] == gs[1..] && us[n + 1..] == ws;
    assert hs[n + 1] == gs[0] && us[n] == d;
    WeavePostLocal(hs, us, n + 1, gs, ws, 0);
    WeaveAt(gs, ws, 0);
    assert WeavePre(gs, ws, 0) == [];
    assert [d] + gs[0] + WeavePost(gs, ws, 0) == [d] + ([] + gs[0] + WeavePost(gs, ws, 0));
  }

  lemma {:induction false} WeaveJoinPost(fs: seq<seq<Entry>>, vs: seq<Entry>,
      d: Entry, gs: seq<seq<Entry>>, ws: seq<Entry>, j: nat)
    requires |fs| == |vs| + 1 && |gs| == |ws| + 1 && j <= |vs|
    ensures WeavePost(fs + gs, vs + [d] + ws, j) == WeavePost(fs, vs, j) + ([d] + Weave(gs, ws))
    decreases |vs| - j
  {
    if j < |vs| {
      var hs, us := fs + gs, vs + [d] + ws;
      WeaveJoinPost(fs, vs, d, gs, ws, j + 1);
      assert hs[j + 1] == fs[j + 1] && us[j] == vs[j];
      Regroup3([us[j]] + hs[j + 1], WeavePost(fs, vs, j + 1), [d] + Weave(gs, ws));
    } else {
      WeaveJoinPostLast(fs, vs, d, gs, ws);
    }
  }

  lemma Regroup3(a: seq<Entry>, b: seq<Entry>, c: seq<Entry>)
    ensures a + (b + c) == (a + b) + c
  {}

  lemma Regroup4(a: seq<Entry>, b: seq<Entry>, c: seq<Entry>, d: seq<Entry>)
    ensures (a + b) + c + d == a + (b + c + d)
  {}

  lemma {:induction false} WeaveJoinPre(fs: seq<seq<Entry>>, vs: seq<Entry>,
      d: Entry, gs: seq<seq<Entry>>, ws: seq<Entry>, j: nat)
    requires |fs| == |vs| + 1 && |gs| == |ws| + 1 && j <= |ws|
    ensures WeavePre(fs + gs, vs + [d] + ws, |vs| + 1 + j) == Weave(fs, vs) + [d] + WeavePre(gs, ws, j)
    decreases j
  {
    var hs, us, n := fs + gs, vs + [d] + ws, |vs|;
    if j == 0 {
      assert hs[n] == fs[n] && us[n] == d;
      assert hs[..n] == fs[..n] && us[..n] == vs[..n];
      WeavePreLocal(hs, us, fs, vs, n);
      WeaveAt(fs, vs, n);
    } else {
      WeaveJoinPre(fs, vs, d, gs, ws, j - 1);
      assert hs[n + j] == gs[j - 1] && us[n + j] == ws[j - 1];
      Regroup4(Weave(fs, vs) + [d], WeavePre(gs, ws, j - 1), gs[j - 1], [ws[j - 1]]);
    }
  }

  /** A child of the right-hand part of a join, seen in the join. */
  lemma WeaveJoinRight(fs: seq<seq<Entry>>, vs: seq<Entry>, d: Entry, gs: seq<seq<Entry>>, ws: seq<Entry>, j: nat)
    requires |fs| == |vs| + 1 && |gs| == |ws| + 1 && j <= |ws|
    ensures WeavePre(fs + gs, vs + [d] + ws, |vs| + 1 + j) == (Weave(fs, vs) + [d]) + WeavePre(gs, ws, j)
    ensures WeavePost(fs + gs, vs + [d] + ws, |vs| + 1 + j) == WeavePost(gs, ws, j)
  {
    WeaveJoinPre(fs, vs, d, gs, ws, j);
    var hs, us, n := fs + gs, vs + [d] + ws, |vs| + 1 + j;
    assert hs[n + 1..] == gs[j + 1..] && us[n..] == ws[j..];
    WeavePostLocal(hs, us, n, gs, ws, j);
  }

  /** Cutting child i into x, d, y and promoting d does not change the listing, nor what
      stands before or after any other child. */
  lemma WeaveSplit(fs: seq<seq<Entry>>, vs: seq<Entry>, i: nat, x: seq<Entry>, d: Entry, y: seq<Entry>)
    requires |fs| == |vs| + 1 && i <= |vs| && fs[i] == x + [d] + y
    ensures
      var gs, ws := fs[..i] + [x, y] + fs[i + 1..], vs[..i] + [d] + vs[i..];
      && Weave(gs, ws) == Weave(fs, vs)
      && WeavePre(gs, ws, i) == WeavePre(fs, vs, i)
      && WeavePre(gs, ws, i + 1) == WeavePre(fs, vs, i) + x + [d]
      && WeavePost(gs, ws, i) == [d] + y + WeavePost(fs, vs, i)
      && WeavePost(gs, ws, i + 1) == WeavePost(fs, vs, i)
      && (forall j: nat | j <= i :: WeavePre(gs, ws, j) == WeavePre(fs, vs, j))
      && (forall j: nat | j < i :: WeavePost(gs, ws, j) == WeavePost(fs, vs, j))
      && (forall j: nat | i < j <= |vs| :: WeavePre(gs, ws, j + 1) == WeavePre(fs, vs, j))
      && (forall j: nat | i < j <= |vs| :: WeavePost(gs, ws, j + 1) == WeavePost(fs, vs, j))
  {
    var gs, ws := fs[..i] + [x, y] + fs[i + 1..], vs[..i] + [d] + vs[i..];
    assert WeavePost(gs, ws, i + 1) == WeavePost(fs, vs, i) by {
      assert gs[i + 2..] == fs[i + 1..];
      assert ws[i + 1..] == vs[i..];
      WeavePostLocal(fs, vs, i, gs, ws, i + 1);
    }
    forall j: nat | j <= i ensures WeavePre(gs, ws, j) == WeavePre(fs, vs, j) {
      assert gs[..j] == fs[..j] && ws[..j] == vs[..j];
      WeavePreLocal(fs, vs, gs, ws, j);
    }
    assert gs[i] == x && gs[i + 1] == y && ws[i] == d;
    assert WeavePre(gs, ws, i + 1) == WeavePre(fs, vs, i) + x + [d];
    forall j: nat | i < j <= |vs| ensures WeavePost(gs, ws, j + 1) == WeavePost(fs, vs, j) {
      assert gs[j + 2..] == fs[j + 1..];
      assert ws[j + 1..] == vs[j..];
      WeavePostLocal(fs, vs, j, gs, ws, j + 1);
    }
    WeaveAt(fs, vs, i);
    WeaveAt(gs, ws, i);
    forall j: nat | j < i ensures WeavePost(gs, ws, j) == WeavePost(fs, vs, j) {
      WeaveSplitPost(fs, vs, i, x, d, y, j);
    }
    forall j: nat | i < j <= |vs| ensures WeavePre(gs, ws, j + 1) == WeavePre(fs, vs, j) {
      WeaveSplitPre(fs, vs, i, x, d, y, j);
    }
  }

  /** WeaveSplit for one other child j, which moves to j + 1 when it is right of the cut. */
  lemma WeaveSplitOther(fs: seq<seq<Entry>>, vs: seq<Entry>, i: nat, x: seq<Entry>,
      d: Entry, y: seq<Entry>, j: nat, k: nat)
    requires |fs| == |vs| + 1 && i <= |vs| && fs[i] == x + [d] + y
    requires j <= |vs| && j != i && k == if j < i then j else j + 1
    ensures
      var gs, ws := fs[..i] + [x, y] + fs[i + 1..], vs[..i] + [d] + vs[i..];
      WeavePre(gs, ws, k) == WeavePre(fs, vs, j) && WeavePost(gs, ws, k) == WeavePost(fs, vs, j)
  {
    WeaveSplit(fs, vs, i, x, d, y);
  }

  lemma {:induction false} WeaveSplitPost(fs: seq<seq<Entry>>, vs: seq<Entry>, i: nat,
      x: seq<Entry>, d: Entry, y: seq<Entry>, j: nat)
    requires |fs| == |vs| + 1 && i <= |vs| && fs[i] == x + [d] + y && j < i
    ensures WeavePost(fs[..i] + [x, y] + fs[i + 1..], vs[..i] + [d] + vs[i..], j) == WeavePost(fs, vs, j)
    decreases i - j
  {
    var gs, ws := fs[..i] + [x, y] + fs[i + 1..], vs[..i] + [d] + vs[i..];
    assert ws[j] == vs[j];
    if j + 1 < i {
      assert gs[j + 1] == fs[j + 1];
      WeaveSplitPost(fs, vs, i, x, d, y, j + 1);
    } else {
      assert gs[i] == x && gs[i + 1] == y && ws[i] == d;
      assert gs[i + 2..] == fs[i + 1..];
      assert ws[i + 1..] == vs[i..];
      WeavePostLocal(fs, vs, i, gs, ws, i + 1);
      var post := WeavePost(fs, vs, i);
      assert WeavePost(gs, ws, i) == [d] + y + post;
      assert WeavePost(gs, ws, j) == [vs[j]] + x + ([d] + y + post);
      assert [vs[j]] + x + ([d] + y + post) == [vs[j]] + (x + [d] + y) + post;
    }
  }

  lemma WeaveSplitPreNext(fs: seq<seq<Entry>>, vs: seq<Entry>, i: nat, x: seq<Entry>, d: Entry, y: seq<Entry>)
    requires |fs| == |vs| + 1 && i < |vs| && fs[i] == x + [d] + y
    ensures WeavePre(fs[..i] + [x, y] + fs[i + 1..], vs[..i] + [d] + vs[i..], i + 2) == WeavePre(fs, vs, i + 1)
  {
    var gs, ws := fs[..i] + [x, y] + fs[i + 1..], vs[..i] + [d] + vs[i..];
    assert gs[i] == x && gs[i + 1] == y && ws[i] == d && ws[i + 1] == vs[i];
    assert WeavePre(gs, ws, i) == WeavePre(fs, vs, i) by {
      assert gs[..i] == fs[..i] && ws[..i] == vs[..i];
      WeavePreLocal(fs, vs, gs, ws, i);
    }
    var pre := WeavePre(fs, vs, i);
    assert WeavePre(gs, ws, i + 1) == pre + x + [d];
    assert pre + x + [d] + y + [vs[i]] == pre + (x + [d] + y) + [vs[i]];
  }

  lemma {:induction false} WeaveSplitPre(fs: seq<seq<Entry>>, vs: seq<Entry>, i: nat,
      x: seq<Entry>, d: Entry, y: seq<Entry>, j: nat)
    requires |fs| == |vs| + 1 && i < j <= |vs| && fs[i] == x + [d] + y
    ensures WeavePre(fs[..i] + [x, y] + fs[i + 1..], vs[..i] + [d] + vs[i..], j + 1) == WeavePre(fs, vs, j)
    decreases j
  {
    if i + 1 < j {
      var gs, ws := fs[..i] + [x, y] + fs[i + 1..], vs[..i] + [d] + vs[i..];
      assert ws[j] == vs[j - 1] && gs[j] == fs[j - 1];
      WeaveSplitPre(fs, vs, i, x, d, y, j - 1);
    } else {
      WeaveSplitPreNext(fs, vs, i, x, d, y);
    }
  }
}
