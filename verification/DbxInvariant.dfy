// Every step of the DBX protocol keeps its invariant.
module DbxInvariant {
  import opened Dbx

  // ----- Counting -----

  lemma {:induction false} CountBetween(as1: seq<Access>, as2: seq<Access>, k: nat, r: Rec)
    requires |as1| == |as2| && forall i | k <= i < |as1| :: as1[i].rec == as2[i].rec
    ensures CountFrom(as1, k, r) == CountFrom(as2, k, r)
    decreases |as1| - k
  {
    if k < |as1| { CountBetween(as1, as2, k + 1, r); }
  }

  lemma {:induction false} CountAppend(accesses: seq<Access>, a: Access, k: nat, r: Rec)
    requires k <= |accesses|
    ensures CountFrom(accesses + [a], k, r) == CountFrom(accesses, k, r) + if a.rec == r then 1 else 0
    decreases |accesses| - k
  {
    if k < |accesses| { CountAppend(accesses, a, k + 1, r); }
  }

  lemma {:induction false} CountOne(accesses: seq<Access>, k: nat, i: nat, r: Rec)
    requires k <= i < |accesses| && accesses[i].rec == r
    ensures CountFrom(accesses, k, r) > 0
    decreases i - k
  {
    if k < i { CountOne(accesses, k + 1, i, r); }
  }

  lemma {:induction false} TotalUpdate(threads: seq<Thread>, t: nat, th: Thread, r: Rec)
    requires t < |threads|
    ensures Total(threads[t := th], r) + Outstanding(threads[t], r) == Total(threads, r) + Outstanding(th, r)
    decreases |threads|
  {
    var n := |threads| - 1;
    var us := threads[t := th];
    if t == n {
      assert us[..n] == threads[..n];
    } else {
      TotalUpdate(threads[..n], t, th, r);
      assert us[..n] == threads[..n][t := th] && us[n] == threads[n];
    }
  }

  lemma {:induction false} TotalAtLeast(threads: seq<Thread>, t: nat, r: Rec)
    requires t < |threads|
    ensures Total(threads, r) >= Outstanding(threads[t], r)
    decreases |threads|
  {
    var n := |threads| - 1;
    if t < n { TotalAtLeast(threads[..n], t, r); }
  }

  /** While an access to r is outstanding, r's counter is above zero. */
  lemma CounterAbove(s: State, t: nat, i: nat)
    requires Counters(s) && t < |s.threads| && i < |s.threads[t].accesses| && Released(s.threads[t].phase) <= i
    requires s.threads[t].accesses[i].rec in s.cells
    ensures s.cells[s.threads[t].accesses[i].rec].counter > 0
  {
    var th := s.threads[t];
    CountOne(th.accesses, Released(th.phase), i, th.accesses[i].rec);
    TotalAtLeast(s.threads, t, th.accesses[i].rec);
  }

  /** No step reads or frees what is not there. */
  lemma StepSafe(s: State, e: Step)
    requires Inv(s) && Enabled(s, e)
    ensures Safe(s, e)
  {
    var th := s.threads[e.t];
    assert ThreadShape(s, e.t);
    match e
    case Copy(t, to) =>
      assert ViewOK(s, t, |th.accesses| - 1);
    case Reclaim(t) =>
      assert TrashOwned(s, t, th.phase.j);
    case Write(t, i, data) =>
      assert SlotOwned(s, t, i);
    case Commit(t) =>
      forall i | 0 <= i < |th.accesses|
        ensures th.accesses[i].Viewed? ==> th.accesses[i].version in s.heap
        ensures th.accesses[i].Copied? ==> th.accesses[i].local in s.heap
      {
        assert ViewOK(s, t, i) && SlotOwned(s, t, i);
      }
    case Release(t) =>
      CounterAbove(s, t, th.phase.i);
    case Scan(t) =>
      assert TrashOwned(s, t, th.phase.j);
    case Free(t) =>
      assert SlotOwned(s, t, th.phase.i);
    case _ =>
  }

  // ----- Preservation, step by step -----

  lemma CountersKept(s: State, r: State, t: nat)
    requires Counters(s) && t < |s.threads| && r.cells.Keys == s.cells.Keys && |r.threads| == |s.threads|
    requires r.threads == s.threads[t := r.threads[t]]
    requires forall q | q in s.cells ::
      r.cells[q].counter + Outstanding(s.threads[t], q) == s.cells[q].counter + Outstanding(r.threads[t], q)
    ensures Counters(r)
  {
    forall q | q in r.cells ensures r.cells[q].counter == Total(r.threads, q) {
      TotalUpdate(s.threads, t, r.threads[t], q);
    }
  }

  /** A step that gives nobody a new view and begins no reclaiming. */
  lemma UnviewedKept(s: State, r: State)
    requires Unviewed(s) && |r.threads| == |s.threads|
    requires forall t {:trigger r.threads[t]} | 0 <= t < |r.threads| && r.threads[t].phase.Reclaiming? ::
      r.threads[t].phase == s.threads[t].phase && r.threads[t].garbage == s.threads[t].garbage
    requires forall u, k {:trigger r.threads[u].accesses[k]} | 0 <= u < |r.threads|
      && Released(r.threads[u].phase) <= k < |r.threads[u].accesses|
      && r.threads[u].accesses[k].Viewed? ::
      Released(s.threads[u].phase) <= k < |s.threads[u].accesses|
        && s.threads[u].accesses[k] == r.threads[u].accesses[k]
    ensures Unviewed(r)
  {
    forall t | 0 <= t < |r.threads| && r.threads[t].phase.Reclaiming?
      ensures r.threads[t].phase.j < |r.threads[t].garbage|
      ensures NobodyViews(r, r.threads[t].garbage[r.threads[t].phase.j].1)
    {
      assert NobodyViews(s, s.threads[t].garbage[s.threads[t].phase.j].1);
    }
  }

  lemma CountSlots(s: State, e: Step)
    requires Inv(s) && Enabled(s, e) && Safe(s, e) && e.Count?
    ensures var r := Do(s, e);
      && (forall u, i {:trigger SlotOwned(r, u, i)} | 0 <= u < |r.threads| && 0 <= i < |r.threads[u].accesses| ::
           SlotOwned(r, u, i))
      && (forall u, j {:trigger TrashOwned(r, u, j)} | 0 <= u < |r.threads| && 0 <= j < |r.threads[u].garbage| ::
           TrashOwned(r, u, j))
  {
    var r, t, th := Do(s, e), e.t, s.threads[e.t];
    forall u, i | 0 <= u < |r.threads| && 0 <= i < |r.threads[u].accesses| ensures SlotOwned(r, u, i) {
      if i < |s.threads[u].accesses| { assert SlotOwned(s, u, i); }
    }
    forall u, j | 0 <= u < |r.threads| && 0 <= j < |r.threads[u].garbage|
      ensures TrashOwned(r, u, j)
    {
      assert TrashOwned(s, u, j);
    }
  }

  lemma CountOwned(s: State, e: Step)
    requires Inv(s) && Enabled(s, e) && Safe(s, e) && e.Count?
    ensures Owned(Do(s, e))
  {
    var r, t, th := Do(s, e), e.t, s.threads[e.t];
    CountSlots(s, e);
    forall v | v in r.own ensures Held(r, v) { assert Held(s, v); }
  }

  lemma CountViews(s: State, e: Step)
    requires Inv(s) && Enabled(s, e) && Safe(s, e) && e.Count?
    ensures Views(Do(s, e))
  {
    var r, t, th := Do(s, e), e.t, s.threads[e.t];
    forall u, i | 0 <= u < |r.threads| && 0 <= i < |r.threads[u].accesses| ensures ViewOK(r, u, i) {
      if i < |s.threads[u].accesses| { assert ViewOK(s, u, i); }
    }
  }

  lemma CountCounts(s: State, e: Step)
    requires Shapes(s) && Counters(s) && Enabled(s, e) && Safe(s, e) && e.Count?
    ensures Counters(Do(s, e))
  {
    var r, t, th := Do(s, e), e.t, s.threads[e.t];
    forall q | q in s.cells
      ensures r.cells[q].counter + Outstanding(th, q) == s.cells[q].counter + Outstanding(r.threads[t], q)
    {
      CountAppend(th.accesses, Counted(e.kind, e.rec), 0, q);
    }
    CountersKept(s, r, t);
  }

  lemma CountShapes(s: State, e: Step)
    requires Shapes(s) && Enabled(s, e) && Safe(s, e) && e.Count?
    ensures Shapes(Do(s, e))
  {
    var r := Do(s, e);
    forall u | 0 <= u < |r.threads| ensures ThreadShape(r, u) { assert ThreadShape(s, u); }
  }

  lemma CountKeeps(s: State, e: Step)
    requires Inv(s) && Enabled(s, e) && Safe(s, e) && e.Count?
    ensures Inv(Do(s, e))
  {
    var r, t, th := Do(s, e), e.t, s.threads[e.t];
    CountCounts(s, e);
    CountShapes(s, e);
    CountOwned(s, e);
    CountViews(s, e);
    UnviewedKept(s, r);
  }

  lemma SeeSlots(s: State, e: Step)
    requires Inv(s) && Enabled(s, e) && Safe(s, e) && e.See?
    ensures var r := Do(s, e);
      && (forall u, i {:trigger SlotOwned(r, u, i)} | 0 <= u < |r.threads| && 0 <= i < |r.threads[u].accesses| ::
           SlotOwned(r, u, i))
      && (forall u, j {:trigger TrashOwned(r, u, j)} | 0 <= u < |r.threads| && 0 <= j < |r.threads[u].garbage| ::
           TrashOwned(r, u, j))
  {
    var r, t, th := Do(s, e), e.t, s.threads[e.t];
    forall u, i | 0 <= u < |r.threads| && 0 <= i < |r.threads[u].accesses| ensures SlotOwned(r, u, i) {
      assert SlotOwned(s, u, i);
    }
    forall u, j | 0 <= u < |r.threads| && 0 <= j < |r.threads[u].garbage|
      ensures TrashOwned(r, u, j)
    {
      assert TrashOwned(s, u, j);
    }
  }

  lemma SeeOwned(s: State, e: Step)
    requires Inv(s) && Enabled(s, e) && Safe(s, e) && e.See?
    ensures Owned(Do(s, e))
  {
    var r, t, th := Do(s, e), e.t, s.threads[e.t];
    SeeSlots(s, e);
    forall v | v in r.own ensures Held(r, v) { assert Held(s, v); }
  }

  lemma SeeViews(s: State, e: Step)
    requires Inv(s) && Enabled(s, e) && Safe(s, e) && e.See?
    ensures Views(Do(s, e))
  {
    var r, t, th := Do(s, e), e.t, s.threads[e.t];
    assert ThreadShape(s, t);
    forall u, i | 0 <= u < |r.threads| && 0 <= i < |r.threads[u].accesses| ensures ViewOK(r, u, i) {
      assert ViewOK(s, u, i);
    }
  }

  /** What is seen is current, so it is nobody's garbage. */
  lemma SeeUnviewed(s: State, e: Step)
    requires Inv(s) && Enabled(s, e) && Safe(s, e) && e.See?
    ensures Unviewed(Do(s, e))
  {
    var r := Do(s, e);
    forall t | 0 <= t < |r.threads| && r.threads[t].phase.Reclaiming?
      ensures r.threads[t].phase.j < |r.threads[t].garbage|
      ensures NobodyViews(r, r.threads[t].garbage[r.threads[t].phase.j].1)
    {
      assert NobodyViews(s, s.threads[t].garbage[s.threads[t].phase.j].1);
      assert TrashOwned(s, t, s.threads[t].phase.j);
    }
  }

  lemma SeeCounts(s: State, e: Step)
    requires Shapes(s) && Counters(s) && Enabled(s, e) && Safe(s, e) && e.See?
    ensures Counters(Do(s, e))
  {
    var r, t, th := Do(s, e), e.t, s.threads[e.t];
    forall q | q in s.cells
      ensures r.cells[q].counter + Outstanding(th, q) == s.cells[q].counter + Outstanding(r.threads[t], q)
    {
      CountBetween(th.accesses, r.threads[t].accesses, 0, q);
    }
    CountersKept(s, r, t);
  }

  lemma SeeShapes(s: State, e: Step)
    requires Shapes(s) && Enabled(s, e) && Safe(s, e) && e.See?
    ensures Shapes(Do(s, e))
  {
    var r := Do(s, e);
    forall u | 0 <= u < |r.threads| ensures ThreadShape(r, u) { assert ThreadShape(s, u); }
  }

  lemma SeeKeeps(s: State, e: Step)
    requires Inv(s) && Enabled(s, e) && Safe(s, e) && e.See?
    ensures Inv(Do(s, e))
  {
    var r, t, th := Do(s, e), e.t, s.threads[e.t];
    SeeCounts(s, e);
    SeeShapes(s, e);
    SeeOwned(s, e);
    SeeViews(s, e);
    SeeUnviewed(s, e);
  }

  lemma CopySlots(s: State, e: Step)
    requires Inv(s) && Enabled(s, e) && Safe(s, e) && e.Copy?
    ensures var r := Do(s, e);
      && (forall u, i {:trigger SlotOwned(r, u, i)} | 0 <= u < |r.threads| && 0 <= i < |r.threads[u].accesses| ::
           SlotOwned(r, u, i))
      && (forall u, j {:trigger TrashOwned(r, u, j)} | 0 <= u < |r.threads| && 0 <= j < |r.threads[u].garbage| ::
           TrashOwned(r, u, j))
  {
    var r, t, th := Do(s, e), e.t, s.threads[e.t];
    forall u, i | 0 <= u < |r.threads| && 0 <= i < |r.threads[u].accesses| ensures SlotOwned(r, u, i) {
      assert SlotOwned(s, u, i);
    }
    forall u, j | 0 <= u < |r.threads| && 0 <= j < |r.threads[u].garbage|
      ensures TrashOwned(r, u, j)
    {
      assert TrashOwned(s, u, j);
    }
  }

  lemma CopyOwned(s: State, e: Step)
    requires Inv(s) && Enabled(s, e) && Safe(s, e) && e.Copy?
    ensures Owned(Do(s, e))
  {
    var r, t, th := Do(s, e), e.t, s.threads[e.t];
    CopySlots(s, e);
    forall v | v in r.own ensures Held(r, v) { if v != e.to { assert Held(s, v); } }
  }

  lemma CopyViews(s: State, e: Step)
    requires Inv(s) && Enabled(s, e) && Safe(s, e) && e.Copy?
    ensures Views(Do(s, e))
  {
    var r, t, th := Do(s, e), e.t, s.threads[e.t];
    forall u, i | 0 <= u < |r.threads| && 0 <= i < |r.threads[u].accesses| ensures ViewOK(r, u, i) {
      assert ViewOK(s, u, i);
    }
  }

  lemma CopyCounts(s: State, e: Step)
    requires Shapes(s) && Counters(s) && Enabled(s, e) && Safe(s, e) && e.Copy?
    ensures Counters(Do(s, e))
  {
    var r, t, th := Do(s, e), e.t, s.threads[e.t];
    forall q | q in s.cells
      ensures r.cells[q].counter + Outstanding(th, q) == s.cells[q].counter + Outstanding(r.threads[t], q)
    {
      CountBetween(th.accesses, r.threads[t].accesses, 0, q);
    }
    CountersKept(s, r, t);
  }

  lemma CopyShapes(s: State, e: Step)
    requires Shapes(s) && Enabled(s, e) && Safe(s, e) && e.Copy?
    ensures Shapes(Do(s, e))
  {
    var r := Do(s, e);
    forall u | 0 <= u < |r.threads| ensures ThreadShape(r, u) { assert ThreadShape(s, u); }
  }

  lemma CopyKeeps(s: State, e: Step)
    requires Inv(s) && Enabled(s, e) && Safe(s, e) && e.Copy?
    ensures Inv(Do(s, e))
  {
    var r, t, th := Do(s, e), e.t, s.threads[e.t];
    CopyCounts(s, e);
    CopyShapes(s, e);
    CopyOwned(s, e);
    CopyViews(s, e);
    UnviewedKept(s, r);
  }

  lemma WriteShapes(s: State, e: Step)
    requires Shapes(s) && Enabled(s, e) && Safe(s, e) && e.Write?
    ensures Shapes(Do(s, e))
  {
    var r := Do(s, e);
    forall u | 0 <= u < |r.threads| ensures ThreadShape(r, u) { assert ThreadShape(s, u); }
  }

  lemma WriteSlots(s: State, e: Step)
    requires Inv(s) && Enabled(s, e) && Safe(s, e) && e.Write?
    ensures var r := Do(s, e);
      && (forall u, i {:trigger SlotOwned(r, u, i)} | 0 <= u < |r.threads| && 0 <= i < |r.threads[u].accesses| ::
           SlotOwned(r, u, i))
      && (forall u, j {:trigger TrashOwned(r, u, j)} | 0 <= u < |r.threads| && 0 <= j < |r.threads[u].garbage| ::
           TrashOwned(r, u, j))
  {
    var r, t := Do(s, e), e.t;
    assert SlotOwned(s, t, e.i) && r.threads == s.threads;
    forall u, i | 0 <= u < |r.threads| && 0 <= i < |r.threads[u].accesses| ensures SlotOwned(r, u, i) {
      assert SlotOwned(s, u, i);
    }
    forall u, j | 0 <= u < |r.threads| && 0 <= j < |r.threads[u].garbage|
      ensures TrashOwned(r, u, j)
    {
      assert TrashOwned(s, u, j);
    }
  }

  lemma WriteOwned(s: State, e: Step)
    requires Inv(s) && Enabled(s, e) && Safe(s, e) && e.Write?
    ensures Owned(Do(s, e))
  {
    var r, t := Do(s, e), e.t;
    assert SlotOwned(s, t, e.i) && r.threads == s.threads;
    WriteSlots(s, e);
    forall v | v in r.own ensures Held(r, v) { assert Held(s, v); }
  }

  lemma WriteViews(s: State, e: Step)
    requires Inv(s) && Enabled(s, e) && Safe(s, e) && e.Write?
    ensures Views(Do(s, e))
  {
    var r, t := Do(s, e), e.t;
    assert SlotOwned(s, t, e.i) && r.threads == s.threads;
    forall u, i | 0 <= u < |r.threads| && 0 <= i < |r.threads[u].accesses| ensures ViewOK(r, u, i) {
      assert ViewOK(s, u, i);
    }
  }

  lemma WriteKeeps(s: State, e: Step)
    requires Inv(s) && Enabled(s, e) && Safe(s, e) && e.Write?
    ensures Inv(Do(s, e))
  {
    WriteShapes(s, e);
    WriteOwned(s, e);
    WriteViews(s, e);
    UnviewedKept(s, Do(s, e));
  }

  lemma ReleaseSlots(s: State, e: Step)
    requires Inv(s) && Enabled(s, e) && Safe(s, e) && e.Release?
    ensures var r := Do(s, e);
      && (forall u, i {:trigger SlotOwned(r, u, i)} | 0 <= u < |r.threads| && 0 <= i < |r.threads[u].accesses| ::
           SlotOwned(r, u, i))
      && (forall u, j {:trigger TrashOwned(r, u, j)} | 0 <= u < |r.threads| && 0 <= j < |r.threads[u].garbage| ::
           TrashOwned(r, u, j))
  {
    var r, t, th := Do(s, e), e.t, s.threads[e.t];
    forall u, i | 0 <= u < |r.threads| && 0 <= i < |r.threads[u].accesses| ensures SlotOwned(r, u, i) {
      assert SlotOwned(s, u, i);
    }
    forall u, j | 0 <= u < |r.threads| && 0 <= j < |r.threads[u].garbage|
      ensures TrashOwned(r, u, j)
    {
      assert TrashOwned(s, u, j);
    }
  }

  lemma ReleaseOwned(s: State, e: Step)
    requires Inv(s) && Enabled(s, e) && Safe(s, e) && e.Release?
    ensures Owned(Do(s, e))
  {
    var r, t, th := Do(s, e), e.t, s.threads[e.t];
    ReleaseSlots(s, e);
    forall v | v in r.own ensures Held(r, v) { assert Held(s, v); }
  }

  lemma ReleaseViews(s: State, e: Step)
    requires Inv(s) && Enabled(s, e) && Safe(s, e) && e.Release?
    ensures Views(Do(s, e))
  {
    var r, t, th := Do(s, e), e.t, s.threads[e.t];
    forall u, i | 0 <= u < |r.threads| && 0 <= i < |r.threads[u].accesses| ensures ViewOK(r, u, i) {
      assert ViewOK(s, u, i);
    }
  }

  lemma ReleaseCounts(s: State, e: Step)
    requires Shapes(s) && Counters(s) && Enabled(s, e) && Safe(s, e) && e.Release?
    ensures Counters(Do(s, e))
  {
    var r, t, th := Do(s, e), e.t, s.threads[e.t];
    assert ThreadShape(s, t);
    forall q | q in s.cells
      ensures r.cells[q].counter + Outstanding(th, q) == s.cells[q].counter + Outstanding(r.threads[t], q)
    {
      assert Outstanding(th, q) == CountFrom(th.accesses, th.phase.i, q);
    }
    CountersKept(s, r, t);
  }

  lemma ReleaseShapes(s: State, e: Step)
    requires Shapes(s) && Enabled(s, e) && Safe(s, e) && e.Release?
    ensures Shapes(Do(s, e))
  {
    var r := Do(s, e);
    forall u | 0 <= u < |r.threads| ensures ThreadShape(r, u) { assert ThreadShape(s, u); }
  }

  lemma ReleaseKeeps(s: State, e: Step)
    requires Inv(s) && Enabled(s, e) && Safe(s, e) && e.Release?
    ensures Inv(Do(s, e))
  {
    var r, t, th := Do(s, e), e.t, s.threads[e.t];
    ReleaseCounts(s, e);
    ReleaseShapes(s, e);
    ReleaseOwned(s, e);
    ReleaseViews(s, e);
    UnviewedKept(s, r);
  }

  /** A garbage entry whose record's counter is 0 is seen by nobody. */
  lemma ZeroUnviewed(s: State, t: nat, j: nat)
    requires Inv(s) && t < |s.threads| && j < |s.threads[t].garbage|
    requires s.threads[t].garbage[j].0 in s.cells && s.cells[s.threads[t].garbage[j].0].counter == 0
    ensures NobodyViews(s, s.threads[t].garbage[j].1)
  {
    assert TrashOwned(s, t, j);
    forall u, k | 0 <= u < |s.threads| && Released(s.threads[u].phase) <= k < |s.threads[u].accesses|
      && s.threads[u].accesses[k].Viewed?
      ensures s.threads[u].accesses[k].version != s.threads[t].garbage[j].1
    {
      assert ViewOK(s, u, k) && ThreadShape(s, u);
      CounterAbove(s, u, k);
    }
  }

  lemma ScanUnviewed(s: State, e: Step)
    requires Inv(s) && Enabled(s, e) && Safe(s, e) && e.Scan?
    ensures Unviewed(Do(s, e))
  {
    var r := Do(s, e);
    forall t | 0 <= t < |r.threads| && r.threads[t].phase.Reclaiming?
      ensures r.threads[t].phase.j < |r.threads[t].garbage|
      ensures NobodyViews(r, r.threads[t].garbage[r.threads[t].phase.j].1)
    {
      if t == e.t { ZeroUnviewed(s, t, s.threads[t].phase.j); }
      assert NobodyViews(s, r.threads[t].garbage[r.threads[t].phase.j].1);
    }
  }

  lemma ScanCounts(s: State, e: Step)
    requires Shapes(s) && Counters(s) && Enabled(s, e) && Safe(s, e) && e.Scan?
    ensures Counters(Do(s, e))
  {
    var r, t := Do(s, e), e.t;
    CountersKept(s, r, t);
  }

  lemma ScanShapes(s: State, e: Step)
    requires Shapes(s) && Enabled(s, e) && Safe(s, e) && e.Scan?
    ensures Shapes(Do(s, e))
  {
    var r := Do(s, e);
    forall u | 0 <= u < |r.threads| ensures ThreadShape(r, u) { assert ThreadShape(s, u); }
  }

  lemma ScanSlots(s: State, e: Step)
    requires Inv(s) && Enabled(s, e) && Safe(s, e) && e.Scan?
    ensures var r := Do(s, e);
      && (forall u, i {:trigger SlotOwned(r, u, i)} | 0 <= u < |r.threads| && 0 <= i < |r.threads[u].accesses| ::
           SlotOwned(r, u, i))
      && (forall u, j {:trigger TrashOwned(r, u, j)} | 0 <= u < |r.threads| && 0 <= j < |r.threads[u].garbage| ::
           TrashOwned(r, u, j))
  {
    var r, t := Do(s, e), e.t;
    forall u, i | 0 <= u < |r.threads| && 0 <= i < |r.threads[u].accesses| ensures SlotOwned(r, u, i) {
      assert SlotOwned(s, u, i);
    }
    forall u, j | 0 <= u < |r.threads| && 0 <= j < |r.threads[u].garbage|
      ensures TrashOwned(r, u, j)
    {
      assert TrashOwned(s, u, j);
    }
  }

  lemma ScanOwned(s: State, e: Step)
    requires Inv(s) && Enabled(s, e) && Safe(s, e) && e.Scan?
    ensures Owned(Do(s, e))
  {
    var r, t := Do(s, e), e.t;
    ScanSlots(s, e);
    forall v | v in r.own ensures Held(r, v) { assert Held(s, v); }
  }

  lemma ScanViews(s: State, e: Step)
    requires Inv(s) && Enabled(s, e) && Safe(s, e) && e.Scan?
    ensures Views(Do(s, e))
  {
    var r, t := Do(s, e), e.t;
    forall u, i | 0 <= u < |r.threads| && 0 <= i < |r.threads[u].accesses| ensures ViewOK(r, u, i) {
      assert ViewOK(s, u, i);
    }
  }

  /** Testing a counter: what is found unseen stays so while others go on. */
  lemma ScanKeeps(s: State, e: Step)
    requires Inv(s) && Enabled(s, e) && Safe(s, e) && e.Scan?
    ensures Inv(Do(s, e))
  {
    ScanCounts(s, e);
    ScanShapes(s, e);
    ScanOwned(s, e);
    ScanViews(s, e);
    ScanUnviewed(s, e);
  }

  lemma ReclaimSlots(s: State, e: Step)
    requires Inv(s) && Enabled(s, e) && Safe(s, e) && e.Reclaim?
    ensures var r := Do(s, e);
      && (forall u, i {:trigger SlotOwned(r, u, i)} | 0 <= u < |r.threads| && 0 <= i < |r.threads[u].accesses| ::
           SlotOwned(r, u, i))
      && (forall u, j {:trigger TrashOwned(r, u, j)} | 0 <= u < |r.threads| && 0 <= j < |r.threads[u].garbage| ::
           TrashOwned(r, u, j))
  {
    var r, t, th := Do(s, e), e.t, s.threads[e.t];
    assert TrashOwned(s, t, th.phase.j);
    forall u, i | 0 <= u < |r.threads| && 0 <= i < |r.threads[u].accesses| ensures SlotOwned(r, u, i) {
      assert SlotOwned(s, u, i);
    }
    forall u, j | 0 <= u < |r.threads| && 0 <= j < |r.threads[u].garbage| ensures TrashOwned(r, u, j) {
      assert TrashOwned(s, u, if u == t && j >= th.phase.j then j + 1 else j);
    }
  }

  lemma ReclaimOwned(s: State, e: Step)
    requires Inv(s) && Enabled(s, e) && Safe(s, e) && e.Reclaim?
    ensures Owned(Do(s, e))
  {
    var r, t, th := Do(s, e), e.t, s.threads[e.t];
    assert TrashOwned(s, t, th.phase.j);
    ReclaimSlots(s, e);
    forall v | v in r.own ensures Held(r, v) { assert Held(s, v); }
  }

  lemma ReclaimViews(s: State, e: Step)
    requires Inv(s) && Enabled(s, e) && Safe(s, e) && e.Reclaim?
    ensures Views(Do(s, e))
  {
    var r, t, th := Do(s, e), e.t, s.threads[e.t];
    assert TrashOwned(s, t, th.phase.j) && NobodyViews(s, th.garbage[th.phase.j].1);
    forall u, i | 0 <= u < |r.threads| && 0 <= i < |r.threads[u].accesses| ensures ViewOK(r, u, i) {
      assert ViewOK(s, u, i);
    }
  }

  lemma ReclaimCounts(s: State, e: Step)
    requires Shapes(s) && Counters(s) && Enabled(s, e) && Safe(s, e) && e.Reclaim?
    ensures Counters(Do(s, e))
  {
    var r, t := Do(s, e), e.t;
    CountersKept(s, r, t);
  }

  lemma ReclaimShapes(s: State, e: Step)
    requires Shapes(s) && Enabled(s, e) && Safe(s, e) && e.Reclaim?
    ensures Shapes(Do(s, e))
  {
    var r := Do(s, e);
    forall u | 0 <= u < |r.threads| ensures ThreadShape(r, u) { assert ThreadShape(s, u); }
  }

  /** Freeing garbage, however long after its counter was tested. */
  lemma ReclaimKeeps(s: State, e: Step)
    requires Inv(s) && Enabled(s, e) && Safe(s, e) && e.Reclaim?
    ensures Inv(Do(s, e))
  {
    var r, t := Do(s, e), e.t;
    ReclaimCounts(s, e);
    ReclaimShapes(s, e);
    ReclaimOwned(s, e);
    ReclaimViews(s, e);
    UnviewedKept(s, r);
  }

  lemma PushSlots(s: State, e: Step)
    requires Inv(s) && Enabled(s, e) && Safe(s, e) && e.Push?
    ensures var r := Do(s, e);
      && (forall u, i {:trigger SlotOwned(r, u, i)} | 0 <= u < |r.threads| && 0 <= i < |r.threads[u].accesses| ::
           SlotOwned(r, u, i))
      && (forall u, j {:trigger TrashOwned(r, u, j)} | 0 <= u < |r.threads| && 0 <= j < |r.threads[u].garbage| ::
           TrashOwned(r, u, j))
  {
    var r, t, th := Do(s, e), e.t, s.threads[e.t];
    assert ThreadShape(s, t) && SlotOwned(s, t, th.phase.i);
    forall u, i | 0 <= u < |r.threads| && 0 <= i < |r.threads[u].accesses| ensures SlotOwned(r, u, i) {
      assert SlotOwned(s, u, i);
    }
    forall u, j | 0 <= u < |r.threads| && 0 <= j < |r.threads[u].garbage|
      ensures TrashOwned(r, u, j)
    {
      if j < |s.threads[u].garbage| { assert TrashOwned(s, u, j); }
    }
  }

  lemma PushOwned(s: State, e: Step)
    requires Inv(s) && Enabled(s, e) && Safe(s, e) && e.Push?
    ensures Owned(Do(s, e))
  {
    var r, t, th := Do(s, e), e.t, s.threads[e.t];
    assert ThreadShape(s, t) && SlotOwned(s, t, th.phase.i);
    PushSlots(s, e);
    forall v | v in r.own ensures Held(r, v) { if v != th.accesses[th.phase.i].prior { assert Held(s, v); } }
    PushNoRepeat(s, e);
  }

  lemma PushNoRepeat(s: State, e: Step)
    requires Inv(s) && Enabled(s, e) && Safe(s, e) && e.Push?
    ensures forall u {:trigger Do(s, e).threads[u]} | 0 <= u < |s.threads| :: NoRepeat(Do(s, e).threads[u].garbage)
  {
    var t, th := e.t, s.threads[e.t];
    assert ThreadShape(s, t) && SlotOwned(s, t, th.phase.i);
    forall j | 0 <= j < |th.garbage|
      ensures th.garbage[j].1 != th.accesses[th.phase.i].prior
    {
      assert TrashOwned(s, t, j);
    }
    forall u | 0 <= u < |s.threads| ensures NoRepeat(Do(s, e).threads[u].garbage) {
      assert NoRepeat(s.threads[u].garbage);
    }
  }

  lemma PushViews(s: State, e: Step)
    requires Inv(s) && Enabled(s, e) && Safe(s, e) && e.Push?
    ensures Views(Do(s, e))
  {
    var r, t, th := Do(s, e), e.t, s.threads[e.t];
    assert ThreadShape(s, t) && SlotOwned(s, t, th.phase.i);
    forall u, i | 0 <= u < |r.threads| && 0 <= i < |r.threads[u].accesses| ensures ViewOK(r, u, i) {
      assert ViewOK(s, u, i);
    }
  }

  lemma PushCounts(s: State, e: Step)
    requires Shapes(s) && Counters(s) && Enabled(s, e) && Safe(s, e) && e.Push?
    ensures Counters(Do(s, e))
  {
    var r, t, th := Do(s, e), e.t, s.threads[e.t];
    CountersKept(s, r, t);
  }

  lemma PushShapes(s: State, e: Step)
    requires Shapes(s) && Enabled(s, e) && Safe(s, e) && e.Push?
    ensures Shapes(Do(s, e))
  {
    var r := Do(s, e);
    forall u | 0 <= u < |r.threads| ensures ThreadShape(r, u) { assert ThreadShape(s, u); }
  }

  lemma PushKeeps(s: State, e: Step)
    requires Inv(s) && Enabled(s, e) && Safe(s, e) && e.Push?
    ensures Inv(Do(s, e))
  {
    var r, t, th := Do(s, e), e.t, s.threads[e.t];
    PushCounts(s, e);
    PushShapes(s, e);
    PushOwned(s, e);
    PushViews(s, e);
    UnviewedKept(s, r);
  }

  lemma FreeSlots(s: State, e: Step)
    requires Inv(s) && Enabled(s, e) && Safe(s, e) && e.Free?
    ensures var r := Do(s, e);
      && (forall u, i {:trigger SlotOwned(r, u, i)} | 0 <= u < |r.threads| && 0 <= i < |r.threads[u].accesses| ::
           SlotOwned(r, u, i))
      && (forall u, j {:trigger TrashOwned(r, u, j)} | 0 <= u < |r.threads| && 0 <= j < |r.threads[u].garbage| ::
           TrashOwned(r, u, j))
  {
    var r, t, th := Do(s, e), e.t, s.threads[e.t];
    assert ThreadShape(s, t) && SlotOwned(s, t, th.phase.i);
    forall u, i | 0 <= u < |r.threads| && 0 <= i < |r.threads[u].accesses| ensures SlotOwned(r, u, i) {
      assert SlotOwned(s, u, i);
    }
    forall u, j | 0 <= u < |r.threads| && 0 <= j < |r.threads[u].garbage|
      ensures TrashOwned(r, u, j)
    {
      assert TrashOwned(s, u, j);
    }
  }

  lemma FreeOwned(s: State, e: Step)
    requires Inv(s) && Enabled(s, e) && Safe(s, e) && e.Free?
    ensures Owned(Do(s, e))
  {
    var r, t, th := Do(s, e), e.t, s.threads[e.t];
    assert ThreadShape(s, t) && SlotOwned(s, t, th.phase.i);
    FreeSlots(s, e);
    forall v | v in r.own ensures Held(r, v) { assert Held(s, v); }
  }

  lemma FreeViews(s: State, e: Step)
    requires Inv(s) && Enabled(s, e) && Safe(s, e) && e.Free?
    ensures Views(Do(s, e))
  {
    var r, t, th := Do(s, e), e.t, s.threads[e.t];
    assert ThreadShape(s, t) && SlotOwned(s, t, th.phase.i);
    forall u, i | 0 <= u < |r.threads| && 0 <= i < |r.threads[u].accesses| ensures ViewOK(r, u, i) {
      assert ViewOK(s, u, i);
    }
  }

  lemma FreeCounts(s: State, e: Step)
    requires Shapes(s) && Counters(s) && Enabled(s, e) && Safe(s, e) && e.Free?
    ensures Counters(Do(s, e))
  {
    var r, t, th := Do(s, e), e.t, s.threads[e.t];
    CountersKept(s, r, t);
  }

  lemma FreeShapes(s: State, e: Step)
    requires Shapes(s) && Enabled(s, e) && Safe(s, e) && e.Free?
    ensures Shapes(Do(s, e))
  {
    var r := Do(s, e);
    forall u | 0 <= u < |r.threads| ensures ThreadShape(r, u) { assert ThreadShape(s, u); }
  }

  lemma FreeKeeps(s: State, e: Step)
    requires Inv(s) && Enabled(s, e) && Safe(s, e) && e.Free?
    ensures Inv(Do(s, e))
  {
    var r, t, th := Do(s, e), e.t, s.threads[e.t];
    FreeCounts(s, e);
    FreeShapes(s, e);
    FreeOwned(s, e);
    FreeViews(s, e);
    UnviewedKept(s, r);
  }

  lemma FinishCounts(s: State, e: Step)
    requires Shapes(s) && Counters(s) && Enabled(s, e) && Safe(s, e) && e.Finish?
    ensures Counters(Do(s, e))
  {
    var r, t, th := Do(s, e), e.t, s.threads[e.t];
    CountersKept(s, r, t);
  }

  lemma FinishShapes(s: State, e: Step)
    requires Shapes(s) && Enabled(s, e) && Safe(s, e) && e.Finish?
    ensures Shapes(Do(s, e))
  {
    var r := Do(s, e);
    forall u | 0 <= u < |r.threads| ensures ThreadShape(r, u) { assert ThreadShape(s, u); }
  }

  lemma FinishSlots(s: State, e: Step)
    requires Inv(s) && Enabled(s, e) && Safe(s, e) && e.Finish?
    ensures var r := Do(s, e);
      && (forall u, i {:trigger SlotOwned(r, u, i)} | 0 <= u < |r.threads| && 0 <= i < |r.threads[u].accesses| ::
           SlotOwned(r, u, i))
      && (forall u, j {:trigger TrashOwned(r, u, j)} | 0 <= u < |r.threads| && 0 <= j < |r.threads[u].garbage| ::
           TrashOwned(r, u, j))
  {
    var r, t := Do(s, e), e.t;
    forall u, i | 0 <= u < |r.threads| && 0 <= i < |r.threads[u].accesses| ensures SlotOwned(r, u, i) {
      assert SlotOwned(s, u, i);
    }
    forall u, j | 0 <= u < |r.threads| && 0 <= j < |r.threads[u].garbage|
      ensures TrashOwned(r, u, j)
    {
      assert TrashOwned(s, u, j);
    }
  }

  lemma FinishOwned(s: State, e: Step)
    requires Inv(s) && Enabled(s, e) && Safe(s, e) && e.Finish?
    ensures Owned(Do(s, e))
  {
    var r, t := Do(s, e), e.t;
    FinishSlots(s, e);
    forall v | v in r.own ensures Held(r, v) { assert Held(s, v); }
  }

  lemma FinishViews(s: State, e: Step)
    requires Inv(s) && Enabled(s, e) && Safe(s, e) && e.Finish?
    ensures Views(Do(s, e))
  {
    var r, t := Do(s, e), e.t;
    forall u, i | 0 <= u < |r.threads| && 0 <= i < |r.threads[u].accesses| ensures ViewOK(r, u, i) {
      assert ViewOK(s, u, i);
      var a := s.threads[u].accesses[i];
      if a.Viewed? && a.version in s.own { assert Held(s, a.version); }
    }
  }

  lemma FinishKeeps(s: State, e: Step)
    requires Inv(s) && Enabled(s, e) && Safe(s, e) && e.Finish?
    ensures Inv(Do(s, e))
  {
    FinishCounts(s, e);
    FinishShapes(s, e);
    FinishOwned(s, e);
    FinishViews(s, e);
    UnviewedKept(s, Do(s, e));
  }
}
