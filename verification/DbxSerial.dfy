// The two whole-run theorems of the DBX protocol: committed transactions are serializable in
// commit order, and versions are reclaimed safely.
module DbxSerial {
  import opened Dbx
  import opened DbxInvariant

  // ----- The commit region keeps the invariant -----

  predicate Midway(s: State, t: nat) {
    t < |s.threads| && s.threads[t].phase.Running? && Counters(s) && Owned(s)
      && Views(s) && Known(s.cells, s.threads[t].accesses)
  }

  lemma SwapOneSlots(s: State, t: nat, i: nat)
    requires Midway(s, t) && i < |s.threads[t].accesses| && s.threads[t].accesses[i].Copied?
    ensures var r := SwapOne(s, t, i);
      && (forall u, k {:trigger SlotOwned(r, u, k)} | 0 <= u < |r.threads| && 0 <= k < |r.threads[u].accesses| ::
           SlotOwned(r, u, k))
      && (forall u, j {:trigger TrashOwned(r, u, j)} | 0 <= u < |r.threads| && 0 <= j < |r.threads[u].garbage| ::
           TrashOwned(r, u, j))
  {
    var r := SwapOne(s, t, i);
    assert SlotOwned(s, t, i) && s.cells[s.threads[t].accesses[i].rec].record != s.threads[t].accesses[i].local;
    forall u, k | 0 <= u < |r.threads| && 0 <= k < |r.threads[u].accesses|
      ensures SlotOwned(r, u, k)
    {
      assert SlotOwned(s, u, k);
    }
    forall u, j | 0 <= u < |r.threads| && 0 <= j < |r.threads[u].garbage|
      ensures TrashOwned(r, u, j)
    {
      assert TrashOwned(s, u, j);
    }
  }

  lemma SwapOneOwned(s: State, t: nat, i: nat)
    requires Midway(s, t) && i < |s.threads[t].accesses|
    ensures Owned(SwapOne(s, t, i))
  {
    var r := SwapOne(s, t, i);
    var a := s.threads[t].accesses[i];
    if a.Copied? {
      assert SlotOwned(s, t, i);
      var old_ := s.cells[a.rec].record;
      assert old_ != a.local;
      SwapOneSlots(s, t, i);
      forall v | v in r.own ensures Held(r, v) { if v != old_ && v != a.local { assert Held(s, v); } }
      forall u | 0 <= u < |r.threads| ensures NoRepeat(r.threads[u].garbage) { assert NoRepeat(s.threads[u].garbage); }
    }
  }

  lemma SwapOneViews(s: State, t: nat, i: nat)
    requires Midway(s, t) && i < |s.threads[t].accesses|
    ensures Views(SwapOne(s, t, i))
  {
    var r := SwapOne(s, t, i);
    if s.threads[t].accesses[i].Copied? {
      assert SlotOwned(s, t, i);
      forall u, k | 0 <= u < |r.threads| && 0 <= k < |r.threads[u].accesses|
        ensures ViewOK(r, u, k)
      {
        assert ViewOK(s, u, k);
      }
    }
  }

  lemma SwapOneKeeps(s: State, t: nat, i: nat)
    requires Midway(s, t) && i < |s.threads[t].accesses|
    ensures Midway(SwapOne(s, t, i), t)
  {
    var r := SwapOne(s, t, i);
    SwapOneOwned(s, t, i);
    SwapOneViews(s, t, i);
    forall q | q in s.cells
      ensures r.cells[q].counter + Outstanding(s.threads[t], q) == s.cells[q].counter + Outstanding(r.threads[t], q)
    {
      CountBetween(s.threads[t].accesses, r.threads[t].accesses, 0, q);
    }
    assert r.threads == s.threads[t := r.threads[t]];
    CountersKept(s, r, t);
  }

  lemma SwapUpToNext(s: State, t: nat, n: nat)
    requires t < |s.threads| && 0 < n <= |s.threads[t].accesses| && Known(s.cells, s.threads[t].accesses)
    ensures SwapUpTo(s, t, n) == SwapOne(SwapUpTo(s, t, n - 1), t, n - 1)
  {}

  lemma MidwaySwapped(m: State, r: State, t: nat, i: nat)
    requires Midway(m, t) && i < |m.threads[t].accesses| && r == SwapOne(m, t, i)
    ensures Midway(r, t)
  {
    SwapOneKeeps(m, t, i);
  }

  lemma MidwayNext(s: State, t: nat, n: nat, m: State, r: State)
    requires t < |s.threads| && 0 < n <= |s.threads[t].accesses| && Known(s.cells, s.threads[t].accesses)
    requires m == SwapUpTo(s, t, n - 1) && r == SwapUpTo(s, t, n) && Midway(m, t)
    ensures Midway(r, t)
  {
    SwapUpToNext(s, t, n);
    MidwaySwapped(m, r, t, n - 1);
  }

  lemma {:induction false} SwapsKeep(s: State, t: nat, n: nat, r: State)
    requires Midway(s, t) && n <= |s.threads[t].accesses| && r == SwapUpTo(s, t, n)
    ensures Midway(r, t)
    decreases n
  {
    if n > 0 {
      var m := SwapUpTo(s, t, n - 1);
      SwapsKeep(s, t, n - 1, m);
      MidwayNext(s, t, n, m, r);
    }
  }

  lemma {:induction false} SwappedAll(s: State, t: nat, n: nat)
    requires t < |s.threads| && n <= |s.threads[t].accesses| && Known(s.cells, s.threads[t].accesses)
    ensures forall i | 0 <= i < n ::
      var a, b := s.threads[t].accesses[i], SwapUpTo(s, t, n).threads[t].accesses[i];
      if a.Copied? then b.Swapped? else b == a
  {
    if n > 0 { SwappedAll(s, t, n - 1); }
  }

  /** A change of phase before anything is released leaves all but the shape alone. */
  lemma PhaseOnly(s: State, r: State, t: nat, ok: bool)
    requires Midway(s, t) && r.threads == s.threads[t := s.threads[t].(phase := Cleaning(ok, 0))]
    requires r.cells == s.cells && r.heap == s.heap && r.own == s.own
    ensures Counters(r) && Owned(r) && Views(r)
  {
    CountersKept(s, r, t);
    forall u, k | 0 <= u < |r.threads| && 0 <= k < |r.threads[u].accesses|
      ensures SlotOwned(r, u, k) && ViewOK(r, u, k)
    {
      assert SlotOwned(s, u, k) && ViewOK(s, u, k);
    }
    forall u, j | 0 <= u < |r.threads| && 0 <= j < |r.threads[u].garbage|
      ensures TrashOwned(r, u, j)
    {
      assert TrashOwned(s, u, j);
    }
    forall v | v in r.own ensures Held(r, v) { assert Held(s, v); }
    forall u | 0 <= u < |r.threads| ensures NoRepeat(r.threads[u].garbage) { assert NoRepeat(s.threads[u].garbage); }
  }

  lemma CommitKeeps(s: State, e: Step)
    requires Inv(s) && Enabled(s, e) && Safe(s, e) && e.Commit?
    ensures Inv(Do(s, e))
  {
    CommitHolds(s, e);
    CommitShapes(s, e);
    CommitUnviewed(s, e);
  }

  lemma CommitHolds(s: State, e: Step)
    requires Inv(s) && Enabled(s, e) && Safe(s, e) && e.Commit?
    ensures var r := Do(s, e); Counters(r) && Owned(r) && Views(r)
  {
    var r, t, th := Do(s, e), e.t, s.threads[e.t];
    assert ThreadShape(s, t);
    if Fresh(s.cells, th.accesses) {
      SwapsKeep(s, t, |th.accesses|, SwapUpTo(s, t, |th.accesses|));
      PhaseOnly(SwapUpTo(s, t, |th.accesses|), r, t, true);
    } else {
      PhaseOnly(s, r, t, false);
    }
  }

  lemma CommitUnviewed(s: State, e: Step)
    requires Unviewed(s) && Enabled(s, e) && Safe(s, e) && e.Commit?
    ensures Unviewed(Do(s, e))
  {
    SwappedAll(s, e.t, |s.threads[e.t].accesses|);
    UnviewedKept(s, Do(s, e));
  }

  lemma CommitShapes(s: State, e: Step)
    requires Shapes(s) && Enabled(s, e) && Safe(s, e) && e.Commit?
    ensures Shapes(Do(s, e))
  {
    var r := Do(s, e);
    CommitDone(s, e);
    forall u | 0 <= u < |r.threads| ensures ThreadShape(r, u) {
      assert ThreadShape(s, u);
    }
  }

  /** After a commit every copy has been swapped in, after an abort none. */
  lemma CommitDone(s: State, e: Step)
    requires Enabled(s, e) && Safe(s, e) && e.Commit?
    ensures var th := s.threads[e.t]; AllDone(Do(s, e).threads[e.t].accesses, Fresh(s.cells, th.accesses))
  {
    var th := s.threads[e.t];
    forall i | 0 <= i < |th.accesses| ensures th.accesses[i].Ready() { assert th.accesses[i] in th.accesses; }
    SwappedAll(s, e.t, |th.accesses|);
  }

  lemma StepKeeps(s: State, e: Step)
    requires Inv(s) && Enabled(s, e)
    ensures Safe(s, e) && Inv(Do(s, e))
  {
    StepSafe(s, e);
    match e
    case Count(_, _, _) => CountKeeps(s, e);
    case See(_) => SeeKeeps(s, e);
    case Copy(_, _) => CopyKeeps(s, e);
    case Write(_, _, _) => WriteKeeps(s, e);
    case Commit(_) => CommitKeeps(s, e);
    case Release(_) => ReleaseKeeps(s, e);
    case Scan(_) => ScanKeeps(s, e);
    case Reclaim(_) => ReclaimKeeps(s, e);
    case Push(_) => PushKeeps(s, e);
    case Free(_) => FreeKeeps(s, e);
    case Finish(_) => FinishKeeps(s, e);
  }

  // ----- Serializability -----

  /** What the records hold. */
  function Contents(s: State): map<Rec, Data>
    requires Inv(s)
  {
    map r | r in s.cells :: s.heap[s.cells[r].record]
  }

  function Apply(m: map<Rec, Data>, ws: seq<(Rec, Data)>): map<Rec, Data> {
    if ws == [] then m else Apply(m, ws[..|ws| - 1])[ws[|ws| - 1].0 := ws[|ws| - 1].1]
  }

  /** The first n committed transactions, one after the other. */
  function Replay(m: map<Rec, Data>, log: seq<Txn>, n: nat): map<Rec, Data>
    requires n <= |log|
  {
    if n == 0 then m else Apply(Replay(m, log, n - 1), log[n - 1].writeSet)
  }

  predicate ReadsMatch(m: map<Rec, Data>, rs: seq<(Rec, Data)>) {
    forall k | 0 <= k < |rs| :: rs[k].0 in m && m[rs[k].0] == rs[k].1
  }

  /** The records hold what the committed transactions give one after the other in commit order,
      and each of these has read what was there just before it. */
  predicate Serial(m: map<Rec, Data>, s: State) {
    && Inv(s) && Contents(s) == Replay(m, s.log, |s.log|)
    && ReadsSerial(m, s.log)
  }

  lemma {:induction false} ReplayPrefix(m: map<Rec, Data>, log: seq<Txn>, x: Txn, n: nat)
    requires n <= |log|
    ensures Replay(m, log + [x], n) == Replay(m, log, n)
  {
    if n > 0 { ReplayPrefix(m, log, x, n - 1); }
  }

  predicate Current(s: State) {
    forall r | r in s.cells :: s.cells[r].record in s.heap
  }

  function Values(s: State): map<Rec, Data>
    requires Current(s)
  {
    map r | r in s.cells :: s.heap[s.cells[r].record]
  }

  lemma SwapOneWrites(s: State, t: nat, i: nat)
    requires t < |s.threads| && i < |s.threads[t].accesses| && Known(s.cells, s.threads[t].accesses) && Current(s)
    requires s.threads[t].accesses[i].Copied? ==> s.threads[t].accesses[i].local in s.heap
    ensures Current(SwapOne(s, t, i))
    ensures var a := s.threads[t].accesses[i];
      Values(SwapOne(s, t, i)) == if a.Copied? then Values(s)[a.rec := s.heap[a.local]] else Values(s)
  {}

  lemma SwapWritesNext(s: State, t: nat, n: nat, m: State, r: State)
    requires t < |s.threads| && 0 < n <= |s.threads[t].accesses| && Known(s.cells, s.threads[t].accesses)
    requires Readable(s.heap, s.threads[t].accesses) && Current(m)
    requires m == SwapUpTo(s, t, n - 1) && r == SwapUpTo(s, t, n)
    ensures Current(r)
    ensures var a := s.threads[t].accesses[n - 1];
      Values(r) == if a.Copied? then Values(m)[a.rec := s.heap[a.local]] else Values(m)
  {
    SwapUpToNext(s, t, n);
    SwapOneWrites(m, t, n - 1);
  }

  /** The swaps of the commit region are the transaction's writes. */
  lemma {:induction false} SwapsWrite(s: State, t: nat, n: nat)
    requires Current(s) && t < |s.threads| && n <= |s.threads[t].accesses|
    requires Known(s.cells, s.threads[t].accesses) && Readable(s.heap, s.threads[t].accesses)
    ensures Current(SwapUpTo(s, t, n))
    ensures Values(SwapUpTo(s, t, n)) == Apply(Values(s), WritesOf(s.heap, s.threads[t].accesses, n))
  {
    if n > 0 {
      SwapsWrite(s, t, n - 1);
      SwapWritesNext(s, t, n, SwapUpTo(s, t, n - 1), SwapUpTo(s, t, n));
      WritesNext(Values(s), s.heap, s.threads[t].accesses, n);
    }
  }

  lemma WritesNext(vs: map<Rec, Data>, heap: map<Ver, Data>, accesses: seq<Access>, n: nat)
    requires 0 < n <= |accesses| && Readable(heap, accesses)
    ensures var a, before := accesses[n - 1], Apply(vs, WritesOf(heap, accesses, n - 1));
      Apply(vs, WritesOf(heap, accesses, n)) == if a.Copied? then before[a.rec := heap[a.local]] else before
  {
    var now, before := WritesOf(heap, accesses, n), WritesOf(heap, accesses, n - 1);
    if accesses[n - 1].Copied? {
      assert now[..|now| - 1] == before;
    } else {
      assert now == before;
    }
  }

  /** A fresh transaction has read what the records hold. */
  lemma {:induction false} FreshReads(s: State, t: nat, n: nat)
    requires Inv(s) && t < |s.threads| && s.threads[t].phase.Running? && n <= |s.threads[t].accesses|
    requires Known(s.cells, s.threads[t].accesses) && Readable(s.heap, s.threads[t].accesses)
    requires Fresh(s.cells, s.threads[t].accesses)
    ensures ReadsMatch(Contents(s), ReadsOf(s.threads[t].accesses, n))
  {
    if n > 0 {
      FreshReads(s, t, n - 1);
      assert ViewOK(s, t, n - 1);
    }
  }

  /** Nothing but a commit changes what the records hold. */
  lemma OthersKeepContents(s: State, e: Step)
    requires Inv(s) && Enabled(s, e) && Safe(s, e) && !e.Commit?
    ensures Current(Do(s, e)) && Values(Do(s, e)) == Values(s) && Do(s, e).log == s.log
  {
    OthersKeepVersions(s, e);
    KeptValues(s, Do(s, e));
  }

  lemma KeptValues(s: State, r: State)
    requires KeptVersions(s, r)
    ensures Current(r) && Values(r) == Values(s)
  {}

  predicate KeptVersions(s: State, r: State) {
    && Current(s) && r.cells.Keys == s.cells.Keys && r.log == s.log
    && forall q | q in s.cells ::
      var v := s.cells[q].record; r.cells[q].record == v && v in r.heap && r.heap[v] == s.heap[v]
  }

  lemma OthersKeepVersions(s: State, e: Step)
    requires Inv(s) && Enabled(s, e) && Safe(s, e) && !e.Commit?
    ensures KeptVersions(s, Do(s, e))
  {
    if e.Write? || e.Reclaim? || e.Free? { HeapStepKeepsVersions(s, e); }
  }

  /** What is written to or freed is no record's current version. */
  lemma HeapStepKeepsVersions(s: State, e: Step)
    requires Inv(s) && Enabled(s, e) && Safe(s, e) && (e.Write? || e.Reclaim? || e.Free?)
    ensures KeptVersions(s, Do(s, e))
  {
    var th := s.threads[e.t];
    assert ThreadShape(s, e.t);
    match e
    case Write(t, i, data) => assert SlotOwned(s, t, i);
    case Reclaim(t) => assert TrashOwned(s, t, th.phase.j);
    case Free(t) => assert SlotOwned(s, t, th.phase.i);
    case _ =>
  }

  predicate ReadsSerial(m: map<Rec, Data>, log: seq<Txn>) {
    forall k | 0 <= k < |log| :: ReadsMatch(Replay(m, log, k), log[k].readSet)
  }

  lemma LogGrows(m: map<Rec, Data>, log: seq<Txn>, x: Txn)
    requires ReadsSerial(m, log) && ReadsMatch(Replay(m, log, |log|), x.readSet)
    ensures ReadsSerial(m, log + [x]) && Replay(m, log + [x], |log| + 1) == Apply(Replay(m, log, |log|), x.writeSet)
  {
    forall k | 0 <= k <= |log| ensures Replay(m, log + [x], k) == Replay(m, log, k) {
      ReplayPrefix(m, log, x, k);
    }
  }

  lemma CommitSerial(m: map<Rec, Data>, s: State, e: Step)
    requires Serial(m, s) && Enabled(s, e) && Safe(s, e) && Inv(Do(s, e)) && e.Commit?
    ensures Serial(m, Do(s, e))
  {
    var r, t, th := Do(s, e), e.t, s.threads[e.t];
    if Fresh(s.cells, th.accesses) {
      var n := |th.accesses|;
      SwapsWrite(s, t, n);
      FreshReads(s, t, n);
      assert Contents(r) == Values(SwapUpTo(s, t, n));
      LogGrows(m, s.log, Txn(ReadsOf(th.accesses, n), WritesOf(s.heap, th.accesses, n)));
    } else {
      assert Contents(r) == Contents(s);
    }
  }

  /** One step of any thread. */
  lemma StepSerial(m: map<Rec, Data>, s: State, e: Step)
    requires Serial(m, s) && Enabled(s, e)
    ensures Safe(s, e) && Serial(m, Do(s, e))
  {
    StepKeeps(s, e);
    if e.Commit? {
      CommitSerial(m, s, e);
    } else {
      OthersKeepContents(s, e);
    }
  }

  // ----- Runs -----

  /** No transaction has begun; each record has a version of its own and nothing else is allocated. */
  predicate Init(s: State) {
    && s.log == [] && s.heap.Keys == s.own.Keys
    && (forall r | r in s.cells :: s.cells[r].timestamp == 0 && s.cells[r].counter == 0
         && s.cells[r].record in s.own && s.own[s.cells[r].record] == Place.Current(r))
    && (forall v | v in s.own :: s.own[v].Current? && s.own[v].rec in s.cells && s.cells[s.own[v].rec].record == v)
    && (forall t | 0 <= t < |s.threads| :: s.threads[t] == Thread(Running, [], []))
  }

  /** After a step that is not safe anything may follow. */
  predicate Taken(ss: seq<State>, es: seq<Step>, k: nat)
    requires |ss| == |es| + 1 && k < |es|
  {
    Enabled(ss[k], es[k]) && (Safe(ss[k], es[k]) ==> ss[k + 1] == Do(ss[k], es[k]))
  }

  /** ss are the states of a run whose steps are es, in any interleaving. */
  predicate Run(ss: seq<State>, es: seq<Step>) {
    |ss| == |es| + 1 && Init(ss[0]) && forall k {:trigger Taken(ss, es, k)} | 0 <= k < |es| :: Taken(ss, es, k)
  }

  lemma {:induction false} NoneOutstanding(threads: seq<Thread>, r: Rec)
    requires forall t | 0 <= t < |threads| :: threads[t] == Thread(Running, [], [])
    ensures Total(threads, r) == 0
  {
    if threads != [] { NoneOutstanding(threads[..|threads| - 1], r); }
  }

  lemma InitSerial(s: State)
    requires Init(s)
    ensures Inv(s) && Serial(Contents(s), s)
  {
    forall t | 0 <= t < |s.threads| ensures ThreadShape(s, t) { assert s.threads[t] == Thread(Running, [], []); }
    forall r | r in s.cells ensures s.cells[r].counter == Total(s.threads, r) { NoneOutstanding(s.threads, r); }
    forall v | v in s.own ensures Held(s, v) { assert s.own[v].Current?; }
    forall t | 0 <= t < |s.threads|
      ensures NoRepeat(s.threads[t].garbage) && s.threads[t].accesses == [] && s.threads[t].garbage == []
    {
      assert s.threads[t] == Thread(Running, [], []);
    }
  }

  /** Every reachable state of every run is serializable in commit order, and every step of it is safe. */
  lemma {:induction false} RunsSerializable(ss: seq<State>, es: seq<Step>, k: nat)
    requires Run(ss, es) && k <= |es|
    ensures Inv(ss[0]) && Serial(Contents(ss[0]), ss[k])
    ensures k < |es| ==> Enabled(ss[k], es[k]) && Safe(ss[k], es[k])
  {
    InitSerial(ss[0]);
    if k > 0 {
      assert Taken(ss, es, k - 1);
      RunsSerializable(ss, es, k - 1);
      StepSerial(Contents(ss[0]), ss[k - 1], es[k - 1]);
    }
    if k < |es| {
      assert Taken(ss, es, k);
      StepSerial(Contents(ss[0]), ss[k], es[k]);
    }
  }

  /** In every reachable state counters count the outstanding accesses, what a running transaction
      can still read is allocated and holds what it held when it was first seen, nobody can read what
      is about to be freed, and every version has exactly one holder. */
  lemma RunsReclaimSafely(ss: seq<State>, es: seq<Step>, k: nat)
    requires Run(ss, es) && k <= |es|
    ensures forall r | r in ss[k].cells :: ss[k].cells[r].counter == Total(ss[k].threads, r)
    ensures forall t, i | 0 <= t < |ss[k].threads| && 0 <= i < |ss[k].threads[t].accesses|
      && ss[k].threads[t].phase.Running? ::
      var a := ss[k].threads[t].accesses[i];
      (a.Viewed? ==> a.version in ss[k].heap && ss[k].heap[a.version] == a.seen)
        && (a.Copied? ==> a.local in ss[k].heap)
    ensures Unviewed(ss[k])
    ensures ss[k].heap.Keys == ss[k].own.Keys && forall v | v in ss[k].own :: Held(ss[k], v)
  {
    RunsSerializable(ss, es, k);
    var s := ss[k];
    forall t, i | 0 <= t < |s.threads| && 0 <= i < |s.threads[t].accesses| && s.threads[t].phase.Running?
      ensures var a := s.threads[t].accesses[i];
        (a.Viewed? ==> a.version in s.heap && s.heap[a.version] == a.seen) && (a.Copied? ==> a.local in s.heap)
    {
      assert ViewOK(s, t, i) && SlotOwned(s, t, i);
    }
  }

  /** DecrementCounter returns the value before: with the counting right it is never 0, so a
      committed old version always goes through the garbage list. */
  lemma PreviousNeverZero(s: State, e: Step)
    requires Inv(s) && Enabled(s, e) && e.Release?
    ensures var a := s.threads[e.t].accesses[s.threads[e.t].phase.i]; a.rec in s.cells && s.cells[a.rec].counter != 0
  {
    StepSafe(s, e);
  }
}
