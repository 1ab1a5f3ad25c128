// What a run of the DBX protocol has done, told from its steps and its log alone: when a commit goes
// through, what a transaction has read and written, which garbage is freed, and that nobody gets stuck.
module DbxRuns {
  import opened Dbx
  import opened DbxSerial

  // ----- Timestamps count writes -----

  function PairsOn(ps: seq<(Rec, Data)>, r: Rec): nat {
    if ps == [] then 0 else PairsOn(ps[..|ps| - 1], r) + if ps[|ps| - 1].0 == r then 1 else 0
  }

  /** How often the transactions of a log write r. */
  function WritesTo(log: seq<Txn>, r: Rec): nat {
    if log == [] then 0 else WritesTo(log[..|log| - 1], r) + PairsOn(log[|log| - 1].writeSet, r)
  }

  lemma {:induction false} SwapsCount(s: State, t: nat, n: nat, r: Rec)
    requires t < |s.threads| && n <= |s.threads[t].accesses| && r in s.cells
    requires Known(s.cells, s.threads[t].accesses) && Readable(s.heap, s.threads[t].accesses)
    ensures SwapUpTo(s, t, n).cells[r].timestamp
      == s.cells[r].timestamp + PairsOn(WritesOf(s.heap, s.threads[t].accesses, n), r)
  {
    if n > 0 {
      SwapsCount(s, t, n - 1, r);
      SwapCounts(s, t, n, r, SwapUpTo(s, t, n - 1), SwapUpTo(s, t, n));
      WritesGrow(s.heap, s.threads[t].accesses, n, r);
    }
  }

  lemma SwapCounts(s: State, t: nat, n: nat, r: Rec, m: State, q: State)
    requires t < |s.threads| && 0 < n <= |s.threads[t].accesses| && Known(s.cells, s.threads[t].accesses)
    requires m == SwapUpTo(s, t, n - 1) && q == SwapUpTo(s, t, n) && r in m.cells
    ensures var a := s.threads[t].accesses[n - 1];
      q.cells[r].timestamp == m.cells[r].timestamp + if a.Copied? && a.rec == r then 1 else 0
  {
    SwapUpToNext(s, t, n);
  }

  lemma WritesGrow(heap: map<Ver, Data>, accesses: seq<Access>, n: nat, r: Rec)
    requires 0 < n <= |accesses| && Readable(heap, accesses)
    ensures PairsOn(WritesOf(heap, accesses, n), r) == PairsOn(WritesOf(heap, accesses, n - 1), r)
      + if accesses[n - 1].Copied? && accesses[n - 1].rec == r then 1 else 0
  {
    var now, before := WritesOf(heap, accesses, n), WritesOf(heap, accesses, n - 1);
    if accesses[n - 1].Copied? { assert now[..|now| - 1] == before; } else { assert now == before; }
  }

  lemma RunStep(ss: seq<State>, es: seq<Step>, k: nat)
    requires Run(ss, es) && k < |es|
    ensures Inv(ss[k]) && Enabled(ss[k], es[k]) && Safe(ss[k], es[k]) && ss[k + 1] == Do(ss[k], es[k])
  {
    assert Taken(ss, es, k);
    RunsSerializable(ss, es, k);
  }

  lemma StepCounts(s: State, e: Step, r: Rec)
    requires Enabled(s, e) && Safe(s, e) && r in s.cells
    requires s.cells[r].timestamp == WritesTo(s.log, r)
    ensures r in Do(s, e).cells && Do(s, e).cells[r].timestamp == WritesTo(Do(s, e).log, r)
  {
    if e.Commit? {
      SwapsCount(s, e.t, |s.threads[e.t].accesses|, r);
      var log := Do(s, e).log;
      assert log != s.log ==> log[..|log| - 1] == s.log;
    }
  }

  lemma CountsNext(ss: seq<State>, es: seq<Step>, k: nat, r: Rec)
    requires Run(ss, es) && k < |es| && r in ss[k].cells && ss[k].cells[r].timestamp == WritesTo(ss[k].log, r)
    ensures r in ss[k + 1].cells && ss[k + 1].cells[r].timestamp == WritesTo(ss[k + 1].log, r)
  {
    RunStep(ss, es, k);
    StepCounts(ss[k], es[k], r);
  }

  /** In every reachable state a record's timestamp is the number of writes to it in the log. */
  lemma {:induction false} TimestampsCount(ss: seq<State>, es: seq<Step>, k: nat, r: Rec)
    requires Run(ss, es) && k <= |es| && r in ss[0].cells
    ensures r in ss[k].cells && ss[k].cells[r].timestamp == WritesTo(ss[k].log, r)
  {
    if k > 0 {
      TimestampsCount(ss, es, k - 1, r);
      CountsNext(ss, es, k - 1, r);
    }
  }

  // ----- When a commit goes through -----

  /** Step j is the one in which thread t's transaction, as it is before step k, has seen its access i. */
  predicate SeenAt(ss: seq<State>, es: seq<Step>, k: nat, t: nat, i: nat, j: nat)
    requires |ss| == |es| + 1 && k <= |es|
  {
    j < k && t < |ss[j].threads| && es[j] == See(t) && |ss[j].threads[t].accesses| == i + 1
      && forall m | j < m < k :: es[m] != Finish(t)
  }

  /** No transaction of the log from its n-th on writes r. */
  predicate Unwritten(log: seq<Txn>, n: nat, r: Rec) {
    forall m, p | n <= m < |log| && 0 <= p < |log[m].writeSet| :: log[m].writeSet[p].0 != r
  }

  lemma {:induction false} NoPairs(ps: seq<(Rec, Data)>, r: Rec)
    ensures PairsOn(ps, r) == 0 <==> forall p | 0 <= p < |ps| :: ps[p].0 != r
  {
    if ps != [] {
      NoPairs(ps[..|ps| - 1], r);
      assert forall p | 0 <= p < |ps| - 1 :: ps[..|ps| - 1][p] == ps[p];
    }
  }

  lemma {:induction false} CountsAgree(log: seq<Txn>, n: nat, r: Rec)
    requires n <= |log|
    ensures WritesTo(log[..n], r) <= WritesTo(log, r)
    ensures WritesTo(log[..n], r) == WritesTo(log, r) <==> Unwritten(log, n, r)
    decreases |log|
  {
    if n == |log| {
      assert log[..n] == log;
    } else {
      var m := |log| - 1;
      CountsAgree(log[..m], n, r);
      assert log[..m][..n] == log[..n];
      NoPairs(log[m].writeSet, r);
      assert Unwritten(log, n, r) <==> Unwritten(log[..m], n, r) && PairsOn(log[m].writeSet, r) == 0;
    }
  }

  lemma StepLog(s: State, e: Step)
    requires Enabled(s, e) && Safe(s, e)
    ensures s.log <= Do(s, e).log && Do(s, e).cells.Keys == s.cells.Keys
  {}

  lemma RunStepLog(ss: seq<State>, es: seq<Step>, k: nat)
    requires Run(ss, es) && k < |es|
    ensures ss[k].log <= ss[k + 1].log && ss[k + 1].cells.Keys == ss[k].cells.Keys
  {
    RunStep(ss, es, k);
    StepLog(ss[k], es[k]);
  }

  lemma {:induction false} LogsGrow(ss: seq<State>, es: seq<Step>, j: nat, k: nat)
    requires Run(ss, es) && j <= k <= |es|
    ensures ss[j].log <= ss[k].log
    decreases k
  {
    if j < k {
      LogsGrow(ss, es, j, k - 1);
      RunStepLog(ss, es, k - 1);
    }
  }

  /** The data of the last update of access i among the steps from j on before k, d if there is none. */
  function Latest(es: seq<Step>, j: nat, k: nat, t: nat, i: nat, d: Data): Data
    requires k <= |es|
    decreases k
  {
    if k <= j then d
    else if es[k - 1].Write? && es[k - 1].t == t && es[k - 1].i == i then es[k - 1].data
    else Latest(es, j, k - 1, t, i, d)
  }

  /** An outstanding read. */
  predicate Open(s: State, t: nat, i: nat) {
    t < |s.threads| && s.threads[t].phase.Running? && i < |s.threads[t].accesses|
      && (s.threads[t].accesses[i].Viewed? || s.threads[t].accesses[i].Copied?)
  }

  /** An open access has not been opened by the step before, unless that was its See step. */
  lemma OpenBefore(s: State, e: Step, t: nat, i: nat)
    requires Enabled(s, e) && Safe(s, e) && Open(Do(s, e), t, i)
    requires !(e == See(t) && |s.threads[t].accesses| == i + 1)
    ensures Open(s, t, i) && e != Finish(t)
  {}

  lemma OpenedBefore(ss: seq<State>, es: seq<Step>, k: nat, t: nat, i: nat)
    requires Run(ss, es) && k < |es| && Open(ss[k + 1], t, i)
    ensures t < |ss[k].threads| && (SeenAt(ss, es, k + 1, t, i, k) || (Open(ss[k], t, i) && es[k] != Finish(t)))
  {
    RunStep(ss, es, k);
    if !SeenAt(ss, es, k + 1, t, i, k) { OpenBefore(ss[k], es[k], t, i); }
  }

  /** What has been seen stays, and a copy holds it until the transaction itself updates the copy. */
  lemma OpenKept(s: State, e: Step, t: nat, i: nat)
    requires Inv(s) && Enabled(s, e) && Safe(s, e) && Open(s, t, i)
    requires t < |Do(s, e).threads| && Do(s, e).threads[t].phase.Running? && e != Finish(t)
    ensures Open(Do(s, e), t, i)
    ensures var a, b := s.threads[t].accesses[i], Do(s, e).threads[t].accesses[i];
      b.rec == a.rec && b.timestamp == a.timestamp && b.seen == a.seen
  {
    if e.Copy? && e.t == t { assert ViewOK(s, t, |s.threads[t].accesses| - 1); }
  }

  predicate HoldsCopy(s: State, t: nat, i: nat, d: Data)
    requires Open(s, t, i)
  {
    var a := s.threads[t].accesses[i];
    if a.Copied? then a.local in s.heap && s.heap[a.local] == d else a.seen == d
  }

  lemma CopyKept(s: State, e: Step, t: nat, i: nat, d: Data)
    requires Inv(s) && Enabled(s, e) && Safe(s, e) && Open(s, t, i) && Open(Do(s, e), t, i) && e != Finish(t)
    requires HoldsCopy(s, t, i, d)
    ensures HoldsCopy(Do(s, e), t, i, if e.Write? && e.t == t && e.i == i then e.data else d)
  {
    if e.Write? || e.Reclaim? || e.Free? || e.Copy? { HeapStepKeepsCopy(s, e, t, i, d); }
  }

  lemma HeapStepKeepsCopy(s: State, e: Step, t: nat, i: nat, d: Data)
    requires Inv(s) && Enabled(s, e) && Safe(s, e) && Open(s, t, i) && Open(Do(s, e), t, i)
    requires e.Write? || e.Reclaim? || e.Free? || e.Copy?
    requires HoldsCopy(s, t, i, d)
    ensures HoldsCopy(Do(s, e), t, i, if e.Write? && e.t == t && e.i == i then e.data else d)
  {
    assert SlotOwned(s, t, i);
    match e
    case Copy(u, to) => if u == t { assert ViewOK(s, t, |s.threads[t].accesses| - 1); }
    case Write(u, k, data) => assert SlotOwned(s, u, k);
    case Reclaim(u) => assert TrashOwned(s, u, s.threads[u].phase.j);
    case Free(u) => assert SlotOwned(s, u, s.threads[u].phase.i);
    case _ =>
  }

  /** What access i of the transaction has been opened for. */
  predicate IsFor(s: State, t: nat, i: nat, kind: AccessType, r: Rec) {
    t < |s.threads| && i < |s.threads[t].accesses| &&
    var a := s.threads[t].accesses[i];
    a.rec == r &&
    match a
    case Counted(ak, _) => ak == kind
    case Viewed(ak, _, _, _, _) => ak == kind
    case Copied(_, _, _, _) => kind == ReadWrite
    case Swapped(_, _) => false
  }

  predicate RunningAt(s: State, t: nat) {
    t < |s.threads| && s.threads[t].phase.Running?
  }

  lemma RunningSince(ss: seq<State>, es: seq<Step>, k: nat, t: nat)
    requires Run(ss, es) && k < |es| && RunningAt(ss[k + 1], t) && es[k] != Finish(t)
    ensures RunningAt(ss[k], t)
  {
    RunStep(ss, es, k);
  }

  lemma ForKept(s: State, e: Step, t: nat, i: nat, kind: AccessType, r: Rec)
    requires Enabled(s, e) && Safe(s, e) && t < |Do(s, e).threads|
    requires Do(s, e).threads[t].phase.Running? && e != Finish(t)
    requires IsFor(s, t, i, kind, r)
    ensures IsFor(Do(s, e), t, i, kind, r)
  {}

  /** Step c is the one with which thread t's transaction, as it is before step k, has asked for its access i. */
  predicate AskedAt(ss: seq<State>, es: seq<Step>, k: nat, t: nat, i: nat, c: nat)
    requires |ss| == |es| + 1 && k <= |es|
  {
    c < k && t < |ss[c].threads| && es[c].Count? && es[c].t == t && |ss[c].threads[t].accesses| == i
      && forall m | c < m < k :: es[m] != Finish(t)
  }

  lemma {:induction false} AskedFor(ss: seq<State>, es: seq<Step>, k: nat, t: nat, i: nat, c: nat)
    requires Run(ss, es) && k <= |es| && RunningAt(ss[k], t) && AskedAt(ss, es, k, t, i, c)
    ensures IsFor(ss[k], t, i, es[c].kind, es[c].rec)
    decreases k
  {
    RunStep(ss, es, k - 1);
    if c < k - 1 {
      RunningSince(ss, es, k - 1, t);
      AskedFor(ss, es, k - 1, t, i, c);
      ForKept(ss[k - 1], es[k - 1], t, i, es[c].kind, es[c].rec);
    }
  }

  lemma AskedBefore(s: State, e: Step, t: nat, i: nat)
    requires Enabled(s, e) && Safe(s, e) && RunningAt(Do(s, e), t) && i < |Do(s, e).threads[t].accesses|
    requires !(e.Count? && e.t == t && |s.threads[t].accesses| == i)
    ensures e != Finish(t) && RunningAt(s, t) && i < |s.threads[t].accesses|
  {}

  lemma {:induction false} AskedOnce(ss: seq<State>, es: seq<Step>, k: nat, t: nat, i: nat) returns (c: nat)
    requires Run(ss, es) && k <= |es| && RunningAt(ss[k], t) && i < |ss[k].threads[t].accesses|
    ensures AskedAt(ss, es, k, t, i, c)
    decreases k
  {
    RunStep(ss, es, k - 1);
    var e := es[k - 1];
    if e.Count? && e.t == t && |ss[k - 1].threads[t].accesses| == i {
      c := k - 1;
    } else {
      AskedBefore(ss[k - 1], e, t, i);
      c := AskedOnce(ss, es, k - 1, t, i);
    }
  }

  /** Record r holds d. */
  predicate Holds(s: State, r: Rec, d: Data) {
    r in s.cells && s.cells[r].record in s.heap && s.heap[s.cells[r].record] == d
  }

  lemma {:induction false} SeenOnce(ss: seq<State>, es: seq<Step>, k: nat, t: nat, i: nat) returns (j: nat)
    requires Run(ss, es) && k <= |es| && Open(ss[k], t, i)
    ensures SeenAt(ss, es, k, t, i, j)
    decreases k
  {
    OpenedBefore(ss, es, k - 1, t, i);
    if SeenAt(ss, es, k, t, i, k - 1) {
      j := k - 1;
    } else {
      j := SeenOnce(ss, es, k - 1, t, i);
    }
  }

  /** An open access has the record's timestamp and data from its See step, and its copy what the
      transaction has last put there. */
  lemma {:induction false} SeenThen(ss: seq<State>, es: seq<Step>, k: nat, t: nat, i: nat, j: nat)
    requires Run(ss, es) && k <= |es| && RunningAt(ss[k], t) && SeenAt(ss, es, k, t, i, j)
    ensures Open(ss[k], t, i)
    ensures var a := ss[k].threads[t].accesses[i];
      a.rec in ss[j].cells && a.timestamp == ss[j].cells[a.rec].timestamp && Holds(ss[j], a.rec, a.seen)
        && HoldsCopy(ss[k], t, i, Latest(es, j, k, t, i, a.seen))
    decreases k
  {
    if j == k - 1 {
      SeenFirst(ss, es, j, t, i);
    } else {
      RunningSince(ss, es, k - 1, t);
      SeenThen(ss, es, k - 1, t, i, j);
      SeenNext(ss, es, k - 1, t, i, j);
    }
  }

  lemma SeenFirst(ss: seq<State>, es: seq<Step>, k: nat, t: nat, i: nat)
    requires Run(ss, es) && k < |es| && t < |ss[k].threads| && es[k] == See(t) && |ss[k].threads[t].accesses| == i + 1
    ensures Open(ss[k + 1], t, i)
    ensures var a := ss[k + 1].threads[t].accesses[i];
      a.rec in ss[k].cells && a.timestamp == ss[k].cells[a.rec].timestamp && Holds(ss[k], a.rec, a.seen)
        && HoldsCopy(ss[k + 1], t, i, a.seen)
  {
    RunStep(ss, es, k);
  }

  lemma SeenNext(ss: seq<State>, es: seq<Step>, k: nat, t: nat, i: nat, j: nat)
    requires Run(ss, es) && j < k < |es| && Open(ss[k], t, i) && RunningAt(ss[k + 1], t) && es[k] != Finish(t)
    requires HoldsCopy(ss[k], t, i, Latest(es, j, k, t, i, ss[k].threads[t].accesses[i].seen))
    ensures Open(ss[k + 1], t, i)
    ensures var a, b := ss[k].threads[t].accesses[i], ss[k + 1].threads[t].accesses[i];
      b.rec == a.rec && b.timestamp == a.timestamp && b.seen == a.seen
        && HoldsCopy(ss[k + 1], t, i, Latest(es, j, k + 1, t, i, b.seen))
  {
    RunStep(ss, es, k);
    OpenKept(ss[k], es[k], t, i);
    CopyKept(ss[k], es[k], t, i, Latest(es, j, k, t, i, ss[k].threads[t].accesses[i].seen));
  }

  /** cs and js are the steps in which the transaction about to end has asked for and seen its accesses. */
  predicate Recorded(ss: seq<State>, es: seq<Step>, k: nat, cs: seq<nat>, js: seq<nat>)
    requires Run(ss, es) && k < |es|
  {
    && es[k].Commit? && es[k].t < |ss[k].threads| && |cs| == |js| == |ss[k].threads[es[k].t].accesses|
    && forall i | 0 <= i < |cs| ::
      AskedAt(ss, es, k, es[k].t, i, cs[i]) && SeenAt(ss, es, k, es[k].t, i, js[i])
  }

  /** Every transaction about to end has asked for each of its accesses and has seen it. */
  lemma AllRecorded(ss: seq<State>, es: seq<Step>, k: nat) returns (cs: seq<nat>, js: seq<nat>)
    requires Run(ss, es) && k < |es| && es[k].Commit?
    ensures Recorded(ss, es, k, cs, js)
  {
    assert Taken(ss, es, k);
    var t := es[k].t;
    var accesses := ss[k].threads[t].accesses;
    cs, js := [], [];
    while |cs| < |accesses|
      invariant |cs| == |js| <= |accesses|
      invariant forall i | 0 <= i < |cs| :: AskedAt(ss, es, k, t, i, cs[i]) && SeenAt(ss, es, k, t, i, js[i])
    {
      assert accesses[|cs|] in accesses && accesses[|cs|].Ready();
      var c := AskedOnce(ss, es, k, t, |cs|);
      var j := SeenOnce(ss, es, k, t, |cs|);
      cs, js := cs + [c], js + [j];
    }
  }

  predicate Commits(ss: seq<State>, k: nat)
    requires k + 1 < |ss|
  {
    ss[k + 1].log != ss[k].log
  }

  /** The commit region on the state before it. */
  lemma CommitState(ss: seq<State>, es: seq<Step>, k: nat)
    requires Run(ss, es) && k < |es| && es[k].Commit?
    ensures Inv(ss[k]) && Enabled(ss[k], es[k]) && Safe(ss[k], es[k])
    ensures var s, t, r := ss[k], es[k].t, ss[k + 1];
      var accesses := s.threads[t].accesses;
      var n := |accesses|;
      if Fresh(s.cells, accesses) then
        r.log == s.log + [Txn(ReadsOf(accesses, n), WritesOf(s.heap, accesses, n))]
          && r.heap == s.heap && r.cells == SwapUpTo(s, t, n).cells
      else r.log == s.log
  {
    RunStep(ss, es, k);
  }

  /** What the transaction about to end has in its access list. */
  lemma CommitAccess(ss: seq<State>, es: seq<Step>, k: nat, cs: seq<nat>, js: seq<nat>, i: nat)
    requires Run(ss, es) && k < |es| && Recorded(ss, es, k, cs, js) && i < |cs|
    ensures var t, a := es[k].t, ss[k].threads[es[k].t].accesses[i];
      && a.rec == es[cs[i]].rec && (a.Viewed? || a.Copied?) && (a.Copied? <==> es[cs[i]].kind.ReadWrite?)
      && a.rec in ss[js[i]].cells && a.timestamp == ss[js[i]].cells[a.rec].timestamp
      && Holds(ss[js[i]], a.rec, a.seen)
      && (a.Copied? ==> a.local in ss[k].heap && ss[k].heap[a.local] == Latest(es, js[i], k, t, i, a.seen))
  {
    assert Taken(ss, es, k);
    var accesses := ss[k].threads[es[k].t].accesses;
    assert accesses[i] in accesses && accesses[i].Ready();
    AskedFor(ss, es, k, es[k].t, i, cs[i]);
    SeenThen(ss, es, k, es[k].t, i, js[i]);
  }

  /** A commit goes through exactly if no transaction that has committed since it saw a record has
      written that record. */
  lemma CommitsIff(ss: seq<State>, es: seq<Step>, k: nat, cs: seq<nat>, js: seq<nat>)
    requires Run(ss, es) && k < |es| && Recorded(ss, es, k, cs, js)
    ensures Commits(ss, k) <==> forall i | 0 <= i < |cs| :: Unwritten(ss[k].log, |ss[js[i]].log|, es[cs[i]].rec)
  {
    CommitState(ss, es, k);
    var accesses := ss[k].threads[es[k].t].accesses;
    forall i | 0 <= i < |cs|
      ensures accesses[i].rec == es[cs[i]].rec && (accesses[i].Viewed? || accesses[i].Copied?)
      ensures ss[k].cells[accesses[i].rec].timestamp == accesses[i].timestamp
        <==> Unwritten(ss[k].log, |ss[js[i]].log|, es[cs[i]].rec)
    {
      CommitAccess(ss, es, k, cs, js, i);
      UnwrittenSince(ss, es, js[i], k, accesses[i].rec);
    }
  }

  lemma UnwrittenSince(ss: seq<State>, es: seq<Step>, j: nat, k: nat, r: Rec)
    requires Run(ss, es) && j <= k <= |es| && r in ss[j].cells && r in ss[k].cells
    ensures ss[j].cells[r].timestamp == ss[k].cells[r].timestamp <==> Unwritten(ss[k].log, |ss[j].log|, r)
  {
    KnownFirst(ss, es, j, r);
    TimestampsCount(ss, es, j, r);
    TimestampsCount(ss, es, k, r);
    LogsGrow(ss, es, j, k);
    assert ss[k].log[..|ss[j].log|] == ss[j].log;
    CountsAgree(ss[k].log, |ss[j].log|, r);
  }

  lemma {:induction false} KnownFirst(ss: seq<State>, es: seq<Step>, k: nat, r: Rec)
    requires Run(ss, es) && k <= |es| && r in ss[k].cells
    ensures r in ss[0].cells
  {
    if k > 0 {
      RunStepLog(ss, es, k - 1);
      KnownFirst(ss, es, k - 1, r);
    }
  }

  // ----- What a commit does -----

  lemma {:induction false} ReadsAt(accesses: seq<Access>, n: nat)
    requires n <= |accesses| && forall i | 0 <= i < |accesses| :: accesses[i].Viewed? || accesses[i].Copied?
    ensures |ReadsOf(accesses, n)| == n
    ensures forall i | 0 <= i < n :: ReadsOf(accesses, n)[i] == (accesses[i].rec, accesses[i].seen)
  {
    if n > 0 { ReadsAt(accesses, n - 1); }
  }

  /** The log entry of a commit has, access by access, the record asked for and what it held when seen. */
  lemma CommitReads(ss: seq<State>, es: seq<Step>, k: nat, cs: seq<nat>, js: seq<nat>)
    requires Run(ss, es) && k < |es| && Recorded(ss, es, k, cs, js) && Commits(ss, k)
    ensures |ss[k + 1].log| == |ss[k].log| + 1
    ensures var rs := ss[k + 1].log[|ss[k].log|].readSet;
      |rs| == |cs| && forall i | 0 <= i < |cs| ::
        rs[i].0 == es[cs[i]].rec && Holds(ss[js[i]], rs[i].0, rs[i].1)
  {
    CommitState(ss, es, k);
    var accesses := ss[k].threads[es[k].t].accesses;
    forall i | 0 <= i < |cs|
      ensures accesses[i].Viewed? || accesses[i].Copied?
      ensures accesses[i].rec == es[cs[i]].rec && Holds(ss[js[i]], accesses[i].rec, accesses[i].seen)
    {
      CommitAccess(ss, es, k, cs, js, i);
    }
    ReadsAt(accesses, |accesses|);
  }

  /** Access i asks for record r to write it. */
  predicate ToWrite(es: seq<Step>, cs: seq<nat>, i: nat, r: Rec)
    requires i < |cs|
  {
    cs[i] < |es| && es[cs[i]].Count? && es[cs[i]].kind.ReadWrite? && es[cs[i]].rec == r
  }

  predicate CopyOf(a: Access, r: Rec) {
    a.Copied? && a.rec == r
  }

  lemma {:induction false} PairsOfCopies(heap: map<Ver, Data>, accesses: seq<Access>, n: nat, r: Rec)
    requires n <= |accesses| && Readable(heap, accesses)
    ensures PairsOn(WritesOf(heap, accesses, n), r) > 0 <==>
      exists i :: 0 <= i < n && CopyOf(accesses[i], r)
  {
    if n > 0 {
      PairsOfCopies(heap, accesses, n - 1, r);
      WritesGrow(heap, accesses, n, r);
    }
  }

  lemma LastWrites(log: seq<Txn>, grown: seq<Txn>, r: Rec)
    requires |grown| == |log| + 1
    ensures Unwritten(grown, |log|, r) <==> PairsOn(grown[|log|].writeSet, r) == 0
  {
    NoPairs(grown[|log|].writeSet, r);
  }

  lemma CopyToWrite(ss: seq<State>, es: seq<Step>, k: nat, cs: seq<nat>, js: seq<nat>, i: nat, r: Rec)
    requires Run(ss, es) && k < |es| && Recorded(ss, es, k, cs, js) && i < |cs|
    ensures var a := ss[k].threads[es[k].t].accesses[i]; CopyOf(a, r) <==> ToWrite(es, cs, i, r)
  {
    CommitAccess(ss, es, k, cs, js, i);
  }

  /** The log entry of a commit writes exactly the records asked for to be written. */
  lemma CommitTouches(ss: seq<State>, es: seq<Step>, k: nat, cs: seq<nat>, js: seq<nat>, r: Rec)
    requires Run(ss, es) && k < |es| && Recorded(ss, es, k, cs, js) && Commits(ss, k)
    ensures |ss[k + 1].log| == |ss[k].log| + 1
    ensures !Unwritten(ss[k + 1].log, |ss[k].log|, r) <==> exists i :: 0 <= i < |cs| && ToWrite(es, cs, i, r)
  {
    CommitState(ss, es, k);
    var accesses := ss[k].threads[es[k].t].accesses;
    forall i | 0 <= i < |cs| ensures CopyOf(accesses[i], r) <==> ToWrite(es, cs, i, r) {
      CopyToWrite(ss, es, k, cs, js, i, r);
    }
    PairsOfCopies(ss[k].heap, accesses, |accesses|, r);
    LastWrites(ss[k].log, ss[k + 1].log, r);
  }

  lemma SwapRecord(s: State, t: nat, n: nat, r: Rec, m: State, q: State)
    requires t < |s.threads| && 0 < n <= |s.threads[t].accesses| && Known(s.cells, s.threads[t].accesses)
    requires m == SwapUpTo(s, t, n - 1) && q == SwapUpTo(s, t, n) && r in m.cells
    ensures var a := s.threads[t].accesses[n - 1];
      q.cells[r].record == if a.Copied? && a.rec == r then a.local else m.cells[r].record
  {
    SwapUpToNext(s, t, n);
  }

  lemma {:induction false} SwapsRecord(s: State, t: nat, n: nat, r: Rec, i: nat)
    requires t < |s.threads| && n <= |s.threads[t].accesses| && Known(s.cells, s.threads[t].accesses) && r in s.cells
    requires i < n && CopyOf(s.threads[t].accesses[i], r)
    requires forall u | i < u < n :: !CopyOf(s.threads[t].accesses[u], r)
    ensures SwapUpTo(s, t, n).cells[r].record == s.threads[t].accesses[i].local
  {
    SwapRecord(s, t, n, r, SwapUpTo(s, t, n - 1), SwapUpTo(s, t, n));
    if i < n - 1 { SwapsRecord(s, t, n - 1, r, i); }
  }

  lemma {:induction false} SwapsLeave(s: State, t: nat, n: nat, r: Rec)
    requires t < |s.threads| && n <= |s.threads[t].accesses| && Known(s.cells, s.threads[t].accesses) && r in s.cells
    requires forall u | 0 <= u < n :: !CopyOf(s.threads[t].accesses[u], r)
    ensures SwapUpTo(s, t, n).cells[r].record == s.cells[r].record
  {
    if n > 0 {
      SwapRecord(s, t, n, r, SwapUpTo(s, t, n - 1), SwapUpTo(s, t, n));
      SwapsLeave(s, t, n - 1, r);
    }
  }

  /** After a commit a record that was asked for to be written holds the last update of its last such
      access, or what that access saw if it was not updated. */
  lemma CommitWrites(ss: seq<State>, es: seq<Step>, k: nat, cs: seq<nat>, js: seq<nat>, i: nat, d: Data)
    requires Run(ss, es) && k < |es| && Recorded(ss, es, k, cs, js) && Commits(ss, k) && i < |cs|
    requires var r := es[cs[i]].rec; ToWrite(es, cs, i, r) && forall u | i < u < |cs| :: !ToWrite(es, cs, u, r)
    requires Holds(ss[js[i]], es[cs[i]].rec, d)
    ensures Holds(ss[k + 1], es[cs[i]].rec, Latest(es, js[i], k, es[k].t, i, d))
  {
    CommitState(ss, es, k);
    var accesses, r := ss[k].threads[es[k].t].accesses, es[cs[i]].rec;
    forall u | 0 <= u < |cs| ensures CopyOf(accesses[u], r) <==> ToWrite(es, cs, u, r) {
      CopyToWrite(ss, es, k, cs, js, u, r);
    }
    CommitAccess(ss, es, k, cs, js, i);
    SwapsRecord(ss[k], es[k].t, |accesses|, r, i);
  }

  /** A commit leaves the records alone that it has not asked for to write. */
  lemma CommitLeaves(ss: seq<State>, es: seq<Step>, k: nat, cs: seq<nat>, js: seq<nat>, r: Rec, d: Data)
    requires Run(ss, es) && k < |es| && Recorded(ss, es, k, cs, js) && Commits(ss, k)
    requires forall u | 0 <= u < |cs| :: !ToWrite(es, cs, u, r)
    ensures Holds(ss[k], r, d) ==> Holds(ss[k + 1], r, d)
  {
    CommitState(ss, es, k);
    var accesses := ss[k].threads[es[k].t].accesses;
    forall u | 0 <= u < |cs| ensures !CopyOf(accesses[u], r) {
      CopyToWrite(ss, es, k, cs, js, u, r);
    }
    if r in ss[k].cells { SwapsLeave(ss[k], es[k].t, |accesses|, r); }
  }

  /** A step that adds nothing to the log changes no record. */
  lemma OthersWriteNothing(ss: seq<State>, es: seq<Step>, k: nat, r: Rec, d: Data)
    requires Run(ss, es) && k < |es| && !Commits(ss, k) && Holds(ss[k], r, d)
    ensures Holds(ss[k + 1], r, d)
  {
    RunStep(ss, es, k);
    if !es[k].Commit? {
      OthersKeepContents(ss[k], es[k]);
      assert Values(ss[k + 1])[r] == Values(ss[k])[r];
    }
  }

  // ----- Which garbage is freed -----

  /** Thread t is looking through its garbage. */
  predicate Sifting(s: State, t: nat) {
    t < |s.threads| && (s.threads[t].phase.Scanning? || s.threads[t].phase.Reclaiming?)
      && s.threads[t].phase.j <= |s.threads[t].garbage|
  }

  predicate Behind(s: State, t: nat, g: (Rec, Ver))
    requires Sifting(s, t)
  {
    g in s.threads[t].garbage[..s.threads[t].phase.j]
  }

  predicate Ahead(s: State, t: nat, g: (Rec, Ver))
    requires Sifting(s, t)
  {
    g in s.threads[t].garbage[s.threads[t].phase.j..]
  }

  /** The step tests the counter of entry g, which is not 0. */
  predicate FindsUsed(s: State, e: Step, t: nat, g: (Rec, Ver)) {
    Sifting(s, t) && e == Scan(t) && s.threads[t].phase.j < |s.threads[t].garbage|
      && s.threads[t].garbage[s.threads[t].phase.j] == g && g.0 in s.cells && s.cells[g.0].counter != 0
  }

  predicate Frees(s: State, e: Step, r: State, t: nat, g: (Rec, Ver)) {
    e == Reclaim(t) && g.1 in s.heap && g.1 !in r.heap
  }

  lemma SiftStep(s: State, e: Step, t: nat, g: (Rec, Ver))
    requires Enabled(s, e) && Safe(s, e) && Sifting(s, t) && e != Push(t)
    ensures Sifting(Do(s, e), t)
    ensures Behind(s, t, g) ==> Behind(Do(s, e), t, g)
    ensures Ahead(s, t, g) ==>
      Ahead(Do(s, e), t, g) || (FindsUsed(s, e, t, g) && Behind(Do(s, e), t, g)) || Frees(s, e, Do(s, e), t, g)
  {
    if e == Scan(t) {
      ScanSifts(s, t, g);
    } else if e == Reclaim(t) {
      ReclaimSifts(s, t, g);
    } else {
      assert Do(s, e).threads[t] == s.threads[t];
    }
  }

  lemma ScanSifts(s: State, t: nat, g: (Rec, Ver))
    requires Enabled(s, Scan(t)) && Safe(s, Scan(t)) && Sifting(s, t)
    ensures Sifting(Do(s, Scan(t)), t)
    ensures var r := Do(s, Scan(t));
      && (Behind(s, t, g) ==> Behind(r, t, g))
      && (Ahead(s, t, g) ==> Ahead(r, t, g) || (FindsUsed(s, Scan(t), t, g) && Behind(r, t, g)))
  {
    var j, gs := s.threads[t].phase.j, s.threads[t].garbage;
    assert gs[j..] == [gs[j]] + gs[j + 1..] && gs[..j + 1] == gs[..j] + [gs[j]];
  }

  lemma ReclaimSifts(s: State, t: nat, g: (Rec, Ver))
    requires Enabled(s, Reclaim(t)) && Safe(s, Reclaim(t)) && Sifting(s, t)
    ensures Sifting(Do(s, Reclaim(t)), t)
    ensures var r := Do(s, Reclaim(t));
      && (Behind(s, t, g) ==> Behind(r, t, g))
      && (Ahead(s, t, g) ==> Ahead(r, t, g) || Frees(s, Reclaim(t), r, t, g))
  {
    var j, gs, hs := s.threads[t].phase.j, s.threads[t].garbage, Do(s, Reclaim(t)).threads[t].garbage;
    assert gs[j..] == [gs[j]] + gs[j + 1..] && hs[..j] == gs[..j] && hs[j..] == gs[j + 1..];
  }

  /** From step p on, and before step k, thread t has looked through its garbage. */
  predicate Pass(ss: seq<State>, es: seq<Step>, t: nat, p: nat, k: nat)
    requires |ss| == |es| + 1
  {
    p < k <= |es| && es[p] == Release(t) && t < |ss[p + 1].threads| && ss[p + 1].threads[t].phase.Scanning?
      && forall m | p < m < k :: es[m] != Push(t)
  }

  predicate WasUsed(ss: seq<State>, es: seq<Step>, t: nat, p: nat, k: nat, g: (Rec, Ver))
    requires |ss| == |es| + 1 && k <= |es|
  {
    exists m :: p < m < k && FindsUsed(ss[m], es[m], t, g)
  }

  predicate WasFreed(ss: seq<State>, es: seq<Step>, t: nat, p: nat, k: nat, g: (Rec, Ver))
    requires |ss| == |es| + 1 && k <= |es|
  {
    exists m :: p < m < k && Frees(ss[m], es[m], ss[m + 1], t, g)
  }

  lemma {:induction false} Sifted(ss: seq<State>, es: seq<Step>, t: nat, p: nat, k: nat, g: (Rec, Ver))
    requires Run(ss, es) && Pass(ss, es, t, p, k) && g in ss[p + 1].threads[t].garbage
    ensures Sifting(ss[k], t)
    ensures Ahead(ss[k], t, g) || WasFreed(ss, es, t, p, k, g)
      || (Behind(ss[k], t, g) && WasUsed(ss, es, t, p, k, g))
    decreases k
  {
    RunStep(ss, es, k - 1);
    if k > p + 1 {
      Sifted(ss, es, t, p, k - 1, g);
      SiftStep(ss[k - 1], es[k - 1], t, g);
    }
  }

  /** Each time a thread looks through its garbage, every entry is looked at: it is freed, or its record
      is in use when its counter is tested. Garbage that nobody uses is freed. */
  lemma GarbageFreed(ss: seq<State>, es: seq<Step>, t: nat, p: nat, k: nat, g: (Rec, Ver))
    requires Run(ss, es) && Pass(ss, es, t, p, k) && k < |es| && es[k] == Push(t)
    requires g in ss[p + 1].threads[t].garbage
    ensures WasFreed(ss, es, t, p, k, g)
      || (t < |ss[k].threads| && g in ss[k].threads[t].garbage && WasUsed(ss, es, t, p, k, g))
    ensures (forall m | p < m < k :: Total(ss[m].threads, g.0) == 0) ==> WasFreed(ss, es, t, p, k, g)
  {
    Sifted(ss, es, t, p, k, g);
    RunStep(ss, es, k);
    if m :| p < m < k && FindsUsed(ss[m], es[m], t, g) {
      RunStep(ss, es, m);
      assert Total(ss[m].threads, g.0) != 0;
    }
  }

  // ----- Nobody gets stuck -----

  lemma Above(vs: set<Ver>) returns (v: Ver)
    ensures forall x | x in vs :: x < v
  {
    if vs == {} {
      v := 0;
    } else {
      var x :| x in vs;
      var w := Above(vs - {x});
      v := if x < w then w else x + 1;
      forall y | y in vs ensures y < v { assert y == x || y in vs - {x}; }
    }
  }

  /** In every reachable state every thread has a step to take. */
  lemma CanStep(s: State, t: nat) returns (e: Step)
    requires Inv(s) && t < |s.threads|
    ensures e.t == t && Enabled(s, e)
    ensures s.threads[t].phase.Running? && (forall a | a in s.threads[t].accesses :: a.Ready()) ==> e.Commit?
  {
    var th := s.threads[t];
    var n := |th.accesses|;
    assert ThreadShape(s, t);
    assert n > 0 ==> th.accesses[n - 1] in th.accesses;
    match th.phase
    case Running =>
      if n > 0 && th.accesses[n - 1].Counted? {
        e := See(t);
      } else if n > 0 && !th.accesses[n - 1].Ready() {
        var to := Above(s.heap.Keys);
        e := Copy(t, to);
      } else {
        e := Commit(t);
      }
    case Cleaning(ok, i) => e := if i < n then Release(t) else Finish(t);
    case Scanning(i, j) => e := if j < |th.garbage| then Scan(t) else Push(t);
    case Reclaiming(i, j) => e := Reclaim(t);
    case Freeing(i) => e := Free(t);
  }
}
