// All records' lock queues together: nobody waits in a circle.
module LockSystem {
  import opened LockWait
  import opened LockContent

  type Rec = nat

  /** Transactions are known by their timestamps; ready holds the flags of the live ones. */
  datatype Sys = Sys(queues: map<Rec, Queue>, ready: map<nat, bool>)

  datatype Step =
    | Begin(timestamp: nat)
    | Request(timestamp: nat, rec: Rec, lt: LockType)
    | Release(timestamp: nat, rec: Rec)
    | End(timestamp: nat)

  /** What the callers do: timestamps of live transactions differ, a blocked transaction does nothing,
      no second request on a record, only owners release. */
  predicate Enabled(s: Sys, e: Step) {
    match e
    case Begin(t) => t !in s.ready
    case Request(t, r, lt) => t in s.ready && s.ready[t] && r in s.queues && !lt.NoLock?
      && !IsIn(s.queues[r].owners, t) && !IsIn(s.queues[r].waiters, t)
    case Release(t, r) =>
      t in s.ready && s.ready[t] && r in s.queues && IsIn(s.queues[r].owners, t) && s.queues[r].ownersCount > 0
    case End(t) =>
      t in s.ready && s.ready[t] && forall r | r in s.queues ::
        !IsIn(s.queues[r].owners, t) && !IsIn(s.queues[r].waiters, t)
  }

  function Do(s: Sys, e: Step): Sys
    requires Enabled(s, e)
  {
    match e
    case Begin(t) => s.(ready := s.ready[t := true])
    case Request(t, r, lt) =>
      var q := s.queues[r];
      Sys(s.queues[r := Acquired(q, t, lt)], if Decide(q, t, lt) == Waiting then s.ready[t := false] else s.ready)
    case Release(t, r) =>
      var q := s.queues[r];
      var p := Released(q, t);
      var woken := if |p.waiters| <= |q.waiters| then q.waiters[..|q.waiters| - |p.waiters|] else [];
      Sys(s.queues[r := p], Woken(s.ready, woken))
    case End(t) => s.(ready := s.ready - {t})
  }

  predicate WaitsIn(s: Sys, t: nat, r: Rec) {
    r in s.queues && IsIn(s.queues[r].waiters, t)
  }

  predicate OwnsIn(s: Sys, t: nat, r: Rec) {
    r in s.queues && IsIn(s.queues[r].owners, t)
  }

  /** Queues in order; owners and waiters are live; a transaction's flag is down exactly while it
      waits, and it waits for one record at most. */
  ghost predicate SysInv(s: Sys) {
    && (forall r {:trigger s.queues[r]} | r in s.queues :: Inv(s.queues[r]))
    && (forall t, r {:trigger OwnsIn(s, t, r)} | OwnsIn(s, t, r) :: t in s.ready)
    && (forall t, r {:trigger WaitsIn(s, t, r)} | WaitsIn(s, t, r) :: t in s.ready && !s.ready[t])
    && (forall t, r, q {:trigger WaitsIn(s, t, r), WaitsIn(s, t, q)} | WaitsIn(s, t, r) && WaitsIn(s, t, q) :: r == q)
    && (forall t {:trigger s.ready[t]} | t in s.ready && !s.ready[t] :: exists r :: WaitsIn(s, t, r))
  }

  lemma BufferedIn(ws: seq<LockEntry>, e: LockEntry, t: nat)
    ensures IsIn(Buffered(ws, e), t) <==> IsIn(ws, t) || t == e.timestamp
  {
    BufferedMembers(ws, e);
    BufferedFrom(ws, e);
    var bs := Buffered(ws, e);
    assert e in multiset(bs) && e in bs;
    forall i | 0 <= i < |ws| ensures ws[i] in bs { assert ws[i] in multiset(bs); }
    if i :| 0 <= i < |bs| && bs[i].timestamp == t { assert bs[i] == e || bs[i] in ws; }
  }

  lemma RequestKeeps(s: Sys, e: Step)
    requires SysInv(s) && Enabled(s, e) && e.Request?
    ensures SysInv(Do(s, e))
  {
    var r, q, t := Do(s, e), s.queues[e.rec], e.timestamp;
    AcquireKeeps(q, t, e.lt);
    forall u
      ensures IsIn(r.queues[e.rec].waiters, u) <==> IsIn(q.waiters, u) || (u == t && Decide(q, t, e.lt) == Waiting)
    {
      if Decide(q, t, e.lt) == Waiting { BufferedIn(q.waiters, LockEntry(t, e.lt), u); }
    }
    forall u ensures IsIn(r.queues[e.rec].owners, u) ==> IsIn(q.owners, u) || u == t {
      if Decide(q, t, e.lt) == Granted {
        var os := r.queues[e.rec].owners;
        if i :| 0 <= i < |os| && os[i].timestamp == u { if i > 0 { assert os[i] == q.owners[i - 1]; } }
      }
    }
    forall u, x | OwnsIn(r, u, x) ensures u in r.ready { assert OwnsIn(s, u, x) || u == t; }
    forall u, x | WaitsIn(r, u, x) ensures u in r.ready && !r.ready[u] { assert WaitsIn(s, u, x) || u == t; }
    forall u, x, y | WaitsIn(r, u, x) && WaitsIn(r, u, y) ensures x == y {
      assert (WaitsIn(s, u, x) || (u == t && x == e.rec)) && (WaitsIn(s, u, y) || (u == t && y == e.rec));
    }
    forall u | u in r.ready && !r.ready[u] ensures exists x :: WaitsIn(r, u, x) {
      if u != t {
        var x :| WaitsIn(s, u, x);
        assert WaitsIn(r, u, x);
      } else {
        assert WaitsIn(r, u, e.rec);
      }
    }
  }

  /** Who is where after a release. */
  lemma ReleasedIn(q: Queue, t: nat, u: nat)
    requires Inv(q) && IsIn(q.owners, t)
    ensures var p, n := Released(q, t), |q.waiters| - |Released(q, t).waiters|;
      && 0 <= n <= |q.waiters| && p.waiters == q.waiters[n..]
      && (IsIn(p.waiters, u) <==> IsIn(q.waiters, u) && !IsIn(q.waiters[..n], u))
      && (IsIn(p.owners, u) ==> IsIn(q.owners, u) || IsIn(q.waiters[..n], u))
  {
    WithoutOne(q.owners, t);
    var p := Released(q, t);
    if q.ownersCount == 1 {
      DebufferFree(Queue([], q.waiters, 0, NoLock));
      var n := GrantCount(q.waiters);
      ReversedMembers(q.waiters[..n]);
      if i :| 0 <= i < |p.owners| && p.owners[i].timestamp == u { assert q.waiters[..n][n - 1 - i].timestamp == u; }
      PartsIn(q.waiters, n, u);
    } else {
      assert q.waiters[..0] == [] && q.waiters[0..] == q.waiters;
      if i :| 0 <= i < |p.owners| && p.owners[i].timestamp == u { assert p.owners[i] in q.owners; }
    }
  }

  lemma PartsIn(ws: seq<LockEntry>, n: nat, u: nat)
    requires Descending(ws) && n <= |ws|
    ensures IsIn(ws[n..], u) <==> IsIn(ws, u) && !IsIn(ws[..n], u)
  {
    forall i | 0 <= i < |ws[n..]| ensures ws[n..][i] == ws[n + i] {}
    if i :| 0 <= i < |ws| && ws[i].timestamp == u {
      if i < n { assert ws[..n][i].timestamp == u; } else { assert ws[n..][i - n].timestamp == u; }
    }
  }

  lemma ReleaseStep(s: Sys, e: Step)
    requires SysInv(s) && Enabled(s, e) && e.Release?
    ensures SysInv(Do(s, e))
  {
    var r, q, t := Do(s, e), s.queues[e.rec], e.timestamp;
    var n := |q.waiters| - |Released(q, t).waiters|;
    ReleaseKeeps(q, t);
    forall u ensures
      && 0 <= n <= |q.waiters|
      && (WaitsIn(r, u, e.rec) <==> WaitsIn(s, u, e.rec) && !IsIn(q.waiters[..n], u))
      && (OwnsIn(r, u, e.rec) ==> OwnsIn(s, u, e.rec) || IsIn(q.waiters[..n], u))
      && (u in r.ready <==> u in s.ready || IsIn(q.waiters[..n], u))
      && (u in r.ready ==> (r.ready[u] <==> IsIn(q.waiters[..n], u) || s.ready[u]))
      && (IsIn(q.waiters[..n], u) ==> WaitsIn(s, u, e.rec))
    {
      ReleasedIn(q, t, u);
      WokenFlags(s.ready, q.waiters[..n], u);
      if i :| 0 <= i < n && q.waiters[..n][i].timestamp == u { assert q.waiters[i].timestamp == u; }
    }
    ReleaseFlags(s, r, e.rec, q.waiters[..n]);
  }

  lemma ReleaseFlags(s: Sys, r: Sys, rec: Rec, woken: seq<LockEntry>)
    requires SysInv(s) && rec in s.queues && rec in r.queues
    requires r.queues == s.queues[rec := r.queues[rec]] && Inv(r.queues[rec])
    requires forall u :: WaitsIn(r, u, rec) <==> WaitsIn(s, u, rec) && !IsIn(woken, u)
    requires forall u :: OwnsIn(r, u, rec) ==> OwnsIn(s, u, rec) || IsIn(woken, u)
    requires forall u :: u in r.ready <==> u in s.ready || IsIn(woken, u)
    requires forall u :: u in r.ready ==> (r.ready[u] <==> IsIn(woken, u) || s.ready[u])
    requires forall u :: IsIn(woken, u) ==> WaitsIn(s, u, rec)
    ensures SysInv(r)
  {
    forall u, x | OwnsIn(r, u, x) ensures u in r.ready { assert OwnsIn(s, u, x) || WaitsIn(s, u, rec); }
    forall u, x | WaitsIn(r, u, x) ensures WaitsIn(s, u, x) && u in r.ready && !r.ready[u] { assert WaitsIn(s, u, x); }
    forall u | u in r.ready && !r.ready[u] ensures exists x :: WaitsIn(r, u, x) {
      var x :| WaitsIn(s, u, x);
      assert WaitsIn(r, u, x);
    }
  }

  lemma StepKeeps(s: Sys, e: Step)
    requires SysInv(s) && Enabled(s, e)
    ensures SysInv(Do(s, e))
  {
    match e
    case Request(_, _, _) => RequestKeeps(s, e);
    case Release(_, _) => ReleaseStep(s, e);
    case _ =>
      var r, t := Do(s, e), e.timestamp;
      forall u, x | OwnsIn(r, u, x) ensures u in r.ready { assert OwnsIn(s, u, x); }
      forall u, x | WaitsIn(r, u, x)
        ensures WaitsIn(s, u, x) && u in r.ready && !r.ready[u]
      {
        assert WaitsIn(s, u, x);
      }
      forall u | u in r.ready && !r.ready[u] ensures exists x :: WaitsIn(r, u, x) {
        var x :| WaitsIn(s, u, x);
        assert WaitsIn(r, u, x);
      }
  }

  // ----- Who waits for whom -----

  /** a waits for b in record r's queue: b owns it, or is ahead of a in the line. */
  ghost predicate WaitsFor(s: Sys, r: Rec, a: nat, b: nat) {
    r in s.queues &&
    var q := s.queues[r];
    exists i :: 0 <= i < |q.waiters| && q.waiters[i].timestamp == a
      && (IsIn(q.owners, b) || IsIn(q.waiters[..i], b))
  }

  ghost predicate Edge(s: Sys, a: nat, b: nat) {
    exists r :: WaitsFor(s, r, a, b)
  }

  /** Every wait is for a larger timestamp, of a live transaction. */
  lemma EdgesGoUp(s: Sys, a: nat, b: nat)
    requires SysInv(s) && Edge(s, a, b)
    ensures a < b && b in s.ready
  {
    var r :| WaitsFor(s, r, a, b);
    var q := s.queues[r];
    assert Inv(q);
    var i :| 0 <= i < |q.waiters| && q.waiters[i].timestamp == a && (IsIn(q.owners, b) || IsIn(q.waiters[..i], b));
    if IsIn(q.owners, b) {
      assert OwnsIn(s, b, r);
    } else {
      var j :| 0 <= j < i && q.waiters[..i][j].timestamp == b;
      assert q.waiters[j].timestamp == b;
      assert WaitsIn(s, b, r);
    }
  }

  ghost predicate Path(s: Sys, p: seq<nat>) {
    |p| >= 2 && forall k | 0 <= k < |p| - 1 :: Edge(s, p[k], p[k + 1])
  }

  /** No waits-for path comes back to where it began. */
  lemma {:induction false} NoCycle(s: Sys, p: seq<nat>)
    requires SysInv(s) && Path(s, p)
    ensures p[0] < p[|p| - 1]
    decreases |p|
  {
    assert Edge(s, p[0], p[1]);
    EdgesGoUp(s, p[0], p[1]);
    if |p| > 2 {
      var t := p[1..];
      forall k | 0 <= k < |t| - 1 ensures Edge(s, t[k], t[k + 1]) { assert Edge(s, p[k + 1], p[k + 1 + 1]); }
      NoCycle(s, t);
    }
  }

  /** A blocked transaction waits for an owner: no wake-up is lost. */
  lemma BlockedHasOwner(s: Sys, a: nat) returns (b: nat)
    requires SysInv(s) && a in s.ready && !s.ready[a]
    ensures Edge(s, a, b) && b in s.ready && a < b && exists r :: WaitsIn(s, a, r) && OwnsIn(s, b, r)
  {
    var r :| WaitsIn(s, a, r);
    var q := s.queues[r];
    assert Inv(q) && q.waiters != [] && q.owners != [];
    b := q.owners[0].timestamp;
    assert OwnsIn(s, b, r) && WaitsFor(s, r, a, b);
    EdgesGoUp(s, a, b);
  }

  /** The live transaction with the largest timestamp is never blocked. */
  lemma LargestRuns(s: Sys, t: nat)
    requires SysInv(s) && t in s.ready && forall u | u in s.ready :: u <= t
    ensures s.ready[t]
  {
    if !s.ready[t] {
      var b := BlockedHasOwner(s, t);
      assert false;
    }
  }

  /** Whoever is blocked waits, through others perhaps, for a transaction that can run. */
  lemma {:induction false} SomeoneAheadRuns(s: Sys, a: nat, top: nat) returns (p: seq<nat>)
    requires SysInv(s) && a in s.ready && !s.ready[a] && forall u | u in s.ready :: u <= top
    ensures Path(s, p) && p[0] == a && p[|p| - 1] in s.ready && s.ready[p[|p| - 1]]
    decreases top - a
  {
    var b := BlockedHasOwner(s, a);
    if s.ready[b] {
      p := [a, b];
    } else {
      var t := SomeoneAheadRuns(s, b, top);
      p := [a] + t;
      forall k | 0 <= k < |p| - 1 ensures Edge(s, p[k], p[k + 1]) {
        if k > 0 { assert Edge(s, t[k - 1], t[k - 1 + 1]); }
      }
    }
  }

  // ----- Runs -----

  ghost predicate Run(ss: seq<Sys>, es: seq<Step>) {
    && |ss| == |es| + 1 && ss[0].ready == map[]
    && (forall r | r in ss[0].queues :: ss[0].queues[r] == Queue([], [], 0, NoLock))
    && forall k | 0 <= k < |es| :: Enabled(ss[k], es[k]) && ss[k + 1] == Do(ss[k], es[k])
  }

  /** In every reachable state the queues are in order and the flags right, so the waits-for
      relation has no cycle and whoever has the largest timestamp can run. */
  lemma {:induction false} RunsKeep(ss: seq<Sys>, es: seq<Step>, k: nat)
    requires Run(ss, es) && k <= |es|
    ensures SysInv(ss[k])
  {
    if k == 0 {
      forall t, r ensures !WaitsIn(ss[0], t, r) && !OwnsIn(ss[0], t, r) {
        if r in ss[0].queues { assert ss[0].queues[r] == Queue([], [], 0, NoLock); }
      }
    } else {
      RunsKeep(ss, es, k - 1);
      StepKeeps(ss[k - 1], es[k - 1]);
    }
  }

  lemma NoDeadlock(ss: seq<Sys>, es: seq<Step>, k: nat, t: nat)
    requires Run(ss, es) && k <= |es| && t in ss[k].ready && forall u | u in ss[k].ready :: u <= t
    ensures ss[k].ready[t]
    ensures forall p | Path(ss[k], p) :: p[0] != p[|p| - 1]
  {
    RunsKeep(ss, es, k);
    LargestRuns(ss[k], t);
    forall p | Path(ss[k], p) ensures p[0] != p[|p| - 1] { NoCycle(ss[k], p); }
  }

  /** A request in a run: it dies exactly if a live owner with a smaller timestamp excludes it. */
  lemma RequestOutcome(ss: seq<Sys>, es: seq<Step>, k: nat)
    requires Run(ss, es) && k < |es| && es[k].Request?
    ensures var (t, r) := (es[k].timestamp, es[k].rec);
      OwnsIn(ss[k + 1], t, r) || WaitsIn(ss[k + 1], t, r) <==> !SmallerExcludes(ss[k].queues[r].owners, t, es[k].lt)
    ensures forall i | 0 <= i < |ss[k].queues[es[k].rec].owners| ::
      ss[k].queues[es[k].rec].owners[i].timestamp in ss[k].ready
  {
    RunsKeep(ss, es, k);
    var r := es[k].rec;
    AcquireOutcome(ss[k].queues[r], es[k].timestamp, es[k].lt);
    forall i | 0 <= i < |ss[k].queues[r].owners| ensures ss[k].queues[r].owners[i].timestamp in ss[k].ready {
      assert OwnsIn(ss[k], ss[k].queues[r].owners[i].timestamp, r);
    }
  }

  /** In no run does the live transaction with the smallest timestamp die. */
  lemma SmallestNeverDies(ss: seq<Sys>, es: seq<Step>, k: nat)
    requires Run(ss, es) && k < |es| && es[k].Request?
    requires forall u | u in ss[k].ready :: es[k].timestamp <= u
    ensures OwnsIn(ss[k + 1], es[k].timestamp, es[k].rec) || WaitsIn(ss[k + 1], es[k].timestamp, es[k].rec)
  {
    RequestOutcome(ss, es, k);
  }
}
