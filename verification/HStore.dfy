// H-Store execution: each transaction locks all its partitions in ascending order, runs, unlocks.
module HStore {

  /** A transaction's partitions as LockPartitions goes through them: a std::set, ascending. */
  predicate Ascending(ps: seq<nat>) {
    forall i, j | 0 <= i < j < |ps| :: ps[i] < ps[j]
  }

  /** Locking(k): the first k partitions are locked. Unlocking(k): the first k are unlocked again. */
  datatype Phase = Idle | Locking(k: nat) | Executing | Unlocking(k: nat)

  /** The transactions a thread still has to do, the current one first. */
  datatype Thread = Thread(todo: seq<seq<nat>>, phase: Phase)

  /** owner holds the locked partitions' threads. */
  datatype State = State(owner: map<nat, nat>, threads: seq<Thread>)

  datatype Kind = Begin | Lock | Run | Done | Unlock | Next

  predicate Unfinished(th: Thread) {
    th.todo != [] || !th.phase.Idle?
  }

  predicate ThreadOK(th: Thread) {
    && (forall i | 0 <= i < |th.todo| :: Ascending(th.todo[i]))
    && (!th.phase.Idle? ==> th.todo != [])
    && (th.phase.Locking? || th.phase.Unlocking? ==> th.phase.k <= |th.todo[0]|)
  }

  /** The partitions thread th holds. */
  function Held(th: Thread): (ps: seq<nat>)
    requires ThreadOK(th)
  {
    match th.phase
    case Idle => []
    case Locking(k) => th.todo[0][..k]
    case Executing => th.todo[0]
    case Unlocking(k) => th.todo[0][k..]
  }

  /** A spinlock is taken only when free; all other steps never wait. */
  predicate Enabled(s: State, t: nat, e: Kind) {
    t < |s.threads| && ThreadOK(s.threads[t]) &&
    var th := s.threads[t];
    match e
    case Begin => th.phase.Idle? && th.todo != []
    case Lock => th.phase.Locking? && th.phase.k < |th.todo[0]| && th.todo[0][th.phase.k] !in s.owner
    case Run => th.phase.Locking? && th.phase.k == |th.todo[0]|
    case Done => th.phase.Executing?
    case Unlock => th.phase.Unlocking? && th.phase.k < |th.todo[0]|
    case Next => th.phase.Unlocking? && th.phase.k == |th.todo[0]|
  }

  function Do(s: State, t: nat, e: Kind): State
    requires Enabled(s, t, e)
  {
    var th := s.threads[t];
    match e
    case Begin => s.(threads := s.threads[t := th.(phase := Locking(0))])
    case Lock => State(s.owner[th.todo[0][th.phase.k] := t], s.threads[t := th.(phase := Locking(th.phase.k + 1))])
    case Run => s.(threads := s.threads[t := th.(phase := Executing)])
    case Done => s.(threads := s.threads[t := th.(phase := Unlocking(0))])
    case Unlock => State(s.owner - {th.todo[0][th.phase.k]}, s.threads[t := th.(phase := Unlocking(th.phase.k + 1))])
    case Next => s.(threads := s.threads[t := Thread(th.todo[1..], Idle)])
  }

  /** The owners are right: owner maps each held partition to the one thread that holds it. */
  predicate Own(owner: map<nat, nat>, held: seq<set<nat>>) {
    && (forall t, p | 0 <= t < |held| && p in held[t] :: p in owner && owner[p] == t)
    && (forall p | p in owner :: owner[p] < |held| && p in held[owner[p]])
  }

  function HeldSet(th: Thread): set<nat>
    requires ThreadOK(th)
  {
    set p | p in Held(th)
  }

  function AllHeld(threads: seq<Thread>): seq<set<nat>>
    requires forall t | 0 <= t < |threads| :: ThreadOK(threads[t])
  {
    seq(|threads|, t requires 0 <= t < |threads| => HeldSet(threads[t]))
  }

  predicate Inv(s: State) {
    (forall t {:trigger s.threads[t]} | 0 <= t < |s.threads| :: ThreadOK(s.threads[t]))
      && Own(s.owner, AllHeld(s.threads))
  }

  /** What Inv says of a thread: it owns exactly the partitions it holds. */
  lemma HeldOwned(s: State, t: nat, p: nat)
    requires Inv(s) && t < |s.threads|
    ensures p in Held(s.threads[t]) <==> p in s.owner && s.owner[p] == t
  {
    assert AllHeld(s.threads)[t] == HeldSet(s.threads[t]);
  }

  lemma ThreadChanged(threads: seq<Thread>, t: nat, th: Thread)
    requires t < |threads| && (forall u | 0 <= u < |threads| :: ThreadOK(threads[u])) && ThreadOK(th)
    ensures AllHeld(threads[t := th]) == AllHeld(threads)[t := HeldSet(th)]
  {}

  lemma HeadOnce(ps: seq<nat>, k: nat)
    requires Ascending(ps) && k < |ps|
    ensures ps[k] !in ps[k + 1..]
  {
    var rest := ps[k + 1..];
    assert forall i | 0 <= i < |rest| :: rest[i] == ps[k + 1 + i];
  }

  lemma LockKeeps(s: State, t: nat)
    requires Inv(s) && Enabled(s, t, Lock)
    ensures Inv(Do(s, t, Lock))
  {
    var r, th := Do(s, t, Lock), s.threads[t];
    var ps, k := th.todo[0], th.phase.k;
    assert ThreadOK(r.threads[t]) && ps[..k + 1] == ps[..k] + [ps[k]];
    assert HeldSet(r.threads[t]) == HeldSet(th) + {ps[k]};
    ThreadChanged(s.threads, t, r.threads[t]);
    OwnMore(s.owner, AllHeld(s.threads), t, ps[k]);
  }

  lemma OwnMore(owner: map<nat, nat>, held: seq<set<nat>>, t: nat, p: nat)
    requires Own(owner, held) && t < |held| && p !in owner
    ensures Own(owner[p := t], held[t := held[t] + {p}])
  {
    var now, more := owner[p := t], held[t := held[t] + {p}];
    forall u, q | 0 <= u < |more| && q in more[u] ensures q in now && now[q] == u {
      if q != p {
        assert q in held[u];
      } else if u != t {
        assert q in held[u] && q in owner;
      }
    }
    forall q | q in now ensures now[q] < |more| && q in more[now[q]] {
      if q != p { assert q in owner && q in held[owner[q]]; }
    }
  }

  lemma UnlockKeeps(s: State, t: nat)
    requires Inv(s) && Enabled(s, t, Unlock)
    ensures Inv(Do(s, t, Unlock))
  {
    var r, th := Do(s, t, Unlock), s.threads[t];
    var ps, k := th.todo[0], th.phase.k;
    assert ThreadOK(r.threads[t]) && ps[k..] == [ps[k]] + ps[k + 1..];
    HeadOnce(ps, k);
    assert HeldSet(th) == HeldSet(r.threads[t]) + {ps[k]} && ps[k] !in HeldSet(r.threads[t]);
    ThreadChanged(s.threads, t, r.threads[t]);
    OwnLess(s.owner, AllHeld(s.threads), t, ps[k]);
    assert HeldSet(th) - {ps[k]} == HeldSet(r.threads[t]);
  }

  lemma OwnLess(owner: map<nat, nat>, held: seq<set<nat>>, t: nat, p: nat)
    requires Own(owner, held) && t < |held| && p in held[t]
    ensures Own(owner - {p}, held[t := held[t] - {p}])
  {
    var now, left := owner - {p}, held[t := held[t] - {p}];
    forall u, q | 0 <= u < |left| && q in left[u] ensures q in now && now[q] == u {
      assert q in held[u] && owner[q] == u;
      assert p in owner && owner[p] == t;
      assert u == t ==> q != p;
    }
    forall q | q in now ensures now[q] < |left| && q in left[now[q]] {
      assert q in owner && q in held[owner[q]];
    }
  }

  lemma QuietKeeps(s: State, t: nat, e: Kind)
    requires Inv(s) && Enabled(s, t, e) && !e.Lock? && !e.Unlock?
    ensures Inv(Do(s, t, e))
  {
    var r, th := Do(s, t, e), s.threads[t];
    assert ThreadOK(r.threads[t]);
    assert Held(r.threads[t]) == Held(th);
    ThreadChanged(s.threads, t, r.threads[t]);
    assert AllHeld(s.threads)[t := HeldSet(th)] == AllHeld(s.threads);
  }

  lemma StepKeeps(s: State, t: nat, e: Kind)
    requires Inv(s) && Enabled(s, t, e)
    ensures Inv(Do(s, t, e))
  {
    match e
    case Lock => LockKeeps(s, t);
    case Unlock => UnlockKeeps(s, t);
    case _ => QuietKeeps(s, t, e);
  }

  /** Two transactions that run at the same time share no partition. */
  lemma Exclusive(s: State, t: nat, u: nat, p: nat)
    requires Inv(s) && t < |s.threads| && u < |s.threads|
    requires s.threads[t].phase.Executing? && s.threads[u].phase.Executing?
    requires p in s.threads[t].todo[0] && p in s.threads[u].todo[0]
    ensures t == u
  {
    HeldOwned(s, t, p);
    HeldOwned(s, u, p);
  }

  /** Whoever waits for a partition waits for a thread that can step, or that waits for a higher one. */
  lemma {:induction false} SomeoneSteps(s: State, t: nat, bound: nat) returns (u: nat, e: Kind)
    requires Inv(s) && t < |s.threads| && Unfinished(s.threads[t])
    requires forall p | p in s.owner :: p < bound
    ensures Enabled(s, u, e)
    decreases bound - Waited(s, t)
  {
    var th := s.threads[t];
    match th.phase
    case Idle => u, e := t, Begin;
    case Executing => u, e := t, Done;
    case Unlocking(k) => u, e := t, if k < |th.todo[0]| then Unlock else Next;
    case Locking(k) =>
      if k == |th.todo[0]| {
        u, e := t, Run;
      } else if th.todo[0][k] !in s.owner {
        u, e := t, Lock;
      } else {
        var o := s.owner[th.todo[0][k]];
        assert o < |AllHeld(s.threads)|;
        HeldOwned(s, o, th.todo[0][k]);
        WaitsHigher(s, t, o);
        u, e := SomeoneSteps(s, o, bound);
      }
  }

  /** One above the partition a thread waits for while it is locking; 0 otherwise. */
  function Waited(s: State, t: nat): nat
    requires Inv(s) && t < |s.threads|
  {
    var th := s.threads[t];
    match th.phase
    case Locking(k) => if k < |th.todo[0]| then th.todo[0][k] + 1 else AboveAll(th.todo[0])
    case Executing => AboveAll(th.todo[0])
    case Unlocking(k) => AboveAll(th.todo[0])
    case Idle => 0
  }

  function AboveAll(ps: seq<nat>): nat {
    if ps == [] then 0 else ps[|ps| - 1] + 2
  }

  lemma WaitsHigher(s: State, t: nat, o: nat)
    requires Inv(s) && t < |s.threads| && o < |s.threads|
    requires var th := s.threads[t];
      th.phase.Locking? && th.phase.k < |th.todo[0]| && th.todo[0][th.phase.k] in Held(s.threads[o])
    ensures Unfinished(s.threads[o]) && Waited(s, o) > Waited(s, t)
  {
    HolderHigher(s, o, s.threads[t].todo[0][s.threads[t].phase.k]);
  }

  /** A thread that holds p and waits, waits for a higher partition. */
  lemma HolderHigher(s: State, o: nat, p: nat)
    requires Inv(s) && o < |s.threads| && p in Held(s.threads[o])
    ensures Unfinished(s.threads[o]) && Waited(s, o) > p + 1
  {
    var oh := s.threads[o];
    var ps := oh.todo[0];
    HeldPart(oh, p);
    var i :| 0 <= i < |ps| && ps[i] == p && (oh.phase.Locking? ==> i < oh.phase.k);
    assert Ascending(ps);
  }

  lemma HeldPart(th: Thread, p: nat)
    requires ThreadOK(th) && p in Held(th)
    ensures th.todo != []
    ensures exists i :: 0 <= i < |th.todo[0]| && th.todo[0][i] == p && (th.phase.Locking? ==> i < th.phase.k)
  {
    var ps := th.todo[0];
    match th.phase
    case Unlocking(k) =>
      var i :| 0 <= i < |ps[k..]| && ps[k..][i] == p;
      assert ps[k + i] == p;
    case Locking(k) =>
      var i :| 0 <= i < |ps[..k]| && ps[..k][i] == p;
      assert ps[i] == p;
    case _ =>
  }

  // ----- Runs -----

  predicate IsRun(ss: seq<State>, ts: seq<nat>, es: seq<Kind>) {
    && |ss| == |ts| + 1 == |es| + 1 && ss[0].owner == map[]
    && (forall t | 0 <= t < |ss[0].threads| :: ss[0].threads[t].phase == Idle && ThreadOK(ss[0].threads[t]))
    && (forall k | 0 <= k < |ts| :: Enabled(ss[k], ts[k], es[k]) && ss[k + 1] == Do(ss[k], ts[k], es[k]))
  }

  lemma {:induction false} RunKeeps(ss: seq<State>, ts: seq<nat>, es: seq<Kind>, k: nat)
    requires IsRun(ss, ts, es) && k <= |ts|
    ensures Inv(ss[k])
  {
    if k > 0 {
      RunKeeps(ss, ts, es, k - 1);
      StepKeeps(ss[k - 1], ts[k - 1], es[k - 1]);
    }
  }

  lemma {:induction false} SomeBound(ps: set<nat>) returns (b: nat)
    ensures forall p | p in ps :: p < b
    decreases |ps|
  {
    if ps == {} {
      b := 0;
    } else {
      var p :| p in ps;
      b := SomeBound(ps - {p});
      assert forall q | q in ps :: q == p || q in ps - {p};
      b := if p < b then b else p + 1;
    }
  }

  /** No reachable state is a deadlock: while any thread is unfinished some thread can step. */
  lemma NoDeadlock(ss: seq<State>, ts: seq<nat>, es: seq<Kind>, k: nat, t: nat) returns (u: nat, e: Kind)
    requires IsRun(ss, ts, es) && k <= |ts| && t < |ss[k].threads| && Unfinished(ss[k].threads[t])
    ensures Enabled(ss[k], u, e)
  {
    RunKeeps(ss, ts, es, k);
    var b := SomeBound(ss[k].owner.Keys);
    u, e := SomeoneSteps(ss[k], t, b);
  }

  /** In no reachable state do two transactions with a common partition run at the same time. */
  lemma NoOverlap(ss: seq<State>, ts: seq<nat>, es: seq<Kind>, k: nat, t: nat, u: nat, p: nat)
    requires IsRun(ss, ts, es) && k <= |ts| && t < |ss[k].threads| && u < |ss[k].threads|
    requires ss[k].threads[t].phase.Executing? && ss[k].threads[u].phase.Executing?
    requires ss[k].threads[t].todo != [] && ss[k].threads[u].todo != []
    requires p in ss[k].threads[t].todo[0] && p in ss[k].threads[u].todo[0]
    ensures t == u
  {
    RunKeeps(ss, ts, es, k);
    Exclusive(ss[k], t, u, p);
  }

  // ----- Every run ends -----

  function TodoWork(todo: seq<seq<nat>>): nat {
    if todo == [] then 0 else 2 * |todo[0]| + 4 + TodoWork(todo[1..])
  }

  /** The steps a thread has left. */
  function Work(th: Thread): nat
    requires ThreadOK(th)
  {
    match th.phase
    case Idle => TodoWork(th.todo)
    case Locking(k) => 2 * |th.todo[0]| + 3 - k + TodoWork(th.todo[1..])
    case Executing => |th.todo[0]| + 2 + TodoWork(th.todo[1..])
    case Unlocking(k) => |th.todo[0]| + 1 - k + TodoWork(th.todo[1..])
  }

  function TotalWork(threads: seq<Thread>): nat
    requires forall t | 0 <= t < |threads| :: ThreadOK(threads[t])
  {
    if threads == [] then 0 else TotalWork(threads[..|threads| - 1]) + Work(threads[|threads| - 1])
  }

  lemma {:induction false} TotalStep(threads: seq<Thread>, t: nat, th: Thread)
    requires t < |threads| && (forall u | 0 <= u < |threads| :: ThreadOK(threads[u]))
    requires ThreadOK(th) && Work(th) + 1 == Work(threads[t])
    ensures TotalWork(threads[t := th]) + 1 == TotalWork(threads)
    decreases |threads|
  {
    var n := |threads| - 1;
    if t == n {
      assert threads[t := th][..n] == threads[..n];
    } else {
      assert threads[t := th][..n] == threads[..n][t := th];
      TotalStep(threads[..n], t, th);
    }
  }

  /** Every step uses up one unit of work. */
  lemma StepWorks(s: State, t: nat, e: Kind)
    requires Inv(s) && Enabled(s, t, e)
    ensures Inv(Do(s, t, e)) && TotalWork(Do(s, t, e).threads) + 1 == TotalWork(s.threads)
  {
    StepKeeps(s, t, e);
    var r, th := Do(s, t, e), s.threads[t];
    assert r.threads == s.threads[t := r.threads[t]];
    assert ThreadOK(r.threads[t]);
    TotalStep(s.threads, t, r.threads[t]);
  }

  /** A run can have no more steps than there is work. */
  lemma {:induction false} RunWorks(ss: seq<State>, ts: seq<nat>, es: seq<Kind>, k: nat)
    requires IsRun(ss, ts, es) && k <= |ts|
    ensures Inv(ss[0]) && Inv(ss[k]) && k + TotalWork(ss[k].threads) == TotalWork(ss[0].threads)
  {
    RunKeeps(ss, ts, es, 0);
    if k > 0 {
      RunWorks(ss, ts, es, k - 1);
      var s, r := ss[k - 1], ss[k];
      assert r == Do(s, ts[k - 1], es[k - 1]);
      StepWorks(s, ts[k - 1], es[k - 1]);
    }
  }

  /** And where it can go no further every thread has finished all its transactions. */
  lemma RunEnds(ss: seq<State>, ts: seq<nat>, es: seq<Kind>, k: nat)
    requires IsRun(ss, ts, es) && k <= |ts| && forall u, e :: !Enabled(ss[k], u, e)
    ensures forall t | 0 <= t < |ss[k].threads| :: !Unfinished(ss[k].threads[t])
  {
    forall t | 0 <= t < |ss[k].threads| ensures !Unfinished(ss[k].threads[t]) {
      if Unfinished(ss[k].threads[t]) {
        var u, e := NoDeadlock(ss, ts, es, k, t);
      }
    }
  }

  // ----- The spinlocks in place -----

  class HStoreContent {
    var spinlocks: map<nat, nat> // locked partitions, with the thread that locked each

    /** One pass over the set; each lock must be free by the time it is taken. */
    method LockPartitions(partIds: seq<nat>, thread: nat)
      requires Ascending(partIds) && forall p | p in partIds :: p !in spinlocks
      modifies this
      ensures spinlocks.Keys == old(spinlocks).Keys + (set p | p in partIds)
      ensures forall p | p in spinlocks :: spinlocks[p] == if p in partIds then thread else old(spinlocks)[p]
    {
      var i := 0;
      while i < |partIds|
        invariant 0 <= i <= |partIds|
        invariant forall p :: p in spinlocks <==> p in old(spinlocks) || p in partIds[..i]
        invariant forall p | p in spinlocks :: spinlocks[p] == if p in partIds[..i] then thread else old(spinlocks)[p]
      {
        assert partIds[..i + 1] == partIds[..i] + [partIds[i]];
        spinlocks := spinlocks[partIds[i] := thread];
        i := i + 1;
      }
      assert partIds[..i] == partIds;
    }

    method UnlockPartitions(partIds: seq<nat>)
      requires Ascending(partIds) && forall p | p in partIds :: p in spinlocks
      modifies this
      ensures spinlocks == old(spinlocks) - (set p | p in partIds)
    {
      var i := 0;
      while i < |partIds|
        invariant 0 <= i <= |partIds| && spinlocks == old(spinlocks) - (set p | p in partIds[..i])
      {
        assert partIds[..i + 1] == partIds[..i] + [partIds[i]];
        spinlocks := spinlocks - {partIds[i]};
        i := i + 1;
      }
      assert partIds[..i] == partIds;
    }
  }
}
