// Which partitions a transaction locks: those its shard procedure selects from.
module HStorePartitions {
  import opened HStore
  import opened ShardProcedures

  /** SmallbankHStoreExecutor::GetPartitionIds: exactly the partitions of the procedure's selects. */
  method SmallbankPartitionIds(t: SmallbankTuple, n: nat) returns (partIds: set<nat>)
    requires n > 0
    ensures partIds == PartsOf(SmallbankSelects(t, n)) && forall p | p in partIds :: p < n
  {
    partIds := {};
    match t {
      case Amalgamate(a, b) =>
        partIds := partIds + {((a - 1) % U64) % n};
        partIds := partIds + {((b - 1) % U64) % n};
      case SendPayment(a, b) =>
        partIds := partIds + {((a - 1) % U64) % n};
        partIds := partIds + {((b - 1) % U64) % n};
      case DepositChecking(c) => partIds := partIds + {((c - 1) % U64) % n};
      case TransactSavings(c) => partIds := partIds + {((c - 1) % U64) % n};
      case WriteCheck(c) => partIds := partIds + {((c - 1) % U64) % n};
      case Balance(c) => partIds := partIds + {((c - 1) % U64) % n};
    }
    SmallbankParts(t, n);
  }

  /** Where the Smallbank selects go: to the customers' partitions. */
  lemma SmallbankParts(t: SmallbankTuple, n: nat)
    requires n > 0
    ensures PartsOf(SmallbankSelects(t, n)) ==
      if t.Amalgamate? || t.SendPayment? then {PartOf(t.custid0, n), PartOf(t.custid1, n)} else {PartOf(t.custid, n)}
  {
    var ss := SmallbankSelects(t, n);
    assert ss[0].part in PartsOf(ss) && ss[1].part in PartsOf(ss);
  }

  /** TpccHStoreExecutor::GetPartitionIds: exactly the partitions of the procedure's selects, whatever
      it reads. */
  method TpccPartitionIds(t: TpccTuple, n: nat) returns (partIds: set<nat>)
    requires 0 < n <= U32 / 2
    ensures forall x :: partIds == PartsOf(TpccSelects(t, n, x))
    ensures forall p | p in partIds :: p < n
  {
    partIds := {((t.wId - 1) % U64) % n};
    IntPartSame(t.wId, n);
    if t.NewOrder? {
      var lines := t.lines;
      var i := 0;
      while i < |lines|
        invariant 0 <= i <= |lines|
        invariant partIds == {PartOf(t.wId, n)} + set k | 0 <= k < i :: PartOf(lines[k].supplier, n)
      {
        partIds := partIds + {((lines[i].supplier - 1) % U64) % n};
        i := i + 1;
      }
      forall x ensures partIds == PartsOf(TpccSelects(t, n, x)) { NewOrderParts(t, n, x); }
    } else {
      forall x ensures partIds == PartsOf(TpccSelects(t, n, x)) { HomeOnly(t, n, x); }
    }
  }

  /** A set of partitions below n as the std::set goes through it. */
  function InOrder(ids: set<nat>, k: nat, n: nat): seq<nat>
    decreases n - k
  {
    if k >= n then [] else (if k in ids then [k] else []) + InOrder(ids, k + 1, n)
  }

  lemma InEither(x: seq<nat>, y: seq<nat>, p: nat)
    ensures p in x + y <==> p in x || p in y
  {}

  lemma {:induction false} InOrderMember(ids: set<nat>, k: nat, n: nat, p: nat)
    ensures p in InOrder(ids, k, n) <==> p in ids && k <= p < n
    decreases n - k
  {
    if k < n {
      InOrderMember(ids, k + 1, n, p);
      InEither(if k in ids then [k] else [], InOrder(ids, k + 1, n), p);
    }
  }

  lemma {:induction false} InOrderAscends(ids: set<nat>, k: nat, n: nat)
    ensures Ascending(InOrder(ids, k, n))
    decreases n - k
  {
    if k < n {
      InOrderAscends(ids, k + 1, n);
      var rest, all := InOrder(ids, k + 1, n), InOrder(ids, k, n);
      if k in ids {
        forall i, j | 0 <= i < j < |all| ensures all[i] < all[j] {
          assert all[j] == rest[j - 1] && rest[j - 1] in rest;
          InOrderMember(ids, k + 1, n, rest[j - 1]);
          if i > 0 { assert all[i] == rest[i - 1]; }
        }
      } else {
        assert all == rest;
      }
    }
  }

  // ----- What a thread owns while it executes -----

  /** A thread's transactions, as the partition sets it locks one after the other. */
  function Todo(ids: seq<set<nat>>, n: nat): (todo: seq<seq<nat>>)
    ensures |todo| == |ids|
  {
    seq(|ids|, i requires 0 <= i < |ids| => InOrder(ids[i], 0, n))
  }

  /** What a thread still has to do is the rest of what it had. */
  lemma {:induction false} TodoRest(ss: seq<State>, ts: seq<nat>, es: seq<Kind>, k: nat, t: nat)
    requires IsRun(ss, ts, es) && k <= |ts| && t < |ss[0].threads|
    ensures |ss[k].threads| == |ss[0].threads|
    ensures var all, rest := ss[0].threads[t].todo, ss[k].threads[t].todo;
      |rest| <= |all| && rest == all[|all| - |rest|..]
  {
    if k > 0 {
      TodoRest(ss, ts, es, k - 1, t);
      var s, r := ss[k - 1], ss[k];
      assert r == Do(s, ts[k - 1], es[k - 1]);
      assert r.threads[t].todo == s.threads[t].todo
        || (s.threads[t].todo != [] && r.threads[t].todo == s.threads[t].todo[1..]);
    }
  }

  /** In every reachable state an executing thread owns every partition of the current set. */
  lemma RunOwns(ss: seq<State>, ts: seq<nat>, es: seq<Kind>, k: nat, t: nat, ids: seq<set<nat>>, n: nat, j: nat, p: nat)
    requires IsRun(ss, ts, es) && k <= |ts| && t < |ss[0].threads| && ss[0].threads[t].todo == Todo(ids, n)
    requires t < |ss[k].threads| && ss[k].threads[t].phase.Executing? && |ss[k].threads[t].todo| + j == |ids|
    requires j < |ids| && p in ids[j] && p < n
    ensures p in ss[k].owner && ss[k].owner[p] == t
  {
    RunKeeps(ss, ts, es, k);
    TodoRest(ss, ts, es, k, t);
    var th := ss[k].threads[t];
    assert th.todo[0] == InOrder(ids[j], 0, n);
    InOrderMember(ids[j], 0, n, p);
    HeldOwned(ss[k], t, p);
  }

  function SmallbankIds(tuples: seq<SmallbankTuple>, n: nat): (ids: seq<set<nat>>)
    requires n > 0
    ensures |ids| == |tuples|
  {
    seq(|tuples|, i requires 0 <= i < |tuples| => PartsOf(SmallbankSelects(tuples[i], n)))
  }

  /** While a thread executes its j-th Smallbank tuple it owns the partition of every select of that
      tuple's procedure. */
  lemma SmallbankOwns(ss: seq<State>, ts: seq<nat>, es: seq<Kind>, k: nat, t: nat,
      tuples: seq<SmallbankTuple>, n: nat, j: nat, i: nat)
    requires IsRun(ss, ts, es) && k <= |ts| && n > 0 && t < |ss[0].threads|
    requires ss[0].threads[t].todo == Todo(SmallbankIds(tuples, n), n)
    requires t < |ss[k].threads| && ss[k].threads[t].phase.Executing?
    requires |ss[k].threads[t].todo| + j == |tuples| && j < |tuples|
    requires i < |SmallbankSelects(tuples[j], n)|
    ensures var p := SmallbankSelects(tuples[j], n)[i].part; p in ss[k].owner && ss[k].owner[p] == t
  {
    var p := SmallbankSelects(tuples[j], n)[i].part;
    assert p in PartsOf(SmallbankSelects(tuples[j], n));
    SmallbankParts(tuples[j], n);
    RunOwns(ss, ts, es, k, t, SmallbankIds(tuples, n), n, j, p);
  }

  /** The ids the executor locks for TPC-C tuples: those of the selects, for any answers. */
  ghost predicate TpccIds(ids: seq<set<nat>>, tuples: seq<TpccTuple>, n: nat)
    requires n > 0
  {
    |ids| == |tuples| && forall i, x | 0 <= i < |tuples| :: ids[i] == PartsOf(TpccSelects(tuples[i], n, x))
  }

  /** While a thread executes its j-th TPC-C tuple it owns the partition of every select of that
      tuple's procedure, whatever the procedure reads. */
  lemma TpccOwns(ss: seq<State>, ts: seq<nat>, es: seq<Kind>, k: nat, t: nat, ids: seq<set<nat>>,
      tuples: seq<TpccTuple>, n: nat, j: nat, x: Answers, i: nat)
    requires IsRun(ss, ts, es) && k <= |ts| && 0 < n <= U32 / 2 && t < |ss[0].threads|
    requires ss[0].threads[t].todo == Todo(ids, n) && TpccIds(ids, tuples, n)
    requires t < |ss[k].threads| && ss[k].threads[t].phase.Executing?
    requires |ss[k].threads[t].todo| + j == |tuples| && j < |tuples|
    requires i < |TpccSelects(tuples[j], n, x)|
    ensures var p := TpccSelects(tuples[j], n, x)[i].part; p in ss[k].owner && ss[k].owner[p] == t
  {
    var tuple := tuples[j];
    var p := TpccSelects(tuple, n, x)[i].part;
    assert p in ids[j];
    if tuple.NewOrder? { NewOrderParts(tuple, n, x); } else { HomeOnly(tuple, n, x); }
    IntPartSame(tuple.wId, n);
    RunOwns(ss, ts, es, k, t, ids, n, j, p);
  }
}
