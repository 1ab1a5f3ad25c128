// From execution to recovery: transactions commit with scalable timestamps and are logged by
// value, thread by thread; replaying the logs in any interleaving gives back the store.
module Recovery {
  import opened LogFormat
  import V = ValueLog
  import R = Replay
  import T = Timestamps

  /** The primary key of a logged record, from its table and bytes. */
  type KeyOf = (nat, seq<Byte>) -> R.Key

  /** What the threads have done so far. all is in commit order. */
  datatype Exec = Exec(store: R.Store, clocks: seq<T.Clock>, commits: seq<seq<V.Commit>>, all: seq<R.Update>)

  /** A transaction of a thread: the keys it read, and its accesses as logged. */
  datatype Step = Step(thread: nat, epoch: nat, readKeys: seq<R.Key>, accesses: seq<V.Access>)

  function WriteOf(key: KeyOf, ts: nat, a: V.Access): seq<R.Update> {
    if a.ReadWrite? then [R.Update(ts, key(a.table, a.data), a.data)] else []
  }

  function Writes(key: KeyOf, ts: nat, accesses: seq<V.Access>, n: nat): seq<R.Update>
    requires n <= |accesses|
  {
    if n == 0 then [] else Writes(key, ts, accesses, n - 1) + WriteOf(key, ts, accesses[n - 1])
  }

  predicate KeysIn(s: R.Store, ks: seq<R.Key>) {
    forall i | 0 <= i < |ks| :: ks[i] in s
  }

  function MaxTs(s: R.Store, ks: seq<R.Key>): nat
    requires KeysIn(s, ks)
  {
    if ks == [] then 0 else
      var m, t := MaxTs(s, ks[..|ks| - 1]), s[ks[|ks| - 1]].timestamp;
      if m < t then t else m
  }

  function WriteKeys(key: KeyOf, accesses: seq<V.Access>, n: nat): seq<R.Key>
    requires n <= |accesses|
  {
    if n == 0 then [] else
      WriteKeys(key, accesses, n - 1)
        + match accesses[n - 1]
          case ReadWrite(table, data) => [key(table, data)]
          case _ => []
  }

  predicate NoRepeat(ks: seq<R.Key>) {
    forall i, j | 0 <= i < j < |ks| :: ks[i] != ks[j]
  }

  /** Inserts, and reads and updates of records in the table, each written at most once; the timestamp
      generator may be called and its counter fits. */
  predicate Enabled(key: KeyOf, x: Exec, s: Step) {
    && s.thread < |x.clocks| == |x.commits|
    && KeysIn(x.store, s.readKeys) && KeysIn(x.store, WriteKeys(key, s.accesses, |s.accesses|))
    && NoRepeat(WriteKeys(key, s.accesses, |s.accesses|))
    && var maxRw := MaxRw(key, x, s);
    && T.Called(x.clocks[s.thread], s.thread, |x.clocks|, s.epoch, maxRw)
    && T.Fits(x.clocks[s.thread], s.thread, |x.clocks|, s.epoch, maxRw)
  }

  /** The largest timestamp of a record the transaction reads or overwrites. */
  function MaxRw(key: KeyOf, x: Exec, s: Step): nat
    requires KeysIn(x.store, s.readKeys) && KeysIn(x.store, WriteKeys(key, s.accesses, |s.accesses|))
  {
    MaxTs(x.store, s.readKeys + WriteKeys(key, s.accesses, |s.accesses|))
  }

  /** Overwriting whatever the timestamps are, as the committing transaction does. */
  function Overwrite(s: R.Store, us: seq<R.Update>): R.Store {
    if us == [] then s else
      var u := us[|us| - 1];
      Overwrite(s, us[..|us| - 1])[u.key := R.Record(u.timestamp, u.value)]
  }

  /** The inserted records go into the table, each unless its key is taken. */
  function Insert(key: KeyOf, s: R.Store, ts: nat, accesses: seq<V.Access>, n: nat): (r: R.Store)
    requires n <= |accesses|
    ensures forall k | k in s :: k in r && r[k] == s[k]
  {
    if n == 0 then s else
      var r := Insert(key, s, ts, accesses, n - 1);
      match accesses[n - 1]
      case InsertOnly(table, data) =>
        if key(table, data) in r then r else r[key(table, data) := R.Record(ts, data)]
      case _ => r
  }

  /** indexed says whether inserted records get into the table, where later transactions find them. The
      managers with scalable timestamps do not put them there: the call is commented out. */
  function Do(key: KeyOf, indexed: bool, x: Exec, s: Step): Exec
    requires Enabled(key, x, s)
  {
    var maxRw, n := MaxRw(key, x, s), |x.clocks|;
    var ts := T.CommitTs(x.clocks[s.thread], s.thread, n, s.epoch, maxRw);
    var us := Writes(key, ts, s.accesses, |s.accesses|);
    var store := Overwrite(x.store, us);
    var clock := T.NextClock(x.clocks[s.thread], s.thread, n, s.epoch, maxRw);
    var commit := V.Commit(s.epoch, ts, s.accesses);
    Exec(if indexed then Insert(key, store, ts, s.accesses, |s.accesses|) else store,
         x.clocks[s.thread := clock], x.commits[s.thread := x.commits[s.thread] + [commit]], x.all + us)
  }

  // ----- Execution writes each key with growing timestamps -----

  /** Of two updates of a key the later one has the larger timestamp, none above the record's. */
  predicate Growing(s: R.Store, us: seq<R.Update>) {
    && (forall i, j | 0 <= i < j < |us| && us[i].key == us[j].key :: us[i].timestamp < us[j].timestamp)
    && (forall i | 0 <= i < |us| :: us[i].key in s && us[i].timestamp <= s[us[i].key].timestamp)
  }

  lemma {:induction false} MaxTsAbove(s: R.Store, ks: seq<R.Key>, i: nat)
    requires KeysIn(s, ks) && i < |ks|
    ensures s[ks[i]].timestamp <= MaxTs(s, ks)
    decreases |ks|
  {
    if i < |ks| - 1 { MaxTsAbove(s, ks[..|ks| - 1], i); }
  }

  lemma {:induction false} WritesShape(key: KeyOf, ts: nat, accesses: seq<V.Access>, n: nat)
    requires n <= |accesses|
    ensures |Writes(key, ts, accesses, n)| == |WriteKeys(key, accesses, n)|
    ensures forall i | 0 <= i < |Writes(key, ts, accesses, n)| ::
      Writes(key, ts, accesses, n)[i].timestamp == ts
        && Writes(key, ts, accesses, n)[i].key == WriteKeys(key, accesses, n)[i]
  {
    if n > 0 { WritesShape(key, ts, accesses, n - 1); }
  }

  /** The updates of a commit are new on each of their keys. */
  predicate NewOn(s: R.Store, us: seq<R.Update>) {
    && (forall i | 0 <= i < |us| :: us[i].key in s && s[us[i].key].timestamp < us[i].timestamp)
    && (forall i, j | 0 <= i < j < |us| :: us[i].key != us[j].key)
  }

  /** What a transaction read or overwrote is strictly below its commit timestamp. */
  lemma StepNew(key: KeyOf, x: Exec, s: Step)
    requires Enabled(key, x, s)
    ensures var ts := T.CommitTs(x.clocks[s.thread], s.thread, |x.clocks|, s.epoch, MaxRw(key, x, s));
      && NewOn(x.store, Writes(key, ts, s.accesses, |s.accesses|))
      && forall i | 0 <= i < |s.readKeys| :: x.store[s.readKeys[i]].timestamp < ts
  {
    var maxRw := MaxRw(key, x, s);
    var ts := T.CommitTs(x.clocks[s.thread], s.thread, |x.clocks|, s.epoch, maxRw);
    T.CommitTsGood(x.clocks[s.thread], s.thread, |x.clocks|, s.epoch, maxRw);
    WritesShape(key, ts, s.accesses, |s.accesses|);
    var ks := WriteKeys(key, s.accesses, |s.accesses|);
    forall i | 0 <= i < |s.readKeys| ensures x.store[s.readKeys[i]].timestamp < ts {
      MaxTsAbove(x.store, s.readKeys + ks, i);
    }
    forall i | 0 <= i < |ks| ensures x.store[ks[i]].timestamp < ts {
      MaxTsAbove(x.store, s.readKeys + ks, |s.readKeys| + i);
      assert (s.readKeys + ks)[|s.readKeys| + i] == ks[i];
    }
  }

  predicate Untouched(us: seq<R.Update>, k: R.Key) {
    forall i | 0 <= i < |us| :: us[i].key != k
  }

  lemma {:induction false} ReplayUntouched(s: R.Store, us: seq<R.Update>, k: R.Key)
    requires R.KeysIn(s, us) && k in s && Untouched(us, k)
    ensures R.Replayed(s, us)[k] == s[k]
  {
    if us != [] {
      assert us[|us| - 1].key != k;
      ReplayUntouched(s, us[..|us| - 1], k);
    }
  }

  /** New updates go in by replay exactly as by overwriting. */
  lemma {:induction false} OverwriteIsReplay(s: R.Store, us: seq<R.Update>)
    requires NewOn(s, us)
    ensures R.KeysIn(s, us) && R.Replayed(s, us) == Overwrite(s, us)
  {
    if us != [] {
      var n := |us| - 1;
      OverwriteIsReplay(s, us[..n]);
      ReplayUntouched(s, us[..n], us[n].key);
    }
  }

  lemma {:induction false} OverwriteTimes(s: R.Store, us: seq<R.Update>, i: nat)
    requires NewOn(s, us) && i < |us|
    ensures us[i].key in Overwrite(s, us) && Overwrite(s, us)[us[i].key].timestamp == us[i].timestamp
    decreases |us|
  {
    if i < |us| - 1 { OverwriteTimes(s, us[..|us| - 1], i); }
  }

  // ----- What a commit does to the store -----

  /** The maximum is one of the timestamps, 0 if there are none. */
  lemma {:induction false} MaxTsAmong(s: R.Store, ks: seq<R.Key>)
    requires KeysIn(s, ks)
    ensures MaxTs(s, ks) == 0 || exists i :: 0 <= i < |ks| && MaxTs(s, ks) == s[ks[i]].timestamp
  {
    if ks != [] {
      MaxTsAmong(s, ks[..|ks| - 1]);
      assert forall i | 0 <= i < |ks| - 1 :: ks[..|ks| - 1][i] == ks[i];
    }
  }

  /** Access i updates key k with the data, and is the last to. */
  predicate UpdatesLast(key: KeyOf, accesses: seq<V.Access>, n: nat, i: nat, k: R.Key)
    requires n <= |accesses|
  {
    i < n && UpdatesKey(key, accesses[i], k) && forall j | i < j < n :: !UpdatesKey(key, accesses[j], k)
  }

  predicate UpdatesKey(key: KeyOf, a: V.Access, k: R.Key) {
    a.ReadWrite? && key(a.table, a.data) == k
  }

  predicate SameAt(s: R.Store, r: R.Store, k: R.Key) {
    (k in r <==> k in s) && (k in s ==> r[k] == s[k])
  }

  predicate HasAt(r: R.Store, k: R.Key, x: R.Record) {
    k in r && r[k] == x
  }

  lemma {:induction false} OverwrittenBy(key: KeyOf, s: R.Store, ts: nat, accesses: seq<V.Access>, n: nat,
      i: nat, k: R.Key)
    requires n <= |accesses| && UpdatesLast(key, accesses, n, i, k)
    ensures HasAt(Overwrite(s, Writes(key, ts, accesses, n)), k, R.Record(ts, accesses[i].data))
  {
    OverwriteStep(key, s, ts, accesses, n, k);
    if i < n - 1 { OverwrittenBy(key, s, ts, accesses, n - 1, i, k); }
  }

  lemma {:induction false} NotOverwritten(key: KeyOf, s: R.Store, ts: nat, accesses: seq<V.Access>, n: nat, k: R.Key)
    requires n <= |accesses| && forall i | 0 <= i < n :: !UpdatesKey(key, accesses[i], k)
    ensures SameAt(s, Overwrite(s, Writes(key, ts, accesses, n)), k)
  {
    if n > 0 {
      OverwriteStep(key, s, ts, accesses, n, k);
      assert !UpdatesKey(key, accesses[n - 1], k);
      NotOverwritten(key, s, ts, accesses, n - 1, k);
    }
  }

  lemma OverwriteNext(key: KeyOf, s: R.Store, ts: nat, accesses: seq<V.Access>, n: nat)
    requires 0 < n <= |accesses|
    ensures var a, was := accesses[n - 1], Overwrite(s, Writes(key, ts, accesses, n - 1));
      Overwrite(s, Writes(key, ts, accesses, n))
        == if a.ReadWrite? then was[key(a.table, a.data) := R.Record(ts, a.data)] else was
  {
    var now, before := Writes(key, ts, accesses, n), Writes(key, ts, accesses, n - 1);
    if accesses[n - 1].ReadWrite? { assert now[..|now| - 1] == before; } else { assert now == before; }
  }

  lemma OverwriteStep(key: KeyOf, s: R.Store, ts: nat, accesses: seq<V.Access>, n: nat, k: R.Key)
    requires 0 < n <= |accesses|
    ensures var r, was := Overwrite(s, Writes(key, ts, accesses, n)), Overwrite(s, Writes(key, ts, accesses, n - 1));
      if UpdatesKey(key, accesses[n - 1], k) then HasAt(r, k, R.Record(ts, accesses[n - 1].data))
      else SameAt(was, r, k)
  {
    OverwriteNext(key, s, ts, accesses, n);
  }

  /** Access i is the first to insert key k. */
  predicate InsertsFirst(key: KeyOf, accesses: seq<V.Access>, n: nat, i: nat, k: R.Key)
    requires n <= |accesses|
  {
    i < n && InsertsKey(key, accesses[i], k) && forall j | 0 <= j < i :: !InsertsKey(key, accesses[j], k)
  }

  predicate InsertsKey(key: KeyOf, a: V.Access, k: R.Key) {
    a.InsertOnly? && key(a.table, a.data) == k
  }

  lemma {:induction false} InsertedAt(key: KeyOf, s: R.Store, ts: nat, accesses: seq<V.Access>, n: nat, k: R.Key)
    requires n <= |accesses| && k !in s
    ensures var r := Insert(key, s, ts, accesses, n);
      && (forall i: nat | InsertsFirst(key, accesses, n, i, k) :: k in r && r[k] == R.Record(ts, accesses[i].data))
      && (k in r ==> exists i: nat :: InsertsFirst(key, accesses, n, i, k))
  {
    if n > 0 {
      InsertedAt(key, s, ts, accesses, n - 1, k);
      var was := Insert(key, s, ts, accesses, n - 1);
      forall i: nat | InsertsFirst(key, accesses, n, i, k) && i < n - 1
        ensures InsertsFirst(key, accesses, n - 1, i, k)
      {}
      if k in was {
        var i: nat :| InsertsFirst(key, accesses, n - 1, i, k);
        assert InsertsFirst(key, accesses, n, i, k);
      } else if InsertsKey(key, accesses[n - 1], k) {
        if j: nat :| j < n - 1 && InsertsKey(key, accesses[j], k) { FirstBelow(key, accesses, n - 1, j, k); }
        assert InsertsFirst(key, accesses, n, n - 1, k);
      }
    }
  }

  lemma {:induction false} FirstBelow(key: KeyOf, accesses: seq<V.Access>, n: nat, j: nat, k: R.Key)
    requires j < n <= |accesses| && InsertsKey(key, accesses[j], k)
    ensures exists i: nat :: InsertsFirst(key, accesses, n, i, k)
    decreases j
  {
    if i: nat :| i < j && InsertsKey(key, accesses[i], k) {
      FirstBelow(key, accesses, n, i, k);
    } else {
      assert InsertsFirst(key, accesses, n, j, k);
    }
  }

  /** What record k is after a commit: updated, it has the commit timestamp and the data of the last
      update; there before and not updated, it is as it was; new, it has the data of its first insert, and
      is there only if inserted records get into the table. */
  ghost predicate StoreAfter(key: KeyOf, indexed: bool, s: R.Store, r: R.Store, ts: nat, accesses: seq<V.Access>,
      k: R.Key)
  {
    var n := |accesses|;
    && (forall i: nat | UpdatesLast(key, accesses, n, i, k) :: k in r && r[k] == R.Record(ts, accesses[i].data))
    && ((forall i | 0 <= i < n :: !UpdatesKey(key, accesses[i], k)) && k in s ==> k in r && r[k] == s[k])
    && (k !in s ==> (k in r <==> indexed && exists i: nat :: InsertsFirst(key, accesses, n, i, k)))
    && (k !in s && k in r ==>
         forall i: nat | InsertsFirst(key, accesses, n, i, k) :: r[k] == R.Record(ts, accesses[i].data))
  }

  lemma StepStore(key: KeyOf, indexed: bool, x: Exec, s: Step, k: R.Key)
    requires Enabled(key, x, s)
    ensures var ts := T.CommitTs(x.clocks[s.thread], s.thread, |x.clocks|, s.epoch, MaxRw(key, x, s));
      StoreAfter(key, indexed, x.store, Do(key, indexed, x, s).store, ts, s.accesses, k)
  {
    var n, ts := |s.accesses|, T.CommitTs(x.clocks[s.thread], s.thread, |x.clocks|, s.epoch, MaxRw(key, x, s));
    forall i: nat | UpdatesLast(key, s.accesses, n, i, k)
      ensures HasAt(Overwrite(x.store, Writes(key, ts, s.accesses, n)), k, R.Record(ts, s.accesses[i].data))
    {
      OverwrittenBy(key, x.store, ts, s.accesses, n, i, k);
    }
    if k !in x.store {
      forall i | 0 <= i < n ensures !UpdatesKey(key, s.accesses[i], k) { UpdatedThere(key, x, s, n, i); }
      NotOverwritten(key, x.store, ts, s.accesses, n, k);
      InsertedAt(key, Overwrite(x.store, Writes(key, ts, s.accesses, n)), ts, s.accesses, n, k);
    } else if forall i | 0 <= i < n :: !UpdatesKey(key, s.accesses[i], k) {
      NotOverwritten(key, x.store, ts, s.accesses, n, k);
    }
  }

  /** It logs the transaction for its thread, whose clock is then at the commit timestamp, and touches no
      other thread's. */
  lemma StepThread(key: KeyOf, indexed: bool, x: Exec, s: Step)
    requires Enabled(key, x, s)
    ensures var t, n, r := s.thread, |x.clocks|, Do(key, indexed, x, s);
      var ts := T.CommitTs(x.clocks[t], t, n, s.epoch, MaxRw(key, x, s));
      && |r.clocks| == |r.commits| == n
      && r.commits[t] == x.commits[t] + [V.Commit(s.epoch, ts, s.accesses)]
      && r.clocks[t] == T.Clock(T.UpperBits(ts), T.LowerBits(ts))
      && forall u | 0 <= u < n && u != t :: r.commits[u] == x.commits[u] && r.clocks[u] == x.clocks[u]
  {
    T.CommitTsGood(x.clocks[s.thread], s.thread, |x.clocks|, s.epoch, MaxRw(key, x, s));
    T.NextClockGood(x.clocks[s.thread], s.thread, |x.clocks|, s.epoch, MaxRw(key, x, s));
  }

  /** What a transaction updates is in the table. */
  lemma {:induction false} UpdatedThere(key: KeyOf, x: Exec, s: Step, n: nat, i: nat)
    requires i < n <= |s.accesses| && KeysIn(x.store, WriteKeys(key, s.accesses, n))
    ensures s.accesses[i].ReadWrite? ==> key(s.accesses[i].table, s.accesses[i].data) in x.store
    decreases n
  {
    var now, before := WriteKeys(key, s.accesses, n), WriteKeys(key, s.accesses, n - 1);
    if i < n - 1 {
      forall j | 0 <= j < |before| ensures before[j] in x.store { assert now[j] == before[j]; }
      UpdatedThere(key, x, s, n - 1, i);
    } else if s.accesses[i].ReadWrite? {
      assert now[|now| - 1] in x.store;
    }
  }

  // ----- The logs hold what was done -----

  function EntryOf(key: KeyOf, t: Txn): R.Entry {
    R.Entry(t.timestamp, Changes(key, t.elements))
  }

  function Changes(key: KeyOf, es: seq<Element>): seq<R.Element> {
    if es == [] then [] else
      Changes(key, es[..|es| - 1]) + [ChangeOf(key, es[|es| - 1])]
  }

  function ChangeOf(key: KeyOf, e: Element): R.Element {
    if e.kind == K_UPDATE then R.Change(key(e.table, e.data), e.data) else R.Insert(e.data)
  }

  /** A reloaded log as replay sees it. */
  function EntriesOf(key: KeyOf, ts: seq<Txn>): seq<R.Entry> {
    if ts == [] then [] else EntriesOf(key, ts[..|ts| - 1]) + [EntryOf(key, ts[|ts| - 1])]
  }

  lemma ChangesMore(key: KeyOf, es: seq<Element>, e: Element)
    ensures Changes(key, es + [e]) == Changes(key, es) + [ChangeOf(key, e)]
  {
    assert (es + [e])[..|es|] == es;
  }

  lemma UpdatesMore(ts: nat, cs: seq<R.Element>, c: R.Element)
    ensures R.ElementUpdates(ts, cs + [c])
      == R.ElementUpdates(ts, cs) + if c.Change? then [R.Update(ts, c.key, c.value)] else []
  {
    assert (cs + [c])[..|cs|] == cs;
  }

  lemma ElementLogged(key: KeyOf, ts: nat, es: seq<Element>, e: Element)
    ensures R.ElementUpdates(ts, Changes(key, es + [e]))
      == R.ElementUpdates(ts, Changes(key, es))
        + if e.kind == K_UPDATE then [R.Update(ts, key(e.table, e.data), e.data)] else []
  {
    ChangesMore(key, es, e);
    UpdatesMore(ts, Changes(key, es), ChangeOf(key, e));
  }

  lemma {:induction false} LoggedWrites(key: KeyOf, ts: nat, accesses: seq<V.Access>, n: nat)
    requires n <= |accesses|
    ensures R.ElementUpdates(ts, Changes(key, V.ElementsOf(accesses, n))) == Writes(key, ts, accesses, n)
  {
    if n > 0 {
      LoggedWrites(key, ts, accesses, n - 1);
      var a, before := accesses[n - 1], V.ElementsOf(accesses, n - 1);
      if a.ReadOnly? {
        assert V.ElementsOf(accesses, n) == before;
      } else {
        ElementLogged(key, ts, before, V.ElementOf(a));
        assert V.ElementsOf(accesses, n) == before + [V.ElementOf(a)];
      }
    }
  }

  /** The updates replay makes from a thread's commits. */
  function ThreadUpdates(key: KeyOf, cs: seq<V.Commit>): seq<R.Update> {
    R.UpdatesOf(EntriesOf(key, V.TxnsOf(cs)))
  }

  lemma ThreadGrows(key: KeyOf, cs: seq<V.Commit>, c: V.Commit)
    ensures ThreadUpdates(key, cs + [c]) == ThreadUpdates(key, cs) + Writes(key, c.timestamp, c.accesses, |c.accesses|)
  {
    assert (cs + [c])[..|cs|] == cs;
    var ts := V.TxnsOf(cs + [c]);
    assert ts[..|ts| - 1] == V.TxnsOf(cs);
    var es := EntriesOf(key, ts);
    assert es[..|es| - 1] == EntriesOf(key, V.TxnsOf(cs));
    LoggedWrites(key, c.timestamp, c.accesses, |c.accesses|);
  }

  function Logged(key: KeyOf, commits: seq<seq<V.Commit>>): multiset<R.Update> {
    if commits == [] then multiset{} else
      Logged(key, commits[..|commits| - 1]) + multiset(ThreadUpdates(key, commits[|commits| - 1]))
  }

  lemma {:induction false} LoggedGrows(key: KeyOf, commits: seq<seq<V.Commit>>, t: nat, c: V.Commit)
    requires t < |commits|
    ensures Logged(key, commits[t := commits[t] + [c]])
      == Logged(key, commits) + multiset(Writes(key, c.timestamp, c.accesses, |c.accesses|))
    decreases |commits|
  {
    var n := |commits| - 1;
    var ds := commits[t := commits[t] + [c]];
    if t == n {
      assert ds[..n] == commits[..n];
      ThreadGrows(key, commits[t], c);
    } else {
      assert ds[..n] == commits[..n][t := commits[t] + [c]];
      LoggedGrows(key, commits[..n], t, c);
    }
  }

  // ----- Recovery -----

  /** What has become of the records present at the start. */
  function OnStart(s: R.Store, init: R.Store): R.Store {
    map k | k in init && k in s :: s[k]
  }

  /** As long as only records present at the start are updated, these are what replay of everything in
      commit order gives; the timestamps of a key grow, and the threads' logs together hold everything. */
  predicate Inv(key: KeyOf, indexed: bool, init: R.Store, x: Exec) {
    && init.Keys <= x.store.Keys && (!indexed ==> x.store.Keys == init.Keys)
    && (R.KeysIn(init, x.all) ==> OnStart(x.store, init) == R.Replayed(init, x.all))
    && Growing(x.store, x.all) && Logged(key, x.commits) == multiset(x.all)
  }

  /** Overwriting records present at the start, seen on these alone. */
  lemma {:induction false} OverwriteOnStart(s: R.Store, init: R.Store, us: seq<R.Update>)
    requires init.Keys <= s.Keys && R.KeysIn(init, us)
    ensures OnStart(Overwrite(s, us), init) == Overwrite(OnStart(s, init), us)
  {
    if us != [] { OverwriteOnStart(s, init, us[..|us| - 1]); }
  }

  lemma {:induction false} OverwriteKeys(s: R.Store, us: seq<R.Update>)
    requires R.KeysIn(s, us)
    ensures Overwrite(s, us).Keys == s.Keys
  {
    if us != [] { OverwriteKeys(s, us[..|us| - 1]); }
  }

  /** A commit's updates on top of all before, for the records present at the start. */
  lemma StartReplayed(init: R.Store, s: R.Store, all: seq<R.Update>, us: seq<R.Update>)
    requires init.Keys <= s.Keys && NewOn(s, us) && R.KeysIn(init, all + us)
    requires R.KeysIn(init, all) ==> OnStart(s, init) == R.Replayed(init, all)
    ensures OnStart(Overwrite(s, us), init) == R.Replayed(init, all + us)
  {
    assert R.KeysIn(init, all) && R.KeysIn(init, us) by {
      forall i | 0 <= i < |all| ensures all[i].key in init { assert (all + us)[i] == all[i]; }
      forall i | 0 <= i < |us| ensures us[i].key in init { assert (all + us)[|all| + i] == us[i]; }
    }
    OverwriteOnStart(s, init, us);
    OverwriteIsReplay(OnStart(s, init), us);
    ReplayedThen(init, all, us);
  }

  /** A commit's effect on the store: r is the overwritten store, perhaps with more records. */
  lemma StoreKeeps(init: R.Store, s: R.Store, all: seq<R.Update>, us: seq<R.Update>, r: R.Store)
    requires init.Keys <= s.Keys && Growing(s, all) && NewOn(s, us)
    requires R.KeysIn(init, all) ==> OnStart(s, init) == R.Replayed(init, all)
    requires var o := Overwrite(s, us); forall k | k in o :: k in r && r[k] == o[k]
    ensures s.Keys <= r.Keys && Growing(r, all + us)
    ensures R.KeysIn(init, all + us) ==> OnStart(r, init) == R.Replayed(init, all + us)
  {
    OverwriteKeys(s, us);
    OverwriteGrows(s, all, us);
    GrowingOn(Overwrite(s, us), r, all + us);
    if R.KeysIn(init, all + us) {
      StartReplayed(init, s, all, us);
      OnStartSame(init, Overwrite(s, us), r);
    }
  }

  lemma OnStartSame(init: R.Store, s: R.Store, r: R.Store)
    requires init.Keys <= s.Keys && forall k | k in s :: k in r && r[k] == s[k]
    ensures OnStart(r, init) == OnStart(s, init)
  {}
  lemma StepKeeps(key: KeyOf, indexed: bool, init: R.Store, x: Exec, s: Step)
    requires Inv(key, indexed, init, x) && Enabled(key, x, s)
    ensures Inv(key, indexed, init, Do(key, indexed, x, s))
  {
    var ts := T.CommitTs(x.clocks[s.thread], s.thread, |x.clocks|, s.epoch, MaxRw(key, x, s));
    var us := Writes(key, ts, s.accesses, |s.accesses|);
    StepNew(key, x, s);
    StoreKeeps(init, x.store, x.all, us, Do(key, indexed, x, s).store);
    if !indexed {
      OverwriteIsReplay(x.store, us);
      OverwriteKeys(x.store, us);
    }
    LoggedGrows(key, x.commits, s.thread, V.Commit(s.epoch, ts, s.accesses));
  }

  lemma OverwriteGrows(s: R.Store, all: seq<R.Update>, us: seq<R.Update>)
    requires Growing(s, all) && NewOn(s, us)
    ensures Growing(Overwrite(s, us), all + us)
  {
    OverwriteIsReplay(s, us);
    OverwriteKeys(s, us);
    forall i | 0 <= i < |us| ensures Overwrite(s, us)[us[i].key].timestamp == us[i].timestamp {
      OverwriteTimes(s, us, i);
    }
    forall k {:trigger Untouched(us, k)} | k in s && Untouched(us, k) ensures Overwrite(s, us)[k] == s[k] {
      ReplayUntouched(s, us, k);
    }
    GrowingMore(s, Overwrite(s, us), all, us);
  }

  /** More records do no harm. */
  lemma GrowingOn(s: R.Store, r: R.Store, us: seq<R.Update>)
    requires Growing(s, us) && forall k | k in s :: k in r && r[k] == s[k]
    ensures Growing(r, us)
  {}

  lemma GrowingMore(s: R.Store, r: R.Store, all: seq<R.Update>, us: seq<R.Update>)
    requires Growing(s, all) && NewOn(s, us) && r.Keys == s.Keys
    requires forall k {:trigger Untouched(us, k)} | k in s && Untouched(us, k) :: r[k] == s[k]
    requires forall i | 0 <= i < |us| :: r[us[i].key].timestamp == us[i].timestamp
    ensures Growing(r, all + us)
  {
    forall k | k in s ensures s[k].timestamp <= r[k].timestamp {
      if !Untouched(us, k) {
        var i :| 0 <= i < |us| && us[i].key == k;
        assert s[us[i].key].timestamp < us[i].timestamp;
      }
    }
  }

  predicate Run(key: KeyOf, indexed: bool, init: R.Store, xs: seq<Exec>, steps: seq<Step>) {
    && |xs| == |steps| + 1 && xs[0].store == init && xs[0].all == [] && |xs[0].clocks| == |xs[0].commits|
    && (forall t | 0 <= t < |xs[0].commits| :: xs[0].commits[t] == [])
    && (forall k {:trigger Taken(key, indexed, xs, steps, k)} | 0 <= k < |steps| :: Taken(key, indexed, xs, steps, k))
  }

  predicate Taken(key: KeyOf, indexed: bool, xs: seq<Exec>, steps: seq<Step>, k: nat)
    requires |xs| == |steps| + 1 && k < |steps|
  {
    Enabled(key, xs[k], steps[k]) && xs[k + 1] == Do(key, indexed, xs[k], steps[k])
  }

  lemma {:induction false} LoggedNone(key: KeyOf, commits: seq<seq<V.Commit>>)
    requires forall t | 0 <= t < |commits| :: commits[t] == []
    ensures Logged(key, commits) == multiset{}
  {
    if commits != [] { LoggedNone(key, commits[..|commits| - 1]); }
  }

  lemma NextKeeps(key: KeyOf, indexed: bool, init: R.Store, x: Exec, s: Step, r: Exec)
    requires Inv(key, indexed, init, x) && Enabled(key, x, s) && r == Do(key, indexed, x, s)
    ensures Inv(key, indexed, init, r)
  {
    StepKeeps(key, indexed, init, x, s);
  }

  lemma RunBegins(key: KeyOf, indexed: bool, init: R.Store, xs: seq<Exec>, steps: seq<Step>)
    requires Run(key, indexed, init, xs, steps)
    ensures Inv(key, indexed, init, xs[0])
  {
    LoggedNone(key, xs[0].commits);
  }

  lemma RunGoesOn(key: KeyOf, indexed: bool, init: R.Store, xs: seq<Exec>, steps: seq<Step>, k: nat)
    requires Run(key, indexed, init, xs, steps) && 0 < k <= |steps| && Inv(key, indexed, init, xs[k - 1])
    ensures Inv(key, indexed, init, xs[k])
  {
    assert Taken(key, indexed, xs, steps, k - 1);
    NextKeeps(key, indexed, init, xs[k - 1], steps[k - 1], xs[k]);
  }

  lemma {:induction false} RunKeeps(key: KeyOf, indexed: bool, init: R.Store, xs: seq<Exec>, steps: seq<Step>, k: nat)
    requires Run(key, indexed, init, xs, steps) && k <= |steps|
    ensures Inv(key, indexed, init, xs[k])
  {
    if k == 0 {
      RunBegins(key, indexed, init, xs, steps);
    } else {
      RunKeeps(key, indexed, init, xs, steps, k - 1);
      RunGoesOn(key, indexed, init, xs, steps, k);
    }
  }

  function ThreadLogs(key: KeyOf, commits: seq<seq<V.Commit>>): seq<seq<R.Update>> {
    seq(|commits|, i requires 0 <= i < |commits| => ThreadUpdates(key, commits[i]))
  }

  lemma LastLog(key: KeyOf, commits: seq<seq<V.Commit>>, n: nat)
    requires |commits| == n + 1
    ensures ThreadLogs(key, commits)[..n] == ThreadLogs(key, commits[..n])
    ensures ThreadLogs(key, commits)[n] == ThreadUpdates(key, commits[n])
  {}

  lemma LastStart(n: nat)
    ensures R.Starts(n + 1)[..n] == R.Starts(n) && R.Starts(n + 1)[n] == 0
  {}

  lemma RestWhole(logs: seq<seq<R.Update>>, pos: seq<nat>, n: nat, log: seq<R.Update>)
    requires |logs| == n + 1 && R.Within(logs, pos)
    requires pos[n] == 0 && logs[n] == log
    ensures R.Rest(logs, pos) == R.Rest(logs[..n], pos[..n]) + multiset(log)
  {
    R.RestLast(logs, pos, n);
    assert log[0..] == log;
  }

  lemma {:induction false} LogsRest(key: KeyOf, commits: seq<seq<V.Commit>>)
    ensures R.Rest(ThreadLogs(key, commits), R.Starts(|commits|)) == Logged(key, commits)
  {
    if commits != [] {
      var n := |commits| - 1;
      var logs, starts, log := ThreadLogs(key, commits), R.Starts(n + 1), ThreadUpdates(key, commits[n]);
      LogsRest(key, commits[..n]);
      LastLog(key, commits, n);
      LastStart(n);
      RestWhole(logs, starts, n, log);
    }
  }

  /** No committed transaction has updated a record that was inserted on the way. */
  predicate Started(init: R.Store, x: Exec) {
    R.KeysIn(init, x.all)
  }

  /** What recovery leaves: the records present at the start as the run has left them, if only these have
      been updated; else the update of a record that is not there. */
  function Recovered(init: R.Store, x: Exec): R.Outcome {
    if Started(init, x) then R.Done(OnStart(x.store, init)) else R.NullRecord
  }

  lemma SameKeysIn(init: R.Store, us: seq<R.Update>, vs: seq<R.Update>)
    requires multiset(us) == multiset(vs) && R.KeysIn(init, us)
    ensures R.KeysIn(init, vs)
  {
    forall i | 0 <= i < |vs| ensures vs[i].key in init {
      assert vs[i] in multiset(us);
    }
  }

  /** Of growing timestamps only the last one of a key wins. */
  lemma GrowingOneWinner(init: R.Store, s: R.Store, us: seq<R.Update>)
    requires Growing(s, us) && R.KeysIn(init, us)
    ensures R.OneWinner(init, us)
  {}

  /** However the replay threads interleave, the records present at the start come back as any run has
      left them, values and timestamps, if no other record has been updated, and only if: replay does
      not bring inserted records back. If these do not get into the table all comes back. */
  lemma RecoversStore(key: KeyOf, indexed: bool, init: R.Store, xs: seq<Exec>, steps: seq<Step>, k: nat,
      us: seq<R.Update>)
    requires Run(key, indexed, init, xs, steps) && k <= |steps|
    requires R.Interleaving(ThreadLogs(key, xs[k].commits), R.Starts(|xs[k].commits|), us)
    ensures R.ReplayedAny(init, us) == Recovered(init, xs[k])
    ensures !indexed ==> R.ReplayedAny(init, us) == R.Done(xs[k].store)
  {
    RunKeeps(key, indexed, init, xs, steps, k);
    AllInterleaved(key, init, xs[k].commits, xs[k].all, us);
    RecoveredBy(init, xs[k].store, xs[k].all, us);
    if !indexed { OnStartAll(xs[k].store, init); }
  }

  lemma AllInterleaved(key: KeyOf, init: R.Store, commits: seq<seq<V.Commit>>, all: seq<R.Update>, us: seq<R.Update>)
    requires Logged(key, commits) == multiset(all)
    requires R.Interleaving(ThreadLogs(key, commits), R.Starts(|commits|), us)
    ensures multiset(us) == multiset(all)
  {
    LogsRest(key, commits);
    R.InterleavingHolds(ThreadLogs(key, commits), R.Starts(|commits|), us);
  }

  lemma OnStartAll(s: R.Store, init: R.Store)
    requires s.Keys == init.Keys
    ensures OnStart(s, init) == s
  {}

  /** Replay of the updates in any order. */
  lemma RecoveredBy(init: R.Store, s: R.Store, all: seq<R.Update>, us: seq<R.Update>)
    requires Growing(s, all) && multiset(us) == multiset(all)
    requires R.KeysIn(init, all) ==> OnStart(s, init) == R.Replayed(init, all)
    ensures R.ReplayedAny(init, us) == if R.KeysIn(init, all) then R.Done(OnStart(s, init)) else R.NullRecord
  {
    R.ReplayableIff(init, us);
    if R.KeysIn(init, all) {
      SameKeysIn(init, all, us);
      GrowingOneWinner(init, s, all);
      R.Confluent(init, all, us);
    } else if R.KeysIn(init, us) {
      SameKeysIn(init, us, all);
    }
  }

  /** What a transaction with one access reads up to and writes. */
  lemma OneAccess(key: KeyOf, s: R.Store, ts: nat, a: V.Access)
    ensures WriteKeys(key, [a], 1) == if a.ReadWrite? then [key(a.table, a.data)] else []
    ensures Writes(key, ts, [a], 1) == WriteOf(key, ts, a)
    ensures a.ReadWrite? && key(a.table, a.data) in s ==>
      MaxTs(s, [] + WriteKeys(key, [a], 1)) == s[key(a.table, a.data)].timestamp
    ensures a.InsertOnly? ==> MaxTs(s, [] + WriteKeys(key, [a], 1)) == 0
  {
    assert WriteKeys(key, [a], 0) == [] && Writes(key, ts, [a], 0) == [];
    if a.ReadWrite? {
      var ks := [] + [key(a.table, a.data)];
      assert ks == [key(a.table, a.data)] && ks[..|ks| - 1] == [];
    }
  }

  /** A record inserted in one epoch and updated in the next, by a manager that puts it into the table:
      replay of the update finds no record. */
  lemma InsertedExample(key: KeyOf) returns (xs: seq<Exec>, steps: seq<Step>)
    ensures Run(key, true, map[], xs, steps) && |steps| == 2
    ensures xs[2].store != map[] && Recovered(map[], xs[2]) == R.NullRecord
  {
    var x0 := Exec(map[], [T.Clock(0, 0)], [[]], []);
    var s0, x1 := InsertStep(key, x0);
    var s1, x2 := UpdateStep(key, x1);
    xs, steps := [x0, x1, x2], [s0, s1];
    assert x2.all[0].key !in xs[0].store;
  }

  /** The timestamps of the example: none has been read in the epoch, so no counter moves. */
  lemma FirstStamp()
    ensures T.Called(T.Clock(0, 0), 0, 1, 1, 0) && T.Fits(T.Clock(0, 0), 0, 1, 1, 0)
    ensures T.NextClock(T.Clock(0, 0), 0, 1, 1, 0) == T.Clock(1, 0) && T.CommitTs(T.Clock(0, 0), 0, 1, 1, 0) == T.W32
  {}

  lemma SecondStamp()
    ensures T.Called(T.Clock(1, 0), 0, 1, 2, T.W32) && T.Fits(T.Clock(1, 0), 0, 1, 2, T.W32)
  {}

  lemma InsertStep(key: KeyOf, x: Exec) returns (s: Step, r: Exec)
    requires x == Exec(map[], [T.Clock(0, 0)], [[]], [])
    ensures Enabled(key, x, s) && r == Do(key, true, x, s)
    ensures r.clocks == [T.Clock(1, 0)] && |r.commits| == 1 && r.all == []
    ensures r.store == map[key(0, [1]) := R.Record(T.W32, [1])]
  {
    var a := V.InsertOnly(0, [1]);
    s := Step(0, 1, [], [a]);
    FirstStamp();
    OneAccess(key, x.store, T.W32, a);
    assert MaxRw(key, x, s) == 0;
    r := Do(key, true, x, s);
    assert Insert(key, map[], T.W32, [a], 0) == map[];
  }

  lemma UpdateStep(key: KeyOf, x: Exec) returns (s: Step, r: Exec)
    requires x.store == map[key(0, [1]) := R.Record(T.W32, [1])] && x.clocks == [T.Clock(1, 0)]
    requires |x.commits| == 1 && x.all == []
    ensures Enabled(key, x, s) && r == Do(key, true, x, s) && |r.all| == 1 && key(0, [1]) in r.store
  {
    var a := V.ReadWrite(0, [1]);
    s := Step(0, 2, [], [a]);
    SecondStamp();
    var ts := T.CommitTs(T.Clock(1, 0), 0, 1, 2, T.W32);
    OneAccess(key, x.store, ts, a);
    assert MaxRw(key, x, s) == T.W32;
    r := Do(key, true, x, s);
    OverwriteKeys(x.store, Writes(key, ts, [a], 1));
  }

  /** One thread's file: logged, reloaded and replayed on top of what has been replayed before. */
  method RecoverThread(key: KeyOf, table: R.Table, cs: seq<V.Commit>, ghost init: R.Store, ghost done: seq<R.Update>)
      returns (found: bool)
    requires V.BuffersFit(cs) && forall i | 0 <= i < |cs| :: V.CommitOK(cs[i])
    requires R.KeysIn(init, done) && table.records == R.Replayed(init, done)
    modifies table
    ensures found <==> R.KeysIn(init, done + ThreadUpdates(key, cs))
    ensures found ==> table.records == R.Replayed(init, done + ThreadUpdates(key, cs))
  {
    var batch := V.LogAndReload(cs);
    var log := EntriesOf(key, batch);
    KeysInBoth(init, done, R.UpdatesOf(log));
    found := table.ProcessLog(log);
    if found { ReplayedThen(init, done, R.UpdatesOf(log)); }
  }

  lemma KeysInBoth(s: R.Store, us: seq<R.Update>, vs: seq<R.Update>)
    ensures R.KeysIn(s, us + vs) <==> R.KeysIn(s, us) && R.KeysIn(s, vs)
  {
    if R.KeysIn(s, us + vs) {
      forall i | 0 <= i < |us| ensures us[i].key in s { assert (us + vs)[i] == us[i]; }
      forall i | 0 <= i < |vs| ensures vs[i].key in s { assert (us + vs)[|us| + i] == vs[i]; }
    }
  }

  /** Crash and recover, with the threads' files one after the other: log every commit to bytes,
      reload the bytes, replay them into the initial store. */
  method Recover(key: KeyOf, ghost indexed: bool, init: R.Store, ghost xs: seq<Exec>, ghost steps: seq<Step>,
      commits: seq<seq<V.Commit>>)
      returns (found: bool, table: R.Table)
    requires Run(key, indexed, init, xs, steps) && commits == xs[|steps|].commits
    requires forall t | 0 <= t < |commits| ::
      V.BuffersFit(commits[t]) && forall i | 0 <= i < |commits[t]| :: V.CommitOK(commits[t][i])
    ensures (if found then R.Done(table.records) else R.NullRecord) == Recovered(init, xs[|steps|])
    ensures !indexed ==> found && table.records == xs[|steps|].store
  {
    ghost var x := xs[|steps|];
    RunKeeps(key, indexed, init, xs, steps, |steps|);
    found, table := ReplayAll(key, init, commits, x.store, x.all);
    assert !indexed ==> OnStart(x.store, init) == x.store by { if !indexed { OnStartAll(x.store, init); } }
  }

  method ReplayAll(key: KeyOf, init: R.Store, commits: seq<seq<V.Commit>>, ghost s: R.Store, ghost all: seq<R.Update>)
      returns (found: bool, table: R.Table)
    requires Growing(s, all) && Logged(key, commits) == multiset(all)
    requires R.KeysIn(init, all) ==> OnStart(s, init) == R.Replayed(init, all)
    requires forall t | 0 <= t < |commits| ::
      V.BuffersFit(commits[t]) && forall i | 0 <= i < |commits[t]| :: V.CommitOK(commits[t][i])
    ensures found <==> R.KeysIn(init, all)
    ensures found ==> table.records == OnStart(s, init)
  {
    table := new R.Table(init);
    ghost var done: seq<R.Update> := [];
    for t := 0 to |commits|
      invariant fresh(table) && multiset(done) == Logged(key, commits[..t])
      invariant R.KeysIn(init, done) && table.records == R.Replayed(init, done)
    {
      LoggedNext(key, commits, t, done);
      found := RecoverThread(key, table, commits[t], init, done);
      if !found {
        MissingLogged(key, commits, t, init, done, all);
        return;
      }
      done := done + ThreadUpdates(key, commits[t]);
    }
    assert commits[..|commits|] == commits;
    found := true;
    SameKeysIn(init, done, all);
    RecoveredBy(init, s, all, done);
    R.ReplayableIff(init, done);
  }

  lemma MissingLogged(key: KeyOf, commits: seq<seq<V.Commit>>, t: nat, init: R.Store,
      done: seq<R.Update>, all: seq<R.Update>)
    requires t < |commits| && Logged(key, commits) == multiset(all) && R.KeysIn(init, done)
    requires !R.KeysIn(init, done + ThreadUpdates(key, commits[t]))
    ensures !R.KeysIn(init, all)
  {
    if R.KeysIn(init, all) {
      LoggedKeys(key, commits, t, init, all);
      KeysInBoth(init, done, ThreadUpdates(key, commits[t]));
    }
  }

  lemma LoggedNext(key: KeyOf, commits: seq<seq<V.Commit>>, t: nat, done: seq<R.Update>)
    requires t < |commits| && multiset(done) == Logged(key, commits[..t])
    ensures multiset(done + ThreadUpdates(key, commits[t])) == Logged(key, commits[..t + 1])
  {
    assert commits[..t + 1][..t] == commits[..t];
  }

  lemma {:induction false} LoggedPart(key: KeyOf, commits: seq<seq<V.Commit>>, t: nat)
    requires t < |commits|
    ensures multiset(ThreadUpdates(key, commits[t])) <= Logged(key, commits)
    decreases |commits|
  {
    if t < |commits| - 1 { LoggedPart(key, commits[..|commits| - 1], t); }
  }

  lemma LoggedKeys(key: KeyOf, commits: seq<seq<V.Commit>>, t: nat, init: R.Store, all: seq<R.Update>)
    requires t < |commits| && R.KeysIn(init, all) && Logged(key, commits) == multiset(all)
    ensures R.KeysIn(init, ThreadUpdates(key, commits[t]))
  {
    LoggedPart(key, commits, t);
    var us := ThreadUpdates(key, commits[t]);
    forall i | 0 <= i < |us| ensures us[i].key in init {
      assert us[i] in multiset(us);
      assert us[i] in multiset(all);
    }
  }

  lemma {:induction false} ReplayedThen(s: R.Store, us: seq<R.Update>, vs: seq<R.Update>)
    requires R.KeysIn(s, us) && R.KeysIn(s, vs)
    ensures R.KeysIn(s, us + vs) && R.KeysIn(R.Replayed(s, us), vs)
    ensures R.Replayed(s, us + vs) == R.Replayed(R.Replayed(s, us), vs)
  {
    if vs == [] {
      assert us + vs == us;
    } else {
      var n := |vs| - 1;
      ReplayedThen(s, us, vs[..n]);
      assert (us + vs)[..|us| + n] == us + vs[..n];
    }
  }
}
