// Parallel value replay: each update goes in only if its timestamp is above the record's.
module Replay {

  type Key = nat
  type Value = seq<int>

  /** A record with the timestamp of its last applied update. */
  datatype Record = Record(timestamp: nat, value: Value)

  datatype Update = Update(timestamp: nat, key: Key, value: Value)

  type Store = map<Key, Record>

  /** ProcessLog on one update, under the record's write lock. */
  function Applied(s: Store, u: Update): (r: Store)
    requires u.key in s
    ensures r.Keys == s.Keys
  {
    if u.timestamp > s[u.key].timestamp then s[u.key := Record(u.timestamp, u.value)] else s
  }

  predicate KeysIn(s: Store, us: seq<Update>) {
    forall i | 0 <= i < |us| :: us[i].key in s
  }

  function Replayed(s: Store, us: seq<Update>): (r: Store)
    requires KeysIn(s, us)
    ensures r.Keys == s.Keys
  {
    if us == [] then s else Applied(Replayed(s, us[..|us| - 1]), us[|us| - 1])
  }

  /** What becomes of the store, or the end of the process on a record that is not in the table. */
  datatype Outcome = Done(store: Store) | NullRecord

  /** Replay of any updates: one of a key that the table does not have follows a null pointer. */
  function ReplayedAny(s: Store, us: seq<Update>): Outcome {
    if us == [] then Done(s) else
      match ReplayedAny(s, us[..|us| - 1])
      case NullRecord => NullRecord
      case Done(r) => if us[|us| - 1].key in r then Done(Applied(r, us[|us| - 1])) else NullRecord
  }

  /** Whatever their order, replay handles exactly the updates of keys that the table has at the start. */
  lemma {:induction false} ReplayableIff(s: Store, us: seq<Update>)
    ensures ReplayedAny(s, us) == if KeysIn(s, us) then Done(Replayed(s, us)) else NullRecord
  {
    if us != [] {
      var n := |us| - 1;
      ReplayableIff(s, us[..n]);
      assert KeysIn(s, us) <==> KeysIn(s, us[..n]) && us[n].key in s;
    }
  }

  /** us[i] is an update that replay may leave behind: none of its key is newer, the record is older. */
  predicate Wins(s: Store, us: seq<Update>, i: nat)
    requires KeysIn(s, us) && i < |us|
  {
    us[i].timestamp > s[us[i].key].timestamp && forall m | 0 <= m < |us| && us[m].key == us[i].key ::
      us[m].timestamp <= us[i].timestamp
  }

  /** Of each key at most one update may be left behind. */
  predicate OneWinner(s: Store, us: seq<Update>)
    requires KeysIn(s, us)
  {
    forall i, j | 0 <= i < |us| && 0 <= j < |us| && us[i].key == us[j].key && Wins(s, us, i) && Wins(s, us, j) ::
      us[i] == us[j]
  }

  /** r is what the updates leave of k: the newest update above the initial record, if there is one. */
  predicate Newest(s: Store, us: seq<Update>, k: Key, r: Record)
    requires k in s
  {
    && (r == s[k] || exists i :: 0 <= i < |us| && us[i] == Update(r.timestamp, k, r.value))
    && s[k].timestamp <= r.timestamp && (r.timestamp == s[k].timestamp ==> r == s[k])
    && (forall i | 0 <= i < |us| && us[i].key == k :: us[i].timestamp <= r.timestamp)
  }

  lemma {:induction false} ReplayedNewest(s: Store, us: seq<Update>, k: Key)
    requires KeysIn(s, us) && k in s
    ensures Newest(s, us, k, Replayed(s, us)[k])
  {
    if us != [] {
      var n := |us| - 1;
      ReplayedNewest(s, us[..n], k);
      var p, r := Replayed(s, us[..n])[k], Replayed(s, us)[k];
      if p != s[k] {
        var i :| 0 <= i < n && us[..n][i] == Update(p.timestamp, k, p.value);
        assert us[i] == Update(p.timestamp, k, p.value);
      }
      forall i | 0 <= i < |us| && us[i].key == k ensures us[i].timestamp <= r.timestamp {
        if i < n { assert us[..n][i] == us[i]; }
      }
    }
  }

  /** What replay leaves of a key, if not its record, is an update that wins. */
  lemma NewestWins(s: Store, us: seq<Update>, k: Key, r: Record) returns (i: nat)
    requires KeysIn(s, us) && k in s && Newest(s, us, k, r) && r != s[k]
    ensures i < |us| && us[i] == Update(r.timestamp, k, r.value) && Wins(s, us, i)
  {
    i :| i < |us| && us[i] == Update(r.timestamp, k, r.value);
  }

  lemma NewestUnique(s: Store, us: seq<Update>, vs: seq<Update>, k: Key, r: Record, q: Record)
    requires KeysIn(s, us) && KeysIn(s, vs) && k in s && OneWinner(s, us) && multiset(us) == multiset(vs)
    requires Newest(s, us, k, r) && Newest(s, vs, k, q)
    ensures r == q
  {
    if r != s[k] { AtMost(s, us, vs, k, r, q); }
    if q != s[k] { AtMost(s, vs, us, k, q, r); }
    if r != s[k] && q != s[k] {
      var i := NewestWins(s, us, k, r);
      var j := NewestWins(s, vs, k, q);
      assert vs[j] in multiset(us);
      var m :| 0 <= m < |us| && us[m] == vs[j];
      assert Wins(s, us, m);
    }
  }

  lemma AtMost(s: Store, us: seq<Update>, vs: seq<Update>, k: Key, r: Record, q: Record)
    requires k in s && multiset(us) == multiset(vs) && Newest(s, us, k, r) && Newest(s, vs, k, q) && r != s[k]
    ensures r.timestamp <= q.timestamp
  {
    var i :| 0 <= i < |us| && us[i] == Update(r.timestamp, k, r.value);
    assert us[i] in multiset(vs);
  }

  /** Replay is confluent: any two orders of the same updates end in the same store. */
  lemma Confluent(s: Store, us: seq<Update>, vs: seq<Update>)
    requires KeysIn(s, us) && KeysIn(s, vs) && OneWinner(s, us) && multiset(us) == multiset(vs)
    ensures Replayed(s, us) == Replayed(s, vs)
  {
    forall k | k in s ensures Replayed(s, us)[k] == Replayed(s, vs)[k] {
      ReplayedNewest(s, us, k);
      ReplayedNewest(s, vs, k);
      NewestUnique(s, us, vs, k, Replayed(s, us)[k], Replayed(s, vs)[k]);
    }
  }

  /** Every order of the updates ends in the same store. */
  ghost predicate OrderFree(s: Store, us: seq<Update>)
    requires KeysIn(s, us)
  {
    forall vs {:trigger Replayed(s, vs)} | KeysIn(s, vs) && multiset(vs) == multiset(us) ::
      Replayed(s, vs) == Replayed(s, us)
  }

  /** Of updates none of which is newer, the first one applied stays. */
  lemma {:induction false} FirstStays(s: Store, x: Update, us: seq<Update>)
    requires KeysIn(s, [x] + us) && x.key in s && x.timestamp > s[x.key].timestamp
    requires forall m | 0 <= m < |us| && us[m].key == x.key :: us[m].timestamp <= x.timestamp
    ensures Replayed(s, [x] + us)[x.key] == Record(x.timestamp, x.value)
  {
    var xs := [x] + us;
    if us == [] {
      assert xs[..0] == [] && xs[0] == x;
    } else {
      var n := |us| - 1;
      assert xs[..|us|] == [x] + us[..n];
      FirstStays(s, x, us[..n]);
      assert xs[|us|] == us[n];
    }
  }

  /** us[i] brought to the front. */
  function Fronted(us: seq<Update>, i: nat): seq<Update>
    requires i < |us|
  {
    [us[i]] + (us[..i] + us[i + 1..])
  }

  lemma FrontedSame(us: seq<Update>, i: nat)
    requires i < |us|
    ensures multiset(Fronted(us, i)) == multiset(us)
  {
    assert us == us[..i] + [us[i]] + us[i + 1..];
  }

  lemma FrontedStays(s: Store, us: seq<Update>, i: nat)
    requires KeysIn(s, us) && i < |us| && Wins(s, us, i)
    ensures KeysIn(s, Fronted(us, i)) && Replayed(s, Fronted(us, i))[us[i].key] == Record(us[i].timestamp, us[i].value)
  {
    var rest := us[..i] + us[i + 1..];
    forall m | 0 <= m < |rest| ensures rest[m] in us {}
    assert forall m | 0 <= m < |rest| :: rest[m] == us[if m < i then m else m + 1];
    FirstStays(s, us[i], rest);
  }

  /** The order of replay does not matter if and only if of each key at most one update, its newest
      and newer than the record, may be left behind. */
  lemma ConfluentIff(s: Store, us: seq<Update>)
    requires KeysIn(s, us)
    ensures OrderFree(s, us) <==> OneWinner(s, us)
  {
    if OneWinner(s, us) {
      forall vs | KeysIn(s, vs) && multiset(vs) == multiset(us)
        ensures Replayed(s, vs) == Replayed(s, us)
      {
        Confluent(s, us, vs);
      }
    }
    if OrderFree(s, us) {
      forall i, j | 0 <= i < |us| && 0 <= j < |us| && us[i].key == us[j].key && Wins(s, us, i) && Wins(s, us, j)
        ensures us[i] == us[j]
      {
        FrontedSame(us, i);
        FrontedSame(us, j);
        FrontedStays(s, us, i);
        FrontedStays(s, us, j);
        assert Replayed(s, Fronted(us, i)) == Replayed(s, us) == Replayed(s, Fronted(us, j));
      }
    }
  }

  // ----- Any interleaving of the threads -----

  /** pos says how far each thread has got in its log. */
  predicate Within(logs: seq<seq<Update>>, pos: seq<nat>) {
    |pos| == |logs| && forall k | 0 <= k < |logs| :: pos[k] <= |logs[k]|
  }

  /** One update of some thread at a time, each thread going through its log in order. */
  predicate Interleaving(logs: seq<seq<Update>>, pos: seq<nat>, us: seq<Update>)
    requires Within(logs, pos)
    decreases |us|
  {
    if us == [] then forall i | 0 <= i < |logs| :: pos[i] == |logs[i]|
    else exists i ::
      && 0 <= i < |logs| && pos[i] < |logs[i]| && us[0] == logs[i][pos[i]]
      && Interleaving(logs, pos[i := pos[i] + 1], us[1..])
  }

  function Rest(logs: seq<seq<Update>>, pos: seq<nat>): multiset<Update>
    requires Within(logs, pos)
  {
    if logs == [] then multiset{} else
      var n := |logs| - 1;
      Rest(logs[..n], pos[..n]) + multiset(logs[n][pos[n]..])
  }

  lemma RestLast(logs: seq<seq<Update>>, pos: seq<nat>, n: nat)
    requires |logs| == n + 1 && Within(logs, pos)
    ensures Rest(logs, pos) == Rest(logs[..n], pos[..n]) + multiset(logs[n][pos[n]..])
  {}

  lemma {:induction false} RestNone(logs: seq<seq<Update>>, pos: seq<nat>)
    requires |pos| == |logs| && forall i | 0 <= i < |logs| :: pos[i] == |logs[i]|
    ensures Rest(logs, pos) == multiset{}
  {
    if logs != [] { RestNone(logs[..|logs| - 1], pos[..|logs| - 1]); }
  }

  lemma FirstAndRest(us: seq<Update>)
    requires us != []
    ensures multiset(us) == multiset(us[1..]) + multiset{us[0]}
  {
    assert us == [us[0]] + us[1..];
  }

  lemma HeadAndRest(us: seq<Update>, k: nat)
    requires k < |us|
    ensures multiset(us[k..]) == multiset{us[k]} + multiset(us[k + 1..])
  {
    assert us[k..] == [us[k]] + us[k + 1..];
  }

  lemma LastStep(logs: seq<seq<Update>>, pos: seq<nat>, q: seq<nat>, n: nat)
    requires |logs| == n + 1 && Within(logs, pos) && Within(logs, q) && q[..n] == pos[..n] && q[n] == pos[n] + 1
    ensures Rest(logs, pos) == Rest(logs, q) + multiset{logs[n][pos[n]]}
  {
    RestLast(logs, pos, n);
    RestLast(logs, q, n);
    HeadAndRest(logs[n], pos[n]);
  }

  lemma EarlierStep(logs: seq<seq<Update>>, pos: seq<nat>, q: seq<nat>, n: nat, u: Update)
    requires |logs| == n + 1 && Within(logs, pos) && Within(logs, q) && q[n] == pos[n]
    requires Within(logs[..n], pos[..n]) && Within(logs[..n], q[..n])
    requires Rest(logs[..n], pos[..n]) == Rest(logs[..n], q[..n]) + multiset{u}
    ensures Rest(logs, pos) == Rest(logs, q) + multiset{u}
  {
    RestLast(logs, pos, n);
    RestLast(logs, q, n);
  }

  lemma {:induction false} RestStep(logs: seq<seq<Update>>, pos: seq<nat>, i: nat)
    requires Within(logs, pos) && i < |logs| && pos[i] < |logs[i]|
    ensures Rest(logs, pos) == Rest(logs, pos[i := pos[i] + 1]) + multiset{logs[i][pos[i]]}
    decreases |logs|
  {
    var n := |logs| - 1;
    var q := pos[i := pos[i] + 1];
    if i == n {
      assert q[..n] == pos[..n];
      LastStep(logs, pos, q, n);
    } else {
      assert q[..n] == pos[..n][i := pos[i] + 1];
      RestStep(logs[..n], pos[..n], i);
      EarlierStep(logs, pos, q, n, logs[i][pos[i]]);
    }
  }
  /** Every interleaving holds exactly the updates of all logs. */
  lemma {:induction false} InterleavingHolds(logs: seq<seq<Update>>, pos: seq<nat>, us: seq<Update>)
    requires Within(logs, pos) && Interleaving(logs, pos, us)
    ensures multiset(us) == Rest(logs, pos)
    decreases |us|
  {
    if us == [] {
      RestNone(logs, pos);
    } else {
      var i :| 0 <= i < |logs| && pos[i] < |logs[i]| && us[0] == logs[i][pos[i]]
        && Interleaving(logs, pos[i := pos[i] + 1], us[1..]);
      InterleavingHolds(logs, pos[i := pos[i] + 1], us[1..]);
      RestStep(logs, pos, i);
      FirstAndRest(us);
    }
  }

  function Starts(n: nat): seq<nat> {
    seq(n, _ => 0)
  }

  /** However the replay threads interleave, the store ends up the same: the same as for any
      other order of all updates, the serial one by timestamp among them. */
  lemma InterleavingsAgree(s: Store, logs: seq<seq<Update>>, us: seq<Update>, serial: seq<Update>)
    requires Interleaving(logs, Starts(|logs|), us) && multiset(serial) == Rest(logs, Starts(|logs|))
    requires KeysIn(s, us) && KeysIn(s, serial) && OneWinner(s, serial)
    ensures Replayed(s, us) == Replayed(s, serial)
  {
    InterleavingHolds(logs, Starts(|logs|), us);
    Confluent(s, serial, us);
  }

  /** The same timestamp twice on a key: the order decides, so replay needs distinct timestamps. */
  lemma TieExample()
    ensures var s: Store := map[0 := Record(0, [])]; var a, b := Update(5, 0, [1]), Update(5, 0, [2]);
      Replayed(s, [a, b]) != Replayed(s, [b, a])
  {
    var s: Store := map[0 := Record(0, [])];
    var a, b := Update(5, 0, [1]), Update(5, 0, [2]);
    assert [a][..|[a]| - 1] == [] && [b][..|[b]| - 1] == [];
    assert Replayed(s, [a]) == Applied(s, a);
    assert Replayed(s, [b]) == Applied(s, b);
    assert [a, b][..|[a, b]| - 1] == [a] && [b, a][..|[b, a]| - 1] == [b];
    assert Replayed(s, [a, b])[0] == Record(5, [1]);
    assert Replayed(s, [b, a])[0] == Record(5, [2]);
  }

  // ----- One thread's replay -----

  datatype Element = Insert(value: Value) | Change(key: Key, value: Value)
  datatype Entry = Entry(timestamp: nat, elements: seq<Element>)

  function ElementUpdates(ts: nat, es: seq<Element>): seq<Update> {
    if es == [] then [] else
      var e := es[|es| - 1];
      ElementUpdates(ts, es[..|es| - 1]) + if e.Change? then [Update(ts, e.key, e.value)] else []
  }

  /** The updates a log makes, in order; logged inserts are not replayed. */
  function UpdatesOf(log: seq<Entry>): seq<Update> {
    if log == [] then []
      else UpdatesOf(log[..|log| - 1]) + ElementUpdates(log[|log| - 1].timestamp, log[|log| - 1].elements)
  }

  class Table {
    var records: map<Key, Record>

    constructor (s: Store)
      ensures records == s
    {
      records := s;
    }

    /** One logged element; not found if it updates a record that the table does not have. */
    method ProcessElement(ts: nat, e: Element) returns (found: bool)
      modifies this
      ensures found <==> (e.Change? ==> e.key in old(records))
      ensures records == if e.Change? && found then Applied(old(records), Update(ts, e.key, e.value)) else old(records)
    {
      found := true;
      if e.Change? {
        if e.key !in records {
          return false;
        }
        if ts > records[e.key].timestamp {
          records := records[e.key := Record(ts, e.value)];
        }
      }
    }

    method ProcessEntry(x: Entry, ghost s: Store, ghost before: seq<Update>) returns (found: bool)
      requires KeysIn(s, before) && records == Replayed(s, before)
      modifies this
      ensures found <==> KeysIn(s, before + ElementUpdates(x.timestamp, x.elements))
      ensures found ==> records == Replayed(s, before + ElementUpdates(x.timestamp, x.elements))
    {
      assert before + ElementUpdates(x.timestamp, x.elements[..0]) == before;
      for k := 0 to |x.elements|
        invariant KeysIn(s, before + ElementUpdates(x.timestamp, x.elements[..k]))
        invariant records == Replayed(s, before + ElementUpdates(x.timestamp, x.elements[..k]))
      {
        found := ProcessElement(x.timestamp, x.elements[k]);
        if !found {
          MissingElement(s, before, x.timestamp, x.elements, k);
          return;
        }
        NextElement(s, before, x.timestamp, x.elements, k);
      }
      assert x.elements[..|x.elements|] == x.elements;
      found := true;
    }

    /** ProcessLog of a thread on its own. */
    method ProcessLog(log: seq<Entry>) returns (found: bool)
      modifies this
      ensures found <==> KeysIn(old(records), UpdatesOf(log))
      ensures found ==> records == Replayed(old(records), UpdatesOf(log))
    {
      ghost var s := records;
      for i := 0 to |log|
        invariant KeysIn(s, UpdatesOf(log[..i])) && records == Replayed(s, UpdatesOf(log[..i]))
      {
        LogNext(log, i);
        found := ProcessEntry(log[i], s, UpdatesOf(log[..i]));
        if !found {
          MissingIn(s, UpdatesOf(log[..i + 1]), UpdatesOf(log));
          return;
        }
      }
      assert log[..|log|] == log;
      found := true;
    }
  }

  lemma MissingIn(s: Store, us: seq<Update>, all: seq<Update>)
    requires us <= all && !KeysIn(s, us)
    ensures !KeysIn(s, all)
  {
    var i :| 0 <= i < |us| && us[i].key !in s;
    assert all[i] == us[i];
  }

  lemma LogNext(log: seq<Entry>, i: nat)
    requires i < |log|
    ensures UpdatesOf(log[..i + 1]) == UpdatesOf(log[..i]) + ElementUpdates(log[i].timestamp, log[i].elements)
    ensures UpdatesOf(log[..i + 1]) <= UpdatesOf(log)
  {
    UpdatesPrefix(log, i + 1);
    assert log[..i + 1][..i] == log[..i];
  }

  lemma {:induction false} ElementsPrefix(ts: nat, es: seq<Element>, k: nat)
    requires k <= |es|
    ensures ElementUpdates(ts, es[..k]) <= ElementUpdates(ts, es)
    decreases |es| - k
  {
    if k < |es| {
      ElementsPrefix(ts, es, k + 1);
      assert es[..k + 1][..k] == es[..k];
    } else {
      assert es[..k] == es;
    }
  }

  /** The updates of the first k + 1 elements. */
  lemma OneMoreElement(ts: nat, es: seq<Element>, k: nat)
    requires k < |es|
    ensures ElementUpdates(ts, es[..k + 1])
      == ElementUpdates(ts, es[..k]) + if es[k].Change? then [Update(ts, es[k].key, es[k].value)] else []
    ensures ElementUpdates(ts, es[..k + 1]) <= ElementUpdates(ts, es)
  {
    ElementsPrefix(ts, es, k + 1);
    assert es[..k + 1][..k] == es[..k];
  }

  lemma MissingElement(s: Store, before: seq<Update>, ts: nat, es: seq<Element>, k: nat)
    requires k < |es| && es[k].Change? && es[k].key !in s
    ensures !KeysIn(s, before + ElementUpdates(ts, es))
  {
    OneMoreElement(ts, es, k);
    var us := before + ElementUpdates(ts, es[..k + 1]);
    assert us[|us| - 1] == Update(ts, es[k].key, es[k].value);
    assert us <= before + ElementUpdates(ts, es);
    MissingIn(s, us, before + ElementUpdates(ts, es));
  }

  lemma OneMoreUpdate(s: Store, us: seq<Update>, u: Update)
    requires KeysIn(s, us) && u.key in s
    ensures KeysIn(s, us + [u]) && Replayed(s, us + [u]) == Applied(Replayed(s, us), u)
  {
    assert (us + [u])[..|us|] == us;
  }

  lemma NextElement(s: Store, before: seq<Update>, ts: nat, es: seq<Element>, k: nat)
    requires k < |es| && KeysIn(s, before + ElementUpdates(ts, es[..k])) && (es[k].Change? ==> es[k].key in s)
    ensures KeysIn(s, before + ElementUpdates(ts, es[..k + 1]))
    ensures var r := Replayed(s, before + ElementUpdates(ts, es[..k]));
      Replayed(s, before + ElementUpdates(ts, es[..k + 1]))
      == if es[k].Change? then Applied(r, Update(ts, es[k].key, es[k].value)) else r
  {
    OneMoreElement(ts, es, k);
    var now, next := before + ElementUpdates(ts, es[..k]), before + ElementUpdates(ts, es[..k + 1]);
    if es[k].Change? {
      assert next == now + [Update(ts, es[k].key, es[k].value)];
      OneMoreUpdate(s, now, Update(ts, es[k].key, es[k].value));
    } else {
      assert next == now;
    }
  }

  lemma {:induction false} UpdatesPrefix(log: seq<Entry>, i: nat)
    requires i <= |log|
    ensures UpdatesOf(log[..i]) <= UpdatesOf(log)
    decreases |log| - i
  {
    if i < |log| {
      UpdatesPrefix(log, i + 1);
      assert log[..i + 1][..i] == log[..i];
    } else {
      assert log[..i] == log;
    }
  }
}
