// ReorderLog: the threads' log entries of each epoch batch merged by timestamp.
module Reorder {

  const NO_TIMESTAMP: nat := 0xFFFF_FFFF_FFFF_FFFF // uint64_t(-1)
  const W32: nat := 0x1_0000_0000

  datatype Entry = Entry(timestamp: nat, payload: int)

  /** An entry with the thread it comes from. */
  datatype Tagged = Tagged(thread: nat, entry: Entry)

  type Lists = seq<seq<Entry>>

  predicate Within(lists: Lists, pos: seq<nat>) {
    |pos| == |lists| && forall i | 0 <= i < |pos| :: pos[i] <= |lists[i]|
  }

  predicate Stamped(lists: Lists) {
    forall i, j | 0 <= i < |lists| && 0 <= j < |lists[i]| :: lists[i][j].timestamp <= NO_TIMESTAMP
  }

  predicate HasHead(lists: Lists, pos: seq<nat>, i: nat)
    requires Within(lists, pos)
  {
    i < |lists| && pos[i] < |lists[i]|
  }

  function Head(lists: Lists, pos: seq<nat>, i: nat): Entry
    requires Within(lists, pos) && HasHead(lists, pos, i)
  {
    lists[i][pos[i]]
  }

  /** i is the thread whose head comes next: the smallest timestamp, of the lowest thread that has it. */
  ghost predicate IsNext(lists: Lists, pos: seq<nat>, i: nat)
    requires Within(lists, pos)
  {
    && HasHead(lists, pos, i) && Head(lists, pos, i).timestamp < NO_TIMESTAMP
    && (forall k: nat | HasHead(lists, pos, k) :: Head(lists, pos, i).timestamp <= Head(lists, pos, k).timestamp)
    && (forall k: nat | k < i && HasHead(lists, pos, k) ::
         Head(lists, pos, i).timestamp < Head(lists, pos, k).timestamp)
  }

  /** Every list is used up, or stuck at an entry whose timestamp means "none". */
  ghost predicate Stuck(lists: Lists, pos: seq<nat>)
    requires Within(lists, pos)
  {
    forall k: nat | HasHead(lists, pos, k) :: Head(lists, pos, k).timestamp == NO_TIMESTAMP
  }

  function Sum(pos: seq<nat>): nat {
    if pos == [] then 0 else Sum(pos[..|pos| - 1]) + pos[|pos| - 1]
  }

  function Sizes(lists: Lists): seq<nat> {
    seq(|lists|, i requires 0 <= i < |lists| => |lists[i]|)
  }

  function Zeros(n: nat): (p: seq<nat>)
    ensures |p| == n
  {
    seq(n, _ => 0)
  }

  /** How far each of n lists has been passed once these have been put out. */
  function Passed(n: nat, out: seq<Tagged>): (p: seq<nat>)
    ensures |p| == n
  {
    if out == [] then Zeros(n) else
      var p, t := Passed(n, out[..|out| - 1]), out[|out| - 1].thread;
      if t < n then p[t := p[t] + 1] else p
  }

  /** Each entry put out was the next one when its turn came. */
  ghost predicate Merges(lists: Lists, out: seq<Tagged>)
    decreases |out|
  {
    out != [] ==>
      var n := |out| - 1;
      var p := Passed(|lists|, out[..n]);
      && Merges(lists, out[..n]) && Within(lists, p) && IsNext(lists, p, out[n].thread)
      && out[n].entry == Head(lists, p, out[n].thread)
  }

  function Entries(ts: seq<Tagged>): seq<Entry> {
    seq(|ts|, i requires 0 <= i < |ts| => ts[i].entry)
  }

  /** The scan over the threads for the next entry. */
  method FindNext(lists: Lists, pos: seq<nat>) returns (minTs: nat, thread: nat)
    requires Within(lists, pos) && Stamped(lists)
    ensures minTs == NO_TIMESTAMP ==> Stuck(lists, pos)
    ensures minTs != NO_TIMESTAMP ==> IsNext(lists, pos, thread)
  {
    minTs, thread := NO_TIMESTAMP, 0;
    var i := 0;
    while i < |lists|
      invariant 0 <= i <= |lists| && minTs <= NO_TIMESTAMP
      invariant forall k: nat | k < i && HasHead(lists, pos, k) :: minTs <= Head(lists, pos, k).timestamp
      invariant minTs != NO_TIMESTAMP ==>
        thread < i && HasHead(lists, pos, thread) && Head(lists, pos, thread).timestamp == minTs
      invariant minTs != NO_TIMESTAMP ==> forall k: nat | k < thread && HasHead(lists, pos, k) ::
        minTs < Head(lists, pos, k).timestamp
    {
      if pos[i] != |lists[i]| {
        assert HasHead(lists, pos, i);
        if minTs == NO_TIMESTAMP || lists[i][pos[i]].timestamp < minTs {
          minTs, thread := lists[i][pos[i]].timestamp, i;
        }
      }
      i := i + 1;
    }
  }

  lemma {:induction false} SumStep(pos: seq<nat>, i: nat, x: nat)
    requires i < |pos|
    ensures Sum(pos[i := x]) + pos[i] == Sum(pos) + x
    decreases |pos|
  {
    var n := |pos| - 1;
    if i == n {
      assert pos[i := x][..n] == pos[..n];
    } else {
      assert pos[i := x][..n] == pos[..n][i := x];
      SumStep(pos[..n], i, x);
    }
  }

  lemma {:induction false} SumBelow(a: seq<nat>, b: seq<nat>)
    requires |a| == |b| && forall i | 0 <= i < |a| :: a[i] <= b[i]
    ensures Sum(a) <= Sum(b) && (Sum(a) == Sum(b) ==> a == b)
  {
    if a != [] {
      var n := |a| - 1;
      SumBelow(a[..n], b[..n]);
      assert a[n] <= b[n];
      if Sum(a) == Sum(b) { SameLast(a, b, n); }
    }
  }

  lemma SameLast(a: seq<nat>, b: seq<nat>, n: nat)
    requires |a| == |b| == n + 1 && a[..n] == b[..n] && a[n] == b[n]
    ensures a == b
  {
    assert a == a[..n] + [a[n]] && b == b[..n] + [b[n]];
  }

  /** A merge that has put out all it can. */
  ghost predicate Merged(lists: Lists, out: seq<Tagged>) {
    Merges(lists, out) && Within(lists, Passed(|lists|, out)) && Stuck(lists, Passed(|lists|, out))
  }

  /** out is the merge of the lists; there is only one. */
  ghost predicate MergeOf(lists: Lists, out: seq<Entry>) {
    exists tagged :: Merged(lists, tagged) && out == Entries(tagged)
  }

  lemma {:induction false} MergesPrefix(lists: Lists, out: seq<Tagged>, n: nat)
    requires Merges(lists, out) && n <= |out|
    ensures Merges(lists, out[..n])
    decreases |out|
  {
    if n < |out| {
      MergesPrefix(lists, out[..|out| - 1], n);
      assert out[..|out| - 1][..n] == out[..n];
    } else {
      assert out[..n] == out;
    }
  }

  lemma OneNext(lists: Lists, pos: seq<nat>, i: nat, j: nat)
    requires Within(lists, pos) && IsNext(lists, pos, i) && IsNext(lists, pos, j)
    ensures i == j
  {}

  /** At every step there is one entry that comes next. */
  lemma {:induction false} MergesAgree(lists: Lists, a: seq<Tagged>, b: seq<Tagged>)
    requires Merges(lists, a) && Merges(lists, b) && |a| == |b|
    ensures a == b
    decreases |a|
  {
    if a != [] {
      var n := |a| - 1;
      MergesAgree(lists, a[..n], b[..n]);
      OneNext(lists, Passed(|lists|, a[..n]), a[n].thread, b[n].thread);
      assert a == a[..n] + [a[n]] && b == b[..n] + [b[n]];
    }
  }

  /** The merge of the lists is determined. */
  lemma MergeUnique(lists: Lists, a: seq<Tagged>, b: seq<Tagged>)
    requires Merged(lists, a) && Merged(lists, b)
    ensures a == b
  {
    var n := if |a| < |b| then |a| else |b|;
    MergesPrefix(lists, a, n);
    MergesPrefix(lists, b, n);
    MergesAgree(lists, a[..n], b[..n]);
    assert a[..|a|] == a && b[..|b|] == b;
    if n < |a| { NextTaken(lists, a, b, n); }
    if n < |b| { NextTaken(lists, b, a, n); }
  }

  lemma LastNext(lists: Lists, a: seq<Tagged>, p: seq<nat>)
    requires Merges(lists, a) && a != [] && p == Passed(|lists|, a[..|a| - 1])
    ensures Within(lists, p) && IsNext(lists, p, a[|a| - 1].thread)
  {}

  /** A merge that goes on has something to put out, so the shorter one is not done. */
  lemma NextTaken(lists: Lists, a: seq<Tagged>, b: seq<Tagged>, n: nat)
    requires Merges(lists, a) && n == |b| < |a| && a[..n] == b && Within(lists, Passed(|lists|, b))
    ensures !Stuck(lists, Passed(|lists|, b))
  {
    MergesPrefix(lists, a, n + 1);
    var c := a[..n + 1];
    assert c[..n] == b;
    LastNext(lists, c, Passed(|lists|, b));
    assert HasHead(lists, Passed(|lists|, b), c[n].thread);
  }

  lemma PassedMore(n: nat, out: seq<Tagged>, x: Tagged)
    requires x.thread < n
    ensures Passed(n, out + [x]) == Passed(n, out)[x.thread := Passed(n, out)[x.thread] + 1]
    ensures Entries(out + [x]) == Entries(out) + [x.entry]
  {
    assert (out + [x])[..|out|] == out;
  }

  lemma MergeStep(lists: Lists, out: seq<Tagged>, t: nat)
    requires Merges(lists, out) && Within(lists, Passed(|lists|, out)) && IsNext(lists, Passed(|lists|, out), t)
    ensures Merges(lists, out + [Tagged(t, Head(lists, Passed(|lists|, out), t))])
  {
    assert (out + [Tagged(t, Head(lists, Passed(|lists|, out), t))])[..|out|] == out;
  }

  lemma RoomLeft(lists: Lists, pos: seq<nat>, t: nat)
    requires Within(lists, pos) && HasHead(lists, pos, t)
    ensures Within(lists, pos[t := pos[t] + 1]) && Sum(pos[t := pos[t] + 1]) == Sum(pos) + 1 <= Sum(Sizes(lists))
  {
    SumStep(pos, t, pos[t] + 1);
    SumBelow(pos[t := pos[t] + 1], Sizes(lists));
  }

  /** One more entry taken in its turn. */
  lemma TakeNext(lists: Lists, tagged: seq<Tagged>, pos: seq<nat>, t: nat)
    requires Within(lists, pos) && pos == Passed(|lists|, tagged) && Merges(lists, tagged) && IsNext(lists, pos, t)
    ensures var x, to := Tagged(t, lists[t][pos[t]]), pos[t := pos[t] + 1];
      && Within(lists, to) && to == Passed(|lists|, tagged + [x]) && Merges(lists, tagged + [x])
      && Entries(tagged + [x]) == Entries(tagged) + [x.entry] && Sum(to) == Sum(pos) + 1 <= Sum(Sizes(lists))
  {
    MergeStep(lists, tagged, t);
    PassedMore(|lists|, tagged, Tagged(t, lists[t][pos[t]]));
    RoomLeft(lists, pos, t);
  }

  /** The merge loop of one batch: it stops, and leaves over only what is stuck. */
  method MergeBatch(lists: Lists) returns (out: seq<Entry>)
    requires Stamped(lists)
    ensures MergeOf(lists, out)
  {
    var pos: seq<nat> := Zeros(|lists|);
    ghost var tagged: seq<Tagged> := [];
    out := [];
    while true
      invariant Within(lists, pos) && pos == Passed(|lists|, tagged) && Merges(lists, tagged) && out == Entries(tagged)
      decreases Sum(Sizes(lists)) - Sum(pos)
    {
      var minTs, thread := FindNext(lists, pos);
      if minTs == NO_TIMESTAMP {
        break;
      }
      TakeNext(lists, tagged, pos, thread);
      tagged := tagged + [Tagged(thread, lists[thread][pos[thread]])];
      out := out + [lists[thread][pos[thread]]];
      pos := pos[thread := pos[thread] + 1];
    }
  }

  // ----- What a merge is -----

  /** The entries that come from thread i, in order. */
  function FromThread(out: seq<Tagged>, i: nat): seq<Entry> {
    if out == [] then []
      else FromThread(out[..|out| - 1], i) + if out[|out| - 1].thread == i then [out[|out| - 1].entry] else []
  }

  /** Stable: what comes from a thread is its list from the start, in its order. */
  lemma {:induction false} MergeStable(lists: Lists, out: seq<Tagged>, i: nat)
    requires Merges(lists, out) && i < |lists|
    ensures Within(lists, Passed(|lists|, out)) && FromThread(out, i) == lists[i][..Passed(|lists|, out)[i]]
  {
    if out != [] {
      var n := |out| - 1;
      var p, to := Passed(|lists|, out[..n]), Passed(|lists|, out);
      MergeStable(lists, out[..n], i);
      if out[n].thread == i { assert lists[i][..to[i]] == lists[i][..p[i]] + [lists[i][p[i]]]; }
    }
  }

  predicate SortedList(es: seq<Entry>) {
    forall j, k | 0 <= j < k < |es| :: es[j].timestamp <= es[k].timestamp
  }

  /** What is out is not after any head that is left. */
  ghost predicate NotAfter(lists: Lists, out: seq<Tagged>, pos: seq<nat>)
    requires Within(lists, pos)
  {
    forall a, k: nat | 0 <= a < |out| && HasHead(lists, pos, k) :: InOrder(out[a], Tagged(k, Head(lists, pos, k)))
  }

  /** In timestamp order, ties by the lower thread. */
  predicate SortedOut(out: seq<Tagged>) {
    forall a, b | 0 <= a < b < |out| :: InOrder(out[a], out[b])
  }

  predicate InOrder(x: Tagged, y: Tagged) {
    x.entry.timestamp < y.entry.timestamp || (x.entry.timestamp == y.entry.timestamp && x.thread <= y.thread)
  }

  /** If every thread's list is in timestamp order, so is the merge, ties going to the lower thread. */
  lemma {:induction false} MergeSorted(lists: Lists, out: seq<Tagged>)
    requires Merges(lists, out) && forall i | 0 <= i < |lists| :: SortedList(lists[i])
    ensures Within(lists, Passed(|lists|, out)) && NotAfter(lists, out, Passed(|lists|, out)) && SortedOut(out)
  {
    if out != [] {
      var n := |out| - 1;
      var p := Passed(|lists|, out[..n]);
      MergeSorted(lists, out[..n]);
      SortedStep(lists, out, n, p, Passed(|lists|, out));
    }
  }

  lemma SortedStep(lists: Lists, out: seq<Tagged>, n: nat, p: seq<nat>, to: seq<nat>)
    requires |out| == n + 1 && Within(lists, p) && Within(lists, to)
    requires IsNext(lists, p, out[n].thread) && out[n].entry == Head(lists, p, out[n].thread)
    requires to == p[out[n].thread := p[out[n].thread] + 1] && forall i | 0 <= i < |lists| :: SortedList(lists[i])
    requires NotAfter(lists, out[..n], p) && SortedOut(out[..n])
    ensures NotAfter(lists, out, to) && SortedOut(out)
  {
    var t := out[n].thread;
    forall a | 0 <= a < n ensures out[..n][a] == out[a] && InOrder(out[a], out[n]) { assert HasHead(lists, p, t); }
    forall k: nat | HasHead(lists, to, k)
      ensures HasHead(lists, p, k) && Head(lists, p, k).timestamp <= Head(lists, to, k).timestamp
    {
      assert SortedList(lists[k]);
    }
    forall a, k: nat | 0 <= a < |out| && HasHead(lists, to, k) ensures InOrder(out[a], Tagged(k, Head(lists, to, k))) {
      assert HasHead(lists, p, k);
      if a < n {
        assert InOrder(out[..n][a], Tagged(k, Head(lists, p, k)));
      } else {
        assert InOrder(out[n], Tagged(k, Head(lists, p, k)));
      }
    }
    forall a, b | 0 <= a < b < |out| ensures InOrder(out[a], out[b]) {
      if b < n { assert InOrder(out[..n][a], out[..n][b]); }
    }
  }

  function AllEntries(lists: Lists): multiset<Entry> {
    if lists == [] then multiset{} else AllEntries(lists[..|lists| - 1]) + multiset(lists[|lists| - 1])
  }

  lemma {:induction false} AllWithPrefix(lists: Lists, cut: Lists, i: nat, e: Entry)
    requires i < |lists| == |cut| && (forall k | 0 <= k < |lists| && k != i :: cut[k] == lists[k])
    requires lists[i] == cut[i] + [e]
    ensures AllEntries(lists) == AllEntries(cut) + multiset{e}
    decreases |lists|
  {
    var n := |lists| - 1;
    if i == n {
      assert lists[..n] == cut[..n];
    } else {
      AllWithPrefix(lists[..n], cut[..n], i, e);
    }
  }

  function Cut(lists: Lists, pos: seq<nat>): Lists
    requires Within(lists, pos)
  {
    seq(|lists|, i requires 0 <= i < |lists| => lists[i][..pos[i]])
  }

  lemma {:induction false} CutNone(lists: Lists)
    requires forall i | 0 <= i < |lists| :: lists[i] == []
    ensures AllEntries(lists) == multiset{}
  {
    if lists != [] { CutNone(lists[..|lists| - 1]); }
  }

  /** Nothing is lost and nothing made up: the output is what has been passed in the lists. */
  lemma {:induction false} MergeConserves(lists: Lists, out: seq<Tagged>)
    requires Merges(lists, out)
    ensures Within(lists, Passed(|lists|, out))
    ensures multiset(Entries(out)) == AllEntries(Cut(lists, Passed(|lists|, out)))
    ensures forall e | e in Entries(out) :: e.timestamp < NO_TIMESTAMP
  {
    if out == [] {
      CutNone(Cut(lists, Zeros(|lists|)));
    } else {
      var n := |out| - 1;
      var p, to := Passed(|lists|, out[..n]), Passed(|lists|, out);
      MergeConserves(lists, out[..n]);
      TakenLast(lists, out, n, p, to);
      LastEntry(out, n);
    }
  }

  lemma LastEntry(out: seq<Tagged>, n: nat)
    requires |out| == n + 1
    ensures Entries(out) == Entries(out[..n]) + [out[n].entry]
  {}

  lemma TakenLast(lists: Lists, out: seq<Tagged>, n: nat, p: seq<nat>, to: seq<nat>)
    requires Merges(lists, out) && |out| == n + 1 && p == Passed(|lists|, out[..n])
    requires to == Passed(|lists|, out) && Within(lists, p)
    ensures Within(lists, to) && out[n].entry.timestamp < NO_TIMESTAMP
    ensures AllEntries(Cut(lists, to)) == AllEntries(Cut(lists, p)) + multiset{out[n].entry}
  {
    CutGrows(lists, p, to, out[n].thread, out[n].entry);
  }

  lemma CutGrows(lists: Lists, p: seq<nat>, to: seq<nat>, t: nat, e: Entry)
    requires Within(lists, p) && Within(lists, to) && HasHead(lists, p, t)
    requires e == Head(lists, p, t) && to == p[t := p[t] + 1]
    ensures AllEntries(Cut(lists, to)) == AllEntries(Cut(lists, p)) + multiset{e}
  {
    assert lists[t][..to[t]] == lists[t][..p[t]] + [e];
    AllWithPrefix(Cut(lists, to), Cut(lists, p), t, e);
  }

  /** The merge is a permutation of all entries exactly if none carries the timestamp that means "none". */
  lemma PermutationIff(lists: Lists, out: seq<Tagged>)
    requires Stamped(lists) && Merged(lists, out)
    ensures multiset(Entries(out)) == AllEntries(lists) <==> forall i, j | 0 <= i < |lists| && 0 <= j < |lists[i]| ::
      lists[i][j].timestamp != NO_TIMESTAMP
  {
    var to := Passed(|lists|, out);
    MergeConserves(lists, out);
    if forall i, j | 0 <= i < |lists| && 0 <= j < |lists[i]| :: lists[i][j].timestamp != NO_TIMESTAMP {
      forall i: nat | i < |lists| ensures Cut(lists, to)[i] == lists[i] {
        assert HasHead(lists, to, i) ==> Head(lists, to, i).timestamp == NO_TIMESTAMP;
      }
      assert Cut(lists, to) == lists;
    } else {
      var i, j :| 0 <= i < |lists| && 0 <= j < |lists[i]| && lists[i][j].timestamp == NO_TIMESTAMP;
      InAll(lists, i, j);
      assert lists[i][j] !in Entries(out);
      assert lists[i][j] !in multiset(Entries(out));
    }
  }

  lemma {:induction false} InAll(lists: Lists, i: nat, j: nat)
    requires i < |lists| && j < |lists[i]|
    ensures lists[i][j] in AllEntries(lists)
    decreases |lists|
  {
    if i < |lists| - 1 { InAll(lists[..|lists| - 1], i, j); }
  }

  // ----- All batches -----

  datatype Batch = Batch(epoch: nat, entries: seq<Entry>)

  /** Thread i's list of batch k. */
  function BatchLists(logs: seq<seq<Batch>>, k: nat): Lists
    requires forall i | 0 <= i < |logs| :: k < |logs[i]|
  {
    seq(|logs|, i requires 0 <= i < |logs| => logs[i][k].entries)
  }

  /** What ReorderLog needs: equal batch counts, equal epochs per batch, at least one thread. */
  predicate Aligned(logs: seq<seq<Batch>>) {
    && |logs| > 0
    && (forall i | 0 <= i < |logs| :: |logs[i]| == |logs[0]|)
    && (forall i, k | 0 <= i < |logs| && 0 <= k < |logs[0]| ::
         logs[i][k].epoch == logs[0][k].epoch && Stamped(BatchLists(logs, k)))
  }

  /** The batches of the serial log are the merges of the threads' batches. */
  ghost predicate Reordered(logs: seq<seq<Batch>>, serial: seq<Batch>)
    requires Aligned(logs)
  {
    && |serial| == |logs[0]|
    && (forall k | 0 <= k < |serial| ::
         serial[k].epoch == logs[0][k].epoch && MergeOf(BatchLists(logs, k), serial[k].entries))
  }

  method ReorderLog(logs: seq<seq<Batch>>) returns (serial: seq<Batch>)
    requires Aligned(logs)
    ensures Reordered(logs, serial)
  {
    var batchCount := |logs[0]|;
    serial := [];
    var k := 0;
    while k < batchCount
      invariant 0 <= k <= batchCount && |serial| == k
      invariant forall j | 0 <= j < k ::
        serial[j].epoch == logs[0][j].epoch && MergeOf(BatchLists(logs, j), serial[j].entries)
    {
      assert logs[0][k].epoch == logs[0][k].epoch && Stamped(BatchLists(logs, k));
      var out := MergeBatch(BatchLists(logs, k));
      serial := serial + [Batch(logs[0][k].epoch, out)];
      k := k + 1;
    }
  }

  function Flat(bs: seq<Batch>): seq<Entry> {
    if bs == [] then [] else Flat(bs[..|bs| - 1]) + bs[|bs| - 1].entries
  }

  predicate InBatchEpochs(bs: seq<Batch>) {
    forall k, j | 0 <= k < |bs| && 0 <= j < |bs[k].entries| :: bs[k].entries[j].timestamp / W32 == bs[k].epoch
  }

  predicate EpochsGrow(bs: seq<Batch>) {
    forall k, m | 0 <= k < m < |bs| :: bs[k].epoch < bs[m].epoch
  }

  /** All that stands before a batch is of an earlier epoch. */
  lemma {:induction false} FlatEarlier(bs: seq<Batch>, n: nat)
    requires n < |bs| && InBatchEpochs(bs) && EpochsGrow(bs)
    ensures forall j | 0 <= j < |Flat(bs[..n])| :: Flat(bs[..n])[j].timestamp / W32 < bs[n].epoch
    decreases n
  {
    if n > 0 {
      FlatEarlier(bs, n - 1);
      assert bs[..n][..n - 1] == bs[..n - 1];
      assert bs[n - 1].epoch < bs[n].epoch;
      var f: seq<Entry>, g: seq<Entry> := Flat(bs[..n - 1]), bs[n - 1].entries;
      var all := f + g;
      forall j | 0 <= j < |all| ensures all[j].timestamp / W32 < bs[n].epoch {
        if j >= |f| { assert all[j] == g[j - |f|] && g[j - |f|].timestamp / W32 == bs[n - 1].epoch; }
      }
    }
  }

  lemma SortedJoin(f: seq<Entry>, g: seq<Entry>, epoch: nat)
    requires SortedList(f) && SortedList(g)
    requires forall j | 0 <= j < |f| :: f[j].timestamp / W32 < epoch
    requires forall j | 0 <= j < |g| :: g[j].timestamp / W32 == epoch
    ensures SortedList(f + g)
  {
    forall j, k | 0 <= j < |f| && 0 <= k < |g| ensures f[j].timestamp <= g[k].timestamp {
      assert f[j].timestamp / W32 < g[k].timestamp / W32;
    }
  }

  /** With timestamps that begin with their batch's epoch and epochs that grow, sorted batches
      one after the other are sorted. */
  lemma {:induction false} FlatSorted(bs: seq<Batch>)
    requires (forall k | 0 <= k < |bs| :: SortedList(bs[k].entries)) && InBatchEpochs(bs) && EpochsGrow(bs)
    ensures SortedList(Flat(bs))
  {
    if bs != [] {
      var n := |bs| - 1;
      FlatSorted(bs[..n]);
      FlatEarlier(bs, n);
      SortedJoin(Flat(bs[..n]), bs[n].entries, bs[n].epoch);
    }
  }

  lemma EntriesSorted(out: seq<Tagged>)
    requires SortedOut(out)
    ensures SortedList(Entries(out))
  {
    forall j, k | 0 <= j < k < |out|
      ensures Entries(out)[j].timestamp <= Entries(out)[k].timestamp
    {
      assert InOrder(out[j], out[k]);
    }
  }

  /** What the merge puts out comes from the lists. */
  lemma {:induction false} FromLists(lists: Lists, out: seq<Tagged>, a: nat)
    requires Merges(lists, out) && a < |out|
    ensures exists i, j :: 0 <= i < |lists| && 0 <= j < |lists[i]| && lists[i][j] == out[a].entry
    decreases |out|
  {
    var n := |out| - 1;
    if a < n {
      FromLists(lists, out[..n], a);
    } else {
      var p := Passed(|lists|, out[..n]);
      assert lists[out[n].thread][p[out[n].thread]] == out[a].entry;
    }
  }

  /** The reordered log as a whole is in timestamp order, if each thread's batches are and every
      timestamp begins with its batch's epoch. */
  lemma ReorderedSorted(logs: seq<seq<Batch>>, serial: seq<Batch>)
    requires Aligned(logs) && Reordered(logs, serial)
    requires forall i, k | 0 <= i < |logs| && 0 <= k < |logs[0]| :: SortedList(logs[i][k].entries)
    requires forall i, k, j | 0 <= i < |logs| && 0 <= k < |logs[0]| && 0 <= j < |logs[i][k].entries| ::
      logs[i][k].entries[j].timestamp / W32 == logs[i][k].epoch
    requires forall k, m | 0 <= k < m < |logs[0]| :: logs[0][k].epoch < logs[0][m].epoch
    ensures SortedList(Flat(serial))
  {
    forall k | 0 <= k < |serial| ensures SortedList(serial[k].entries) {
      var tagged: seq<Tagged> :| Merged(BatchLists(logs, k), tagged) && serial[k].entries == Entries(tagged);
      MergeSorted(BatchLists(logs, k), tagged);
      EntriesSorted(tagged);
    }
    forall k, j | 0 <= k < |serial| && 0 <= j < |serial[k].entries|
      ensures serial[k].entries[j].timestamp / W32 == serial[k].epoch
    {
      var lists := BatchLists(logs, k);
      var tagged: seq<Tagged> :| Merged(lists, tagged) && serial[k].entries == Entries(tagged);
      FromLists(lists, tagged, j);
      var i, m :| 0 <= i < |lists| && 0 <= m < |lists[i]| && lists[i][m] == tagged[j].entry;
      assert lists[i] == logs[i][k].entries && logs[i][k].epoch == logs[0][k].epoch;
    }
    forall k, m | 0 <= k < m < |serial| ensures serial[k].epoch < serial[m].epoch {
      assert logs[0][k].epoch < logs[0][m].epoch;
    }
    FlatSorted(serial);
  }

  /** One entry whose timestamp is -1: the merge stops before it and drops it. */
  lemma DropExample()
    ensures var lists := [[Entry(NO_TIMESTAMP, 1)]];
      Stamped(lists) && Merged(lists, []) && multiset(Entries([])) != AllEntries(lists)
  {
    var lists := [[Entry(NO_TIMESTAMP, 1)]];
    assert Passed(1, []) == [0];
    InAll(lists, 0, 0);
  }
}
