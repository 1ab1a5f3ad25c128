// A record's version history, newest first, and what pruning may and may not drop.
module History {

  datatype Version = Version(timestamp: nat, data: int)

  /** Newest first, timestamps strictly falling. */
  predicate Ordered(h: seq<Version>) {
    forall i, j | 0 <= i < j < |h| :: h[j].timestamp < h[i].timestamp
  }

  /** The newest version not above t, or the record's initial data. */
  function ReadAt(h: seq<Version>, t: nat, initial: int): int {
    if h == [] then initial else if h[0].timestamp <= t then h[0].data else ReadAt(h[1..], t, initial)
  }

  /** Versions go from the old end while the next newer one is below the threshold. */
  function Pruned(h: seq<Version>, min: nat): (r: seq<Version>)
    ensures r <= h && (h != [] ==> r != [])
  {
    if |h| >= 2 && h[|h| - 2].timestamp < min then Pruned(h[..|h| - 1], min) else h
  }

  const K_RECYCLE_LENGTH := 100

  function Written(h: seq<Version>, v: Version, min: nat): seq<Version> {
    var g := [v] + h;
    if |g| > K_RECYCLE_LENGTH then Pruned(g, min) else g
  }

  /** What is dropped and what is kept: everything from the threshold on, and the newest below it. */
  lemma {:induction false} PrunedKeeps(h: seq<Version>, min: nat)
    requires Ordered(h)
    ensures var n := |Pruned(h, min)|;
      && Pruned(h, min) == h[..n] && (h != [] ==> n > 0)
      && (n >= 2 ==> h[n - 2].timestamp >= min)
      && (n < |h| ==> n > 0 && h[n - 1].timestamp < min)
    decreases |h|
  {
    var n := |h| - 1;
    if |h| >= 2 && h[n - 1].timestamp < min {
      PrunedKeeps(h[..n], min);
      var m := |Pruned(h, min)|;
      assert h[..n][..m] == h[..m];
    }
  }

  /** A read finds the version with the largest timestamp up to t. */
  lemma {:induction false} ReadNewest(h: seq<Version>, t: nat, initial: int, i: nat)
    requires Ordered(h) && i < |h| && h[i].timestamp <= t
    requires forall j | 0 <= j < |h| && h[j].timestamp <= t :: h[j].timestamp <= h[i].timestamp
    ensures ReadAt(h, t, initial) == h[i].data
  {
    if i > 0 { ReadNewest(h[1..], t, initial, i - 1); }
  }

  lemma {:induction false} ReadInitial(h: seq<Version>, t: nat, initial: int)
    requires forall i | 0 <= i < |h| :: h[i].timestamp > t
    ensures ReadAt(h, t, initial) == initial
  {
    if h != [] { ReadInitial(h[1..], t, initial); }
  }

  lemma {:induction false} ReadPrefix(h: seq<Version>, n: nat, t: nat, initial: int)
    requires n <= |h|
    ensures (exists i :: 0 <= i < n && h[i].timestamp <= t) ==> ReadAt(h[..n], t, initial) == ReadAt(h, t, initial)
    ensures !(exists i :: 0 <= i < n && h[i].timestamp <= t) ==> ReadAt(h[..n], t, initial) == initial
  {
    if n > 0 && h[0].timestamp > t {
      assert h[..n][1..] == h[1..][..n - 1];
      ReadPrefix(h[1..], n - 1, t, initial);
      if i :| 0 <= i < n && h[i].timestamp <= t { assert h[1..][i - 1].timestamp <= t; }
      if i :| 0 <= i < n - 1 && h[1..][i].timestamp <= t { assert h[i + 1].timestamp <= t; }
    } else if n > 0 {
      assert h[..n][0] == h[0];
    }
  }

  /** A reader at t is harmed by pruning at min: its version is old enough to be dropped while a
      newer one, above the reader, is still below the threshold. */
  predicate Harmed(h: seq<Version>, t: nat, min: nat) {
    exists i, j :: 0 <= i < j < |h| && h[j].timestamp <= t < h[i].timestamp < min
  }

  /** Reads at t survive pruning at min exactly if nobody is harmed. (Versions have data of their
      own, different from the initial data.) */
  lemma PruneExact(h: seq<Version>, t: nat, min: nat, initial: int)
    requires Ordered(h) && forall i | 0 <= i < |h| :: h[i].data != initial
    ensures ReadAt(Pruned(h, min), t, initial) == ReadAt(h, t, initial) <==> !Harmed(h, t, min)
  {
    PrunedKeeps(h, min);
    var n := |Pruned(h, min)|;
    ReadPrefix(h, n, t, initial);
    if i :| 0 <= i < n && h[i].timestamp <= t {
      forall a, b | 0 <= a < b < |h| && h[b].timestamp <= t < h[a].timestamp
        ensures h[a].timestamp >= min
      {
        HarmedNot(h, n, t, min, i, a);
      }
    } else {
      ReadWhole(h, n, t, initial);
      HarmedIff(h, n, t, min);
    }
  }

  lemma HarmedNot(h: seq<Version>, n: nat, t: nat, min: nat, i: nat, a: nat)
    requires Ordered(h) && i < n <= |h| && h[i].timestamp <= t && a < |h|
    requires t < h[a].timestamp && (n >= 2 ==> h[n - 2].timestamp >= min)
    ensures h[a].timestamp >= min
  {
    assert a < i;
    assert a <= n - 2;
    assert h[a].timestamp >= h[n - 2].timestamp;
  }

  /** With nothing up to n readable at t, the whole history reads initial only if nothing is. */
  lemma {:induction false} ReadWhole(h: seq<Version>, n: nat, t: nat, initial: int)
    requires Ordered(h) && n <= |h| && (forall i | 0 <= i < n :: h[i].timestamp > t)
    requires forall i | 0 <= i < |h| :: h[i].data != initial
    ensures ReadAt(h, t, initial) == initial <==> forall i | 0 <= i < |h| :: h[i].timestamp > t
  {
    if h != [] {
      if h[0].timestamp > t {
        ReadWhole(h[1..], if n > 0 then n - 1 else 0, t, initial);
        assert forall i | 1 <= i < |h| :: h[i] == h[1..][i - 1];
      }
    }
  }

  /** With nothing kept readable at t, somebody is harmed exactly if something dropped was. */
  lemma HarmedIff(h: seq<Version>, n: nat, t: nat, min: nat)
    requires Ordered(h) && n <= |h| && (n < |h| ==> n > 0 && h[n - 1].timestamp < min)
    requires forall i | 0 <= i < n :: h[i].timestamp > t
    ensures Harmed(h, t, min) <==> exists i :: 0 <= i < |h| && h[i].timestamp <= t
  {
    if i :| 0 <= i < |h| && h[i].timestamp <= t {
      assert n - 1 < i && h[i].timestamp <= t < h[n - 1].timestamp < min;
    }
  }

  /** A threshold at or below the reader harms nobody. */
  lemma LowThresholdSafe(h: seq<Version>, t: nat, min: nat, initial: int)
    requires Ordered(h) && min <= t
    ensures ReadAt(Pruned(h, min), t, initial) == ReadAt(h, t, initial)
  {
    PrunedKeeps(h, min);
    var n := |Pruned(h, min)|;
    ReadPrefix(h, n, t, initial);
    if n < |h| { assert h[n - 1].timestamp <= t; }
    assert h[..|h|] == h;
  }

  /** A write with a larger timestamp, with any pruning at or below the reader, does not change
      what the reader sees, and keeps the history in order. */
  lemma WriteKeepsSnapshot(h: seq<Version>, v: Version, t: nat, min: nat, initial: int)
    requires Ordered(h) && (h != [] ==> h[0].timestamp < v.timestamp) && t < v.timestamp && min <= t
    ensures Ordered(Written(h, v, min)) && Written(h, v, min)[0] == v
    ensures ReadAt(Written(h, v, min), t, initial) == ReadAt(h, t, initial)
  {
    var g := [v] + h;
    OrderedWrite(h, v, min);
    assert g[1..] == h;
    if |g| > K_RECYCLE_LENGTH { LowThresholdSafe(g, t, min, initial); }
  }

  // ----- The thread slots -----

  /** What GetMinTimestamp computes from its loads: cs[i] is slot i as compared, ms[i] as assigned,
      when it is. */
  function MinLoop(cs: seq<nat>, ms: seq<nat>): nat
    requires 0 < |cs| == |ms|
  {
    if |cs| == 1 then cs[0] else
      var n := |cs| - 1;
      var res := MinLoop(cs[..n], ms[..n]);
      if cs[n] < res then ms[n] else res
  }

  /** Slot k, behind slot i, is the last one compared at or below b; it was below the running minimum
      then, and has grown above b by the time it is assigned. */
  predicate TornBy(cs: seq<nat>, ms: seq<nat>, i: nat, b: nat, k: nat)
    requires |cs| == |ms|
  {
    && i < k < |cs| && cs[k] <= b < ms[k] && cs[k] < MinLoop(cs[..k], ms[..k])
    && (forall l | k < l < |cs| :: cs[l] > b)
  }

  predicate Torn(cs: seq<nat>, ms: seq<nat>, i: nat, b: nat)
    requires |cs| == |ms|
  {
    exists k | 0 <= k < |cs| :: TornBy(cs, ms, i, b, k)
  }

  /** What one more slot does to the running minimum. */
  lemma MinLoopStep(cs: seq<nat>, ms: seq<nat>, n: nat)
    requires |cs| == |ms| == n + 1 && n > 0
    ensures MinLoop(cs, ms) == if cs[n] < MinLoop(cs[..n], ms[..n]) then ms[n] else MinLoop(cs[..n], ms[..n])
  {}

  lemma TornByPrefix(cs: seq<nat>, ms: seq<nat>, i: nat, b: nat, n: nat, k: nat)
    requires |cs| == |ms| == n + 1 && cs[n] > b
    ensures TornBy(cs, ms, i, b, k) <==> TornBy(cs[..n], ms[..n], i, b, k)
  {
    if k < n {
      assert cs[..n][..k] == cs[..k] && ms[..n][..k] == ms[..k];
      assert (forall l | k < l < |cs| :: cs[l] > b) <==> forall l | k < l < n :: cs[..n][l] > b;
    }
  }

  lemma TornPrefix(cs: seq<nat>, ms: seq<nat>, i: nat, b: nat, n: nat)
    requires |cs| == |ms| == n + 1 && cs[n] > b
    ensures Torn(cs, ms, i, b) <==> Torn(cs[..n], ms[..n], i, b)
  {
    forall k: nat
      ensures TornBy(cs, ms, i, b, k) <==> TornBy(cs[..n], ms[..n], i, b, k)
    {
      TornByPrefix(cs, ms, i, b, n, k);
    }
    if Torn(cs, ms, i, b) {
      var k: nat :| k < |cs| && TornBy(cs, ms, i, b, k);
      assert TornBy(cs[..n], ms[..n], i, b, k);
    }
  }

  /** Slots only grow and slot i stays at or below b: the threshold ends up above b exactly if the
      loads are torn there. */
  lemma {:induction false} MinLoopExact(cs: seq<nat>, ms: seq<nat>, i: nat, b: nat)
    requires 0 < |cs| == |ms| && cs[0] == ms[0]
    requires (forall k | 0 <= k < |cs| :: cs[k] <= ms[k]) && i < |cs| && ms[i] <= b
    ensures MinLoop(cs, ms) > b <==> Torn(cs, ms, i, b)
    decreases |cs|
  {
    var n := |cs| - 1;
    if n > 0 { MinLoopStep(cs, ms, n); }
    if i < n {
      MinLoopExact(cs[..n], ms[..n], i, b);
      if cs[n] > b {
        TornPrefix(cs, ms, i, b, n);
      } else if ms[n] > b && cs[n] < MinLoop(cs[..n], ms[..n]) {
        assert TornBy(cs, ms, i, b, n);
      }
    }
  }

  /** The result is a value that was loaded: the first one compared, or one assigned. */
  lemma {:induction false} MinLoopAmong(cs: seq<nat>, ms: seq<nat>)
    requires 0 < |cs| == |ms|
    ensures MinLoop(cs, ms) == cs[0] || exists k | 0 < k < |ms| :: MinLoop(cs, ms) == ms[k]
    decreases |cs|
  {
    var n := |cs| - 1;
    if n > 0 {
      MinLoopAmong(cs[..n], ms[..n]);
      assert forall k | 0 <= k < n :: ms[..n][k] == ms[k];
    }
  }

  /** Without a change between the two loads the threshold is the minimum of what was loaded. */
  lemma {:induction false} MinLoopUntorn(cs: seq<nat>)
    requires cs != []
    ensures MinLoop(cs, cs) in cs && forall i | 0 <= i < |cs| :: MinLoop(cs, cs) <= cs[i]
    decreases |cs|
  {
    var n := |cs| - 1;
    if n > 0 {
      MinLoopUntorn(cs[..n]);
      assert cs == cs[..n] + [cs[n]];
    }
  }

  /** What GetMaxTimestamp computes from its loads. */
  function MaxLoop(cs: seq<nat>, ms: seq<nat>): nat
    requires 0 < |cs| == |ms|
  {
    if |cs| == 1 then cs[0] else
      var n := |cs| - 1;
      var res := MaxLoop(cs[..n], ms[..n]);
      if cs[n] > res then ms[n] else res
  }

  /** Here the second load does no harm: slots only grow, so the result is above all that was compared. */
  lemma {:induction false} MaxLoopAbove(cs: seq<nat>, ms: seq<nat>, i: nat)
    requires 0 < |cs| == |ms| && i < |cs| && forall k | 0 <= k < |cs| :: cs[k] <= ms[k]
    ensures MaxLoop(cs, ms) >= cs[i]
    decreases |cs|
  {
    var n := |cs| - 1;
    if i < n { MaxLoopAbove(cs[..n], ms[..n], i); }
  }

  /** The result is a value that was loaded: the first one compared, or one assigned. */
  lemma {:induction false} MaxLoopAmong(cs: seq<nat>, ms: seq<nat>)
    requires 0 < |cs| == |ms|
    ensures MaxLoop(cs, ms) == cs[0] || exists k | 0 < k < |ms| :: MaxLoop(cs, ms) == ms[k]
    decreases |cs|
  {
    var n := |cs| - 1;
    if n > 0 {
      MaxLoopAmong(cs[..n], ms[..n]);
      assert forall k | 0 <= k < n :: ms[..n][k] == ms[k];
    }
  }

  lemma MaxLoopAmongAll(first: nat, cs: seq<nat>, ms: seq<nat>)
    requires |cs| == |ms|
    ensures var res := MaxLoop([first] + cs, [first] + ms); res == first || exists k | 0 <= k < |ms| :: res == ms[k]
  {
    var res, all := MaxLoop([first] + cs, [first] + ms), [first] + ms;
    MaxLoopAmong([first] + cs, all);
    if k :| 0 < k < |all| && res == all[k] { assert res == ms[k - 1]; }
  }

  /** So it passes no bound on what was loaded. */
  lemma MaxLoopBelow(cs: seq<nat>, ms: seq<nat>, b: nat)
    requires 0 < |cs| == |ms| && cs[0] <= b && forall k | 0 < k < |ms| :: ms[k] <= b
    ensures MaxLoop(cs, ms) <= b
  {
    MaxLoopAmong(cs, ms);
  }

  /** Without a change between the two loads it is the maximum. */
  lemma {:induction false} MaxLoopQuiet(cs: seq<nat>)
    requires cs != []
    ensures MaxLoop(cs, cs) in cs && forall i | 0 <= i < |cs| :: MaxLoop(cs, cs) >= cs[i]
    decreases |cs|
  {
    var n := |cs| - 1;
    if n > 0 {
      MaxLoopQuiet(cs[..n]);
      assert cs == cs[..n] + [cs[n]];
    }
  }

  // ----- A snapshot over a whole run -----

  /** ss are the values of all n slots from moment to moment; they only grow. */
  predicate Growing(ss: seq<seq<nat>>, n: nat) {
    && n > 0 && (forall x | 0 <= x < |ss| :: |ss[x]| == n)
    && (forall x, y, i | 0 <= x <= y < |ss| && 0 <= i < n :: ss[x][i] <= ss[y][i])
  }

  /** The moments at which a loop over the slots loads slot i to compare and to assign it. */
  datatype Loads = Loads(compared: seq<nat>, taken: seq<nat>)

  predicate InTurn(l: Loads, n: nat, end: nat) {
    && |l.compared| == |l.taken| == n
    && (forall i | 0 <= i < n :: l.compared[i] <= l.taken[i] < end)
    && (forall i, j | 0 <= i < j < n :: l.taken[i] <= l.compared[j])
  }

  /** What loads at these moments see. */
  function Loaded(ss: seq<seq<nat>>, n: nat, at: seq<nat>): (vs: seq<nat>)
    requires Growing(ss, n) && |at| == n && forall i | 0 <= i < n :: at[i] < |ss|
    ensures |vs| == n
  {
    seq(n, i requires 0 <= i < n => ss[at[i]][i])
  }

  /** A write by some thread: its version, and the loads its pruning threshold comes from. */
  datatype WriteStep = WriteStep(version: Version, loads: Loads)

  function Threshold(ss: seq<seq<nat>>, n: nat, l: Loads): nat
    requires Growing(ss, n) && InTurn(l, n, |ss|)
  {
    MinLoop(Loaded(ss, n, l.compared), Loaded(ss, n, l.taken))
  }

  /** The reader me took t with GetMaxTimestamp, whose first load was at moment start, and its own
      slot has stayed the same since. */
  predicate Took(ss: seq<seq<nat>>, n: nat, me: nat, start: nat, l: Loads, t: nat) {
    && Growing(ss, n) && InTurn(l, n, |ss|) && me < n && start <= l.compared[0]
    && t == MaxLoop([ss[start][0]] + Loaded(ss, n, l.compared), [ss[start][0]] + Loaded(ss, n, l.taken))
    && (forall x | l.compared[me] <= x < |ss| :: ss[x][me] == ss[l.compared[me]][me])
  }

  /** Any writes of the record, with growing commit timestamps, and their pruning loops, at any moments.
      The first slot is loaded once. */
  predicate Writes(ss: seq<seq<nat>>, n: nat, h: seq<Version>, ws: seq<WriteStep>) {
    && Growing(ss, n) && Ordered(h)
    && (forall k | 0 <= k < |ws| ::
          InTurn(ws[k].loads, n, |ss|) && ws[k].loads.compared[0] == ws[k].loads.taken[0])
    && (forall j, k | 0 <= j < k < |ws| :: ws[j].version.timestamp < ws[k].version.timestamp)
    && (forall k | 0 <= k < |ws| && h != [] :: h[0].timestamp < ws[k].version.timestamp)
  }

  function After(ss: seq<seq<nat>>, n: nat, h: seq<Version>, ws: seq<WriteStep>): seq<Version>
    requires Growing(ss, n) && forall k | 0 <= k < |ws| :: InTurn(ws[k].loads, n, |ss|)
  {
    if ws == [] then h else
      var w := ws[|ws| - 1];
      Written(After(ss, n, h, ws[..|ws| - 1]), w.version, Threshold(ss, n, w.loads))
  }

  /** Some slot has really shown the snapshot's timestamp, at a moment of the loop. */
  lemma TookShown(ss: seq<seq<nat>>, n: nat, me: nat, start: nat, l: Loads, t: nat) returns (x: nat, i: nat)
    requires Took(ss, n, me, start, l, t)
    ensures start <= x <= l.taken[n - 1] && i < n && ss[x][i] == t
  {
    var ms := Loaded(ss, n, l.taken);
    MaxLoopAmongAll(ss[start][0], Loaded(ss, n, l.compared), ms);
    if t == ss[start][0] {
      x, i := start, 0;
    } else {
      var k :| 0 <= k < |ms| && t == ms[k];
      x, i := l.taken[k], k;
    }
  }

  /** The reader's slot never shows more than its snapshot. */
  lemma SlotBelow(ss: seq<seq<nat>>, n: nat, me: nat, start: nat, l: Loads, t: nat, x: nat)
    requires Took(ss, n, me, start, l, t) && x < |ss|
    ensures ss[x][me] <= t
  {
    var cs, ms := [ss[start][0]] + Loaded(ss, n, l.compared), [ss[start][0]] + Loaded(ss, n, l.taken);
    MaxLoopAbove(cs, ms, me + 1);
    assert cs[me + 1] == ss[l.compared[me]][me];
    if x < l.compared[me] { assert ss[x][me] <= ss[l.compared[me]][me]; }
  }

  predicate TornAt(ss: seq<seq<nat>>, n: nat, l: Loads, me: nat, t: nat)
    requires Growing(ss, n) && InTurn(l, n, |ss|)
  {
    Torn(Loaded(ss, n, l.compared), Loaded(ss, n, l.taken), me, t)
  }

  /** A pruning threshold passes a live snapshot exactly if the loads are torn there. */
  lemma ThresholdExact(ss: seq<seq<nat>>, n: nat, me: nat, start: nat, l: Loads, t: nat, p: Loads)
    requires Took(ss, n, me, start, l, t) && InTurn(p, n, |ss|) && p.compared[0] == p.taken[0]
    ensures Threshold(ss, n, p) > t <==> TornAt(ss, n, p, me, t)
  {
    SlotBelow(ss, n, me, start, l, t, p.taken[me]);
    MinLoopExact(Loaded(ss, n, p.compared), Loaded(ss, n, p.taken), me, t);
  }

  lemma WritesPrefix(ss: seq<seq<nat>>, n: nat, h: seq<Version>, ws: seq<WriteStep>, k: nat)
    requires Writes(ss, n, h, ws) && k <= |ws|
    ensures Writes(ss, n, h, ws[..k])
  {}

  /** The history in order, the last version written in front. */
  lemma {:induction false} AfterOrdered(ss: seq<seq<nat>>, n: nat, h: seq<Version>, ws: seq<WriteStep>)
    requires Writes(ss, n, h, ws)
    ensures Ordered(After(ss, n, h, ws))
    ensures ws != [] ==> After(ss, n, h, ws) != [] && After(ss, n, h, ws)[0] == ws[|ws| - 1].version
  {
    if ws != [] {
      var k := |ws| - 1;
      WritesPrefix(ss, n, h, ws, k);
      AfterOrdered(ss, n, h, ws[..k]);
      OrderedWrite(After(ss, n, h, ws[..k]), ws[k].version, Threshold(ss, n, ws[k].loads));
    }
  }

  lemma OrderedWrite(h: seq<Version>, v: Version, min: nat)
    requires Ordered(h) && (h != [] ==> h[0].timestamp < v.timestamp)
    ensures Ordered([v] + h) && Ordered(Written(h, v, min)) && Written(h, v, min)[0] == v
  {
    OrderedFront(h, v);
    OrderedPruned([v] + h, min);
  }

  lemma OrderedFront(h: seq<Version>, v: Version)
    requires Ordered(h) && (h != [] ==> h[0].timestamp < v.timestamp)
    ensures Ordered([v] + h)
  {
    var g := [v] + h;
    forall i, j | 0 <= i < j < |g| ensures g[j].timestamp < g[i].timestamp {
      assert g[j] == h[j - 1];
      if i > 0 { assert g[i] == h[i - 1]; }
    }
  }

  lemma OrderedPruned(g: seq<Version>, min: nat)
    requires Ordered(g) && g != []
    ensures Ordered(Pruned(g, min)) && Pruned(g, min)[0] == g[0]
  {
    PrunedKeeps(g, min);
  }

  /** Write k makes the history long enough to be pruned. */
  predicate Prunes(ss: seq<seq<nat>>, n: nat, h: seq<Version>, ws: seq<WriteStep>, k: nat)
    requires Growing(ss, n) && k < |ws| && forall j | 0 <= j < |ws| :: InTurn(ws[j].loads, n, |ss|)
  {
    1 + |After(ss, n, h, ws[..k])| > K_RECYCLE_LENGTH
  }

  /** Write k loses the snapshot's version: it prunes, its loads are torn at the snapshot, and a
      version above the snapshot but below the threshold stands on one the snapshot could read. */
  predicate Loses(ss: seq<seq<nat>>, n: nat, me: nat, t: nat, h: seq<Version>, ws: seq<WriteStep>, k: nat)
    requires Growing(ss, n) && k < |ws| && forall j | 0 <= j < |ws| :: InTurn(ws[j].loads, n, |ss|)
  {
    && Prunes(ss, n, h, ws, k) && TornAt(ss, n, ws[k].loads, me, t)
    && Harmed([ws[k].version] + After(ss, n, h, ws[..k]), t, Threshold(ss, n, ws[k].loads))
  }

  /** The last write of a run whose loads are not torn, if it prunes, keeps what the snapshot reads. */
  lemma LastWriteStable(ss: seq<seq<nat>>, n: nat, me: nat, start: nat, l: Loads, t: nat,
      h: seq<Version>, ws: seq<WriteStep>, k: nat, initial: int)
    requires Took(ss, n, me, start, l, t) && Writes(ss, n, h, ws) && |ws| == k + 1
    requires Prunes(ss, n, h, ws, k) ==> !TornAt(ss, n, ws[k].loads, me, t)
    requires t < ws[k].version.timestamp
    ensures ReadAt(After(ss, n, h, ws), t, initial) == ReadAt(After(ss, n, h, ws[..k]), t, initial)
  {
    WritesPrefix(ss, n, h, ws, k);
    AfterOrdered(ss, n, h, ws[..k]);
    ThresholdExact(ss, n, me, start, l, t, ws[k].loads);
    var g := After(ss, n, h, ws[..k]);
    if Prunes(ss, n, h, ws, k) {
      WriteKeepsSnapshot(g, ws[k].version, t, Threshold(ss, n, ws[k].loads), initial);
    } else {
      assert ([ws[k].version] + g)[1..] == g;
    }
  }

  /** A commit that took its timestamp before the snapshot was taken writes the record after that. */
  predicate Late(ws: seq<WriteStep>, t: nat) {
    exists k :: 0 <= k < |ws| && ws[k].version.timestamp <= t
  }

  /** The snapshot reads the same version after any number of writes and prunings, over slots that
      grow, as long as no write is late and no pruning threshold comes from loads torn at the snapshot. */
  lemma {:induction false} SnapshotStable(ss: seq<seq<nat>>, n: nat, me: nat, start: nat, l: Loads,
      t: nat, h: seq<Version>, ws: seq<WriteStep>, initial: int)
    requires Took(ss, n, me, start, l, t) && Writes(ss, n, h, ws) && !Late(ws, t)
    requires forall k {:trigger Prunes(ss, n, h, ws, k)} | 0 <= k < |ws| && Prunes(ss, n, h, ws, k) ::
      !TornAt(ss, n, ws[k].loads, me, t)
    ensures ReadAt(After(ss, n, h, ws), t, initial) == ReadAt(h, t, initial)
    decreases |ws|
  {
    if ws != [] {
      var k := |ws| - 1;
      WritesPrefix(ss, n, h, ws, k);
      forall j | 0 <= j < k && Prunes(ss, n, h, ws[..k], j) ensures !TornAt(ss, n, ws[..k][j].loads, me, t) {
        assert ws[..k][..j] == ws[..j];
        assert Prunes(ss, n, h, ws, j);
      }
      SnapshotStable(ss, n, me, start, l, t, h, ws[..k], initial);
      LastWriteStable(ss, n, me, start, l, t, h, ws, k, initial);
    }
  }

  /** Some write has lost the snapshot's version: an earlier one or the last. */
  predicate Lost(ss: seq<seq<nat>>, n: nat, me: nat, t: nat, h: seq<Version>, ws: seq<WriteStep>)
    requires Growing(ss, n) && forall j | 0 <= j < |ws| :: InTurn(ws[j].loads, n, |ss|)
    decreases |ws|
  {
    ws != [] && (Lost(ss, n, me, t, h, ws[..|ws| - 1]) || Loses(ss, n, me, t, h, ws, |ws| - 1))
  }

  lemma LostStep(ss: seq<seq<nat>>, n: nat, me: nat, t: nat, h: seq<Version>, ws: seq<WriteStep>, us: seq<WriteStep>)
    requires Growing(ss, n) && ws != [] && us == ws[..|ws| - 1]
    requires forall j | 0 <= j < |ws| :: InTurn(ws[j].loads, n, |ss|)
    ensures Lost(ss, n, me, t, h, ws) <==> Lost(ss, n, me, t, h, us) || Loses(ss, n, me, t, h, ws, |ws| - 1)
  {}

  predicate Own(h: seq<Version>, initial: int) {
    forall i | 0 <= i < |h| :: h[i].data != initial
  }

  lemma {:induction false} AfterOwn(ss: seq<seq<nat>>, n: nat, h: seq<Version>, ws: seq<WriteStep>, initial: int)
    requires Growing(ss, n)
    requires forall k | 0 <= k < |ws| :: InTurn(ws[k].loads, n, |ss|) && ws[k].version.data != initial
    requires Own(h, initial)
    ensures Own(After(ss, n, h, ws), initial)
  {
    if ws != [] {
      AfterOwn(ss, n, h, ws[..|ws| - 1], initial);
    }
  }

  /** One write, whatever its threshold. */
  lemma WriteExact(h: seq<Version>, v: Version, t: nat, min: nat, initial: int)
    requires Ordered(h) && (h != [] ==> h[0].timestamp < v.timestamp)
    requires t < v.timestamp && Own(h, initial) && v.data != initial
    ensures var lost := 1 + |h| > K_RECYCLE_LENGTH && Harmed([v] + h, t, min);
      && ReadAt(Written(h, v, min), t, initial) == (if lost then initial else ReadAt(h, t, initial))
      && (lost ==> ReadAt(h, t, initial) != initial)
  {
    var g := [v] + h;
    assert g[1..] == h;
    OrderedWrite(h, v, min);
    if |g| > K_RECYCLE_LENGTH {
      PruneExact(g, t, min, initial);
      PruneReads(g, t, min, initial);
    }
  }

  /** A pruned history reads as before or not at all. */
  lemma PruneReads(g: seq<Version>, t: nat, min: nat, initial: int)
    requires Ordered(g)
    ensures var r := ReadAt(Pruned(g, min), t, initial); r == ReadAt(g, t, initial) || r == initial
  {
    PrunedKeeps(g, min);
    ReadPrefix(g, |Pruned(g, min)|, t, initial);
  }

  lemma LastWriteExact(ss: seq<seq<nat>>, n: nat, me: nat, start: nat, l: Loads, t: nat,
      h: seq<Version>, ws: seq<WriteStep>, k: nat, initial: int)
    requires Took(ss, n, me, start, l, t) && Writes(ss, n, h, ws) && |ws| == k + 1
    requires Own(h, initial) && (forall j | 0 <= j < |ws| :: ws[j].version.data != initial)
    requires t < ws[k].version.timestamp
    ensures var was := ReadAt(After(ss, n, h, ws[..k]), t, initial);
      && ReadAt(After(ss, n, h, ws), t, initial) == (if Loses(ss, n, me, t, h, ws, k) then initial else was)
      && (Loses(ss, n, me, t, h, ws, k) ==> was != initial)
  {
    WritesPrefix(ss, n, h, ws, k);
    AfterOrdered(ss, n, h, ws[..k]);
    AfterOwn(ss, n, h, ws[..k], initial);
    ThresholdExact(ss, n, me, start, l, t, ws[k].loads);
    WriteExact(After(ss, n, h, ws[..k]), ws[k].version, t, Threshold(ss, n, ws[k].loads), initial);
  }

  /** A late write loses nothing: it is itself what the snapshot reads. */
  lemma LateKeeps(ss: seq<seq<nat>>, n: nat, me: nat, t: nat, h: seq<Version>, ws: seq<WriteStep>, k: nat, initial: int)
    requires Writes(ss, n, h, ws) && |ws| == k + 1 && ws[k].version.timestamp <= t
    ensures !Loses(ss, n, me, t, h, ws, k)
    ensures ReadAt(After(ss, n, h, ws), t, initial) == ws[k].version.data
  {
    WritesPrefix(ss, n, h, ws, k);
    AfterOrdered(ss, n, h, ws);
    AfterOrdered(ss, n, h, ws[..k]);
    OrderedFront(After(ss, n, h, ws[..k]), ws[k].version);
  }

  /** Up to a late write nothing has been lost. */
  lemma {:induction false} LateLosesNothing(ss: seq<seq<nat>>, n: nat, me: nat, t: nat, h: seq<Version>,
      ws: seq<WriteStep>)
    requires Writes(ss, n, h, ws) && ws != [] && ws[|ws| - 1].version.timestamp <= t
    ensures !Lost(ss, n, me, t, h, ws)
    decreases |ws|
  {
    var k := |ws| - 1;
    LateKeeps(ss, n, me, t, h, ws, k, 0);
    WritesPrefix(ss, n, h, ws, k);
    if k > 0 {
      assert ws[..k][k - 1].version.timestamp < ws[k].version.timestamp;
      LateLosesNothing(ss, n, me, t, h, ws[..k]);
    }
    LostStep(ss, n, me, t, h, ws, ws[..k]);
  }

  /** The data of the last late write, else what the history has for the snapshot. */
  function LastLate(h: seq<Version>, ws: seq<WriteStep>, t: nat, initial: int): int {
    if ws == [] then ReadAt(h, t, initial)
    else if ws[|ws| - 1].version.timestamp <= t then ws[|ws| - 1].version.data
    else LastLate(h, ws[..|ws| - 1], t, initial)
  }

  /** What the snapshot reads after a run, exactly: the data of the last late write, or without one what
      it has read before; but the initial data if some write has lost it. (Versions have data of their
      own, different from the initial data.) */
  lemma {:induction false} SnapshotReads(ss: seq<seq<nat>>, n: nat, me: nat, start: nat, l: Loads,
      t: nat, h: seq<Version>, ws: seq<WriteStep>, initial: int)
    requires Took(ss, n, me, start, l, t) && Writes(ss, n, h, ws)
    requires Own(h, initial) && forall k | 0 <= k < |ws| :: ws[k].version.data != initial
    ensures ReadAt(After(ss, n, h, ws), t, initial)
      == if Lost(ss, n, me, t, h, ws) then initial else LastLate(h, ws, t, initial)
    ensures Lost(ss, n, me, t, h, ws) ==> LastLate(h, ws, t, initial) != initial
    decreases |ws|
  {
    if ws != [] {
      var k := |ws| - 1;
      WritesPrefix(ss, n, h, ws, k);
      if ws[k].version.timestamp <= t {
        LateLosesNothing(ss, n, me, t, h, ws);
        LateKeeps(ss, n, me, t, h, ws, k, initial);
      } else {
        SnapshotReads(ss, n, me, start, l, t, h, ws[..k], initial);
        LostStep(ss, n, me, t, h, ws, ws[..k]);
        LastWriteExact(ss, n, me, start, l, t, h, ws, k, initial);
      }
    }
  }

  /** Whether there is a late write, and that it is one whose data shows. */
  lemma {:induction false} LastLateShows(h: seq<Version>, ws: seq<WriteStep>, t: nat, initial: int)
    ensures if Late(ws, t) then exists k :: 0 <= k < |ws| && LastLate(h, ws, t, initial) == ws[k].version.data
      else LastLate(h, ws, t, initial) == ReadAt(h, t, initial)
  {
    if ws != [] && ws[|ws| - 1].version.timestamp > t {
      LastLateShows(h, ws[..|ws| - 1], t, initial);
      assert Late(ws, t) <==> Late(ws[..|ws| - 1], t) by {
        assert forall k | 0 <= k < |ws| - 1 :: ws[..|ws| - 1][k] == ws[k];
      }
    }
  }

  /** A snapshot reads the same at the end of a run exactly if no write is late and none loses it, or a
      late write has given it something to read where it had nothing and that has been lost. */
  lemma SnapshotExact(ss: seq<seq<nat>>, n: nat, me: nat, start: nat, l: Loads,
      t: nat, h: seq<Version>, ws: seq<WriteStep>, initial: int)
    requires Took(ss, n, me, start, l, t) && Writes(ss, n, h, ws)
    requires Own(h, initial) && forall k | 0 <= k < |ws| :: ws[k].version.data != initial
    requires forall k | 0 <= k < |ws| :: ws[k].version.data != ReadAt(h, t, initial)
    ensures ReadAt(After(ss, n, h, ws), t, initial) == ReadAt(h, t, initial) <==>
      || (!Late(ws, t) && !Lost(ss, n, me, t, h, ws))
      || (Late(ws, t) && Lost(ss, n, me, t, h, ws) && ReadAt(h, t, initial) == initial)
  {
    SnapshotReads(ss, n, me, start, l, t, h, ws, initial);
    LastLateShows(h, ws, t, initial);
  }

  /** Three threads: 0 writes and prunes, 1 reads with snapshot 1012, 2 sets its slot from 5 to 1015
      between the two loads thread 0 makes of it. */
  function ExampleSlots(): seq<seq<nat>> {
    [[1011, 1012, 5], [1014, 1012, 5], [1014, 1012, 1015]]
  }

  function ExampleWrites(): seq<WriteStep> {
    [WriteStep(Version(1014, 1014), Loads([0, 0, 0], [0, 0, 0])),
      WriteStep(Version(1016, 1016), Loads([1, 1, 1], [1, 1, 2]))]
  }

  /** 99 versions, 914 to 1012. */
  function ExampleHistory(): (h: seq<Version>) {
    seq(99, i requires 0 <= i < 99 => Version(1012 - i, 1012 - i))
  }

  /** Loading each slot twice breaks a snapshot: the second write makes the history longer than 100,
      the threshold comes out as 1015, and the reader loses the version of timestamp 1012. */
  lemma TornReadExample()
    ensures var ss, h, ws := ExampleSlots(), ExampleHistory(), ExampleWrites();
      && Took(ss, 3, 1, 0, Loads([0, 0, 0], [0, 0, 0]), 1012) && Writes(ss, 3, h, ws)
      && ReadAt(h, 1012, 0) == 1012 && ReadAt(After(ss, 3, h, ws), 1012, 0) == 0
  {
    ExampleTook();
    ExampleRun();
    ExampleAfter();
    var h := ExampleHistory();
    assert h[0] == Version(1012, 1012);
    ExamplePruned([Version(1016, 1016)] + ([Version(1014, 1014)] + h));
  }

  lemma ExampleLoads()
    ensures Growing(ExampleSlots(), 3) && Loaded(ExampleSlots(), 3, [0, 0, 0]) == [1011, 1012, 5]
    ensures Loaded(ExampleSlots(), 3, [1, 1, 1]) == [1014, 1012, 5]
    ensures Loaded(ExampleSlots(), 3, [1, 1, 2]) == [1014, 1012, 1015]
  {}

  lemma ExampleTook()
    ensures Took(ExampleSlots(), 3, 1, 0, Loads([0, 0, 0], [0, 0, 0]), 1012)
  {
    ExampleLoads();
    ExampleMax();
  }

  lemma ExampleRun()
    ensures Writes(ExampleSlots(), 3, ExampleHistory(), ExampleWrites())
  {
    ExampleLoads();
    assert ExampleHistory()[0] == Version(1012, 1012);
  }

  lemma ExampleAfter()
    ensures Growing(ExampleSlots(), 3)
    ensures forall k | 0 <= k < |ExampleWrites()| :: InTurn(ExampleWrites()[k].loads, 3, 3)
    ensures After(ExampleSlots(), 3, ExampleHistory(), ExampleWrites())
      == Pruned([Version(1016, 1016)] + ([Version(1014, 1014)] + ExampleHistory()), 1015)
  {
    ExampleLoads();
    ExampleMin();
    var ss, h, ws := ExampleSlots(), ExampleHistory(), ExampleWrites();
    assert ws[..1] == [ws[0]] && ws[..1][..0] == [];
    assert After(ss, 3, h, ws[..1]) == [Version(1014, 1014)] + h;
  }

  lemma ExampleMax()
    ensures MaxLoop([1011] + [1011, 1012, 5], [1011] + [1011, 1012, 5]) == 1012
  {
    var s: seq<nat>, a: seq<nat>, b: seq<nat> := [1011] + [1011, 1012, 5], [1011, 1011, 1012], [1011, 1011];
    assert s[..3] == a && a[..2] == b && b[..1] == [1011];
    assert MaxLoop(b, b) == 1011 && MaxLoop(a, a) == 1012;
  }

  lemma ExampleMin()
    ensures MinLoop([1014, 1012, 5], [1014, 1012, 1015]) == 1015
  {
    var c: seq<nat>, m: seq<nat>, d: seq<nat> := [1014, 1012, 5], [1014, 1012, 1015], [1014, 1012];
    assert c[..2] == d && m[..2] == d && d[..1] == [1014];
    assert MinLoop(d, d) == 1012;
  }

  lemma ExamplePruned(g: seq<Version>)
    requires |g| == 101 && g[0] == Version(1016, 1016) && g[1] == Version(1014, 1014)
    requires forall i | 2 <= i < 101 :: g[i].timestamp == 1014 - i
    ensures ReadAt(Pruned(g, 1015), 1012, 0) == 0
  {
    PrunedKeeps(g, 1015);
    var n := |Pruned(g, 1015)|;
    assert n == 2;
    ReadPrefix(g, n, 1012, 0);
  }
}
