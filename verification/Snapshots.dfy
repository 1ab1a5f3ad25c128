// Commit timestamps come from one counter; a committing thread takes one, installs its versions, and only
// then shows it in its slot. Which versions a snapshot taken from the slots can still meet too late.
module Snapshots {
  import opened History

  /** drawn has the commit timestamp a thread has taken and not yet shown, 0 for none. */
  datatype State = State(counter: nat, slots: seq<nat>, drawn: seq<nat>)

  datatype Step =
    | Draw(t: nat)    // GetMonotoneTimestamp
    | Install(t: nat) // WriteAccess with the timestamp taken
    | Show(t: nat)    // SetThreadTimestamp

  predicate Enabled(s: State, e: Step) {
    e.t < |s.drawn| == |s.slots| && (e.Draw? <==> s.drawn[e.t] == 0)
  }

  function Do(s: State, e: Step): State
    requires Enabled(s, e)
  {
    match e
    case Draw(t) => s.(counter := s.counter + 1, drawn := s.drawn[t := s.counter])
    case Install(t) => s
    case Show(t) => s.(slots := s.slots[t := s.drawn[t]], drawn := s.drawn[t := 0])
  }

  predicate Init(s: State, n: nat) {
    s.counter == 1 && |s.slots| == |s.drawn| == n > 0 && forall i | 0 <= i < n :: s.slots[i] == 0 && s.drawn[i] == 0
  }

  predicate Run(ss: seq<State>, es: seq<Step>, n: nat) {
    && |ss| == |es| + 1 && Init(ss[0], n)
    && forall k | 0 <= k < |es| :: Enabled(ss[k], es[k]) && ss[k + 1] == Do(ss[k], es[k])
  }

  /** A thread's slot shows less than what it has taken, and both are below the counter. */
  predicate Inv(s: State, n: nat) {
    |s.slots| == |s.drawn| == n && forall i | 0 <= i < n ::
      s.slots[i] < s.counter && s.drawn[i] < s.counter && (s.drawn[i] != 0 ==> s.slots[i] < s.drawn[i])
  }

  lemma {:induction false} RunKeeps(ss: seq<State>, es: seq<Step>, n: nat, k: nat)
    requires Run(ss, es, n) && k <= |es|
    ensures Inv(ss[k], n)
  {
    if k > 0 { RunKeeps(ss, es, n, k - 1); }
  }

  lemma {:induction false} Grows(ss: seq<State>, es: seq<Step>, n: nat, x: nat, y: nat)
    requires Run(ss, es, n) && x <= y <= |es|
    ensures |ss[x].slots| == |ss[y].slots| == n && ss[x].counter <= ss[y].counter
    ensures forall i | 0 <= i < n :: ss[x].slots[i] <= ss[y].slots[i]
    decreases y
  {
    RunKeeps(ss, es, n, y);
    if x < y {
      RunKeeps(ss, es, n, y - 1);
      Grows(ss, es, n, x, y - 1);
    }
  }

  /** The slots from moment to moment. */
  function Slots(ss: seq<State>): seq<seq<nat>> {
    seq(|ss|, k requires 0 <= k < |ss| => ss[k].slots)
  }

  /** The slots only grow, which the loops over them rest on. */
  lemma SlotsGrow(ss: seq<State>, es: seq<Step>, n: nat)
    requires Run(ss, es, n)
    ensures Growing(Slots(ss), n)
  {
    forall x | 0 <= x < |ss| ensures |Slots(ss)[x]| == n { Grows(ss, es, n, x, x); }
    forall x, y, i | 0 <= x <= y < |ss| && 0 <= i < n ensures Slots(ss)[x][i] <= Slots(ss)[y][i] {
      Grows(ss, es, n, x, y);
    }
  }

  /** Thread th has a timestamp from before moment e, up to t, that it has not shown by moment y. */
  predicate Pending(ss: seq<State>, es: seq<Step>, th: nat, e: nat, y: nat, t: nat)
    requires |ss| == |es| + 1
  {
    e <= y <= |es| && th < |ss[e].drawn| && 0 < ss[e].drawn[th] <= t && forall k | e <= k < y :: es[k] != Show(th)
  }

  /** While t has been in a slot by moment e, whatever is up to t at a later moment has been taken before e. */
  lemma {:induction false} TakenBefore(ss: seq<State>, es: seq<Step>, n: nat, th: nat, e: nat, y: nat, t: nat)
    requires Run(ss, es, n) && e <= y <= |es| && th < n && t < ss[e].counter
    ensures |ss[y].drawn| == n
    ensures 0 < ss[y].drawn[th] <= t <==> Pending(ss, es, th, e, y, t)
    ensures Pending(ss, es, th, e, y, t) ==> ss[y].drawn[th] == ss[e].drawn[th]
    decreases y
  {
    RunKeeps(ss, es, n, e);
    if e < y {
      RunKeeps(ss, es, n, y - 1);
      TakenBefore(ss, es, n, th, e, y - 1, t);
      Grows(ss, es, n, e, y - 1);
    }
  }

  /** A reader took t with GetMaxTimestamp, and its loop had ended by moment e. A version installed later is
      in its snapshot exactly if its writer had taken its timestamp by then, one up to t, and has not
      shown it since. */
  lemma LateIff(ss: seq<State>, es: seq<Step>, n: nat, me: nat, start: nat, l: Loads, t: nat, e: nat, y: nat)
    requires Run(ss, es, n) && Took(Slots(ss), n, me, start, l, t)
    requires l.taken[n - 1] <= e <= y < |es| && es[y].Install?
    ensures es[y].t < |ss[y].drawn|
    ensures ss[y].drawn[es[y].t] <= t <==> Pending(ss, es, es[y].t, e, y, t)
  {
    var x, i := TookShown(Slots(ss), n, me, start, l, t);
    RunKeeps(ss, es, n, x);
    RunKeeps(ss, es, n, y);
    Grows(ss, es, n, x, e);
    TakenBefore(ss, es, n, es[y].t, e, y, t);
  }

  /** So if no thread has such a timestamp when the loop ends, no write is late. */
  lemma NoneLate(ss: seq<State>, es: seq<Step>, n: nat, me: nat, start: nat, l: Loads, t: nat, e: nat, y: nat)
    requires Run(ss, es, n) && Took(Slots(ss), n, me, start, l, t)
    requires l.taken[n - 1] <= e <= y < |es| && es[y].Install?
    requires forall th | 0 <= th < |ss[e].drawn| :: ss[e].drawn[th] == 0 || t < ss[e].drawn[th]
    ensures es[y].t < |ss[y].drawn| && t < ss[y].drawn[es[y].t]
  {
    LateIff(ss, es, n, me, start, l, t, e, y);
  }

  /** Threads 0 and 1 commit with timestamps 1 and 2, thread 1 first to show it; thread 2 reads. */
  function ExampleSteps(): seq<Step> {
    [Draw(0), Draw(1), Install(1), Show(1), Install(0)]
  }

  function ExampleStates(): seq<State> {
    [State(1, [0, 0, 0], [0, 0, 0]), State(2, [0, 0, 0], [1, 0, 0]), State(3, [0, 0, 0], [1, 2, 0]),
      State(3, [0, 0, 0], [1, 2, 0]), State(3, [0, 2, 0], [1, 0, 0]), State(3, [0, 2, 0], [1, 0, 0])]
  }

  /** Thread 2's snapshot is 2. Thread 0 has timestamp 1 and installs its version after that: a record that
      the snapshot has read as initial then reads as version 1. */
  lemma LateExample()
    ensures Run(ExampleStates(), ExampleSteps(), 3)
    ensures Took(Slots(ExampleStates()), 3, 2, 4, Loads([4, 4, 4], [4, 4, 4]), 2)
    ensures ExampleSteps()[4] == Install(0) && ExampleStates()[4].drawn[0] == 1
    ensures ReadAt([], 2, 0) == 0 && ReadAt(Written([], Version(1, 10), 0), 2, 0) == 10
  {
    var ss, es := ExampleStates(), ExampleSteps();
    forall k | 0 <= k < |es| ensures Enabled(ss[k], es[k]) && ss[k + 1] == Do(ss[k], es[k]) {}
    SlotsGrow(ss, es, 3);
    var s: seq<nat> := [0, 2, 0];
    assert Loaded(Slots(ss), 3, [4, 4, 4]) == s;
    ExampleMaximum();
    assert [Version(1, 10)] + [] == [Version(1, 10)];
  }

  lemma ExampleMaximum()
    ensures MaxLoop([0] + [0, 2, 0], [0] + [0, 2, 0]) == 2
  {
    var s: seq<nat>, a: seq<nat>, b: seq<nat> := [0] + [0, 2, 0], [0, 0, 2], [0, 0];
    assert s[..3] == a && a[..2] == b && b[..1] == [0];
    assert MaxLoop(b, b) == 0 && MaxLoop(a, a) == 2;
  }
}
