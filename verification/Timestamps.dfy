// Commit timestamps made by each thread for itself: the epoch in the upper 32 bits, a local
// counter in the lower 32. Integer widths are written out.
module Timestamps {

  const W32 := 0x1_0000_0000
  const W64 := 0x1_0000_0000_0000_0000

  /** A thread's local_epoch_ and local_ts_. */
  datatype Clock = Clock(epoch: nat, ts: nat)

  function UpperBits(x: nat): nat { x / W32 }
  function LowerBits(x: nat): nat { x % W32 }

  /** (epoch << 32) | local, for a local below 2^32 */
  function Stamp(epoch: nat, local: nat): nat { (epoch * W32) % W64 + local }

  /** The first local timestamp of the thread in the block after max, in 64 bits. */
  function BumpWide(max: nat, id: nat, n: nat): nat
    requires n > 0
  {
    (max / n + 1) * n + id
  }

  /** Whether the local counter has to move past max: only in the epoch of what was read. */
  predicate Bumps(c: Clock, id: nat, epoch: nat, maxRw: nat) {
    epoch == UpperBits(maxRw) && (if epoch > c.epoch then id else c.ts) <= LowerBits(maxRw)
  }

  function NextClock(c: Clock, id: nat, n: nat, epoch: nat, maxRw: nat): Clock
    requires n > 0
  {
    var d := if epoch > c.epoch then Clock(epoch, id % W32) else c;
    if epoch == UpperBits(maxRw) && d.ts <= LowerBits(maxRw) then
      d.(ts := BumpWide(LowerBits(maxRw), id, n) % W32) else d
  }

  function CommitTs(c: Clock, id: nat, n: nat, epoch: nat, maxRw: nat): nat
    requires n > 0
  {
    var d := NextClock(c, id, n, epoch, maxRw);
    Stamp(d.epoch, d.ts)
  }

  /** What the source asserts of its arguments, and that ids and epochs fit their fields. */
  predicate Callable(c: Clock, id: nat, n: nat, epoch: nat, maxRw: nat) {
    id < n <= W32 / 2 && c.ts < W32 && epoch < W32 && UpperBits(maxRw) <= epoch && c.epoch <= epoch
  }

  /** Moreover the clock is the thread's own: on its residue, unless it has never been set. */
  predicate Called(c: Clock, id: nat, n: nat, epoch: nat, maxRw: nat) {
    Callable(c, id, n, epoch, maxRw) && (c.ts % n == id || c == Clock(0, 0))
  }

  /** The bumped counter still fits in 32 bits. */
  predicate Fits(c: Clock, id: nat, n: nat, epoch: nat, maxRw: nat)
    requires n > 0
  {
    Bumps(c, id, epoch, maxRw) ==> BumpWide(LowerBits(maxRw), id, n) < W32
  }

  lemma Block(max: nat, n: nat)
    requires n > 0
    ensures max < (max / n + 1) * n <= max + n
  {
    assert max == max / n * n + max % n;
    assert (max / n + 1) * n == max / n * n + n;
  }

  lemma AtLeastOnce(k: int, n: nat)
    requires k >= 1
    ensures k * n >= n
  {
    assert k * n == (k - 1) * n + n;
    Product(k - 1, n);
  }

  lemma Product(k: nat, n: nat)
    ensures k * n >= 0
  {}

  lemma BumpResidue(q: nat, n: nat, id: nat)
    requires id < n
    ensures (q * n + id) % n == id && (q * n + id) / n == q
  {
    var x := q * n + id;
    var a, r := x / n, x % n;
    Quotient(x, n);
    if a > q {
      AtLeastOnce(a - q, n);
      Apart(a, q, n);
    } else if a < q {
      AtLeastOnce(q - a, n);
      Apart(q, a, n);
    }
  }

  lemma Quotient(x: nat, n: nat)
    requires n > 0
    ensures x == x / n * n + x % n && x % n < n
  {}

  lemma Apart(a: int, b: int, n: int)
    ensures (a - b) * n == a * n - b * n
  {}

  /** A bump lands in the next block of thread_count timestamps, on the thread's own place there. */
  lemma BumpBounds(max: nat, id: nat, n: nat)
    requires id < n
    ensures max < BumpWide(max, id, n) < max + 2 * n
    ensures BumpWide(max, id, n) % n == id && BumpWide(max, id, n) / n == max / n + 1
  {
    Block(max, n);
    BumpResidue(max / n + 1, n, id);
  }

  lemma StampParts(epoch: nat, local: nat)
    requires epoch < W32 && local < W32
    ensures UpperBits(Stamp(epoch, local)) == epoch
    ensures LowerBits(Stamp(epoch, local)) == local && Stamp(epoch, local) < W64
  {
    assert epoch * W32 <= (W32 - 1) * W32;
    assert Stamp(epoch, local) == epoch * W32 + local;
  }

  lemma StampOrder(x: nat, y: nat)
    requires UpperBits(x) < UpperBits(y) || (UpperBits(x) == UpperBits(y) && LowerBits(x) < LowerBits(y))
    ensures x < y
  {}

  lemma BumpedClock(c: Clock, id: nat, n: nat, epoch: nat, maxRw: nat)
    requires n > 0 && id < W32 && c.epoch <= epoch && Bumps(c, id, epoch, maxRw)
    requires BumpWide(LowerBits(maxRw), id, n) < W32
    ensures NextClock(c, id, n, epoch, maxRw) == Clock(epoch, BumpWide(LowerBits(maxRw), id, n))
  {}

  lemma KeptClock(c: Clock, id: nat, n: nat, epoch: nat, maxRw: nat)
    requires n > 0 && id < W32 && c.epoch <= epoch && !Bumps(c, id, epoch, maxRw)
    ensures NextClock(c, id, n, epoch, maxRw) == if epoch > c.epoch then Clock(epoch, id) else c
  {}

  /** The clock after a call: in the epoch, on the thread's own residue, above what was read, not back.
      It only moves if it has to: to the thread's id in a new epoch, into the next block behind what was
      read in the same epoch. */
  lemma NextClockGood(c: Clock, id: nat, n: nat, epoch: nat, maxRw: nat)
    requires Called(c, id, n, epoch, maxRw) && Fits(c, id, n, epoch, maxRw)
    ensures var d := NextClock(c, id, n, epoch, maxRw);
      && d.epoch == epoch && d.ts < W32 && d.ts % n == id
      && (epoch == UpperBits(maxRw) ==> d.ts > LowerBits(maxRw))
      && (epoch == c.epoch ==> d.ts >= c.ts)
      && (if epoch == UpperBits(maxRw) && (if epoch > c.epoch then id else c.ts) <= LowerBits(maxRw)
          then d.ts / n == LowerBits(maxRw) / n + 1
          else d.ts == if epoch > c.epoch then id else c.ts)
  {
    if Bumps(c, id, epoch, maxRw) {
      BumpedClock(c, id, n, epoch, maxRw);
      BumpBounds(LowerBits(maxRw), id, n);
    } else {
      KeptClock(c, id, n, epoch, maxRw);
      BumpResidue(0, n, id);
    }
  }

  /** As long as the counter fits, the commit timestamp is strictly above everything read or
      overwritten, carries the epoch, is the thread's own, and does not go back. */
  lemma CommitTsGood(c: Clock, id: nat, n: nat, epoch: nat, maxRw: nat)
    requires Called(c, id, n, epoch, maxRw) && Fits(c, id, n, epoch, maxRw)
    ensures var d, t := NextClock(c, id, n, epoch, maxRw), CommitTs(c, id, n, epoch, maxRw);
      && t > maxRw && UpperBits(t) == epoch && LowerBits(t) == d.ts && LowerBits(t) % n == id && t < W64
      && t >= Stamp(c.epoch, c.ts)
      && (Bumps(c, id, epoch, maxRw) ==> LowerBits(t) / n == LowerBits(maxRw) / n + 1)
  {
    var d, t := NextClock(c, id, n, epoch, maxRw), CommitTs(c, id, n, epoch, maxRw);
    NextClockGood(c, id, n, epoch, maxRw);
    StampParts(epoch, d.ts);
    StampParts(c.epoch, c.ts);
    StampOrder(maxRw, t);
    if c.epoch < epoch || c.ts < d.ts { StampOrder(Stamp(c.epoch, c.ts), t); }
  }

  lemma AboveIfFits(c: Clock, id: nat, n: nat, epoch: nat, maxRw: nat)
    requires Callable(c, id, n, epoch, maxRw) && Fits(c, id, n, epoch, maxRw)
    ensures CommitTs(c, id, n, epoch, maxRw) > maxRw
  {
    var d := NextClock(c, id, n, epoch, maxRw);
    if Bumps(c, id, epoch, maxRw) {
      BumpedClock(c, id, n, epoch, maxRw);
      BumpBounds(LowerBits(maxRw), id, n);
    } else {
      KeptClock(c, id, n, epoch, maxRw);
    }
    StampParts(epoch, d.ts);
    StampOrder(maxRw, CommitTs(c, id, n, epoch, maxRw));
  }

  lemma NotAboveUnlessFits(c: Clock, id: nat, n: nat, epoch: nat, maxRw: nat)
    requires Callable(c, id, n, epoch, maxRw) && !Fits(c, id, n, epoch, maxRw)
    ensures CommitTs(c, id, n, epoch, maxRw) < maxRw
  {
    var m := LowerBits(maxRw);
    BumpBounds(m, id, n);
    var w := BumpWide(m, id, n);
    assert w < 2 * W32 && w % W32 == w - W32;
    assert w % W32 < m;
    StampParts(epoch, w % W32);
    StampOrder(CommitTs(c, id, n, epoch, maxRw), maxRw);
  }

  /** If the bumped counter does not fit, the truncated timestamp is not above what was read: the
      order holds exactly when the counter fits. */
  lemma AboveIffFits(c: Clock, id: nat, n: nat, epoch: nat, maxRw: nat)
    requires Callable(c, id, n, epoch, maxRw)
    ensures CommitTs(c, id, n, epoch, maxRw) > maxRw <==> Fits(c, id, n, epoch, maxRw)
  {
    if Fits(c, id, n, epoch, maxRw) {
      AboveIfFits(c, id, n, epoch, maxRw);
    } else {
      NotAboveUnlessFits(c, id, n, epoch, maxRw);
    }
  }

  /** One thread, 2^32 - 1 used up in epoch 7: the next timestamp wraps round to below it. */
  lemma OverflowExample()
    ensures var c, maxRw := Clock(7, 0xFFFF_FFFF), Stamp(7, 0xFFFF_FFFF);
      Called(c, 0, 1, 7, maxRw) && CommitTs(c, 0, 1, 7, maxRw) == Stamp(7, 0) < maxRw
  {
    StampParts(7, 0xFFFF_FFFF);
    assert BumpWide(0xFFFF_FFFF, 0, 1) == W32;
  }

  /** Two threads never make the same timestamp, whatever each of them has done and read. */
  lemma ThreadsApart(c: Clock, d: Clock, i: nat, j: nat, n: nat, epochI: nat, epochJ: nat, maxI: nat, maxJ: nat)
    requires i != j && Called(c, i, n, epochI, maxI) && Fits(c, i, n, epochI, maxI)
    requires Called(d, j, n, epochJ, maxJ) && Fits(d, j, n, epochJ, maxJ)
    ensures CommitTs(c, i, n, epochI, maxI) != CommitTs(d, j, n, epochJ, maxJ)
  {
    CommitTsGood(c, i, n, epochI, maxI);
    CommitTsGood(d, j, n, epochJ, maxJ);
  }

  class TimestampSource {
    const threadId: nat
    const threadCount: nat
    var localEpoch: nat
    var localTs: nat

    ghost function Now(): Clock
      reads this
    {
      Clock(localEpoch, localTs)
    }

    constructor (id: nat, n: nat)
      requires id < n <= W32 / 2
      ensures threadId == id && threadCount == n && localEpoch == 0 && localTs == 0
    {
      threadId, threadCount, localEpoch, localTs := id, n, 0, 0;
    }

    /** GenerateScalableTimestamp. The counter is truncated to 32 bits; the order that the source
        asserts holds exactly if it fits. */
    method Generate(currEpoch: nat, maxRwTs: nat) returns (commitTs: nat)
      requires Callable(Now(), threadId, threadCount, currEpoch, maxRwTs)
      modifies this
      ensures Now() == NextClock(old(Now()), threadId, threadCount, currEpoch, maxRwTs)
      ensures commitTs == CommitTs(old(Now()), threadId, threadCount, currEpoch, maxRwTs)
      ensures commitTs > maxRwTs <==> Fits(old(Now()), threadId, threadCount, currEpoch, maxRwTs)
    {
      AboveIffFits(Now(), threadId, threadCount, currEpoch, maxRwTs);
      var maxGlobal, maxLocal := maxRwTs / W32, maxRwTs % W32;
      if currEpoch > localEpoch {
        localEpoch := currEpoch;
        localTs := threadId % W32;
      }
      if currEpoch == maxGlobal {
        if localTs <= maxLocal {
          localTs := ((maxLocal / threadCount + 1) * threadCount + threadId) % W32;
        }
      }
      commitTs := Stamp(localEpoch, localTs);
    }
  }
}
