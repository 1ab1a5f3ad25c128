// One record's wait-die lock queue: the operations as functions, and what they keep.
module LockWait {

  datatype LockType = NoLock | ReadLock | WriteLock

  /** For an owner that has not waited, lockType is what it asked for; no step reads it there. */
  datatype LockEntry = LockEntry(timestamp: nat, lockType: LockType)

  datatype Queue = Queue(owners: seq<LockEntry>, waiters: seq<LockEntry>, ownersCount: nat, lockType: LockType)

  datatype Outcome = Granted | Waiting | Dies

  predicate Conflict(a: LockType, b: LockType) {
    !a.NoLock? && !b.NoLock? && !(a.ReadLock? && b.ReadLock?)
  }

  // ----- The operations -----

  /** A waiter goes behind all with larger timestamps. */
  function Buffered(ws: seq<LockEntry>, e: LockEntry): seq<LockEntry> {
    if ws != [] && e.timestamp < ws[0].timestamp then [ws[0]] + Buffered(ws[1..], e) else [e] + ws
  }

  /** From the head, waiters become owners as long as they do not conflict with the lock held. */
  function Debuffered(q: Queue): Queue
    decreases |q.waiters|
  {
    if q.waiters != [] && !Conflict(q.waiters[0].lockType, q.lockType) then
      Debuffered(Queue([q.waiters[0]] + q.owners, q.waiters[1..], q.ownersCount + 1, q.waiters[0].lockType))
    else q
  }

  function Decide(q: Queue, timestamp: nat, lt: LockType): Outcome {
    if Conflict(lt, q.lockType) then
      if exists i :: 0 <= i < |q.owners| && q.owners[i].timestamp < timestamp then Dies else Waiting
    else if q.waiters != [] && timestamp < q.waiters[0].timestamp then Waiting
    else Granted
  }

  function Acquired(q: Queue, timestamp: nat, lt: LockType): Queue {
    var e := LockEntry(timestamp, lt);
    match Decide(q, timestamp, lt)
    case Granted => Queue([e] + q.owners, q.waiters, q.ownersCount + 1, lt)
    case Waiting => q.(waiters := Buffered(q.waiters, e))
    case Dies => q
  }

  predicate IsIn(es: seq<LockEntry>, timestamp: nat) {
    exists i :: 0 <= i < |es| && es[i].timestamp == timestamp
  }

  /** The first entry with the timestamp taken out. */
  function Without(es: seq<LockEntry>, timestamp: nat): seq<LockEntry> {
    if es == [] then [] else if es[0].timestamp == timestamp then es[1..] else [es[0]] + Without(es[1..], timestamp)
  }

  function Released(q: Queue, timestamp: nat): Queue
    requires q.ownersCount > 0
  {
    var p := q.(owners := Without(q.owners, timestamp), ownersCount := q.ownersCount - 1);
    if p.ownersCount == 0 then Debuffered(p.(lockType := NoLock)) else p
  }

  // ----- The invariant -----

  predicate Descending(ws: seq<LockEntry>) {
    forall i, j | 0 <= i < j < |ws| :: ws[j].timestamp < ws[i].timestamp
  }

  predicate Distinct(es: seq<LockEntry>) {
    forall i, j | 0 <= i < j < |es| :: es[i].timestamp != es[j].timestamp
  }

  /** Every waiter is older in the order than every owner: its timestamp is smaller. */
  predicate Below(ws: seq<LockEntry>, os: seq<LockEntry>) {
    forall i, j | 0 <= i < |ws| && 0 <= j < |os| :: ws[i].timestamp < os[j].timestamp
  }

  /** The owners are one writer, or only readers, and agree with the type and the count. */
  predicate OwnersOK(q: Queue) {
    && q.ownersCount == |q.owners| && Distinct(q.owners)
    && (q.lockType.NoLock? <==> q.owners == [])
    && (q.lockType.WriteLock? ==> |q.owners| == 1)
    && (forall i | 0 <= i < |q.owners| :: q.owners[i].lockType == q.lockType)
  }

  predicate WaitersOK(q: Queue) {
    && Descending(q.waiters) && Below(q.waiters, q.owners)
    && (forall i | 0 <= i < |q.waiters| :: !q.waiters[i].lockType.NoLock?)
  }

  predicate Inv(q: Queue) {
    && OwnersOK(q) && WaitersOK(q)
    && (q.waiters != [] ==> Conflict(q.waiters[0].lockType, q.lockType))
  }

  lemma {:induction false} BufferedMembers(ws: seq<LockEntry>, e: LockEntry)
    ensures |Buffered(ws, e)| == |ws| + 1 && multiset(Buffered(ws, e)) == multiset(ws) + multiset{e}
  {
    if ws != [] && e.timestamp < ws[0].timestamp {
      BufferedMembers(ws[1..], e);
      assert ws == [ws[0]] + ws[1..];
    }
  }

  lemma BufferedFrom(ws: seq<LockEntry>, e: LockEntry)
    ensures forall i | 0 <= i < |Buffered(ws, e)| :: Buffered(ws, e)[i] == e || Buffered(ws, e)[i] in ws
  {
    BufferedMembers(ws, e);
    forall i | 0 <= i < |Buffered(ws, e)| ensures Buffered(ws, e)[i] == e || Buffered(ws, e)[i] in ws {
      assert Buffered(ws, e)[i] in multiset(Buffered(ws, e));
    }
  }

  /** A new waiter goes where the line stays descending. */
  lemma {:induction false} BufferedSorted(ws: seq<LockEntry>, e: LockEntry)
    requires Descending(ws) && !IsIn(ws, e.timestamp)
    ensures Descending(Buffered(ws, e))
  {
    if ws != [] && e.timestamp < ws[0].timestamp {
      forall i | 0 <= i < |ws[1..]| ensures ws[1..][i].timestamp != e.timestamp {
        assert ws[1..][i] == ws[i + 1];
      }
      BufferedSorted(ws[1..], e);
      BufferedFrom(ws[1..], e);
    } else {
      assert ws != [] ==> ws[0].timestamp != e.timestamp;
    }
  }

  lemma AcquireKeeps(q: Queue, timestamp: nat, lt: LockType)
    requires Inv(q) && !lt.NoLock? && !IsIn(q.owners, timestamp) && !IsIn(q.waiters, timestamp)
    ensures Inv(Acquired(q, timestamp, lt))
  {
    var e := LockEntry(timestamp, lt);
    match Decide(q, timestamp, lt)
    case Granted =>
      var r := Acquired(q, timestamp, lt);
      forall i, j | 0 <= i < j < |r.owners| ensures r.owners[i].timestamp != r.owners[j].timestamp {
        assert r.owners[j] == q.owners[j - 1];
      }
      if q.waiters != [] {
        assert q.waiters[0].timestamp != timestamp;
        assert lt == q.lockType == ReadLock;
      }
    case Waiting =>
      BufferedSorted(q.waiters, e);
      BufferedFrom(q.waiters, e);
      WaitBelow(q, e);
    case Dies =>
  }

  /** A lock of type lt and the one that o holds exclude each other: one of them is to write. */
  predicate Excludes(o: LockEntry, lt: LockType) {
    lt.WriteLock? || o.lockType.WriteLock?
  }

  predicate SomeExcludes(os: seq<LockEntry>, lt: LockType) {
    exists i :: 0 <= i < |os| && Excludes(os[i], lt)
  }

  /** An owner with a smaller timestamp holds a lock that excludes lt. */
  predicate SmallerExcludes(os: seq<LockEntry>, timestamp: nat, lt: LockType) {
    exists i :: 0 <= i < |os| && Excludes(os[i], lt) && os[i].timestamp < timestamp
  }

  predicate LargerWaits(ws: seq<LockEntry>, timestamp: nat) {
    exists i :: 0 <= i < |ws| && timestamp < ws[i].timestamp
  }

  /** Where a request ends, in terms of who owns and who waits: wait-die. It is granted exactly if no
      owner excludes it and no waiter has a larger timestamp; it dies exactly if an owner that excludes it
      has a smaller timestamp; else it waits. Everyone else stays where they are. */
  lemma AcquireOutcome(q: Queue, timestamp: nat, lt: LockType)
    requires Inv(q) && !lt.NoLock? && !IsIn(q.owners, timestamp) && !IsIn(q.waiters, timestamp)
    ensures var p, e := Acquired(q, timestamp, lt), LockEntry(timestamp, lt);
      var granted := !SomeExcludes(q.owners, lt) && !LargerWaits(q.waiters, timestamp);
      var dies := SmallerExcludes(q.owners, timestamp, lt);
      && !(granted && dies)
      && p.owners == (if granted then [e] + q.owners else q.owners)
      && multiset(p.waiters) == multiset(q.waiters) + (if granted || dies then multiset{} else multiset{e})
      && (IsIn(p.owners, timestamp) <==> granted)
      && (IsIn(p.waiters, timestamp) <==> !granted && !dies)
  {
    var e := LockEntry(timestamp, lt);
    HeadLargest(q.waiters, timestamp);
    if Conflict(lt, q.lockType) {
      assert q.owners != [] && Excludes(q.owners[0], lt);
      forall i | 0 <= i < |q.owners| ensures Excludes(q.owners[i], lt) {}
    }
    match Decide(q, timestamp, lt)
    case Granted => assert ([e] + q.owners)[0] == e;
    case Waiting =>
      BufferedMembers(q.waiters, e);
      BufferedHas(q.waiters, e);
    case Dies =>
  }

  lemma DecidesOutcome(q: Queue, timestamp: nat, lt: LockType)
    requires Inv(q) && !lt.NoLock? && !IsIn(q.owners, timestamp) && !IsIn(q.waiters, timestamp)
    ensures Decide(q, timestamp, lt) == Dies <==> SmallerExcludes(q.owners, timestamp, lt)
    ensures Decide(q, timestamp, lt) == Waiting <==> IsIn(Acquired(q, timestamp, lt).waiters, timestamp)
  {
    AcquireOutcome(q, timestamp, lt);
    HeadLargest(q.waiters, timestamp);
    if Conflict(lt, q.lockType) {
      forall i | 0 <= i < |q.owners| ensures Excludes(q.owners[i], lt) {}
    }
  }

  lemma HeadLargest(ws: seq<LockEntry>, timestamp: nat)
    requires Descending(ws)
    ensures LargerWaits(ws, timestamp) <==> ws != [] && timestamp < ws[0].timestamp
  {}

  lemma BufferedHas(ws: seq<LockEntry>, e: LockEntry)
    ensures IsIn(Buffered(ws, e), e.timestamp)
  {
    BufferedMembers(ws, e);
    var bs := Buffered(ws, e);
    assert e in multiset(bs);
    var i :| 0 <= i < |bs| && bs[i] == e;
    assert bs[i].timestamp == e.timestamp;
  }

  /** Whoever may wait has a smaller timestamp than all owners. */
  lemma WaitBelow(q: Queue, e: LockEntry)
    requires Inv(q) && !IsIn(q.owners, e.timestamp) && !IsIn(q.waiters, e.timestamp)
    requires Decide(q, e.timestamp, e.lockType) == Waiting
    ensures Below(Buffered(q.waiters, e), q.owners)
  {
    BufferedFrom(q.waiters, e);
    forall j | 0 <= j < |q.owners| ensures e.timestamp < q.owners[j].timestamp {
      assert q.owners[j].timestamp != e.timestamp;
      if !Conflict(e.lockType, q.lockType) { assert q.waiters[0].timestamp < q.owners[j].timestamp; }
    }
    forall i, j | 0 <= i < |Buffered(q.waiters, e)| && 0 <= j < |q.owners|
      ensures Buffered(q.waiters, e)[i].timestamp < q.owners[j].timestamp
    {
      var w := Buffered(q.waiters, e)[i];
      if w != e {
        var k :| 0 <= k < |q.waiters| && q.waiters[k] == w;
      }
    }
  }

  /** How many waiters a free lock grants: the head alone if it writes, else the leading readers. */
  function GrantCount(ws: seq<LockEntry>): (n: nat)
    ensures n <= |ws|
  {
    if ws == [] then 0 else if ws[0].lockType.WriteLock? then 1 else Readers(ws)
  }

  function Readers(ws: seq<LockEntry>): (n: nat)
    ensures n <= |ws|
  {
    if ws != [] && ws[0].lockType.ReadLock? then 1 + Readers(ws[1..]) else 0
  }

  function Reversed(es: seq<LockEntry>): seq<LockEntry> {
    if es == [] then [] else Reversed(es[1..]) + [es[0]]
  }

  lemma {:induction false} DebufferReaders(q: Queue)
    requires q.lockType.ReadLock? && forall i | 0 <= i < |q.waiters| :: !q.waiters[i].lockType.NoLock?
    ensures var n := Readers(q.waiters);
      Debuffered(q) == Queue(Reversed(q.waiters[..n]) + q.owners, q.waiters[n..], q.ownersCount + n, ReadLock)
    decreases |q.waiters|
  {
    var n := Readers(q.waiters);
    if q.waiters != [] && q.waiters[0].lockType.ReadLock? {
      var p := Queue([q.waiters[0]] + q.owners, q.waiters[1..], q.ownersCount + 1, ReadLock);
      DebufferReaders(p);
      assert q.waiters[..n][1..] == q.waiters[1..][..n - 1];
      assert Reversed(q.waiters[..n]) + q.owners == Reversed(q.waiters[1..][..n - 1]) + ([q.waiters[0]] + q.owners);
      assert q.waiters[1..][n - 1..] == q.waiters[n..];
    } else {
      assert q.waiters[..0] == [];
      assert Reversed([]) + q.owners == q.owners;
    }
  }

  /** What a lock that has become free grants, and that it wakes nobody it should not. */
  lemma DebufferFree(q: Queue)
    requires q.lockType.NoLock? && q.owners == [] && q.ownersCount == 0
    requires forall i | 0 <= i < |q.waiters| :: !q.waiters[i].lockType.NoLock?
    ensures var n := GrantCount(q.waiters);
      && Debuffered(q)
        == Queue(Reversed(q.waiters[..n]), q.waiters[n..], n, if n == 0 then NoLock else q.waiters[0].lockType)
      && (q.waiters != [] ==> n > 0)
      && (n < |q.waiters| ==> Conflict(q.waiters[n].lockType, q.waiters[0].lockType))
  {
    var n := GrantCount(q.waiters);
    if q.waiters != [] {
      assert Reversed([q.waiters[0]]) == [q.waiters[0]];
      if q.waiters[0].lockType.WriteLock? {
        assert q.waiters[..1] == [q.waiters[0]];
      } else {
        DebufferFreeReaders(q);
        ReadersEnd(q.waiters);
      }
    } else {
      assert q.waiters[..0] == [];
    }
  }

  lemma DebufferFreeReaders(q: Queue)
    requires q.lockType.NoLock? && q.owners == [] && q.ownersCount == 0 && q.waiters != []
    requires q.waiters[0].lockType.ReadLock? && forall i | 0 <= i < |q.waiters| :: !q.waiters[i].lockType.NoLock?
    ensures var n := GrantCount(q.waiters);
      n > 0 && Debuffered(q) == Queue(Reversed(q.waiters[..n]), q.waiters[n..], n, q.waiters[0].lockType)
  {
    var n := GrantCount(q.waiters);
    var p := Queue([q.waiters[0]], q.waiters[1..], 1, q.waiters[0].lockType);
    forall i | 0 <= i < |p.waiters| ensures !p.waiters[i].lockType.NoLock? { assert p.waiters[i] == q.waiters[i + 1]; }
    DebufferReaders(p);
    assert q.waiters[..n][1..] == q.waiters[1..][..n - 1] && q.waiters[1..][n - 1..] == q.waiters[n..];
    assert [q.waiters[0]] + q.owners == [q.waiters[0]];
  }

  lemma {:induction false} ReadersEnd(ws: seq<LockEntry>)
    ensures Readers(ws) < |ws| ==> !ws[Readers(ws)].lockType.ReadLock?
    ensures forall i | 0 <= i < Readers(ws) :: ws[i].lockType.ReadLock?
  {
    if ws != [] { ReadersEnd(ws[1..]); }
  }

  lemma {:induction false} ReversedMembers(es: seq<LockEntry>)
    ensures |Reversed(es)| == |es|
    ensures forall i | 0 <= i < |es| :: Reversed(es)[i] == es[|es| - 1 - i]
  {
    if es != [] { ReversedMembers(es[1..]); }
  }

  lemma {:induction false} WithoutOne(es: seq<LockEntry>, timestamp: nat)
    requires Distinct(es) && IsIn(es, timestamp)
    ensures |Without(es, timestamp)| == |es| - 1 && Distinct(Without(es, timestamp))
    ensures !IsIn(Without(es, timestamp), timestamp)
    ensures forall i | 0 <= i < |es| - 1 :: Without(es, timestamp)[i] in es
    ensures forall e | e in es && e.timestamp != timestamp :: e in Without(es, timestamp)
  {
    var i :| 0 <= i < |es| && es[i].timestamp == timestamp;
    if i > 0 {
      assert es[0].timestamp != timestamp && es[1..][i - 1].timestamp == timestamp;
      WithoutOne(es[1..], timestamp);
      var ws := Without(es[1..], timestamp);
      forall j | 0 <= j < |ws| ensures ws[j].timestamp != es[0].timestamp {
        assert ws[j] in es[1..];
        var k :| 0 <= k < |es[1..]| && es[1..][k] == ws[j];
        assert es[k + 1] == ws[j];
      }
    }
  }

  /** A release keeps the queue in order; if the last owner goes, the lock passes on. */
  lemma ReleaseKeeps(q: Queue, timestamp: nat)
    requires Inv(q) && IsIn(q.owners, timestamp)
    ensures Inv(Released(q, timestamp))
  {
    WithoutOne(q.owners, timestamp);
    if q.ownersCount > 1 {
      var p := Released(q, timestamp);
      forall i, j | 0 <= i < |p.waiters| && 0 <= j < |p.owners| ensures p.waiters[i].timestamp < p.owners[j].timestamp {
        assert p.owners[j] in q.owners;
      }
      forall i | 0 <= i < |p.owners| ensures p.owners[i].lockType == q.lockType { assert p.owners[i] in q.owners; }
    } else {
      DebufferKeeps(q.waiters);
    }
  }

  lemma DebufferKeeps(ws: seq<LockEntry>)
    requires Descending(ws) && forall i | 0 <= i < |ws| :: !ws[i].lockType.NoLock?
    ensures Inv(Debuffered(Queue([], ws, 0, NoLock)))
  {
    DebufferFree(Queue([], ws, 0, NoLock));
    ReadersEnd(ws);
    GrantedInv(ws, GrantCount(ws), Debuffered(Queue([], ws, 0, NoLock)));
  }

  /** The first n waiters of one type own the lock: alone if they write. */
  lemma GrantedInv(ws: seq<LockEntry>, n: nat, r: Queue)
    requires Descending(ws) && n <= |ws| && (forall i | 0 <= i < |ws| :: !ws[i].lockType.NoLock?)
    requires r == Queue(Reversed(ws[..n]), ws[n..], n, if n == 0 then NoLock else ws[0].lockType)
    requires (forall i | 0 <= i < n :: ws[i].lockType == ws[0].lockType) && (ws != [] ==> n > 0)
    requires ws != [] && ws[0].lockType.WriteLock? ==> n == 1
    requires n < |ws| ==> Conflict(ws[n].lockType, ws[0].lockType)
    ensures Inv(r)
  {
    ReversedMembers(ws[..n]);
    forall i | 0 <= i < n ensures r.owners[i] == ws[n - 1 - i] {}
  }
}
