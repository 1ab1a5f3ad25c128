// A record's lock queue in place, with the loops of LockWaitContent.
module LockContent {
  import opened LockWait

  /** The requester may wait if no owner has a smaller timestamp. */
  method CanWait(owners: seq<LockEntry>, timestamp: nat) returns (ok: bool)
    ensures ok <==> forall k | 0 <= k < |owners| :: owners[k].timestamp >= timestamp
  {
    ok := true;
    var i := 0;
    while i < |owners|
      invariant 0 <= i <= |owners| && ok
      invariant forall k | 0 <= k < i :: owners[k].timestamp >= timestamp
    {
      if owners[i].timestamp < timestamp {
        ok := false;
        break;
      }
      i := i + 1;
    }
  }

  lemma WithoutStep(es: seq<LockEntry>, timestamp: nat, i: nat)
    requires i < |es| && es[i].timestamp != timestamp
    ensures es[..i] + Without(es[i..], timestamp) == es[..i + 1] + Without(es[i + 1..], timestamp)
  {
    assert es[i..] == [es[i]] + es[i + 1..] && es[..i + 1] == es[..i] + [es[i]];
  }

  /** The first owner with the timestamp leaves the list. */
  method Unlink(owners: seq<LockEntry>, timestamp: nat) returns (rest: seq<LockEntry>)
    requires IsIn(owners, timestamp)
    ensures rest == Without(owners, timestamp)
  {
    var i := 0;
    while i < |owners| && owners[i].timestamp != timestamp
      invariant 0 <= i <= |owners| && forall k | 0 <= k < i :: owners[k].timestamp != timestamp
      invariant Without(owners, timestamp) == owners[..i] + Without(owners[i..], timestamp)
    {
      WithoutStep(owners, timestamp, i);
      i := i + 1;
    }
    assert owners[i..][1..] == owners[i + 1..];
    rest := owners[..i] + owners[i + 1..];
  }

  class LockWaitContent {
    var owners: seq<LockEntry>
    var waiters: seq<LockEntry>
    var ownersCount: nat
    var lockType: LockType
    var lockReady: map<nat, bool> // the requesters' flags

    constructor ()
      ensures Inv(Now()) && Now() == Queue([], [], 0, NoLock) && lockReady == map[]
    {
      owners, waiters, ownersCount, lockType, lockReady := [], [], 0, NoLock, map[];
    }

    ghost function Now(): Queue
      reads this
    {
      Queue(owners, waiters, ownersCount, lockType)
    }

    method BufferWaiter(timestamp: nat, lt: LockType)
      modifies `waiters
      ensures waiters == Buffered(old(waiters), LockEntry(timestamp, lt))
    {
      ghost var e := LockEntry(timestamp, lt);
      var i := 0;
      while i < |waiters| && timestamp < waiters[i].timestamp
        invariant 0 <= i <= |waiters| && waiters == old(waiters)
        invariant Buffered(waiters, e) == waiters[..i] + Buffered(waiters[i..], e)
      {
        assert waiters[i..] == [waiters[i]] + waiters[i + 1..] && waiters[..i + 1] == waiters[..i] + [waiters[i]];
        i := i + 1;
      }
      assert i == |waiters| ==> waiters[i..] == [];
      waiters := waiters[..i] + [LockEntry(timestamp, lt)] + waiters[i..];
    }

    /** The first n waiters get the lock. */
    method DebufferWaiters() returns (ghost n: nat)
      modifies this
      ensures Now() == Debuffered(old(Now()))
      ensures n <= |old(waiters)| && waiters == old(waiters)[n..]
      ensures lockReady == Woken(old(lockReady), old(waiters)[..n])
    {
      n := 0;
      ghost var ws := waiters;
      while waiters != [] && !Conflict(waiters[0].lockType, lockType)
        invariant 0 <= n <= |ws| && waiters == ws[n..] && Debuffered(Now()) == Debuffered(old(Now()))
        invariant lockReady == Woken(old(lockReady), ws[..n])
        decreases |waiters|
      {
        var en := waiters[0];
        assert ws[..n + 1] == ws[..n] + [en];
        waiters := waiters[1..];
        owners := [en] + owners;
        ownersCount := ownersCount + 1;
        lockType := en.lockType;
        lockReady := lockReady[en.timestamp := true];
        n := n + 1;
      }
    }

    /** True if the lock is granted or waited for, false if the requester must abort. */
    method AcquireLock(timestamp: nat, lt: LockType) returns (ret: bool)
      requires Inv(Now()) && !lt.NoLock? && !IsIn(owners, timestamp) && !IsIn(waiters, timestamp)
      modifies this
      ensures Inv(Now()) && Now() == Acquired(old(Now()), timestamp, lt)
      ensures ret <==> !SmallerExcludes(old(owners), timestamp, lt)
      ensures ret <==> IsIn(owners, timestamp) || IsIn(waiters, timestamp)
      ensures lockReady == if IsIn(waiters, timestamp) then old(lockReady)[timestamp := false] else old(lockReady)
    {
      AcquireKeeps(Now(), timestamp, lt);
      AcquireOutcome(Now(), timestamp, lt);
      DecidesOutcome(Now(), timestamp, lt);
      ret := TakeOrWait(timestamp, lt);
    }

    method TakeOrWait(timestamp: nat, lt: LockType) returns (ret: bool)
      modifies this
      ensures Now() == Acquired(old(Now()), timestamp, lt)
      ensures ret <==> Decide(old(Now()), timestamp, lt) != Dies
      ensures lockReady ==
        if Decide(old(Now()), timestamp, lt) == Waiting then old(lockReady)[timestamp := false] else old(lockReady)
    {
      ret := true;
      if Conflict(lt, lockType) {
        var canWait := CanWait(owners, timestamp);
        if canWait {
          BufferWaiter(timestamp, lt);
          lockReady := lockReady[timestamp := false];
        } else {
          ret := false;
        }
      } else if waiters != [] && timestamp < waiters[0].timestamp {
        BufferWaiter(timestamp, lt);
        lockReady := lockReady[timestamp := false];
      } else {
        owners := [LockEntry(timestamp, lt)] + owners;
        ownersCount := ownersCount + 1;
        lockType := lt;
      }
    }

    method ReleaseLock(timestamp: nat)
      requires Inv(Now()) && IsIn(owners, timestamp)
      modifies this
      ensures Inv(Now()) && old(ownersCount) > 0 && Now() == Released(old(Now()), timestamp)
      ensures exists n ::
        && 0 <= n <= |old(waiters)| && waiters == old(waiters)[n..]
        && lockReady == Woken(old(lockReady), old(waiters)[..n])
    {
      ReleaseKeeps(Now(), timestamp);
      owners := Unlink(owners, timestamp);
      ownersCount := ownersCount - 1;
      if ownersCount == 0 {
        lockType := NoLock;
        ghost var n := DebufferWaiters();
      } else {
        assert waiters == waiters[0..] && Woken(lockReady, waiters[..0]) == lockReady;
      }
    }
  }

  /** The flags of the given entries set. */
  function Woken(ready: map<nat, bool>, es: seq<LockEntry>): map<nat, bool> {
    if es == [] then ready else Woken(ready, es[..|es| - 1])[es[|es| - 1].timestamp := true]
  }

  lemma {:induction false} WokenFlags(ready: map<nat, bool>, es: seq<LockEntry>, t: nat)
    ensures t in Woken(ready, es) <==> t in ready || IsIn(es, t)
    ensures t in Woken(ready, es) ==> (Woken(ready, es)[t] <==> IsIn(es, t) || ready[t])
  {
    if es != [] {
      var n := |es| - 1;
      WokenFlags(ready, es[..n], t);
      assert forall i | 0 <= i < n :: es[..n][i] == es[i];
      if es[n].timestamp != t {
        assert IsIn(es, t) ==> IsIn(es[..n], t) by {
          if i :| 0 <= i < |es| && es[i].timestamp == t { assert es[..n][i].timestamp == t; }
        }
      }
    }
  }
}
