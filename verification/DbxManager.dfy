// The DBX transaction manager in place: each method is one step of one thread, with the
// loops of the commit region, and does to the state what the protocol's step function says.
module DbxManager {
  import opened Dbx
  import opened DbxSerial

  /** Whether nothing the accesses have seen has changed since; stops at the first that has. */
  method Validate(cells: map<Rec, Cell>, accesses: seq<Access>) returns (ok: bool)
    requires Known(cells, accesses) && forall a | a in accesses :: a.Ready()
    ensures ok <==> forall k | 0 <= k < |accesses| && (accesses[k].Viewed? || accesses[k].Copied?) ::
      cells[accesses[k].rec].timestamp == accesses[k].timestamp
  {
    ok := true;
    var i := 0;
    while i < |accesses|
      invariant 0 <= i <= |accesses| && ok
      invariant forall k | 0 <= k < i && (accesses[k].Viewed? || accesses[k].Copied?) ::
        cells[accesses[k].rec].timestamp == accesses[k].timestamp
    {
      var a := accesses[i];
      assert a in accesses;
      if cells[a.rec].timestamp != a.timestamp {
        ok := false;
        break;
      }
      i := i + 1;
    }
  }

  /** The log grows exactly if the accesses are fresh. */
  lemma RegionLogs(s: State, t: nat)
    requires Enabled(s, Commit(t)) && Safe(s, Commit(t))
    ensures var log := Do(s, Commit(t)).log;
      if Fresh(s.cells, s.threads[t].accesses) then |log| == |s.log| + 1 else log == s.log
  {}

  class Database {
    var cells: map<Rec, Cell>
    var heap: map<Ver, Data>
    var threads: seq<Thread>
    ghost var own: map<Ver, Place>
    ghost var log: seq<Txn>

    ghost function Now(): State
      reads this
    {
      State(cells, heap, threads, own, log)
    }

    /** DbxContent::IncrementTimestamp */
    method IncrementTimestamp(r: Rec) returns (now: nat)
      requires r in cells
      modifies `cells
      ensures now == old(cells)[r].timestamp + 1 && cells == old(cells)[r := old(cells)[r].(timestamp := now)]
    {
      now := cells[r].timestamp + 1;
      cells := cells[r := cells[r].(timestamp := now)];
    }

    /** DbxContent::IncrementCounter, the value before */
    method IncrementCounter(r: Rec) returns (previous: nat)
      requires r in cells
      modifies `cells
      ensures previous == old(cells)[r].counter && cells == old(cells)[r := old(cells)[r].(counter := previous + 1)]
    {
      previous := cells[r].counter;
      cells := cells[r := cells[r].(counter := previous + 1)];
    }

    /** DbxContent::DecrementCounter, the value before */
    method DecrementCounter(r: Rec) returns (previous: nat)
      requires r in cells && cells[r].counter > 0
      modifies `cells
      ensures previous == old(cells)[r].counter && cells == old(cells)[r := old(cells)[r].(counter := previous - 1)]
    {
      previous := cells[r].counter;
      cells := cells[r := cells[r].(counter := previous - 1)];
    }

    /** SelectRecordCC: a new access, counted before anything is read. */
    method NewAccess(t: nat, kind: AccessType, r: Rec)
      requires Inv(Now()) && Enabled(Now(), Count(t, kind, r))
      modifies this
      ensures Now() == Do(old(Now()), Count(t, kind, r)) && Inv(Now())
    {
      StepKeeps(Now(), Count(t, kind, r));
      threads := threads[t := threads[t].(accesses := threads[t].accesses + [Counted(kind, r)])];
      var previous := IncrementCounter(r);
    }

    /** SelectRecordCC: timestamp and version are read together. */
    method SelectRegion(t: nat)
      requires Inv(Now()) && Enabled(Now(), See(t))
      modifies this
      ensures Safe(old(Now()), See(t)) && Now() == Do(old(Now()), See(t)) && Inv(Now())
    {
      StepKeeps(Now(), See(t));
      var n := |threads[t].accesses| - 1;
      var a := threads[t].accesses[n];
      var view := Viewed(a.kind, a.rec, cells[a.rec].timestamp, cells[a.rec].record, heap[cells[a.rec].record]);
      threads := threads[t := threads[t].(accesses := threads[t].accesses[n := view])];
    }

    /** SelectRecordCC: a private copy for a read-write access, made outside the region. */
    method CopyFrom(t: nat, to: Ver)
      requires Inv(Now()) && Enabled(Now(), Copy(t, to))
      modifies this
      ensures Safe(old(Now()), Copy(t, to)) && Now() == Do(old(Now()), Copy(t, to)) && Inv(Now())
    {
      StepKeeps(Now(), Copy(t, to));
      var n := |threads[t].accesses| - 1;
      var a := threads[t].accesses[n];
      var data := heap[a.version];
      heap := heap[to := data];
      own := own[to := Slot(t, n)];
      threads := threads[t := threads[t].(accesses := threads[t].accesses[n := Copied(a.rec, a.timestamp, data, to)])];
    }

    /** CommitTransaction: validate every access, and if all are fresh swap in every copy. */
    method CommitRegion(t: nat) returns (ok: bool)
      requires Inv(Now()) && Enabled(Now(), Commit(t))
      modifies this
      ensures Safe(old(Now()), Commit(t)) && (ok <==> |log| == |old(log)| + 1) && (!ok <==> log == old(log))
      ensures Now() == Do(old(Now()), Commit(t)) && Inv(Now())
    {
      StepKeeps(Now(), Commit(t));
      RegionLogs(Now(), t);
      ok := ValidateAndSwap(t, Now());
    }

    method ValidateAndSwap(t: nat, ghost s: State) returns (ok: bool)
      requires s == Now() && Enabled(s, Commit(t)) && Safe(s, Commit(t))
      modifies this
      ensures Now() == Do(s, Commit(t)) && (ok <==> Fresh(s.cells, s.threads[t].accesses))
    {
      var n := |threads[t].accesses|;
      ok := Validate(cells, threads[t].accesses);
      if ok {
        SwapAll(t, s);
        threads := threads[t := threads[t].(phase := Cleaning(true, 0))];
        log := log + [Txn(ReadsOf(s.threads[t].accesses, n), WritesOf(s.heap, s.threads[t].accesses, n))];
      } else {
        threads := threads[t := threads[t].(phase := Cleaning(false, 0))];
      }
    }

    method SwapAll(t: nat, ghost s: State)
      requires s == Now() && t < |threads| && Known(cells, threads[t].accesses)
      modifies this
      ensures Now() == SwapUpTo(s, t, |s.threads[t].accesses|)
    {
      var i := 0;
      while i < |threads[t].accesses|
        invariant t < |threads| && 0 <= i <= |threads[t].accesses| == |s.threads[t].accesses|
        invariant Now() == SwapUpTo(s, t, i)
      {
        var a := threads[t].accesses[i];
        if a.Copied? {
          SwapIn(t, i);
        }
        i := i + 1;
      }
    }

    /** The copy becomes the record's version, the one it replaces stays with the access. */
    method SwapIn(t: nat, i: nat)
      requires t < |threads| && i < |threads[t].accesses| && Known(cells, threads[t].accesses)
      requires threads[t].accesses[i].Copied?
      modifies this
      ensures Now() == SwapOne(old(Now()), t, i)
    {
      var a := threads[t].accesses[i];
      var prior := cells[a.rec].record;
      cells := cells[a.rec := cells[a.rec].(record := a.local)];
      var now := IncrementTimestamp(a.rec);
      own := own[a.local := Place.Current(a.rec)][prior := Slot(t, i)];
      threads := threads[t := threads[t].(accesses := threads[t].accesses[i := Swapped(a.rec, prior)])];
    }

    /** Clean-up of the next access. The value DecrementCounter returns is never 0, so after a
        commit the replaced version is never freed on the spot. */
    method ReleaseNext(t: nat)
      requires Inv(Now()) && Enabled(Now(), Release(t))
      modifies this
      ensures Safe(old(Now()), Release(t)) && Now() == Do(old(Now()), Release(t)) && Inv(Now())
    {
      ghost var s := Now();
      StepKeeps(s, Release(t));
      var i := threads[t].phase.i;
      var a := threads[t].accesses[i];
      var previous := DecrementCounter(a.rec);
      var next;
      if a.Swapped? {
        assert previous != 0;
        next := Scanning(i, 0);
      } else if a.Copied? {
        next := Freeing(i);
      } else {
        next := Cleaning(threads[t].phase.ok, i + 1);
      }
      threads := threads[t := threads[t].(phase := next)];
      assert cells == s.cells[a.rec := s.cells[a.rec].(counter := s.cells[a.rec].counter - 1)];
    }

    /** One look at the garbage list: an entry whose counter is 0 is to be freed. */
    method ScanNext(t: nat)
      requires Inv(Now()) && Enabled(Now(), Scan(t))
      modifies this
      ensures Safe(old(Now()), Scan(t)) && Now() == Do(old(Now()), Scan(t)) && Inv(Now())
    {
      StepKeeps(Now(), Scan(t));
      var i, j := threads[t].phase.i, threads[t].phase.j;
      if cells[threads[t].garbage[j].0].counter == 0 {
        threads := threads[t := threads[t].(phase := Reclaiming(i, j))];
      } else {
        threads := threads[t := threads[t].(phase := Scanning(i, j + 1))];
      }
    }

    /** It is freed and leaves the list; other threads may have gone on since the test. */
    method FreeGarbage(t: nat)
      requires Inv(Now()) && Enabled(Now(), Reclaim(t))
      modifies this
      ensures Safe(old(Now()), Reclaim(t)) && Now() == Do(old(Now()), Reclaim(t)) && Inv(Now())
    {
      StepKeeps(Now(), Reclaim(t));
      var i, j := threads[t].phase.i, threads[t].phase.j;
      var v := threads[t].garbage[j].1;
      heap := heap - {v};
      own := own - {v};
      var garbage := threads[t].garbage[..j] + threads[t].garbage[j + 1..];
      threads := threads[t := threads[t].(phase := Scanning(i, j), garbage := garbage)];
    }

    /** The replaced version goes to the end of the garbage list. */
    method PushGarbage(t: nat)
      requires Inv(Now()) && Enabled(Now(), Push(t))
      modifies this
      ensures Safe(old(Now()), Push(t)) && Now() == Do(old(Now()), Push(t)) && Inv(Now())
    {
      StepKeeps(Now(), Push(t));
      var i := threads[t].phase.i;
      var a := threads[t].accesses[i];
      own := own[a.prior := Trash(t, a.rec)];
      var garbage := threads[t].garbage + [(a.rec, a.prior)];
      threads := threads[t := threads[t].(phase := Cleaning(true, i + 1), garbage := garbage)];
    }

    /** The copy of an aborted access is freed. */
    method FreeCopy(t: nat)
      requires Inv(Now()) && Enabled(Now(), Free(t))
      modifies this
      ensures Safe(old(Now()), Free(t)) && Now() == Do(old(Now()), Free(t)) && Inv(Now())
    {
      StepKeeps(Now(), Free(t));
      var i := threads[t].phase.i;
      var v := threads[t].accesses[i].local;
      heap := heap - {v};
      own := own - {v};
      threads := threads[t := threads[t].(phase := Cleaning(false, i + 1))];
    }
  }
}
