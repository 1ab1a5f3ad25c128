// The DBX optimistic protocol as a state machine. Every step is one thing a thread does that
// other threads can tell from a longer one: bumping or testing a counter, one hardware-transaction
// region, copying a record, freeing one. Runs interleave the steps of all threads.
module Dbx {

  type Rec = nat   // a table record
  type Ver = nat   // the address of a version, a schema record
  type Data = seq<int>

  datatype AccessType = ReadOnly | ReadWrite

  /** A table record: its current version, and its DbxContent. */
  datatype Cell = Cell(record: Ver, timestamp: nat, counter: nat)

  /** An entry of the access list. A read-write access first sees the version, then copies it. seen is
      what the version held then; no step looks at it. After the commit region the access holds the
      version it has replaced. */
  datatype Access =
    | Counted(kind: AccessType, rec: Rec)
    | Viewed(kind: AccessType, rec: Rec, timestamp: nat, version: Ver, seen: Data)
    | Copied(rec: Rec, timestamp: nat, seen: Data, local: Ver)
    | Swapped(rec: Rec, prior: Ver)
  {
    /** Whether the access list may go on to its next entry. */
    predicate Ready() {
      (Viewed? && kind.ReadOnly?) || Copied?
    }

    /** The version that only this access can free. */
    predicate Holds(v: Ver) {
      (Copied? && local == v) || (Swapped? && prior == v)
    }
  }

  /** Cleaning(ok, i): about to release access i after a commit or an abort. Scanning(i, j): the
      counter of access i is released, garbage is looked through from j on. Reclaiming(i, j): the
      counter of garbage entry j was 0 when tested, the entry is not yet freed. Freeing(i): the
      counter of access i of an aborted transaction is released, its copy is not yet freed. */
  datatype Phase =
    | Running
    | Cleaning(ok: bool, i: nat)
    | Scanning(i: nat, j: nat)
    | Reclaiming(i: nat, j: nat)
    | Freeing(i: nat)

  datatype Thread = Thread(phase: Phase, accesses: seq<Access>, garbage: seq<(Rec, Ver)>)

  /** Who holds the one owning pointer to a version. */
  datatype Place = Current(rec: Rec) | Slot(t: nat, i: nat) | Trash(t: nat, rec: Rec)

  /** A committed transaction: what it read, what it wrote. */
  datatype Txn = Txn(readSet: seq<(Rec, Data)>, writeSet: seq<(Rec, Data)>)

  /** own and log are there for the proofs: no step looks at them. */
  datatype State = State(cells: map<Rec, Cell>, heap: map<Ver, Data>,
      threads: seq<Thread>, own: map<Ver, Place>, log: seq<Txn>)

  // ----- Steps -----

  datatype Step =
    | Count(t: nat, kind: AccessType, rec: Rec)   // IncrementCounter
    | See(t: nat)                                 // the region of SelectRecordCC
    | Copy(t: nat, to: Ver)                       // the copy made for a read-write access
    | Write(t: nat, i: nat, data: Data)           // the procedure updates its copy
    | Commit(t: nat)                              // the region of CommitTransaction
    | Release(t: nat)                             // DecrementCounter for the next access
    | Scan(t: nat)                                // the counter of a garbage entry is tested
    | Reclaim(t: nat)                             // the entry is freed
    | Push(t: nat)                                // the replaced version becomes garbage
    | Free(t: nat)                                // an aborted copy is freed
    | Finish(t: nat)                              // access_list_.Clear

  predicate Enabled(s: State, e: Step) {
    e.t < |s.threads| &&
    var th := s.threads[e.t];
    match e
    case Count(t, kind, rec) => th.phase.Running? && rec in s.cells && (forall a | a in th.accesses :: a.Ready())
    case See(t) => th.phase.Running? && |th.accesses| > 0 && th.accesses[|th.accesses| - 1].Counted?
    case Copy(t, to) => th.phase.Running? && |th.accesses| > 0 && th.accesses[|th.accesses| - 1].Viewed?
      && th.accesses[|th.accesses| - 1].kind.ReadWrite? && to !in s.heap
    case Write(t, i, data) => th.phase.Running? && i < |th.accesses| && th.accesses[i].Copied?
    case Commit(t) => th.phase.Running? && (forall a | a in th.accesses :: a.Ready())
    case Release(t) => th.phase.Cleaning? && th.phase.i < |th.accesses|
    case Scan(t) => th.phase.Scanning? && th.phase.j < |th.garbage|
    case Reclaim(t) => th.phase.Reclaiming?
    case Push(t) => th.phase.Scanning? && th.phase.j == |th.garbage|
    case Free(t) => th.phase.Freeing?
    case Finish(t) => th.phase.Cleaning? && th.phase.i == |th.accesses|
  }

  /** Every version the accesses point to is allocated. */
  predicate Readable(heap: map<Ver, Data>, accesses: seq<Access>) {
    forall i | 0 <= i < |accesses| ::
      (accesses[i].Viewed? ==> accesses[i].version in heap) && (accesses[i].Copied? ==> accesses[i].local in heap)
  }

  predicate Known(cells: map<Rec, Cell>, accesses: seq<Access>) {
    forall i | 0 <= i < |accesses| :: accesses[i].rec in cells
  }

  /** What the step reads or frees is there: no use after free, no double free, no counter below zero. */
  predicate Safe(s: State, e: Step)
    requires Enabled(s, e)
  {
    var th := s.threads[e.t];
    match e
    case Count(t, kind, rec) => true
    case See(t) =>
      th.accesses[|th.accesses| - 1].rec in s.cells && s.cells[th.accesses[|th.accesses| - 1].rec].record in s.heap
    case Copy(t, to) => th.accesses[|th.accesses| - 1].version in s.heap
    case Write(t, i, data) => th.accesses[i].local in s.heap
    case Commit(t) => Known(s.cells, th.accesses) && Readable(s.heap, th.accesses)
    case Release(t) => th.accesses[th.phase.i].rec in s.cells && s.cells[th.accesses[th.phase.i].rec].counter > 0
    case Scan(t) => th.garbage[th.phase.j].0 in s.cells
    case Reclaim(t) => th.phase.j < |th.garbage| && th.garbage[th.phase.j].1 in s.heap
    case Push(t) => th.phase.i < |th.accesses| && th.accesses[th.phase.i].Swapped?
    case Free(t) =>
      th.phase.i < |th.accesses| && th.accesses[th.phase.i].Copied? && th.accesses[th.phase.i].local in s.heap
    case Finish(t) => true
  }

  function WithThread(s: State, t: nat, th: Thread): State
    requires t < |s.threads|
  {
    s.(threads := s.threads[t := th])
  }

  function WithAccess(s: State, t: nat, i: nat, a: Access): State
    requires t < |s.threads| && i < |s.threads[t].accesses|
  {
    WithThread(s, t, s.threads[t].(accesses := s.threads[t].accesses[i := a]))
  }

  /** Nobody has changed what the transaction has seen. */
  predicate Fresh(cells: map<Rec, Cell>, accesses: seq<Access>)
    requires Known(cells, accesses)
  {
    forall i | 0 <= i < |accesses| && (accesses[i].Viewed? || accesses[i].Copied?) ::
      cells[accesses[i].rec].timestamp == accesses[i].timestamp
  }

  /** The commit region's work on access i: current version and copy change places, the timestamp goes up. */
  function SwapOne(s: State, t: nat, i: nat): State
    requires t < |s.threads| && i < |s.threads[t].accesses| && Known(s.cells, s.threads[t].accesses)
  {
    var a := s.threads[t].accesses[i];
    if a.Copied? then
      var c := s.cells[a.rec];
      WithAccess(s.(cells := s.cells[a.rec := c.(record := a.local, timestamp := c.timestamp + 1)],
                    own := s.own[a.local := Current(a.rec)][c.record := Slot(t, i)]),
                 t, i, Swapped(a.rec, c.record))
    else s
  }

  function SwapUpTo(s: State, t: nat, n: nat): (r: State)
    requires t < |s.threads| && n <= |s.threads[t].accesses| && Known(s.cells, s.threads[t].accesses)
    ensures |r.threads| == |s.threads| && |r.threads[t].accesses| == |s.threads[t].accesses|
    ensures r.cells.Keys == s.cells.Keys
    ensures r.threads[t].phase == s.threads[t].phase && r.threads[t].garbage == s.threads[t].garbage
    ensures r.heap == s.heap && r.log == s.log && Known(r.cells, r.threads[t].accesses)
    ensures forall i | n <= i < |s.threads[t].accesses| :: r.threads[t].accesses[i] == s.threads[t].accesses[i]
    ensures forall u | 0 <= u < |s.threads| && u != t :: r.threads[u] == s.threads[u]
  {
    if n == 0 then s else SwapOne(SwapUpTo(s, t, n - 1), t, n - 1)
  }

  function ReadsOf(accesses: seq<Access>, n: nat): seq<(Rec, Data)>
    requires n <= |accesses|
  {
    if n == 0 then [] else
      var a := accesses[n - 1];
      ReadsOf(accesses, n - 1) + if a.Viewed? || a.Copied? then [(a.rec, a.seen)] else []
  }

  function WritesOf(heap: map<Ver, Data>, accesses: seq<Access>, n: nat): seq<(Rec, Data)>
    requires n <= |accesses| && Readable(heap, accesses)
  {
    if n == 0 then [] else
      var a := accesses[n - 1];
      WritesOf(heap, accesses, n - 1) + if a.Copied? then [(a.rec, heap[a.local])] else []
  }

  function Do(s: State, e: Step): State
    requires Enabled(s, e) && Safe(s, e)
  {
    var th := s.threads[e.t];
    var n := |th.accesses|;
    match e
    case Count(t, kind, rec) =>
      WithThread(s.(cells := s.cells[rec := s.cells[rec].(counter := s.cells[rec].counter + 1)]),
        t, th.(accesses := th.accesses + [Counted(kind, rec)]))
    case See(t) =>
      var a := th.accesses[n - 1];
      var c := s.cells[a.rec];
      WithAccess(s, t, n - 1, Viewed(a.kind, a.rec, c.timestamp, c.record, s.heap[c.record]))
    case Copy(t, to) =>
      var a := th.accesses[n - 1];
      WithAccess(s.(heap := s.heap[to := s.heap[a.version]], own := s.own[to := Slot(t, n - 1)]),
                 t, n - 1, Copied(a.rec, a.timestamp, s.heap[a.version], to))
    case Write(t, i, data) => s.(heap := s.heap[th.accesses[i].local := data])
    case Commit(t) =>
      if Fresh(s.cells, th.accesses) then
        var r := SwapUpTo(s, t, n);
        WithThread(r, t, r.threads[t].(phase := Cleaning(true, 0)))
          .(log := s.log + [Txn(ReadsOf(th.accesses, n), WritesOf(s.heap, th.accesses, n))])
      else WithThread(s, t, th.(phase := Cleaning(false, 0)))
    case Release(t) =>
      var i, a := th.phase.i, th.accesses[th.phase.i];
      var next := if a.Swapped? then Scanning(i, 0) else if a.Copied? then Freeing(i) else Cleaning(th.phase.ok, i + 1);
      WithThread(s.(cells := s.cells[a.rec := s.cells[a.rec].(counter := s.cells[a.rec].counter - 1)]),
        t, th.(phase := next))
    case Scan(t) =>
      var i, j := th.phase.i, th.phase.j;
      WithThread(s, t,
        th.(phase := if s.cells[th.garbage[j].0].counter == 0 then Reclaiming(i, j) else Scanning(i, j + 1)))
    case Reclaim(t) =>
      var i, j := th.phase.i, th.phase.j;
      var v := th.garbage[j].1;
      WithThread(s.(heap := s.heap - {v}, own := s.own - {v}), t,
                 th.(phase := Scanning(i, j), garbage := th.garbage[..j] + th.garbage[j + 1..]))
    case Push(t) =>
      var i, a := th.phase.i, th.accesses[th.phase.i];
      WithThread(s.(own := s.own[a.prior := Trash(t, a.rec)]), t,
        th.(phase := Cleaning(true, i + 1), garbage := th.garbage + [(a.rec, a.prior)]))
    case Free(t) =>
      var i, v := th.phase.i, th.accesses[th.phase.i].local;
      WithThread(s.(heap := s.heap - {v}, own := s.own - {v}), t, th.(phase := Cleaning(false, i + 1)))
    case Finish(t) => WithThread(s, t, th.(phase := Running, accesses := []))
  }

  // ----- The invariant -----

  function Released(p: Phase): nat {
    match p
    case Running => 0
    case Cleaning(_, i) => i
    case Scanning(i, _) => i + 1
    case Reclaiming(i, _) => i + 1
    case Freeing(i) => i + 1
  }

  /** The first access whose version is still the thread's to get rid of. */
  function Settled(p: Phase): nat {
    match p
    case Running => 0
    case Cleaning(_, i) => i
    case Scanning(i, _) => i
    case Reclaiming(i, _) => i
    case Freeing(i) => i
  }

  /** How many accesses from the k-th on are on record r. */
  function CountFrom(accesses: seq<Access>, k: nat, r: Rec): nat
    decreases |accesses| - k
  {
    if k >= |accesses| then 0 else (if accesses[k].rec == r then 1 else 0) + CountFrom(accesses, k + 1, r)
  }

  function Outstanding(th: Thread, r: Rec): nat {
    CountFrom(th.accesses, Released(th.phase), r)
  }

  function Total(threads: seq<Thread>, r: Rec): nat {
    if threads == [] then 0 else Total(threads[..|threads| - 1], r) + Outstanding(threads[|threads| - 1], r)
  }

  /** Each record's counter is the number of outstanding accesses to it. */
  predicate Counters(s: State) {
    forall r | r in s.cells :: s.cells[r].counter == Total(s.threads, r)
  }

  predicate ThreadShape(s: State, t: nat)
    requires t < |s.threads|
  {
    var th := s.threads[t];
    var n := |th.accesses|;
    && Known(s.cells, th.accesses)
    && (match th.phase
        case Running =>
          (forall i | 0 <= i < n - 1 :: th.accesses[i].Ready()) && (n > 0 ==> !th.accesses[n - 1].Swapped?)
        case Cleaning(ok, i) => i <= n && AllDone(th.accesses, ok)
        case Scanning(i, j) => i < n && AllDone(th.accesses, true) && th.accesses[i].Swapped? && j <= |th.garbage|
        case Reclaiming(i, j) => i < n && AllDone(th.accesses, true) && th.accesses[i].Swapped? && j < |th.garbage|
        case Freeing(i) => i < n && AllDone(th.accesses, false) && th.accesses[i].Copied?)
  }

  predicate AllDone(accesses: seq<Access>, ok: bool) {
    forall i | 0 <= i < |accesses| :: (accesses[i].Viewed? && accesses[i].kind.ReadOnly?)
      || (if ok then accesses[i].Swapped? else accesses[i].Copied?)
  }

  predicate Shapes(s: State) {
    forall t {:trigger ThreadShape(s, t)} | 0 <= t < |s.threads| :: ThreadShape(s, t)
  }

  /** Access i of thread t still has a version to get rid of, and own says so. */
  predicate SlotOwned(s: State, t: nat, i: nat)
    requires t < |s.threads| && i < |s.threads[t].accesses|
  {
    var a := s.threads[t].accesses[i];
    Settled(s.threads[t].phase) <= i ==>
      (a.Copied? ==> a.local in s.own && s.own[a.local] == Slot(t, i))
        && (a.Swapped? ==> a.prior in s.own && s.own[a.prior] == Slot(t, i))
  }

  predicate TrashOwned(s: State, t: nat, j: nat)
    requires t < |s.threads| && j < |s.threads[t].garbage|
  {
    var (r, v) := s.threads[t].garbage[j];
    r in s.cells && v in s.own && s.own[v] == Trash(t, r)
  }

  predicate NoRepeat(g: seq<(Rec, Ver)>) {
    forall j, k | 0 <= j < k < |g| :: g[j].1 != g[k].1
  }

  /** The place recorded for v really holds it. */
  predicate Held(s: State, v: Ver)
    requires v in s.own
  {
    match s.own[v]
    case Current(r) => r in s.cells && s.cells[r].record == v
    case Slot(t, i) =>
      t < |s.threads| && Settled(s.threads[t].phase) <= i < |s.threads[t].accesses| && s.threads[t].accesses[i].Holds(v)
    case Trash(t, r) => t < |s.threads| && (r, v) in s.threads[t].garbage
  }

  /** Every allocated version has exactly one holder: nothing is lost, nothing can be freed twice. */
  predicate Owned(s: State) {
    && s.heap.Keys == s.own.Keys
    && (forall r | r in s.cells :: s.cells[r].record in s.own && s.own[s.cells[r].record] == Current(r))
    && (forall t, i {:trigger SlotOwned(s, t, i)} | 0 <= t < |s.threads| && 0 <= i < |s.threads[t].accesses| ::
         SlotOwned(s, t, i))
    && (forall t, j {:trigger TrashOwned(s, t, j)} | 0 <= t < |s.threads| && 0 <= j < |s.threads[t].garbage| ::
         TrashOwned(s, t, j))
    && (forall t {:trigger s.threads[t]} | 0 <= t < |s.threads| :: NoRepeat(s.threads[t].garbage))
    && (forall v {:trigger Held(s, v)} | v in s.own :: Held(s, v))
  }

  /** v is a version of record r that is or has been current. */
  predicate VersionOf(s: State, v: Ver, r: Rec) {
    v in s.own &&
    match s.own[v]
    case Current(q) => q == r
    case Slot(t, i) => t < |s.threads| && i < |s.threads[t].accesses| && s.threads[t].accesses[i] == Swapped(r, v)
    case Trash(t, q) => q == r
  }

  /** What an outstanding access points to has not been freed and still holds what the access has
      seen; if its timestamp is still the record's, that is what is there now. */
  predicate ViewOK(s: State, t: nat, i: nat)
    requires t < |s.threads| && i < |s.threads[t].accesses|
  {
    var a := s.threads[t].accesses[i];
    && (a.Viewed? && Released(s.threads[t].phase) <= i ==>
          VersionOf(s, a.version, a.rec) && a.version in s.heap && s.heap[a.version] == a.seen)
    && (a.rec in s.cells && (a.Viewed? || a.Copied?) ==>
          var c := s.cells[a.rec];
          && a.timestamp <= c.timestamp
          && (a.timestamp == c.timestamp ==>
               if a.Viewed? then a.version == c.record else c.record in s.heap && a.seen == s.heap[c.record]))
  }

  predicate Views(s: State) {
    forall t, i {:trigger ViewOK(s, t, i)} | 0 <= t < |s.threads| && 0 <= i < |s.threads[t].accesses| :: ViewOK(s, t, i)
  }

  /** No outstanding access points to v. */
  predicate NobodyViews(s: State, v: Ver) {
    forall u, k | 0 <= u < |s.threads| && Released(s.threads[u].phase) <= k < |s.threads[u].accesses|
      && s.threads[u].accesses[k].Viewed? ::
      s.threads[u].accesses[k].version != v
  }

  /** Garbage whose counter has been found to be 0 stays unseen until it is freed. */
  predicate Unviewed(s: State) {
    forall t {:trigger s.threads[t]} | 0 <= t < |s.threads| && s.threads[t].phase.Reclaiming? ::
      s.threads[t].phase.j < |s.threads[t].garbage| && NobodyViews(s, s.threads[t].garbage[s.threads[t].phase.j].1)
  }

  predicate Inv(s: State) {
    Shapes(s) && Counters(s) && Owned(s) && Views(s) && Unviewed(s)
  }
}
