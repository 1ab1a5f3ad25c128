// The value logger of one thread, writing into a byte buffer, and the reloader of its file.
module ValueLog {
  import opened LogFormat

  /** What the logger looks at of an access; reads are not logged. */
  datatype Access = ReadOnly | ReadWrite(table: nat, data: seq<Byte>) | InsertOnly(table: nat, data: seq<Byte>)

  function ElementOf(a: Access): Element
    requires !a.ReadOnly?
  {
    if a.ReadWrite? then Element(K_UPDATE, a.table, a.data) else Element(K_INSERT, a.table, a.data)
  }

  /** The logged elements of the first n accesses. */
  function ElementsOf(accesses: seq<Access>, n: nat): seq<Element>
    requires n <= |accesses|
  {
    if n == 0 then [] else
      ElementsOf(accesses, n - 1) + if accesses[n - 1].ReadOnly? then [] else [ElementOf(accesses[n - 1])]
  }

  // ----- What a log entry means to the replayer -----

  function NonReads(accesses: seq<Access>): seq<Access> {
    if accesses == [] then [] else
      NonReads(accesses[..|accesses| - 1])
        + if accesses[|accesses| - 1].ReadOnly? then [] else [accesses[|accesses| - 1]]
  }

  /** The replayer takes the element for this access: kind 0 inserts, kind 1 updates. */
  predicate Logs(e: Element, a: Access) {
    match a
    case ReadOnly => false
    case ReadWrite(table, data) => e == Element(1, table, data)
    case InsertOnly(table, data) => e == Element(0, table, data)
  }

  /** The elements are for the accesses that are not reads, in order. */
  predicate LogsAll(es: seq<Element>, accesses: seq<Access>) {
    var logged := NonReads(accesses);
    |es| == |logged| && forall i | 0 <= i < |es| :: Logs(es[i], logged[i])
  }

  lemma {:induction false} ElementsLog(accesses: seq<Access>, n: nat)
    requires n <= |accesses|
    ensures LogsAll(ElementsOf(accesses, n), accesses[..n])
  {
    if n > 0 {
      ElementsLog(accesses, n - 1);
      assert accesses[..n][..n - 1] == accesses[..n - 1];
    }
  }

  /** Everything that is not read is logged for what it is, and nothing else. */
  lemma AllLogged(accesses: seq<Access>)
    ensures LogsAll(ElementsOf(accesses, |accesses|), accesses)
  {
    ElementsLog(accesses, |accesses|);
    assert accesses[..|accesses|] == accesses;
  }

  /** The bytes of one access in the log. */
  function PieceOf(a: Access): seq<Byte> {
    if a.ReadOnly? then [] else ElementBytes(ElementOf(a))
  }

  lemma ElementsNext(accesses: seq<Access>, n: nat)
    requires n < |accesses|
    ensures ElementsBytes(ElementsOf(accesses, n + 1)) == ElementsBytes(ElementsOf(accesses, n)) + PieceOf(accesses[n])
  {
    var es := ElementsOf(accesses, n + 1);
    if accesses[n].ReadOnly? {
      assert es == ElementsOf(accesses, n);
    } else {
      assert es[..|es| - 1] == ElementsOf(accesses, n) && es[|es| - 1] == ElementOf(accesses[n]);
    }
  }

  lemma {:induction false} ElementsGrow(accesses: seq<Access>, n: nat)
    requires n <= |accesses|
    ensures |ElementsBytes(ElementsOf(accesses, n))| <= |ElementsBytes(ElementsOf(accesses, |accesses|))|
    decreases |accesses| - n
  {
    if n < |accesses| {
      ElementsNext(accesses, n);
      ElementsGrow(accesses, n + 1);
    }
  }

  lemma OneMorePiece(accesses: seq<Access>, n: nat, sofar: seq<Byte>)
    requires n < |accesses| && sofar == ElementsBytes(ElementsOf(accesses, n))
    ensures sofar + PieceOf(accesses[n]) == ElementsBytes(ElementsOf(accesses, n + 1))
    ensures |sofar| + |PieceOf(accesses[n])| <= |ElementsBytes(ElementsOf(accesses, |accesses|))|
  {
    ElementsNext(accesses, n);
    ElementsGrow(accesses, n + 1);
  }

  lemma {:induction false} ElementsTables(accesses: seq<Access>, n: nat)
    requires n <= |accesses| && forall i | 0 <= i < n :: accesses[i].ReadOnly? || accesses[i].table < U64
    ensures forall i | 0 <= i < |ElementsOf(accesses, n)| :: ElementsOf(accesses, n)[i].table < U64
  {
    if n > 0 { ElementsTables(accesses, n - 1); }
  }

  /** Elements that together fit in 64 bits do so one by one. */
  lemma {:induction false} FitOneByOne(es: seq<Element>)
    requires |ElementsBytes(es)| < U64 && forall i | 0 <= i < |es| :: es[i].table < U64
    ensures forall i | 0 <= i < |es| :: ElementOK(es[i])
  {
    if es != [] { FitOneByOne(es[..|es| - 1]); }
  }

  lemma ElementsFit(accesses: seq<Access>, n: nat)
    requires n <= |accesses| && forall i | 0 <= i < n :: accesses[i].ReadOnly? || accesses[i].table < U64
    requires |ElementsBytes(ElementsOf(accesses, n))| < U64
    ensures forall i | 0 <= i < |ElementsOf(accesses, n)| :: ElementOK(ElementsOf(accesses, n)[i])
  {
    ElementsTables(accesses, n);
    FitOneByOne(ElementsOf(accesses, n));
  }

  /** The piece stands at the position, and all else is as before. */
  ghost predicate Spliced(before: seq<Byte>, now: seq<Byte>, at: nat, piece: seq<Byte>) {
    at + |piece| <= |before| && now == before[..at] + piece + before[at + |piece|..]
  }

  class ThreadLog {
    const buffer: array<Byte>
    var bufferOffset: nat
    var lastEpoch: nat // 64 bits wide
    var file: seq<Byte>
    ghost var chunks: seq<Chunk>
    ghost var pending: seq<Txn>

    ghost predicate Valid()
      reads this, buffer
    {
      && buffer.Length == K_LOG_BUFFER_SIZE && bufferOffset < K_LOG_BUFFER_SIZE && lastEpoch < U64
      && buffer[..bufferOffset] == TxnsBytes(pending) && file == ChunksBytes(chunks)
      && (forall i | 0 <= i < |chunks| :: ChunkOK(chunks[i])) && (forall i | 0 <= i < |pending| :: TxnOK(pending[i]))
    }

    /** The transactions committed so far. */
    ghost function Committed(): seq<Txn>
      reads this
    {
      AllTxns(chunks) + pending
    }

    constructor ()
      ensures Valid() && Committed() == [] && fresh(buffer) && bufferOffset == 0 && lastEpoch == U64 - 1
      ensures file == []
    {
      buffer := new Byte[K_LOG_BUFFER_SIZE](_ => 0);
      bufferOffset, lastEpoch, file := 0, U64 - 1, [];
      chunks, pending := [], [];
    }

    /** memcpy into the buffer */
    method Put(at: nat, src: seq<Byte>)
      requires at + |src| <= buffer.Length
      modifies buffer
      ensures Spliced(old(buffer[..]), buffer[..], at, src)
    {
      var i := 0;
      while i < |src|
        invariant 0 <= i <= |src|
        invariant forall k | 0 <= k < i :: buffer[at + k] == src[k]
        invariant forall k | 0 <= k < buffer.Length && !(at <= k < at + i) :: buffer[k] == old(buffer[k])
      {
        buffer[at + i] := src[i];
        i := i + 1;
      }
    }

    /** The four copies that log one element. */
    method PutElement(at: nat, e: Element)
      requires at + 17 + |e.data| <= buffer.Length
      modifies buffer
      ensures Spliced(old(buffer[..]), buffer[..], at, ElementBytes(e))
    {
      Put(at, [e.kind]);
      PutNext(at, at + 1, Field(e.table), [e.kind], old(buffer[..]));
      PutNext(at, at + 1 + 8, Field(|e.data|), [e.kind] + Field(e.table), old(buffer[..]));
      PutNext(at, at + 1 + 8 + 8, e.data, [e.kind] + Field(e.table) + Field(|e.data|), old(buffer[..]));
    }

    /** Another piece behind the bytes put there so far. */
    method PutNext(at: nat, next: nat, src: seq<Byte>, ghost sofar: seq<Byte>, ghost before: seq<Byte>)
      requires next == at + |sofar| && next + |src| <= buffer.Length && Spliced(before, buffer[..], at, sofar)
      modifies buffer
      ensures Spliced(before, buffer[..], at, sofar + src)
    {
      ghost var now := buffer[..];
      Put(next, src);
      SplicedTwice(before, now, buffer[..], at, next, sofar, src);
    }

    /** The buffer goes out as a chunk of the given epoch. */
    method WriteChunk(epoch: nat)
      requires Valid() && epoch < U64
      modifies this`file, this`chunks, this`pending
      ensures file == old(file) + Field(epoch) + Field(bufferOffset) + buffer[..bufferOffset]
      ensures file == ChunksBytes(chunks) && pending == [] && chunks == old(chunks) + [Chunk(epoch, old(pending))]
      ensures (forall i | 0 <= i < |chunks| :: ChunkOK(chunks[i])) && Committed() == old(Committed())
    {
      file := file + Field(epoch) + Field(bufferOffset) + buffer[..bufferOffset];
      ghost var c := Chunk(epoch, pending);
      ghost var before := file;
      chunks := chunks + [c];
      pending := [];
      assert chunks[..|chunks| - 1] == old(chunks);
      assert file == old(file) + ChunkBytes(c);
      assert AllTxns(chunks) == AllTxns(old(chunks)) + c.txns;
    }

    /** A new epoch first sends out the buffer, whether or not there was an epoch before: the test for
        "no epoch yet" compares an unsigned field with -1 and never succeeds. */
    method CommitTransaction(epoch: nat, commitTs: nat, accesses: seq<Access>)
      requires Valid() && epoch < U64 && commitTs < U64
      requires forall i | 0 <= i < |accesses| :: accesses[i].ReadOnly? || accesses[i].table < U64
      requires (if lastEpoch != epoch then 0 else bufferOffset) + 16
        + |ElementsBytes(ElementsOf(accesses, |accesses|))| < K_LOG_BUFFER_SIZE
      modifies this, buffer
      ensures Valid() && Committed() == old(Committed()) + [Txn(commitTs, ElementsOf(accesses, |accesses|))]
      ensures LogsAll(Committed()[|old(Committed())|].elements, accesses)
      ensures lastEpoch == epoch
      ensures bufferOffset == (if old(lastEpoch) != epoch then 0 else old(bufferOffset))
        + 16 + |ElementsBytes(ElementsOf(accesses, |accesses|))|
      ensures file == old(file) + if old(lastEpoch) == epoch then [] else
        Field(old(lastEpoch)) + Field(old(bufferOffset)) + old(buffer[..bufferOffset])
    {
      AllLogged(accesses);
      if lastEpoch != epoch {
        WriteChunk(lastEpoch);
        lastEpoch := epoch;
        bufferOffset := 0;
      }
      AppendTxn(commitTs, accesses);
    }

    method AppendTxn(commitTs: nat, accesses: seq<Access>)
      requires Valid() && commitTs < U64
      requires forall i | 0 <= i < |accesses| :: accesses[i].ReadOnly? || accesses[i].table < U64
      requires bufferOffset + 16 + |ElementsBytes(ElementsOf(accesses, |accesses|))| < K_LOG_BUFFER_SIZE
      modifies this`bufferOffset, this`pending, buffer
      ensures Valid() && pending == old(pending) + [Txn(commitTs, ElementsOf(accesses, |accesses|))]
      ensures bufferOffset == old(bufferOffset) + 16 + |ElementsBytes(ElementsOf(accesses, |accesses|))|
    {
      ghost var t := Txn(commitTs, ElementsOf(accesses, |accesses|));
      var txnSize := PutTxn(commitTs, accesses);
      assert (pending + [t])[..|pending|] == pending;
      ElementsFit(accesses, |accesses|);
      pending := pending + [t];
      bufferOffset := bufferOffset + 8 + 8 + txnSize;
    }

    method PutTxn(commitTs: nat, accesses: seq<Access>) returns (txnSize: nat)
      requires bufferOffset + 16 + |ElementsBytes(ElementsOf(accesses, |accesses|))| < buffer.Length
      modifies buffer
      ensures txnSize == |ElementsBytes(ElementsOf(accesses, |accesses|))|
      ensures Spliced(old(buffer[..]), buffer[..], bufferOffset,
        TxnBytes(Txn(commitTs, ElementsOf(accesses, |accesses|))))
    {
      ghost var t := Txn(commitTs, ElementsOf(accesses, |accesses|));
      Put(bufferOffset, Field(commitTs));
      ghost var head := buffer[..];
      var txnOffset := PutElements(accesses);
      txnSize := txnOffset - 8 - 8;
      ghost var body := buffer[..];
      Put(bufferOffset + 8, Field(txnSize));
      TxnAssembled(old(buffer[..]), head, body, buffer[..], bufferOffset, t);
    }

    /** The piece of access i, if it has any, behind the bytes put there so far. */
    method PutAccess(accesses: seq<Access>, i: nat, at: nat, next: nat, ghost sofar: seq<Byte>, ghost before: seq<Byte>)
        returns (size: nat, ghost all: seq<Byte>)
      requires i < |accesses| && sofar == ElementsBytes(ElementsOf(accesses, i)) && next == at + |sofar|
      requires at + |ElementsBytes(ElementsOf(accesses, |accesses|))| <= buffer.Length
      requires Spliced(before, buffer[..], at, sofar)
      modifies buffer
      ensures all == ElementsBytes(ElementsOf(accesses, i + 1)) && |all| == |sofar| + size
      ensures Spliced(before, buffer[..], at, all)
    {
      var a := accesses[i];
      OneMorePiece(accesses, i, sofar);
      size, all := 0, sofar + PieceOf(a);
      if a.ReadOnly? {
        assert all == sofar;
      } else {
        ghost var now := buffer[..];
        PutElement(next, ElementOf(a));
        SplicedTwice(before, now, buffer[..], at, next, sofar, PieceOf(a));
        size := 1 + 8 + 8 + |a.data|;
      }
    }

    method PutElements(accesses: seq<Access>) returns (txnOffset: nat)
      requires bufferOffset + 16 + |ElementsBytes(ElementsOf(accesses, |accesses|))| < buffer.Length
      modifies buffer
      ensures txnOffset == 16 + |ElementsBytes(ElementsOf(accesses, |accesses|))|
      ensures Spliced(old(buffer[..]), buffer[..], bufferOffset + 16, ElementsBytes(ElementsOf(accesses, |accesses|)))
    {
      txnOffset := 8 + 8;
      ghost var sofar: seq<Byte> := [];
      ghost var before := buffer[..];
      for i := 0 to |accesses|
        invariant sofar == ElementsBytes(ElementsOf(accesses, i)) && txnOffset == 16 + |sofar|
        invariant Spliced(before, buffer[..], bufferOffset + 16, sofar)
      {
        var size;
        size, sofar := PutAccess(accesses, i, bufferOffset + 16, bufferOffset + txnOffset, sofar, before);
        txnOffset := txnOffset + size;
      }
    }

    /** What the test for "no epoch yet" should have prevented: the file of a new logger's first commit
        begins with a chunk of no transactions, marked with epoch -1, unless the epoch is that number. */
    static method FirstCommit(epoch: nat, commitTs: nat, accesses: seq<Access>) returns (log: ThreadLog)
      requires epoch < U64 && commitTs < U64
      requires forall i | 0 <= i < |accesses| :: accesses[i].ReadOnly? || accesses[i].table < U64
      requires 16 + |ElementsBytes(ElementsOf(accesses, |accesses|))| < K_LOG_BUFFER_SIZE
      ensures fresh(log) && log.file == if epoch == U64 - 1 then [] else Field(U64 - 1) + Field(0)
      ensures log.Valid() && log.Committed() == [Txn(commitTs, ElementsOf(accesses, |accesses|))]
    {
      log := new ThreadLog();
      log.CommitTransaction(epoch, commitTs, accesses);
    }

    /** CleanUp: the last chunk, marked with epoch -1. */
    method CleanUp()
      requires Valid()
      modifies this`file, this`chunks, this`pending
      ensures file == ChunksBytes(chunks) && (forall i | 0 <= i < |chunks| :: ChunkOK(chunks[i]))
      ensures AllTxns(chunks) == old(Committed())
      ensures file == old(file) + Field(U64 - 1) + Field(bufferOffset) + buffer[..bufferOffset]
    {
      WriteChunk(U64 - 1);
      assert AllTxns(chunks) == Committed();
    }
  }

  lemma SplicedTwice(s: seq<Byte>, s1: seq<Byte>, s2: seq<Byte>, at: nat, next: nat, x: seq<Byte>, y: seq<Byte>)
    requires next == at + |x| && next + |y| <= |s| && Spliced(s, s1, at, x) && Spliced(s1, s2, next, y)
    ensures Spliced(s, s2, at, x + y)
  {}

  /** The header's two fields, one put before and one after the elements, make up the transaction. */
  lemma TxnAssembled(s: seq<Byte>, head: seq<Byte>, body: seq<Byte>, now: seq<Byte>, at: nat, t: Txn)
    requires Spliced(s, head, at, Field(t.timestamp))
    requires Spliced(head, body, at + 16, ElementsBytes(t.elements))
    requires Spliced(body, now, at + 8, Field(|ElementsBytes(t.elements)|))
    ensures Spliced(s, now, at, TxnBytes(t))
  {
    var elements := ElementsBytes(t.elements);
    ThreePieces(s, head, body, now, at, Field(t.timestamp), Field(|elements|), elements);
  }

  /** Three pieces one after the other, the second put last. */
  lemma ThreePieces(s: seq<Byte>, head: seq<Byte>, body: seq<Byte>, now: seq<Byte>, at: nat,
      x: seq<Byte>, y: seq<Byte>, z: seq<Byte>)
    requires |x| == |y| == 8 && Spliced(s, head, at, x)
    requires Spliced(head, body, at + 16, z) && Spliced(body, now, at + 8, y)
    ensures Spliced(s, now, at, x + y + z)
  {
    var all := x + y + z;
    var whole := s[..at] + all + s[at + |all|..];
    forall k | 0 <= k < |now| ensures now[k] == whole[k] {
      if k < at + 8 {
        assert now[k] == head[k];
      } else if k >= at + 16 {
        assert now[k] == body[k];
      }
    }
  }

  // ----- ReloadLog -----

  lemma ElementFields(s: seq<Byte>, e: Element)
    requires s == ElementBytes(e) && ElementOK(e)
    ensures s[0] == e.kind && Number(s[1..9]) == e.table && Number(s[9..17]) == |e.data| && s[17..] == e.data
  {
    assert s[1..9] == Field(e.table) && s[9..17] == Field(|e.data|);
    FieldValue(e.table);
    FieldValue(|e.data|);
    assert Number(s[1..9]) == Number(Field(e.table)) && Number(s[9..17]) == Number(Field(|e.data|));
  }

  lemma Within(s: seq<Byte>, at: nat, n: nat, i: nat, j: nat)
    requires at + n <= |s| && i <= j <= n
    ensures s[at..at + n][i..j] == s[at + i..at + j]
  {
    var x, y := s[at..at + n][i..j], s[at + i..at + j];
    assert |x| == |y|;
    forall k | 0 <= k < |x| ensures x[k] == y[k] {}
  }

  method ReadElement(buffer: seq<Byte>, at: nat, ghost e: Element) returns (r: Element, size: nat)
    requires ElementOK(e) && at + |ElementBytes(e)| <= |buffer| && buffer[at..at + |ElementBytes(e)|] == ElementBytes(e)
    ensures r == e && size == |ElementBytes(e)|
  {
    ghost var n := |ElementBytes(e)|;
    ElementFields(buffer[at..at + n], e);
    Within(buffer, at, n, 1, 9);
    Within(buffer, at, n, 9, 17);
    Within(buffer, at, n, 17, n);
    var kind := buffer[at];
    var table := Number(buffer[at + 1..at + 9]);
    var dataSize := Number(buffer[at + 9..at + 17]);
    var data := buffer[at + 17..at + 17 + dataSize];
    r, size := Element(kind, table, data), 17 + dataSize;
  }

  method ReadTxn(buffer: seq<Byte>, at: nat, ghost t: Txn) returns (r: Txn, size: nat)
    requires TxnOK(t) && at + |TxnBytes(t)| <= |buffer| && buffer[at..at + |TxnBytes(t)|] == TxnBytes(t)
    ensures r == t && size == |TxnBytes(t)|
  {
    TxnFields(buffer, at, t);
    var timestamp := Number(buffer[at..at + 8]);
    var txnSize := Number(buffer[at + 8..at + 16]);
    var elements := ReadElements(buffer[at + 16..at + 16 + txnSize], t.elements);
    r, size := Txn(timestamp, elements), 16 + txnSize;
  }

  method ReadElements(body: seq<Byte>, ghost es: seq<Element>) returns (elements: seq<Element>)
    requires body == ElementsBytes(es) && forall i | 0 <= i < |es| :: ElementOK(es[i])
    ensures elements == es
  {
    elements := [];
    var txnPos := 0;
    MoreIfAny(es, 0);
    while txnPos < |body|
      invariant |elements| <= |es| && elements == es[..|elements|] && txnPos == |ElementsBytes(elements)| <= |body|
      invariant txnPos == |body| <==> |elements| == |es|
      decreases |body| - txnPos
    {
      ghost var k := |elements|;
      PieceAt(es, ElementBytes, k, txnPos);
      var e, n := ReadElement(body, txnPos, es[k]);
      elements := elements + [e];
      txnPos := txnPos + n;
      assert elements == es[..k + 1];
      MoreIfAny(es, k + 1);
    }
  }

  lemma MoreIfAny(es: seq<Element>, k: nat)
    requires k <= |es|
    ensures |ElementsBytes(es[..k])| == |ElementsBytes(es)| <==> k == |es|
  {
    if k < |es| {
      PieceAt(es, ElementBytes, k, |ElementsBytes(es[..k])|);
    } else {
      assert es[..k] == es;
    }
  }

  lemma TxnFields(buffer: seq<Byte>, at: nat, t: Txn)
    requires TxnOK(t) && at + |TxnBytes(t)| <= |buffer| && buffer[at..at + |TxnBytes(t)|] == TxnBytes(t)
    ensures Number(buffer[at..at + 8]) == t.timestamp && Number(buffer[at + 8..at + 16]) == |ElementsBytes(t.elements)|
    ensures buffer[at + 16..at + 16 + |ElementsBytes(t.elements)|] == ElementsBytes(t.elements)
  {
    var n, s := |TxnBytes(t)|, TxnBytes(t);
    assert s[0..8] == Field(t.timestamp) && s[8..16] == Field(|ElementsBytes(t.elements)|)
      && s[16..n] == ElementsBytes(t.elements);
    Within(buffer, at, n, 0, 8);
    Within(buffer, at, n, 8, 16);
    Within(buffer, at, n, 16, n);
    FieldValue(t.timestamp);
    FieldValue(|ElementsBytes(t.elements)|);
  }

  method ReadChunkBody(buffer: seq<Byte>, ghost txns: seq<Txn>) returns (r: seq<Txn>)
    requires buffer == TxnsBytes(txns) && forall i | 0 <= i < |txns| :: TxnOK(txns[i])
    ensures r == txns
  {
    r := [];
    var offset := 0;
    while offset < |buffer|
      invariant |r| <= |txns| && r == txns[..|r|] && offset == |TxnsBytes(r)| <= |buffer|
      decreases |buffer| - offset
    {
      ghost var k := |r|;
      assert txns[..|txns|] == txns;
      PieceAt(txns, TxnBytes, k, offset);
      var t, n := ReadTxn(buffer, offset, txns[k]);
      r := r + [t];
      offset := offset + n;
      assert r == txns[..k + 1];
    }
    assert offset == |buffer|;
    AllRead(txns, |r|);
  }

  lemma AllRead(ts: seq<Txn>, k: nat)
    requires k <= |ts| && |TxnsBytes(ts[..k])| == |TxnsBytes(ts)|
    ensures ts[..k] == ts
  {
    if k < |ts| { PieceAt(ts, TxnBytes, k, |TxnsBytes(ts[..k])|); }
  }

  /** Every transaction of every chunk, in order, and the file used up. */
  method ReloadLog(file: seq<Byte>, ghost chunks: seq<Chunk>) returns (batch: seq<Txn>)
    requires file == ChunksBytes(chunks) && forall i | 0 <= i < |chunks| :: ChunkOK(chunks[i])
    ensures batch == AllTxns(chunks)
  {
    batch := [];
    var filePos := 0;
    ghost var k := 0;
    while filePos < |file|
      invariant k <= |chunks| && filePos == |ChunksBytes(chunks[..k])| <= |file| && batch == AllTxns(chunks[..k])
      decreases |file| - filePos
    {
      assert chunks[..|chunks|] == chunks;
      ghost var c := chunks[k];
      PieceAt(chunks, ChunkBytes, k, filePos);
      var txns, size := ReadChunk(file, filePos, c);
      batch := batch + txns;
      filePos := filePos + size;
      assert chunks[..k + 1][..k] == chunks[..k];
      k := k + 1;
    }
    assert filePos == |file|;
    AllChunksRead(chunks, k);
  }

  method ReadChunk(file: seq<Byte>, at: nat, ghost c: Chunk) returns (txns: seq<Txn>, total: nat)
    requires ChunkOK(c) && at + |ChunkBytes(c)| <= |file| && file[at..at + |ChunkBytes(c)|] == ChunkBytes(c)
    ensures txns == c.txns && total == |ChunkBytes(c)|
  {
    ChunkFields(file, at, c);
    var epoch := Number(file[at..at + 8]);
    var size := Number(file[at + 8..at + 16]);
    txns := ReadChunkBody(file[at + 16..at + 16 + size], c.txns);
    total := 8 + 8 + size;
  }

  lemma AllChunksRead(cs: seq<Chunk>, k: nat)
    requires k <= |cs| && |ChunksBytes(cs[..k])| == |ChunksBytes(cs)|
    ensures cs[..k] == cs
  {
    if k < |cs| { PieceAt(cs, ChunkBytes, k, |ChunksBytes(cs[..k])|); }
  }

  lemma ChunkFields(file: seq<Byte>, at: nat, c: Chunk)
    requires ChunkOK(c) && at + |ChunkBytes(c)| <= |file| && file[at..at + |ChunkBytes(c)|] == ChunkBytes(c)
    ensures Number(file[at..at + 8]) == c.epoch && Number(file[at + 8..at + 16]) == |TxnsBytes(c.txns)|
    ensures file[at + 16..at + 16 + |TxnsBytes(c.txns)|] == TxnsBytes(c.txns)
  {
    var n, s := |ChunkBytes(c)|, ChunkBytes(c);
    assert s[0..8] == Field(c.epoch) && s[8..16] == Field(|TxnsBytes(c.txns)|) && s[16..n] == TxnsBytes(c.txns);
    Within(file, at, n, 0, 8);
    Within(file, at, n, 8, 16);
    Within(file, at, n, 16, n);
    FieldValue(c.epoch);
    FieldValue(|TxnsBytes(c.txns)|);
  }

  // ----- Everything logged comes back -----

  datatype Commit = Commit(epoch: nat, timestamp: nat, accesses: seq<Access>)

  function TxnOf(c: Commit): Txn {
    Txn(c.timestamp, ElementsOf(c.accesses, |c.accesses|))
  }

  function TxnsOf(cs: seq<Commit>): seq<Txn> {
    if cs == [] then [] else TxnsOf(cs[..|cs| - 1]) + [TxnOf(cs[|cs| - 1])]
  }

  function LastEpoch(cs: seq<Commit>, n: nat): nat
    requires n <= |cs|
  {
    if n == 0 then U64 - 1 else cs[n - 1].epoch
  }

  /** How full the buffer is after n commits. */
  function Offset(cs: seq<Commit>, n: nat): nat
    requires n <= |cs|
  {
    if n == 0 then 0 else
      (if LastEpoch(cs, n - 1) != cs[n - 1].epoch then 0 else Offset(cs, n - 1))
        + 16 + |ElementsBytes(TxnOf(cs[n - 1]).elements)|
  }

  /** The buffer never overflows, which the logger asserts. */
  predicate BuffersFit(cs: seq<Commit>) {
    forall n | 0 <= n <= |cs| :: Offset(cs, n) < K_LOG_BUFFER_SIZE
  }

  predicate CommitOK(c: Commit) {
    c.epoch < U64 && c.timestamp < U64 && forall i | 0 <= i < |c.accesses| ::
      c.accesses[i].ReadOnly? || c.accesses[i].table < U64
  }

  lemma NextCommit(cs: seq<Commit>, i: nat)
    requires BuffersFit(cs) && i < |cs|
    ensures TxnsOf(cs[..i + 1]) == TxnsOf(cs[..i]) + [TxnOf(cs[i])]
    ensures Offset(cs, i + 1) < K_LOG_BUFFER_SIZE
  {
    assert cs[..i + 1][..i] == cs[..i];
  }

  lemma {:induction false} TxnsLogged(cs: seq<Commit>, n: nat)
    requires n <= |cs|
    ensures |TxnsOf(cs[..n])| == n
    ensures forall j | 0 <= j < n :: var t := TxnsOf(cs[..n])[j];
      t.timestamp == cs[j].timestamp && LogsAll(t.elements, cs[j].accesses)
  {
    if n > 0 {
      TxnsLogged(cs, n - 1);
      assert cs[..n][..n - 1] == cs[..n - 1];
      AllLogged(cs[n - 1].accesses);
    }
  }

  /** Log any commits, clean up, reload: exactly those transactions come back, in commit order, each with
      its timestamp and with its updates and inserts in order. */
  method LogAndReload(cs: seq<Commit>) returns (batch: seq<Txn>)
    requires BuffersFit(cs) && forall i | 0 <= i < |cs| :: CommitOK(cs[i])
    ensures batch == TxnsOf(cs) && |batch| == |cs|
    ensures forall j | 0 <= j < |cs| ::
      batch[j].timestamp == cs[j].timestamp && LogsAll(batch[j].elements, cs[j].accesses)
  {
    TxnsLogged(cs, |cs|);
    var log := new ThreadLog();
    var i := 0;
    while i < |cs|
      invariant 0 <= i <= |cs| && log.Valid() && fresh(log) && fresh(log.buffer)
      invariant log.Committed() == TxnsOf(cs[..i]) && log.lastEpoch == LastEpoch(cs, i)
      invariant log.bufferOffset == Offset(cs, i)
    {
      var c := cs[i];
      NextCommit(cs, i);
      log.CommitTransaction(c.epoch, c.timestamp, c.accesses);
      i := i + 1;
    }
    assert cs[..i] == cs;
    log.CleanUp();
    batch := ReloadLog(log.file, log.chunks);
  }
}
