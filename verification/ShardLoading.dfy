// Where the sharded tables put a record of the benchmarks, and where the shard procedures look for it.
module ShardLoading {
  import opened ShardRouting
  import P = ShardProcedures

  lemma OneWord(s: Schema, data: Bytes, w: nat)
    requires Routable(s) && RecordOK(s, data) && s.partitionNum == 1
    requires Word(Column(s, data, s.partitionIds[0])) == w
    ensures w < W32 && RecordHash(s, data, 1) == w
  {
    HashNext(s, data, 1, w);
  }

  /** ShardTable calls its own hash, not the benchmark's partition function: a record whose one partition
      column holds an identifier is put one partition behind the one that the procedures look in. So they
      find it exactly if there is only one. */
  lemma OneBehind(s: Schema, data: Bytes, id: int, n: nat)
    requires Routable(s) && RecordOK(s, data) && s.partitionNum == 1 && n > 0
    requires id >= 1 && Word(Column(s, data, s.partitionIds[0])) == id
    ensures RecordHash(s, data, 1) % n == P.PartOf(id + 1, n)
    ensures RecordHash(s, data, 1) % n == P.PartOf(id, n) <==> n == 1
  {
    OneWord(s, data, id);
    P.RoundRobin(id, n);
    P.PartOfPositive(id + 1, n);
  }

  /** Warehouse 1 of two partitions: put in partition 1, looked up in partition 0. */
  lemma LoadingExample()
    ensures var s, data := Schema([4], [0], 1, [0, 0, 0, 0, 0], 1, [0, 0, 0, 0, 0]), [1, 0, 0, 0];
      Routable(s) && RecordOK(s, data) && RecordHash(s, data, 1) % 2 == 1 && P.PartOf(1, 2) == 0
  {
    var s, data: Bytes := Schema([4], [0], 1, [0, 0, 0, 0, 0], 1, [0, 0, 0, 0, 0]), [1, 0, 0, 0];
    assert s.sizes[..0] == [] && s.sizes == [4] && Sum(s.sizes) == 4;
    assert Primary(s) == [0] && Partition(s) == [0];
    assert Column(s, data, 0) == data;
    OneWord(s, data, 1);
  }

  /** Without partition columns every record is put in partition 0, where the procedures look for an
      identifier exactly if the number of partitions divides the one below it. */
  lemma AllInFirst(s: Schema, data: Bytes, id: int, n: nat)
    requires Routable(s) && RecordOK(s, data) && s.partitionNum == 0 && 0 < n <= P.U64 && 1 <= id <= P.U64
    ensures RecordHash(s, data, s.partitionNum) % n == P.PartOf(1, n)
    ensures RecordHash(s, data, s.partitionNum) % n == P.PartOf(id, n) <==> exists k: nat :: id == k * n + 1
  {
    if k: nat :| id == k * n + 1 { P.Remainder(id - 1, n, k, 0); }
    if P.PartOf(id, n) == 0 {
      var k: nat := (id - 1) / n;
      assert id == k * n + 1;
    }
    P.Remainder(0, n, 0, 0);
  }
}
