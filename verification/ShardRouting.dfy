// Sharded tables: the partition a record is put in, and the one its key is looked up in.
module ShardRouting {

  type Byte = x: int | 0 <= x < 256 witness 0
  type Bytes = seq<Byte>

  const W32: nat := 0x1_0000_0000
  const K_MAX_COLUMNS: nat := 5

  /** The schema's arrays hold five entries, zero where nothing was set. */
  datatype Schema = Schema(sizes: seq<nat>, offsets: seq<nat>, primaryNum: nat,
      primaryIds: seq<nat>, partitionNum: nat, partitionIds: seq<nat>)

  function Sum(xs: seq<nat>): nat {
    if xs == [] then 0 else Sum(xs[..|xs| - 1]) + xs[|xs| - 1]
  }

  predicate Subsequence(xs: seq<nat>, ys: seq<nat>)
    decreases ys
  {
    xs == [] || (ys != [] && if xs[0] == ys[0] then Subsequence(xs[1..], ys[1..]) else Subsequence(xs, ys[1..]))
  }

  predicate Ascending(xs: seq<nat>) {
    forall i, j | 0 <= i < j < |xs| :: xs[i] < xs[j]
  }

  /** What the setters produce from column lists: offsets add up, unused array slots are zero. */
  predicate SchemaOK(s: Schema) {
    && |s.offsets| == |s.sizes| && (forall i | 0 <= i < |s.sizes| :: s.offsets[i] == Sum(s.sizes[..i]))
    && |s.primaryIds| == |s.partitionIds| == K_MAX_COLUMNS
    && s.primaryNum < K_MAX_COLUMNS && s.partitionNum < K_MAX_COLUMNS
    && (forall i | 0 <= i < s.primaryNum :: s.primaryIds[i] < |s.sizes|)
    && (forall i | s.partitionNum <= i < K_MAX_COLUMNS :: s.partitionIds[i] == 0)
  }

  function Primary(s: Schema): seq<nat>
    requires SchemaOK(s)
  {
    s.primaryIds[..s.primaryNum]
  }

  function Partition(s: Schema): seq<nat>
    requires SchemaOK(s)
  {
    s.partitionIds[..s.partitionNum]
  }

  /** The schemas in question: partition columns are primary columns in the same, ascending order,
      each wide enough for the four bytes that are read. */
  predicate Routable(s: Schema) {
    && SchemaOK(s) && Ascending(Primary(s)) && Subsequence(Partition(s), Primary(s))
    && (forall i | 0 <= i < s.partitionNum :: s.partitionIds[i] < |s.sizes| && s.sizes[s.partitionIds[i]] >= 4)
  }

  predicate RecordOK(s: Schema, data: Bytes)
    requires SchemaOK(s)
  {
    |data| == Sum(s.sizes)
  }

  // ----- Columns -----

  lemma {:induction false} SumPrefix(xs: seq<nat>, i: nat)
    requires i <= |xs|
    ensures Sum(xs[..i]) <= Sum(xs)
    decreases |xs| - i
  {
    if i < |xs| {
      SumPrefix(xs, i + 1);
      assert xs[..i + 1][..i] == xs[..i];
    } else {
      assert xs[..i] == xs;
    }
  }

  lemma ColumnFits(s: Schema, c: nat)
    requires SchemaOK(s) && c < |s.sizes|
    ensures s.offsets[c] + s.sizes[c] <= Sum(s.sizes)
  {
    assert s.sizes[..c + 1][..c] == s.sizes[..c];
    SumPrefix(s.sizes, c + 1);
  }

  function Column(s: Schema, data: Bytes, c: nat): (r: Bytes)
    requires SchemaOK(s) && RecordOK(s, data) && c < |s.sizes|
    ensures |r| == s.sizes[c]
  {
    ColumnFits(s, c);
    data[s.offsets[c]..s.offsets[c] + s.sizes[c]]
  }

  /** The primary columns one after the other; without any, the whole record. */
  function KeyUpTo(s: Schema, data: Bytes, n: nat): Bytes
    requires SchemaOK(s) && RecordOK(s, data) && n <= s.primaryNum
  {
    if n == 0 then [] else KeyUpTo(s, data, n - 1) + Column(s, data, s.primaryIds[n - 1])
  }

  function PrimaryKey(s: Schema, data: Bytes): Bytes
    requires SchemaOK(s) && RecordOK(s, data)
  {
    if KeyLength(s, s.primaryNum) == 0 then data else KeyUpTo(s, data, s.primaryNum)
  }

  function KeyLength(s: Schema, n: nat): nat
    requires SchemaOK(s) && n <= s.primaryNum
  {
    if n == 0 then 0 else KeyLength(s, n - 1) + s.sizes[s.primaryIds[n - 1]]
  }

  lemma {:induction false} KeyUpToLength(s: Schema, data: Bytes, n: nat)
    requires SchemaOK(s) && RecordOK(s, data) && n <= s.primaryNum
    ensures |KeyUpTo(s, data, n)| == KeyLength(s, n)
  {
    if n > 0 { KeyUpToLength(s, data, n - 1); }
  }

  lemma {:induction false} KeyLengthGrows(s: Schema, n: nat)
    requires SchemaOK(s) && n <= s.primaryNum
    ensures KeyLength(s, n) <= KeyLength(s, s.primaryNum)
    decreases s.primaryNum - n
  {
    if n < s.primaryNum { KeyLengthGrows(s, n + 1); }
  }

  lemma SliceLeft(x: Bytes, y: Bytes, a: nat, b: nat)
    requires a <= b <= |x|
    ensures (x + y)[a..b] == x[a..b]
  {}

  lemma SliceRight(x: Bytes, y: Bytes)
    ensures (x + y)[..|x|] == x && (x + y)[|x|..] == (x + y)[|x|..|x| + |y|] == y
  {}

  /** Column i of the key stands at its offset. */
  lemma {:induction false} KeyColumn(s: Schema, data: Bytes, n: nat, i: nat)
    requires SchemaOK(s) && RecordOK(s, data) && i < n <= s.primaryNum
    ensures |KeyUpTo(s, data, n)| >= KeyLength(s, i) + s.sizes[s.primaryIds[i]]
    ensures KeyUpTo(s, data, n)[KeyLength(s, i)..KeyLength(s, i) + s.sizes[s.primaryIds[i]]]
      == Column(s, data, s.primaryIds[i])
    decreases n
  {
    KeyUpToLength(s, data, n - 1);
    var head, last := KeyUpTo(s, data, n - 1), Column(s, data, s.primaryIds[n - 1]);
    if i < n - 1 {
      KeyColumn(s, data, n - 1, i);
      SliceLeft(head, last, KeyLength(s, i), KeyLength(s, i) + s.sizes[s.primaryIds[i]]);
    } else {
      SliceRight(head, last);
    }
  }

  // ----- The two hashes -----

  /** The first four bytes as a 32-bit number. */
  function Word(b: Bytes): nat
    requires |b| >= 4
  {
    (b[0] as int) + 0x100 * (b[1] as int) + 0x1_0000 * (b[2] as int) + 0x100_0000 * (b[3] as int)
  }

  /** It is little-endian. */
  lemma WordOf(x: nat, rest: Bytes)
    requires x < W32
    ensures Word([x % 0x100, x / 0x100 % 0x100, x / 0x1_0000 % 0x100, x / 0x100_0000] + rest) == x
  {
    var b: Bytes := [x % 0x100, x / 0x100 % 0x100, x / 0x1_0000 % 0x100, x / 0x100_0000] + rest;
    assert b[0] == x % 0x100 && b[1] == x / 0x100 % 0x100 && b[2] == x / 0x1_0000 % 0x100 && b[3] == x / 0x100_0000;
    assert x / 0x100 / 0x100 == x / 0x1_0000 && x / 0x1_0000 / 0x100 == x / 0x100_0000;
  }

  /** SchemaRecord::GetPartitionHashcode, over the first n partition columns. */
  function RecordHash(s: Schema, data: Bytes, n: nat): nat
    requires Routable(s) && RecordOK(s, data) && n <= s.partitionNum
  {
    if n == 0 then 0 else (RecordHash(s, data, n - 1) + Word(Column(s, data, s.partitionIds[n - 1]))) % W32
  }

  function WordSum(s: Schema, data: Bytes, n: nat): nat
    requires Routable(s) && RecordOK(s, data) && n <= s.partitionNum
  {
    if n == 0 then 0 else WordSum(s, data, n - 1) + Word(Column(s, data, s.partitionIds[n - 1]))
  }

  lemma HashNext(s: Schema, data: Bytes, n: nat, w: nat)
    requires Routable(s) && RecordOK(s, data) && 0 < n <= s.partitionNum
    requires w == Word(Column(s, data, s.partitionIds[n - 1]))
    ensures RecordHash(s, data, n) == (RecordHash(s, data, n - 1) + w) % W32
    ensures WordSum(s, data, n) == WordSum(s, data, n - 1) + w
  {}

  lemma AddedUp(h: nat, x: nat, w: nat)
    requires h == x % W32
    ensures (h + w) % W32 == (x + w) % W32
  {}

  /** The hash is the sum of the partition columns' words, in 32 bits. */
  lemma {:induction false} HashIsSum(s: Schema, data: Bytes, n: nat)
    requires Routable(s) && RecordOK(s, data) && n <= s.partitionNum
    ensures RecordHash(s, data, n) == WordSum(s, data, n) % W32
  {
    if n > 0 {
      HashIsSum(s, data, n - 1);
      var w := Word(Column(s, data, s.partitionIds[n - 1]));
      HashNext(s, data, n, w);
      AddedUp(RecordHash(s, data, n - 1), WordSum(s, data, n - 1), w);
    }
  }

  /** RecordSchema::GetPartitionHashcode over the first n primary columns: the hash, and how many
      partition columns have been met. A column that is not wide enough ends up outside the model. */
  function KeyHash(s: Schema, key: Bytes, n: nat): (nat, nat)
    requires SchemaOK(s) && n <= s.primaryNum && |key| >= KeyLength(s, s.primaryNum)
  {
    if n == 0 then (0, 0) else
      var (h, c) := KeyHash(s, key, n - 1);
      var at := KeyLength(s, n - 1);
      if c < K_MAX_COLUMNS && s.primaryIds[n - 1] == s.partitionIds[c] then
        ((h + (if at + 4 <= |key| then Word(key[at..]) else 0)) % W32, c + 1)
      else (h, c)
  }

  /** The schema for which the two disagree: no partition columns, and column 0 a primary one. The
      zero in the unused array slot is taken for column 0. */
  predicate Confused(s: Schema)
    requires SchemaOK(s)
  {
    s.partitionNum == 0 && s.primaryNum > 0 && s.primaryIds[0] == 0
  }

  lemma {:induction false} SubsequenceSplit(xs: seq<nat>, ys: seq<nat>)
    requires Ascending(ys) && Subsequence(xs, ys)
    ensures Ascending(xs) && |xs| <= |ys| && forall i | 0 <= i < |xs| :: xs[i] in ys
    decreases ys
  {
    if xs != [] {
      assert forall i | 0 <= i < |ys[1..]| :: ys[1..][i] == ys[i + 1];
      if xs[0] == ys[0] {
        SubsequenceSplit(xs[1..], ys[1..]);
        forall i | 0 < i < |xs|
          ensures xs[0] < xs[i] && xs[i] in ys
        {
          assert xs[1..][i - 1] == xs[i] && xs[i] in ys[1..];
        }
        forall i, j | 0 <= i < j < |xs| ensures xs[i] < xs[j] { if i > 0 { assert xs[1..][i - 1] < xs[1..][j - 1]; } }
      } else {
        SubsequenceSplit(xs, ys[1..]);
      }
    }
  }

  /** How many of xs the walk over the first n of ys has met. */
  function Met(xs: seq<nat>, ys: seq<nat>, n: nat): (c: nat)
    requires n <= |ys|
    ensures c <= |xs| && c <= n
  {
    if n == 0 then 0 else
      var c := Met(xs, ys, n - 1);
      if c < |xs| && ys[n - 1] == xs[c] then c + 1 else c
  }

  /** After n primary columns, the rest of the partition columns is a subsequence of the rest. */
  lemma {:induction false} MetRest(xs: seq<nat>, ys: seq<nat>, n: nat)
    requires Subsequence(xs, ys) && n <= |ys|
    ensures Subsequence(xs[Met(xs, ys, n)..], ys[n..])
  {
    if n == 0 {
      assert xs[0..] == xs && ys[0..] == ys;
    } else {
      MetRest(xs, ys, n - 1);
      var c := Met(xs, ys, n - 1);
      assert ys[n - 1..][1..] == ys[n..];
      if c < |xs| {
        assert xs[c..][1..] == xs[c + 1..];
      } else {
        assert xs[c..] == [];
      }
    }
  }

  lemma KeyHashStep(s: Schema, key: Bytes, n: nat, h: nat, c: nat)
    requires SchemaOK(s) && n < s.primaryNum
    requires |key| >= KeyLength(s, s.primaryNum) && KeyHash(s, key, n) == (h, c)
    ensures c < K_MAX_COLUMNS && s.primaryIds[n] == s.partitionIds[c] && KeyLength(s, n) + 4 <= |key| ==>
      KeyHash(s, key, n + 1) == ((h + Word(key[KeyLength(s, n)..])) % W32, c + 1)
    ensures c < K_MAX_COLUMNS && s.primaryIds[n] != s.partitionIds[c] ==> KeyHash(s, key, n + 1) == (h, c)
  {}

  /** The next primary column is the next partition column, for both ways of counting. */
  predicate Meets(s: Schema, n: nat, c: nat)
    requires SchemaOK(s) && n < s.primaryNum
  {
    c < s.partitionNum && s.primaryIds[n] == s.partitionIds[c]
  }

  lemma MetStep(s: Schema, n: nat)
    requires SchemaOK(s) && n < s.primaryNum
    ensures var c := Met(Partition(s), Primary(s), n);
      Met(Partition(s), Primary(s), n + 1) == if Meets(s, n, c) then c + 1 else c
  {
    assert Primary(s)[n] == s.primaryIds[n];
  }

  lemma RecordHashStep(s: Schema, data: Bytes, c: nat)
    requires Routable(s) && RecordOK(s, data) && c < s.partitionNum
    ensures RecordHash(s, data, c + 1) == (RecordHash(s, data, c) + Word(Column(s, data, s.partitionIds[c]))) % W32
  {}

  /** One more primary column, given that the walks agree so far. */
  lemma KeyWalkMeets(s: Schema, data: Bytes, n: nat, c: nat)
    requires Routable(s) && RecordOK(s, data) && n < s.primaryNum && KeyLength(s, s.primaryNum) > 0 && Meets(s, n, c)
    requires |PrimaryKey(s, data)| == KeyLength(s, s.primaryNum)
    requires KeyHash(s, PrimaryKey(s, data), n) == (RecordHash(s, data, c), c)
    ensures KeyHash(s, PrimaryKey(s, data), n + 1) == (RecordHash(s, data, c + 1), c + 1)
  {
    var w := MetWord(s, data, n, c);
    KeyHashMeets(s, PrimaryKey(s, data), n, RecordHash(s, data, c), c, w);
  }

  /** What the met column adds to both hashes. */
  lemma MetWord(s: Schema, data: Bytes, n: nat, c: nat) returns (w: nat)
    requires Routable(s) && RecordOK(s, data) && n < s.primaryNum && KeyLength(s, s.primaryNum) > 0 && Meets(s, n, c)
    ensures var key, at := PrimaryKey(s, data), KeyLength(s, n); at + 4 <= |key| && Word(key[at..]) == w
    ensures RecordHash(s, data, c + 1) == (RecordHash(s, data, c) + w) % W32
  {
    KeyWord(s, data, n);
    RecordHashStep(s, data, c);
    w := Word(Column(s, data, s.partitionIds[c]));
  }

  lemma KeyHashMeets(s: Schema, key: Bytes, n: nat, h: nat, c: nat, w: nat)
    requires SchemaOK(s) && n < s.primaryNum && Meets(s, n, c)
    requires |key| >= KeyLength(s, s.primaryNum) && KeyHash(s, key, n) == (h, c)
    requires KeyLength(s, n) + 4 <= |key| && Word(key[KeyLength(s, n)..]) == w
    ensures KeyHash(s, key, n + 1) == ((h + w) % W32, c + 1)
  {
    KeyHashStep(s, key, n, h, c);
  }

  lemma KeyWalkPasses(s: Schema, data: Bytes, n: nat, key: Bytes, h: nat, c: nat)
    requires Routable(s) && !Confused(s) && n < s.primaryNum && !Meets(s, n, c) && |key| >= KeyLength(s, s.primaryNum)
    requires c == Met(Partition(s), Primary(s), n) && KeyHash(s, key, n) == (h, c)
    ensures KeyHash(s, key, n + 1) == (h, c)
  {
    KeyHashStep(s, key, n, h, c);
    if c == s.partitionNum { NoZeroLater(s, n, c); }
  }

  lemma KeyWalkStep(s: Schema, data: Bytes, n: nat, c: nat, d: nat)
    requires Routable(s) && RecordOK(s, data) && n < s.primaryNum && !Confused(s) && KeyLength(s, s.primaryNum) > 0
    requires |PrimaryKey(s, data)| == KeyLength(s, s.primaryNum)
    requires c == Met(Partition(s), Primary(s), n) && d == Met(Partition(s), Primary(s), n + 1)
    requires KeyHash(s, PrimaryKey(s, data), n) == (RecordHash(s, data, c), c)
    ensures KeyHash(s, PrimaryKey(s, data), n + 1) == (RecordHash(s, data, d), d)
  {
    MetStep(s, n);
    if Meets(s, n, c) {
      KeyWalkMeets(s, data, n, c);
    } else {
      KeyWalkPasses(s, data, n, PrimaryKey(s, data), RecordHash(s, data, c), c);
    }
  }

  lemma KeyFullLength(s: Schema, data: Bytes)
    requires Routable(s) && RecordOK(s, data) && KeyLength(s, s.primaryNum) > 0
    ensures |PrimaryKey(s, data)| == KeyLength(s, s.primaryNum)
  {
    KeyUpToLength(s, data, s.primaryNum);
  }

  /** The key walk meets exactly the partition columns, in step with the record walk. */
  lemma {:induction false} KeyWalk(s: Schema, data: Bytes, n: nat)
    requires Routable(s) && RecordOK(s, data) && n <= s.primaryNum && !Confused(s) && KeyLength(s, s.primaryNum) > 0
    ensures |PrimaryKey(s, data)| == KeyLength(s, s.primaryNum)
    ensures var c := Met(Partition(s), Primary(s), n);
      KeyHash(s, PrimaryKey(s, data), n) == (RecordHash(s, data, c), c)
  {
    KeyFullLength(s, data);
    if n > 0 {
      KeyWalk(s, data, n - 1);
      KeyWalkStep(s, data, n - 1, Met(Partition(s), Primary(s), n - 1), Met(Partition(s), Primary(s), n));
    }
  }

  lemma KeyWord(s: Schema, data: Bytes, i: nat)
    requires Routable(s) && RecordOK(s, data) && i < s.primaryNum
    requires s.sizes[s.primaryIds[i]] >= 4 && KeyLength(s, s.primaryNum) > 0
    ensures var key, at := PrimaryKey(s, data), KeyLength(s, i);
      at + 4 <= |key| && Word(key[at..]) == Word(Column(s, data, s.primaryIds[i]))
  {
    KeyColumn(s, data, s.primaryNum, i);
    var key, at, w := PrimaryKey(s, data), KeyLength(s, i), s.sizes[s.primaryIds[i]];
    var col := key[at..at + w];
    assert forall k | 0 <= k < 4 :: key[at..][k] == col[k];
  }

  /** Once all partition columns are met, the zero behind them matches no later primary column. */
  lemma NoZeroLater(s: Schema, i: nat, c: nat)
    requires Routable(s) && !Confused(s) && i < s.primaryNum && c == s.partitionNum == Met(Partition(s), Primary(s), i)
    ensures c < K_MAX_COLUMNS && s.partitionIds[c] == 0 && s.primaryIds[i] != 0
  {
    if i > 0 {
      assert Primary(s)[0] < Primary(s)[i];
    }
  }

  /** Record side and key side choose the same partition, exactly unless the zero is taken for a column. */
  lemma HashesAgree(s: Schema, data: Bytes)
    requires Routable(s) && RecordOK(s, data) && !Confused(s)
    ensures |PrimaryKey(s, data)| >= KeyLength(s, s.primaryNum)
    ensures KeyHash(s, PrimaryKey(s, data), s.primaryNum).0 == RecordHash(s, data, s.partitionNum)
  {
    if KeyLength(s, s.primaryNum) == 0 {
      EmptyKey(s, data, s.primaryNum);
    } else {
      KeyWalk(s, data, s.primaryNum);
      AllMet(s);
    }
  }

  /** The whole key has all the partition columns. */
  lemma AllMet(s: Schema)
    requires Routable(s)
    ensures Met(Partition(s), Primary(s), s.primaryNum) == s.partitionNum
  {
    MetAll(Partition(s), Primary(s));
  }

  lemma MetAll(xs: seq<nat>, ys: seq<nat>)
    requires Subsequence(xs, ys)
    ensures Met(xs, ys, |ys|) == |xs|
  {
    MetRest(xs, ys, |ys|);
    assert ys[|ys|..] == [];
    NothingLeft(xs[Met(xs, ys, |ys|)..]);
  }

  lemma NothingLeft(xs: seq<nat>)
    requires Subsequence(xs, [])
    ensures xs == []
  {}

  lemma {:induction false} EmptyKey(s: Schema, data: Bytes, n: nat)
    requires Routable(s) && RecordOK(s, data) && !Confused(s) && KeyLength(s, s.primaryNum) == 0 && n <= s.primaryNum
    ensures s.partitionNum == 0 && KeyHash(s, PrimaryKey(s, data), n) == (0, 0)
  {
    if s.partitionNum > 0 {
      SubsequenceSplit(Partition(s), Primary(s));
      assert Partition(s)[0] in Primary(s);
      var i :| 0 <= i < s.primaryNum && Primary(s)[i] == Partition(s)[0];
      KeyLengthGrows(s, i + 1);
      assert false;
    }
    if n > 0 {
      EmptyKey(s, data, n - 1);
      NoZeroLater(s, n - 1, 0);
    }
  }

  /** In a confused schema the record side always gives 0 and the key side column 0's value: they
      agree exactly for records whose column 0 begins with four zero bytes. */
  lemma ConfusedDiffers(s: Schema, data: Bytes)
    requires Routable(s) && RecordOK(s, data) && Confused(s) && s.sizes[0] >= 4
    ensures |PrimaryKey(s, data)| >= KeyLength(s, s.primaryNum) && RecordHash(s, data, s.partitionNum) == 0
    ensures KeyHash(s, PrimaryKey(s, data), s.primaryNum).0 == Word(Column(s, data, 0))
    ensures KeyHash(s, PrimaryKey(s, data), s.primaryNum).0 == RecordHash(s, data, s.partitionNum) <==>
      Word(Column(s, data, 0)) == 0
  {
    KeyLengthGrows(s, 1);
    assert KeyLength(s, 1) == KeyLength(s, 0) + s.sizes[0];
    KeyUpToLength(s, data, s.primaryNum);
    KeyWord(s, data, 0);
    ConfusedWalk(s, PrimaryKey(s, data), s.primaryNum);
  }

  /** Both sides choose the same of count partitions exactly if column 0 is a multiple of count. */
  lemma ConfusedRoutes(s: Schema, data: Bytes, count: nat)
    requires Routable(s) && RecordOK(s, data) && Confused(s) && s.sizes[0] >= 4 && count > 0
    ensures |PrimaryKey(s, data)| >= KeyLength(s, s.primaryNum)
    ensures KeyHash(s, PrimaryKey(s, data), s.primaryNum).0 % count == RecordHash(s, data, s.partitionNum) % count
      <==> Word(Column(s, data, 0)) % count == 0
  {
    ConfusedDiffers(s, data);
  }

  lemma {:induction false} ConfusedWalk(s: Schema, key: Bytes, n: nat)
    requires Routable(s) && Confused(s) && 0 < n <= s.primaryNum && |key| >= KeyLength(s, s.primaryNum) && |key| >= 4
    ensures KeyHash(s, key, n) == (Word(key), 1)
  {
    if n == 1 {
      KeyHashStep(s, key, 0, 0, 0);
      assert key[0..] == key;
    } else {
      ConfusedWalk(s, key, n - 1);
      KeyHashStep(s, key, n - 1, Word(key), 1);
      assert Primary(s)[0] < Primary(s)[n - 1];
    }
  }

  /** One 4-byte column, primary, no partition columns: the record with value 1 hashes to 0, its key to 1. */
  lemma ConfusedExample()
    ensures var s := Schema([4], [0], 1, [0, 0, 0, 0, 0], 0, [0, 0, 0, 0, 0]); var data: Bytes := [1, 0, 0, 0];
      && Routable(s) && RecordOK(s, data) && Confused(s) && |PrimaryKey(s, data)| >= KeyLength(s, 1)
      && RecordHash(s, data, 0) == 0 && KeyHash(s, PrimaryKey(s, data), 1).0 == 1
  {
    var s := Schema([4], [0], 1, [0, 0, 0, 0, 0], 0, [0, 0, 0, 0, 0]);
    var data: Bytes := [1, 0, 0, 0];
    assert s.sizes[..0] == [] && s.sizes == [4] && Sum(s.sizes) == 4;
    ConfusedDiffers(s, data);
    assert Column(s, data, 0) == data;
  }

  // ----- The table -----

  datatype Record = Record(id: int, data: Bytes)

  function PartOfRecord(s: Schema, count: nat, r: Record): nat
    requires Routable(s) && RecordOK(s, r.data) && count > 0
  {
    if count != 1 then RecordHash(s, r.data, s.partitionNum) % count else 0
  }

  /** The first of the records with the key. */
  function FirstWith(s: Schema, rs: seq<Record>, key: Bytes): seq<Record>
    requires Routable(s) && forall i | 0 <= i < |rs| :: RecordOK(s, rs[i].data)
    decreases |rs|
  {
    if rs == [] then [] else if PrimaryKey(s, rs[0].data) == key then [rs[0]] else FirstWith(s, rs[1..], key)
  }

  lemma {:induction false} FirstWithMore(s: Schema, rs: seq<Record>, r: Record, key: Bytes)
    requires Routable(s) && (forall i | 0 <= i < |rs| :: RecordOK(s, rs[i].data)) && RecordOK(s, r.data)
    ensures FirstWith(s, rs + [r], key) ==
      if FirstWith(s, rs, key) == [] && PrimaryKey(s, r.data) == key then [r] else FirstWith(s, rs, key)
    decreases |rs|
  {
    if rs != [] {
      assert (rs + [r])[1..] == rs[1..] + [r];
      FirstWithMore(s, rs[1..], r, key);
    }
  }

  /** Equal keys are equal primary columns. */
  lemma {:induction false} KeysEqual(s: Schema, a: Bytes, b: Bytes, n: nat)
    requires SchemaOK(s) && RecordOK(s, a) && RecordOK(s, b) && n <= s.primaryNum
    ensures KeyUpTo(s, a, n) == KeyUpTo(s, b, n) <==> forall i | 0 <= i < n ::
      Column(s, a, s.primaryIds[i]) == Column(s, b, s.primaryIds[i])
  {
    if n > 0 {
      KeysEqual(s, a, b, n - 1);
      KeyUpToLength(s, a, n - 1);
      KeyUpToLength(s, b, n - 1);
      SameConcat(KeyUpTo(s, a, n - 1), KeyUpTo(s, b, n - 1),
        Column(s, a, s.primaryIds[n - 1]), Column(s, b, s.primaryIds[n - 1]));
    }
  }

  lemma SameConcat(x: Bytes, y: Bytes, c: Bytes, d: Bytes)
    requires |x| == |y|
    ensures x + c == y + d <==> x == y && c == d
  {
    assert (x + c)[..|x|] == x && (y + d)[..|x|] == y && (x + c)[|x|..] == c && (y + d)[|x|..] == d;
  }

  /** Each partition's index holds the first records with their keys that belong to the partition. */
  ghost predicate TableOK(s: Schema, count: nat, index: seq<map<Bytes, Record>>, inserted: seq<Record>) {
    && Routable(s) && count > 0 && |index| == count
    && (forall i | 0 <= i < |inserted| :: RecordOK(s, inserted[i].data))
    && (forall p, key {:trigger key in index[p]} | 0 <= p < count && key in index[p] ::
          FirstWith(s, inserted, key) == [index[p][key]] && RecordOK(s, index[p][key].data)
            && PartOfRecord(s, count, index[p][key]) == p)
    && (forall key, r {:trigger FirstWith(s, inserted, key), PartOfRecord(s, count, r)} |
          FirstWith(s, inserted, key) == [r] && RecordOK(s, r.data) ::
          var p := PartOfRecord(s, count, r); p < count && key in index[p])
  }

  /** One more record, taken into its partition if it is the first with its key. */
  lemma TableGrows(s: Schema, count: nat, index: seq<map<Bytes, Record>>, inserted: seq<Record>, r: Record, part: nat)
    requires TableOK(s, count, index, inserted) && RecordOK(s, r.data) && part == PartOfRecord(s, count, r) < count
    ensures var key := PrimaryKey(s, r.data);
      && (key !in index[part] <==> FirstWith(s, inserted, key) == [])
      && TableOK(s, count, if key !in index[part] then index[part := index[part][key := r]] else index, inserted + [r])
  {
    var key := PrimaryKey(s, r.data);
    SamePartition(s, count, inserted, r);
    FirstsGrow(s, inserted, r);
    if key !in index[part] { TableTakes(s, count, index, inserted, r, part, key); }
  }

  lemma FirstsGrow(s: Schema, inserted: seq<Record>, r: Record)
    requires Routable(s) && (forall i | 0 <= i < |inserted| :: RecordOK(s, inserted[i].data)) && RecordOK(s, r.data)
    ensures forall k ::
      FirstWith(s, inserted + [r], k)
      == if FirstWith(s, inserted, k) == [] && PrimaryKey(s, r.data) == k then [r] else FirstWith(s, inserted, k)
  {
    forall k ensures FirstWith(s, inserted + [r], k)
      == if FirstWith(s, inserted, k) == [] && PrimaryKey(s, r.data) == k then [r] else FirstWith(s, inserted, k)
    {
      FirstWithMore(s, inserted, r, k);
    }
  }

  /** A record with a new key, put into its partition. */
  lemma TableTakes(s: Schema, count: nat, index: seq<map<Bytes, Record>>, inserted: seq<Record>, r: Record, part: nat,
      key: Bytes)
    requires TableOK(s, count, index, inserted) && RecordOK(s, r.data) && part == PartOfRecord(s, count, r) < count
    requires key == PrimaryKey(s, r.data) && FirstWith(s, inserted, key) == []
    ensures TableOK(s, count, index[part := index[part][key := r]], inserted + [r])
  {
    FirstsGrow(s, inserted, r);
  }

  class ShardTable {
    const schema: Schema
    const partitionCount: nat
    var primaryIndex: seq<map<Bytes, Record>>
    ghost var inserted: seq<Record>

    ghost predicate Valid()
      reads this
    {
      TableOK(schema, partitionCount, primaryIndex, inserted)
    }

    constructor (s: Schema, count: nat)
      requires Routable(s) && count > 0
      ensures Valid() && inserted == [] && schema == s && partitionCount == count
    {
      schema, partitionCount := s, count;
      primaryIndex := seq(count, _ => map[]);
      inserted := [];
    }

    /** The hash loop of SchemaRecord. */
    method RecordPartitionHashcode(data: Bytes) returns (h: nat)
      requires Routable(schema) && RecordOK(schema, data)
      ensures h == RecordHash(schema, data, schema.partitionNum)
    {
      h := 0;
      var i := 0;
      while i < schema.partitionNum
        invariant 0 <= i <= schema.partitionNum && h == RecordHash(schema, data, i)
      {
        RecordHashStep(schema, data, i);
        h := (h + Word(Column(schema, data, schema.partitionIds[i]))) % W32;
        i := i + 1;
      }
    }

    /** The hash loop of RecordSchema. */
    method KeyPartitionHashcode(key: Bytes) returns (h: nat)
      requires SchemaOK(schema) && |key| >= KeyLength(schema, schema.primaryNum)
      ensures h == KeyHash(schema, key, schema.primaryNum).0
    {
      h := 0;
      var colCount, offset, i := 0, 0, 0;
      while i < schema.primaryNum
        invariant 0 <= i <= schema.primaryNum && offset == KeyLength(schema, i)
        invariant (h, colCount) == KeyHash(schema, key, i)
      {
        if colCount < K_MAX_COLUMNS && schema.primaryIds[i] == schema.partitionIds[colCount] {
          h := (h + (if offset + 4 <= |key| then Word(key[offset..]) else 0)) % W32;
          colCount := colCount + 1;
        }
        offset := offset + schema.sizes[schema.primaryIds[i]];
        i := i + 1;
      }
    }

    /** Into the partition of the record's hash; refused if the key is there already. */
    method InsertRecord(r: Record) returns (ok: bool)
      requires Valid() && RecordOK(schema, r.data)
      modifies this
      ensures Valid() && inserted == old(inserted) + [r]
      ensures ok <==> FirstWith(schema, old(inserted), PrimaryKey(schema, r.data)) == []
    {
      var key := PrimaryKey(schema, r.data);
      var part := 0;
      if partitionCount != 1 {
        var h := RecordPartitionHashcode(r.data);
        part := h % partitionCount;
      }
      TableGrows(schema, partitionCount, primaryIndex, inserted, r, part);
      ok := key !in primaryIndex[part];
      if ok {
        primaryIndex := primaryIndex[part := primaryIndex[part][key := r]];
      }
      inserted := inserted + [r];
    }

    /** A record is found exactly if one with the same primary columns was inserted, the first such;
        of a confused schema only if moreover the key's first four bytes are a multiple of the count. */
    method SelectKeyRecord(key: Bytes) returns (found: seq<Record>)
      requires Valid() && |key| >= KeyLength(schema, schema.primaryNum)
      requires partitionCount > 1 && Confused(schema) ==> |key| >= 4
      ensures found == if Reaches(schema, partitionCount, key) then FirstWith(schema, inserted, key) else []
    {
      var part := 0;
      if partitionCount != 1 {
        var h := KeyPartitionHashcode(key);
        part := h % partitionCount;
      }
      KeyPartition(schema, partitionCount, inserted, key);
      found := if key in primaryIndex[part] then [primaryIndex[part][key]] else [];
    }
  }

  /** The lookup goes to the partition that records with the key are in. */
  predicate Reaches(s: Schema, count: nat, key: Bytes)
    requires SchemaOK(s) && count > 0 && (count > 1 && Confused(s) ==> |key| >= 4)
  {
    count == 1 || !Confused(s) || Word(key) % count == 0
  }

  lemma {:induction false} FirstWithIs(s: Schema, rs: seq<Record>, key: Bytes)
    requires Routable(s) && forall i | 0 <= i < |rs| :: RecordOK(s, rs[i].data)
    ensures FirstWith(s, rs, key) == [] || (|FirstWith(s, rs, key)| == 1 && FirstWith(s, rs, key)[0] in rs
      && PrimaryKey(s, FirstWith(s, rs, key)[0].data) == key)
    decreases |rs|
  {
    if rs != [] { FirstWithIs(s, rs[1..], key); }
  }

  /** Where a key is looked up. */
  function PartOfKey(s: Schema, count: nat, key: Bytes): nat
    requires SchemaOK(s) && count > 0 && |key| >= KeyLength(s, s.primaryNum)
  {
    if count == 1 then 0 else KeyHash(s, key, s.primaryNum).0 % count
  }

  /** A record is in the partition its key is looked up in exactly if the lookup reaches it. */
  lemma RecordReached(s: Schema, count: nat, r: Record, key: Bytes)
    requires Routable(s) && count > 0 && RecordOK(s, r.data) && key == PrimaryKey(s, r.data)
    requires |key| >= KeyLength(s, s.primaryNum) && (count > 1 && Confused(s) ==> |key| >= 4)
    ensures PartOfRecord(s, count, r) == PartOfKey(s, count, key) <==> Reaches(s, count, key)
  {
    if count != 1 && !Confused(s) {
      HashesAgree(s, r.data);
    } else if count != 1 {
      ConfusedWalk(s, key, s.primaryNum);
      assert RecordHash(s, r.data, 0) == 0;
    }
  }

  /** Likewise for the first record with a key. */
  lemma KeyPartition(s: Schema, count: nat, rs: seq<Record>, key: Bytes)
    requires Routable(s) && count > 0 && |key| >= KeyLength(s, s.primaryNum)
    requires count > 1 && Confused(s) ==> |key| >= 4
    requires forall i | 0 <= i < |rs| :: RecordOK(s, rs[i].data)
    ensures var f := FirstWith(s, rs, key);
      f == [] || (|f| == 1 && RecordOK(s, f[0].data)
        && (PartOfRecord(s, count, f[0]) == PartOfKey(s, count, key) <==> Reaches(s, count, key)))
  {
    FirstWithIs(s, rs, key);
    var f := FirstWith(s, rs, key);
    if f != [] {
      var i :| 0 <= i < |rs| && rs[i] == f[0];
      RecordReached(s, count, f[0], key);
    }
  }

  /** Records with the same key hash the same. */
  lemma SameHash(s: Schema, a: Bytes, b: Bytes)
    requires Routable(s) && RecordOK(s, a) && RecordOK(s, b) && PrimaryKey(s, a) == PrimaryKey(s, b)
    ensures RecordHash(s, a, s.partitionNum) == RecordHash(s, b, s.partitionNum)
  {
    if !Confused(s) {
      HashesAgree(s, a);
      HashesAgree(s, b);
    }
  }

  /** The first record with r's key is in r's own partition. */
  lemma SamePartition(s: Schema, count: nat, rs: seq<Record>, r: Record)
    requires Routable(s) && count > 0 && RecordOK(s, r.data)
    requires forall i | 0 <= i < |rs| :: RecordOK(s, rs[i].data)
    ensures var f := FirstWith(s, rs, PrimaryKey(s, r.data));
      f == [] || (|f| == 1 && RecordOK(s, f[0].data) && PartOfRecord(s, count, f[0]) == PartOfRecord(s, count, r))
  {
    FirstWithIs(s, rs, PrimaryKey(s, r.data));
    var f := FirstWith(s, rs, PrimaryKey(s, r.data));
    if f != [] {
      var i :| 0 <= i < |rs| && rs[i] == f[0];
      SameHash(s, f[0].data, r.data);
    }
  }
}
