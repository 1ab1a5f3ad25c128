// The bytes of the value log: little-endian numbers, elements, transactions, epoch chunks.
module LogFormat {

  type Byte = x: int | 0 <= x < 256 witness 0

  function Pow256(n: nat): (p: nat)
    ensures p > 0
  {
    if n == 0 then 1 else 256 * Pow256(n - 1)
  }

  const U64: nat := 0x1_0000_0000_0000_0000

  lemma Pow8()
    ensures Pow256(8) == U64
  {
    assert Pow256(4) == 0x1_0000_0000;
    assert Pow256(5) == 256 * Pow256(4) && Pow256(6) == 256 * Pow256(5) && Pow256(7) == 256 * Pow256(6);
  }

  /** The low n bytes of x, lowest first. */
  function Bytes(x: nat, n: nat): (s: seq<Byte>)
    ensures |s| == n
  {
    if n == 0 then [] else [x % 256] + Bytes(x / 256, n - 1)
  }

  function Number(s: seq<Byte>): nat {
    if s == [] then 0 else s[0] + 256 * Number(s[1..])
  }

  lemma {:induction false} NumberOfBytes(x: nat, n: nat)
    requires x < Pow256(n)
    ensures Number(Bytes(x, n)) == x
  {
    if n > 0 { NumberOfBytes(x / 256, n - 1); }
  }

  /** Byte i stands for the i-th power of 256: numbers are little-endian. */
  lemma {:induction false} ByteAt(x: nat, n: nat, i: nat)
    requires i < n
    ensures Bytes(x, n)[i] == x / Pow256(i) % 256
  {
    if i > 0 {
      ByteAt(x / 256, n - 1, i - 1);
      DivideTwice(x, Pow256(i - 1));
    }
  }

  lemma DivideTwice(x: nat, p: nat)
    requires p > 0
    ensures x / 256 / p == x / (256 * p)
  {
    var q, b := x / 256 / p, x / 256 % p;
    assert x == 256 * (q * p + b) + x % 256;
    var r := 256 * b + x % 256;
    assert 256 * b <= 256 * (p - 1);
    assert x == q * (256 * p) + r && 0 <= r < 256 * p;
    Quotient(x, 256 * p, q, r);
  }

  lemma Quotient(x: int, m: int, q: int, r: int)
    requires x == q * m + r && 0 <= r < m
    ensures x / m == q
  {
    var d, s := x / m, x % m;
    assert x == d * m + s;
    if d > q { AtLeastOne(d - q, m); } else if d < q { AtLeastOne(q - d, m); }
  }

  lemma AtLeastOne(a: int, m: int)
    requires a >= 1 && m >= 0
    ensures a * m >= m
  {}

  /** A 64-bit field. */
  function Field(x: nat): (s: seq<Byte>)
    ensures |s| == 8
  {
    Bytes(x, 8)
  }

  lemma FieldValue(x: nat)
    requires x < U64
    ensures Number(Field(x)) == x
  {
    Pow8();
    NumberOfBytes(x, 8);
  }

  const K_INSERT: Byte := 0
  const K_UPDATE: Byte := 1
  const K_LOG_BUFFER_SIZE: nat := 16777216

  datatype Element = Element(kind: Byte, table: nat, data: seq<Byte>)
  datatype Txn = Txn(timestamp: nat, elements: seq<Element>)

  predicate ElementOK(e: Element) {
    e.table < U64 && |e.data| < U64
  }

  predicate TxnOK(t: Txn) {
    t.timestamp < U64 && |ElementsBytes(t.elements)| < U64 && forall i | 0 <= i < |t.elements| ::
      ElementOK(t.elements[i])
  }

  /** type | table | size | data */
  function ElementBytes(e: Element): (s: seq<Byte>)
    ensures |s| == 17 + |e.data|
  {
    [e.kind] + Field(e.table) + Field(|e.data|) + e.data
  }

  /** The pieces one after the other. */
  function Cat<T>(xs: seq<T>, f: T -> seq<Byte>): seq<Byte> {
    if xs == [] then [] else Cat(xs[..|xs| - 1], f) + f(xs[|xs| - 1])
  }

  function ElementsBytes(es: seq<Element>): seq<Byte> {
    Cat(es, ElementBytes)
  }

  /** timestamp | size | elements */
  function TxnBytes(t: Txn): (s: seq<Byte>)
    ensures |s| == 16 + |ElementsBytes(t.elements)|
  {
    Field(t.timestamp) + Field(|ElementsBytes(t.elements)|) + ElementsBytes(t.elements)
  }

  function TxnsBytes(ts: seq<Txn>): seq<Byte> {
    Cat(ts, TxnBytes)
  }

  datatype Chunk = Chunk(epoch: nat, txns: seq<Txn>)

  predicate ChunkOK(c: Chunk) {
    c.epoch < U64 && |TxnsBytes(c.txns)| < U64 && forall i | 0 <= i < |c.txns| :: TxnOK(c.txns[i])
  }

  /** epoch | size | transactions */
  function ChunkBytes(c: Chunk): (s: seq<Byte>)
    ensures |s| == 16 + |TxnsBytes(c.txns)|
  {
    Field(c.epoch) + Field(|TxnsBytes(c.txns)|) + TxnsBytes(c.txns)
  }

  function ChunksBytes(cs: seq<Chunk>): seq<Byte> {
    Cat(cs, ChunkBytes)
  }

  function AllTxns(cs: seq<Chunk>): seq<Txn> {
    if cs == [] then [] else AllTxns(cs[..|cs| - 1]) + cs[|cs| - 1].txns
  }

  // ----- Where the k-th piece stands -----

  lemma {:induction false} CatPrefix<T>(xs: seq<T>, f: T -> seq<Byte>, k: nat)
    requires k <= |xs|
    ensures Cat(xs[..k], f) <= Cat(xs, f)
    decreases |xs| - k
  {
    if k == |xs| {
      assert xs[..k] == xs;
    } else {
      CatPrefix(xs, f, k + 1);
      assert xs[..k + 1][..k] == xs[..k];
    }
  }

  lemma CatNext<T>(xs: seq<T>, f: T -> seq<Byte>, k: nat)
    requires k < |xs|
    ensures Cat(xs[..k + 1], f) == Cat(xs[..k], f) + f(xs[k])
  {
    assert xs[..k + 1][..k] == xs[..k];
  }

  /** Piece k begins where the pieces before it end. */
  lemma PieceAt<T>(xs: seq<T>, f: T -> seq<Byte>, k: nat, at: nat)
    requires k < |xs| && at == |Cat(xs[..k], f)|
    ensures at + |f(xs[k])| == |Cat(xs[..k + 1], f)| <= |Cat(xs, f)|
    ensures Cat(xs, f)[at..at + |f(xs[k])|] == f(xs[k])
  {
    CatNext(xs, f, k);
    CatPrefix(xs, f, k + 1);
    var a, b, c := Cat(xs[..k], f), f(xs[k]), Cat(xs, f);
    assert c[..at + |b|] == a + b;
    assert c[at..at + |b|] == c[..at + |b|][at..];
  }
}
