// The shard procedures of the two benchmarks, as the selects they make: table, partition and key.
module ShardProcedures {

  const U32: int := 0x1_0000_0000
  const U64: int := 0x1_0000_0000_0000_0000
  const DISTRICTS_PER_WAREHOUSE: nat := 10

  /** (id - 1) % partition_count_, where the difference is converted to an unsigned 64-bit number. */
  function PartOf(id: int, n: nat): (p: nat)
    requires n > 0
    ensures p < n
  {
    ((id - 1) % U64) % n
  }

  lemma NextRemainder(x: nat, n: nat)
    requires n > 0
    ensures (x + 1) % n == if x % n + 1 == n then 0 else x % n + 1
  {
    var q, r := x / n, x % n;
    assert x == q * n + r;
    if r + 1 < n { Remainder(x + 1, n, q, r + 1); } else { NextMultiple(x, n, q); }
  }

  lemma NextMultiple(x: int, n: int, q: int)
    requires n > 0 && x + 1 == q * n + n
    ensures (x + 1) % n == 0
  {
    assert (q + 1) * n == q * n + n;
    Remainder(x + 1, n, q + 1, 0);
  }

  lemma Remainder(x: int, n: int, q: int, r: int)
    requires x == q * n + r && 0 <= r < n
    ensures x % n == r
  {
    var d := x / n;
    assert x == d * n + x % n;
    if d > q { Multiple(d - q, n); } else if d < q { Multiple(q - d, n); }
  }

  lemma Multiple(a: int, n: int)
    requires a >= 1 && n >= 0
    ensures a * n >= n
  {}

  /** Identifiers go round the partitions in turn, beginning with 1 at partition 0. */
  lemma RoundRobin(id: int, n: nat)
    requires n > 0 && 1 <= id < U64
    ensures PartOf(1, n) == 0
    ensures PartOf(id + 1, n) == if PartOf(id, n) + 1 == n then 0 else PartOf(id, n) + 1
  {
    PartOfPositive(1, n);
    PartOfPositive(id, n);
    PartOfPositive(id + 1, n);
    Remainder(0, n, 0, 0);
    NextRemainder(id - 1, n);
  }

  lemma PartOfPositive(id: int, n: nat)
    requires n > 0 && 1 <= id <= U64
    ensures PartOf(id, n) == (id - 1) % n
  {}

  /** The same kept in an int and passed on as a size_t. */
  function IntPart(id: int, n: nat): nat
    requires n > 0
  {
    var low := PartOf(id, n) % U32;
    (if low < U32 / 2 then low else low - U32) % U64
  }

  /** No partition is lost in an int. */
  lemma IntPartSame(id: int, n: nat)
    requires 0 < n <= U32 / 2
    ensures IntPart(id, n) == PartOf(id, n)
  {}

  datatype Table = Accounts | Savings | Checking | Item | Stock | Warehouse | District | DistrictNewOrder | NewOrders
    | Orders | OrderLines | Customers

  datatype Select = Select(table: Table, part: nat, key: seq<int>)

  /** The partitions the selects go to. */
  function PartsOf(selects: seq<Select>): set<nat> {
    set i | 0 <= i < |selects| :: selects[i].part
  }

  lemma PartsOfAll(a: seq<Select>, b: seq<Select>)
    ensures PartsOf(a + b) == PartsOf(a) + PartsOf(b)
  {
    forall p | p in PartsOf(a) + PartsOf(b) ensures p in PartsOf(a + b) {
      if i :| 0 <= i < |a| && a[i].part == p { assert (a + b)[i].part == p; }
      if i :| 0 <= i < |b| && b[i].part == p { assert (a + b)[|a| + i].part == p; }
    }
  }

  /** All the selects go to p. */
  predicate OnlyTo(selects: seq<Select>, p: nat) {
    forall i | 0 <= i < |selects| :: selects[i].part == p
  }

  lemma PartsOnly(selects: seq<Select>, p: nat)
    requires OnlyTo(selects, p) && selects != []
    ensures PartsOf(selects) == {p}
  {
    assert selects[0].part == p;
  }

  // ----- Smallbank -----

  datatype SmallbankTuple =
    | Amalgamate(custid0: int, custid1: int)
    | DepositChecking(custid: int)
    | SendPayment(custid0: int, custid1: int)
    | TransactSavings(custid: int)
    | WriteCheck(custid: int)
    | Balance(custid: int)

  function SmallbankSelects(t: SmallbankTuple, n: nat): seq<Select>
    requires n > 0
  {
    match t
    case Amalgamate(a, b) =>
      var p, q := PartOf(a, n), PartOf(b, n);
      [Select(Accounts, p, [a]), Select(Accounts, q, [b]), Select(Savings, p, [a]),
        Select(Checking, p, [a]), Select(Checking, q, [b])]
    case DepositChecking(c) =>
      var p := PartOf(c, n);
      [Select(Accounts, p, [c]), Select(Checking, p, [c])]
    case SendPayment(a, b) =>
      var p, q := PartOf(a, n), PartOf(b, n);
      [Select(Accounts, p, [a]), Select(Accounts, q, [b]), Select(Checking, p, [a]), Select(Checking, q, [b])]
    case TransactSavings(c) =>
      var p := PartOf(c, n);
      [Select(Accounts, p, [c]), Select(Savings, p, [c])]
    case WriteCheck(c) =>
      var p := PartOf(c, n);
      [Select(Accounts, p, [c]), Select(Savings, p, [c]), Select(Checking, p, [c])]
    case Balance(c) =>
      var p := PartOf(c, n);
      [Select(Accounts, p, [c]), Select(Savings, p, [c]), Select(Checking, p, [c])]
  }

  // ----- TPC-C -----

  /** A new order's items, each with the warehouse that supplies it: the first ol_cnt_ entries of
      i_ids_ and i_w_ids_. */
  datatype Line = Line(item: int, supplier: int)

  datatype TpccTuple =
    | Delivery(wId: int)
    | NewOrder(wId: int, dId: int, cId: int, lines: seq<Line>)
    | Payment(wId: int, dId: int, cId: int, cWId: int)
    | OrderStatus(wId: int, dId: int, cId: int)
    | StockLevel(wId: int, dId: int)

  datatype Option<T> = None | Some(value: T)

  /** What the procedures go by of what they read: the next order of each district, whether it is
      there, and its customer; the customer's last order; the district's next order id. */
  datatype Answers = Answers(nextOrder: nat -> int, present: nat -> bool,
      orderCustomer: nat -> int, lastOrder: Option<int>, nextId: int)

  /** Delivery's first loop, over districts 1 to d. */
  function OrdersLookedUp(w: int, p: nat, x: Answers, d: nat): seq<Select> {
    if d == 0 then [] else
      OrdersLookedUp(w, p, x, d - 1)
        + [Select(DistrictNewOrder, p, [d, w]), Select(NewOrders, p, [x.nextOrder(d), d, w])]
  }

  /** Its second loop: a district without a new order is passed over. */
  function OrdersDelivered(w: int, p: nat, x: Answers, d: nat): seq<Select> {
    if d == 0 then [] else
      OrdersDelivered(w, p, x, d - 1) + if x.present(d) then [Select(Orders, p, [x.nextOrder(d), d, w])] else []
  }

  /** And its last. */
  function CustomersCharged(w: int, p: nat, x: Answers, d: nat): seq<Select> {
    if d == 0 then [] else
      CustomersCharged(w, p, x, d - 1) + if x.present(d) then [Select(Customers, p, [x.orderCustomer(d), d, w])] else []
  }

  /** The items of a new order are looked up under the home warehouse. */
  function ItemsLookedUp(p: nat, lines: seq<Line>): seq<Select> {
    seq(|lines|, i requires 0 <= i < |lines| => Select(Item, p, [lines[i].item]))
  }

  /** Their stock under the supplier. */
  function StockTaken(n: nat, lines: seq<Line>): seq<Select>
    requires n > 0
  {
    seq(|lines|, i requires 0 <= i < |lines| =>
      Select(Stock, PartOf(lines[i].supplier, n), [lines[i].item, lines[i].supplier]))
  }

  /** The lines of the k orders from id on. */
  function LinesOf(w: int, d: int, p: nat, id: int, k: nat): seq<Select>
    decreases k
  {
    if k == 0 then [] else [Select(OrderLines, p, [id, d, w])] + LinesOf(w, d, p, id + 1, k - 1)
  }

  function TpccSelects(t: TpccTuple, n: nat, x: Answers): seq<Select>
    requires n > 0
  {
    var p := IntPart(t.wId, n);
    match t
    case Delivery(w) =>
      var d := DISTRICTS_PER_WAREHOUSE;
      OrdersLookedUp(w, p, x, d) + OrdersDelivered(w, p, x, d) + CustomersCharged(w, p, x, d)
    case NewOrder(w, d, c, lines) =>
      ItemsLookedUp(p, lines) + StockTaken(n, lines)
        + [Select(Warehouse, p, [w]), Select(District, p, [d, w]), Select(Customers, p, [c, d, w])]
    case Payment(w, d, c, _) =>
      [Select(Warehouse, p, [w]), Select(District, p, [d, w])]
        + if c != -1 then [Select(Customers, p, [c, d, w])] else []
    case OrderStatus(w, d, c) =>
      [Select(Orders, p, [c, d, w])]
        + if x.lastOrder.Some? then [Select(OrderLines, p, [x.lastOrder.value, d, w])] else []
    case StockLevel(w, d) =>
      [Select(District, p, [d, w])] + LinesOf(w, d, p, x.nextId - 5, 5)
  }

  lemma {:induction false} DeliveryOnlyTo(w: int, p: nat, x: Answers, d: nat)
    ensures OnlyTo(OrdersLookedUp(w, p, x, d), p) && OnlyTo(OrdersDelivered(w, p, x, d), p)
    ensures OnlyTo(CustomersCharged(w, p, x, d), p)
    ensures d > 0 ==> OrdersLookedUp(w, p, x, d) != []
  {
    if d > 0 { DeliveryOnlyTo(w, p, x, d - 1); }
  }

  lemma {:induction false} LinesOnlyTo(w: int, d: int, p: nat, id: int, k: nat)
    ensures OnlyTo(LinesOf(w, d, p, id, k), p)
    decreases k
  {
    if k > 0 { LinesOnlyTo(w, d, p, id + 1, k - 1); }
  }

  /** Everything but a new order's stock is selected under the home warehouse. */
  lemma HomeOnly(t: TpccTuple, n: nat, x: Answers)
    requires n > 0 && !t.NewOrder?
    ensures PartsOf(TpccSelects(t, n, x)) == {IntPart(t.wId, n)}
  {
    var p := IntPart(t.wId, n);
    if t.Delivery? { DeliveryOnlyTo(t.wId, p, x, DISTRICTS_PER_WAREHOUSE); }
    if t.StockLevel? { LinesOnlyTo(t.wId, t.dId, p, x.nextId - 5, 5); }
    PartsOnly(TpccSelects(t, n, x), p);
  }

  lemma StockParts(n: nat, lines: seq<Line>)
    requires n > 0
    ensures PartsOf(StockTaken(n, lines)) == set i | 0 <= i < |lines| :: PartOf(lines[i].supplier, n)
  {
    var ss := StockTaken(n, lines);
    forall i | 0 <= i < |lines|
      ensures PartOf(lines[i].supplier, n) in PartsOf(ss)
    {
      assert ss[i].part == PartOf(lines[i].supplier, n);
    }
  }

  /** A new order's selects go to the home warehouse and to every supplier. */
  lemma NewOrderParts(t: TpccTuple, n: nat, x: Answers)
    requires n > 0 && t.NewOrder?
    ensures PartsOf(TpccSelects(t, n, x)) == {IntPart(t.wId, n)} + set i | 0 <= i < |t.lines| ::
      PartOf(t.lines[i].supplier, n)
  {
    var p := IntPart(t.wId, n);
    var items, stock := ItemsLookedUp(p, t.lines), StockTaken(n, t.lines);
    var rest := [Select(Warehouse, p, [t.wId]), Select(District, p, [t.dId, t.wId]),
      Select(Customers, p, [t.cId, t.dId, t.wId])];
    PartsOfAll(items + stock, rest);
    PartsOfAll(items, stock);
    PartsOnly(rest, p);
    if items != [] { PartsOnly(items, p); }
    StockParts(n, t.lines);
  }
}
