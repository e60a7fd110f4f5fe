/** The sales ledger (src/main/db/sales.ts): recording a sale and taking its
    quantities out of stock in one transaction, voiding a sale and putting the
    quantities back, and the read-only queries behind the dashboard. */
module Sales {
  import opened Wrappers
  import opened Seqs
  import opened Core

  /** calculateTotal is the left fold `Subtotal`; read from the front it is the
      same sum. */
  function SumFromFront(cart: seq<CartItem>): int
  {
    if cart == [] then 0 else cart[0].LineTotal() + SumFromFront(cart[1..])
  }

  lemma {:induction false} SubtotalIsSum(cart: seq<CartItem>)
    ensures Subtotal(cart) == SumFromFront(cart)
  {
    if cart != [] {
      SubtotalIsSum(cart[1..]);
      SubtotalAppend([cart[0]], cart[1..]);
      assert [cart[0]] + cart[1..] == cart;
      assert [cart[0]][..0] == [];
    }
  }

  /** The recorded total: the subtotal, scaled down by a percentage, or reduced by
      a fixed amount given in currency units (hence the factor 100 on cents). */
  function ApplyDiscount(subtotal: int, discount: Option<Discount>): real
  {
    match discount
    case None => subtotal as real
    case Some(Discount(Percent, v)) => subtotal as real * (1.0 - v / 100.0)
    case Some(Discount(Fixed, v)) => subtotal as real - v * 100.0
  }

  /** With no discount the recorded total is the subtotal. */
  lemma NoDiscountKeepsSubtotal(cart: seq<CartItem>)
    ensures ApplyDiscount(Subtotal(cart), None) == Subtotal(cart) as real
  {
  }

  /** A percentage between 0 and 100 keeps a non-negative total between 0 and the
      subtotal. */
  lemma PercentWithinSubtotal(subtotal: int, v: real)
    requires subtotal >= 0 && 0.0 <= v <= 100.0
    ensures var r := ApplyDiscount(subtotal, Some(Discount(Percent, v)));
      0.0 <= r <= subtotal as real
  {
    var t, f := subtotal as real, 1.0 - v / 100.0;
    assert 0.0 <= f <= 1.0;
    RealMulNonNegative(t, f);
    RealMulNonNegative(t, 1.0 - f);
    assert t * (1.0 - f) == t - t * f;
  }

  lemma RealMulNonNegative(a: real, b: real)
    requires a >= 0.0 && b >= 0.0
    ensures a * b >= 0.0
  {
  }

  /** The percentage is not range-checked: above 100 the total turns negative. */
  lemma PercentAboveHundredIsNegative(subtotal: int, v: real)
    requires subtotal > 0 && v > 100.0
    ensures ApplyDiscount(subtotal, Some(Discount(Percent, v))) < 0.0
  {
    var t, f := subtotal as real, 1.0 - v / 100.0;
    assert f < 0.0;
    assert t * f < 0.0;
  }

  /** A fixed discount has no floor at zero: the total goes negative as soon as the
      discount exceeds the subtotal. */
  lemma FixedHasNoFloor(subtotal: int, v: real)
    ensures ApplyDiscount(subtotal, Some(Discount(Fixed, v))) < 0.0 <==> v * 100.0 > subtotal as real
  {
  }

  /** The `UPDATE products SET stock = stock + sign * quantity WHERE id = ?`
      statements of one transaction, run line by line on a working copy. */
  method RunStockUpdates(ps: seq<Product>, lines: seq<CartItem>, sign: int) returns (r: seq<Product>)
    ensures r == StockMoved(ps, lines, sign)
  {
    r := ps;
    for i := 0 to |lines|
      invariant r == StockMoved(ps, lines[..i], sign)
    {
      assert lines[..i + 1][..i] == lines[..i];
      r := WithStockAdjusted(r, lines[i].Id(), sign * lines[i].quantity);
    }
    assert lines[..|lines|] == lines;
  }

  /** createSale: one transaction that inserts the sale, COMPLETED, with the cart
      as its item snapshot, and takes every line's quantity out of stock. The
      cart is not checked: an empty cart records a sale of 0, stock may go below
      zero, and a line whose product is gone changes nothing. Returns the new
      sale's id, read from the insert's lastInsertRowid. */
  method CreateSale(db: Database, cart: seq<CartItem>, discount: Option<Discount>, now: int) returns (saleId: int)
    requires db.Valid()
    modifies db
    ensures db.Valid()
    ensures saleId == old(db.lastSaleId) + 1 && db.lastSaleId == saleId
    ensures forall s :: s in old(db.sales) ==> s.id < saleId
    ensures db.sales == old(db.sales) + [Sale(saleId, ApplyDiscount(Subtotal(cart), discount), cart, discount, Completed, now)]
    ensures db.products == StockMoved(old(db.products), cart, -1)
    ensures db.lastProductId == old(db.lastProductId)
  {
    var total := Subtotal(cart);
    var finalTotal := total as real;
    if discount.Some? {
      if discount.value.kind == Percent {
        finalTotal := total as real * (1.0 - discount.value.value / 100.0);
      } else {
        finalTotal := total as real - discount.value.value * 100.0;
      }
    }
    assert finalTotal == ApplyDiscount(total, discount);
    var id := db.lastSaleId + 1;
    var sale := Sale(id, finalTotal, cart, discount, Completed, now);
    assert SaleTable(db.sales + [sale], id);
    var ps := RunStockUpdates(db.products, cart, -1);
    StockMovedKeepsTable(db.products, cart, -1, db.lastProductId);
    db.sales, db.lastSaleId, db.products := db.sales + [sale], id, ps;
    var res := RunResult(1, id);
    saleId := SaleIdOf(res).value;
  }

  /** voidSaleTransaction: an unknown id fails with 'Order not found', a voided
      sale with 'Order is already voided', and both leave the database as it was.
      Otherwise the sale's status becomes VOID and every snapshot line's quantity
      goes back into stock. */
  method VoidSale(db: Database, saleId: int) returns (r: Result<bool, DbError>)
    requires db.Valid()
    modifies db
    ensures db.Valid()
    ensures db.lastSaleId == old(db.lastSaleId) && db.lastProductId == old(db.lastProductId)
    ensures var at := IndexWhere(old(db.sales), (s: Sale) => s.id == saleId);
      if at.None? then
        r == Failure(OrderNotFound) && db.sales == old(db.sales) && db.products == old(db.products)
      else if old(db.sales)[at.value].status == Void then
        r == Failure(AlreadyVoided) && db.sales == old(db.sales) && db.products == old(db.products)
      else
        var sale := old(db.sales)[at.value];
        && r == Success(true)
        && db.sales == old(db.sales)[at.value := sale.(status := Void)]
        && db.products == StockMoved(old(db.products), sale.items, 1)
  {
    var at := IndexWhere(db.sales, (s: Sale) => s.id == saleId);
    if at.None? {
      return Failure(OrderNotFound);
    }
    var sale := db.sales[at.value];
    if sale.status == Void {
      return Failure(AlreadyVoided);
    }
    var ss := db.sales[at.value := sale.(status := Void)];
    var ps := RunStockUpdates(db.products, sale.items, 1);
    StockMovedKeepsTable(db.products, sale.items, 1, db.lastProductId);
    assert forall k :: 0 <= k < |ss| ==> ss[k].id == db.sales[k].id;
    db.sales, db.products := ss, ps;
    r := Success(true);
  }

  /** In a table with ascending ids, the row with the largest id is the last one. */
  lemma {:induction false} LastRowFound(ss: seq<Sale>)
    requires ss != [] && SaleIdsAscending(ss)
    ensures IndexWhere(ss, (s: Sale) => s.id == ss[|ss| - 1].id) == Some(|ss| - 1)
  {
  }

  /** Recording a sale and voiding it at once gives every product its stock back,
      and voiding it a second time fails. */
  method CreateThenVoid(db: Database, cart: seq<CartItem>, discount: Option<Discount>, now: int)
    returns (saleId: int, first: Result<bool, DbError>, second: Result<bool, DbError>)
    requires db.Valid()
    modifies db
    ensures db.Valid()
    ensures first == Success(true) && second == Failure(AlreadyVoided)
    ensures db.products == old(db.products)
    ensures |db.sales| == |old(db.sales)| + 1 && db.sales[|db.sales| - 1].id == saleId
    ensures db.sales[|db.sales| - 1].status == Void
  {
    saleId := CreateSale(db, cart, discount, now);
    ghost var afterSale := db.sales;
    ghost var afterStock := db.products;
    LastRowFound(db.sales);
    first := VoidSale(db, saleId);
    StockRoundTrip(old(db.products), cart);
    assert db.products == old(db.products);
    LastRowFound(db.sales);
    second := VoidSale(db, saleId);
  }

  /** A product that no statement touched between the sale and its void, and that
      still exists, is back at the stock it had before the sale. */
  lemma {:induction false} VoidRestoresSurvivor(before: seq<Product>, cart: seq<CartItem>, between: seq<Product>, k: nat, j: nat)
    requires k < |before| && j < |between|
    requires between[j] == StockMoved(before, cart, -1)[k]
    ensures StockMoved(between, cart, 1)[j] == before[k]
  {
    var mid := StockMoved(before, cart, -1);
    assert mid[k].id == before[k].id;
    assert between[j].stock == before[k].stock - QtyFor(cart, before[k].id);
  }

  /** A sale counts towards today's figures when it was created on the given local
      day and is not voided. */
  predicate CountsToday(s: Sale, today: int, localDay: int -> int)
  {
    localDay(s.createdAt) == today && s.status != Void
  }

  function TodaySales(sales: seq<Sale>, today: int, localDay: int -> int): seq<Sale>
  {
    Filter(sales, (s: Sale) => CountsToday(s, today, localDay))
  }

  function SumTotals(ss: seq<Sale>): real
  {
    if ss == [] then 0.0 else ss[0].total + SumTotals(ss[1..])
  }

  /** The row of the aggregate query: SUM(total_price), which is NULL over no rows,
      and COUNT(*). */
  datatype Aggregate = Aggregate(sum: Option<real>, count: nat)

  /** One pass over the table computing SUM and COUNT under the WHERE clause. */
  function AggregateToday(sales: seq<Sale>, today: int, localDay: int -> int): (r: Aggregate)
    ensures r.count == |TodaySales(sales, today, localDay)|
    ensures r.sum.None? <==> r.count == 0
    ensures r.sum.GetOr(0.0) == SumTotals(TodaySales(sales, today, localDay))
  {
    if sales == [] then Aggregate(None, 0)
    else
      var rest := AggregateToday(sales[1..], today, localDay);
      if CountsToday(sales[0], today, localDay) then
        assert TodaySales(sales, today, localDay) == [sales[0]] + TodaySales(sales[1..], today, localDay);
        Aggregate(Some(sales[0].total + rest.sum.GetOr(0.0)), rest.count + 1)
      else rest
  }

  datatype TodayStats = TodayStats(totalRevenue: real, totalOrders: int)

  /** fetchTodayStats: revenue and number of today's sales that are not voided;
      `|| 0` turns the NULL sum of no rows into 0. */
  function FetchTodayStats(sales: seq<Sale>, today: int, localDay: int -> int): (r: TodayStats)
    ensures r.totalOrders == |TodaySales(sales, today, localDay)|
    ensures r.totalRevenue == SumTotals(TodaySales(sales, today, localDay))
    ensures r.totalOrders == 0 ==> r.totalRevenue == 0.0
  {
    var row := AggregateToday(sales, today, localDay);
    TodayStats(row.sum.GetOr(0.0), row.count)
  }

  /** Voiding one of today's counted sales takes its total off today's revenue and
      one off today's orders. */
  lemma {:induction false} VoidLowersTodayStats(sales: seq<Sale>, i: nat, today: int, localDay: int -> int)
    requires i < |sales| && CountsToday(sales[i], today, localDay)
    ensures var before := FetchTodayStats(sales, today, localDay);
      var after := FetchTodayStats(sales[i := sales[i].(status := Void)], today, localDay);
      && after.totalOrders == before.totalOrders - 1
      && after.totalRevenue == before.totalRevenue - sales[i].total
  {
    var after := sales[i := sales[i].(status := Void)];
    var keep := (s: Sale) => CountsToday(s, today, localDay);
    if i == 0 {
      assert sales == [sales[0]] + sales[1..] && after == [after[0]] + sales[1..];
      assert TodaySales(sales, today, localDay) == [sales[0]] + TodaySales(sales[1..], today, localDay);
      assert TodaySales(after, today, localDay) == TodaySales(sales[1..], today, localDay);
    } else {
      VoidLowersTodayStats(sales[1..], i - 1, today, localDay);
      assert after[1..] == sales[1..][i - 1 := sales[i].(status := Void)];
      assert after[0] == sales[0];
      if keep(sales[0]) {
        assert TodaySales(sales, today, localDay) == [sales[0]] + TodaySales(sales[1..], today, localDay);
        assert TodaySales(after, today, localDay) == [sales[0]] + TodaySales(after[1..], today, localDay);
      } else {
        assert TodaySales(sales, today, localDay) == TodaySales(sales[1..], today, localDay);
        assert TodaySales(after, today, localDay) == TodaySales(after[1..], today, localDay);
      }
    }
  }

  ghost predicate SaleIdsDescending(ss: seq<Sale>)
  {
    forall i, j :: 0 <= i < j < |ss| ==> ss[i].id > ss[j].id
  }

  /** getAllSales: every sale, newest (largest id) first, voided ones included. */
  function GetAllSales(sales: seq<Sale>): (r: seq<Sale>)
    requires SaleIdsAscending(sales)
    ensures |r| == |sales| && multiset(r) == multiset(sales)
    ensures SaleIdsDescending(r)
  {
    Reverse(sales)
  }

  /** fetchRecentSales: the first `limit` sales of the newest-first listing. */
  function FetchRecentSales(sales: seq<Sale>, limit: int): (r: seq<Sale>)
    requires SaleIdsAscending(sales)
    ensures r <= GetAllSales(sales)
    ensures limit >= 0 ==> |r| == if limit < |sales| then limit else |sales|
    ensures limit < 0 ==> r == GetAllSales(sales)
  {
    Take(GetAllSales(sales), limit)
  }

  /** getSalesAnalytics: today's figures and the ten most recent sales. */
  function GetSalesAnalytics(sales: seq<Sale>, today: int, localDay: int -> int): (r: AnalyticsData)
    requires SaleIdsAscending(sales)
    ensures r.todayOrders == |TodaySales(sales, today, localDay)|
    ensures r.todayRevenue == SumTotals(TodaySales(sales, today, localDay))
    ensures r.recentSales <= GetAllSales(sales)
    ensures |r.recentSales| == if |sales| < 10 then |sales| else 10
  {
    var stats := FetchTodayStats(sales, today, localDay);
    AnalyticsData(stats.totalRevenue, stats.totalOrders, FetchRecentSales(sales, 10))
  }

  /** What better-sqlite3's `run` returns: the number of rows changed and the rowid
      of the last row inserted. */
  datatype RunResult = RunResult(changes: int, lastInsertRowid: int)

  /** Reading a property of the object `run` returns; any other name is undefined. */
  function Property(res: RunResult, name: string): Option<int>
  {
    if name == "changes" then Some(res.changes)
    else if name == "lastInsertRowid" then Some(res.lastInsertRowid)
    else None
  }

  /** The sale id createSale hands back as written: `res.id`. */
  function SaleIdAsWritten(res: RunResult): Option<int>
  {
    Property(res, "id")
  }

  /** The sale id as the product store reads it: `lastInsertRowid`. */
  function SaleIdOf(res: RunResult): Option<int>
  {
    Property(res, "lastInsertRowid")
  }

  /** As written, the returned sale id is undefined whatever the insert did. */
  lemma SaleIdAsWrittenIsUndefined(res: RunResult)
    ensures SaleIdAsWritten(res) == None
    ensures SaleIdAsWritten(res) != SaleIdOf(res)
  {
  }
}
