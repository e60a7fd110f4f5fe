/** The two tables of the point-of-sale database and the handle that owns them
    (src/main/db/core.ts): the products catalogue and the sales ledger, each with
    an AUTOINCREMENT id. Rows are kept in rowid order, that is by ascending id. */
module Core {
  import opened Wrappers

  /** A row of `products`. Prices are whole cents. */
  datatype Product = Product(id: int, name: string, price: int, stock: int, detail: string, barcode: string)

  /** A cart line: the product as it was when it went into the cart, spread into a
      new object together with a quantity. The sale stores these lines as they are. */
  datatype CartItem = CartItem(product: Product, quantity: int)
  {
    function Id(): int { product.id }
    function Name(): string { product.name }
    function Price(): int { product.price }
    function LineTotal(): int { product.price * quantity }
  }

  /** The `status` of a sale: written as 'COMPLETED' and flipped once to 'VOID'. */
  datatype Status = Completed | Void

  datatype DiscountKind = Percent | Fixed

  /** The optional discount argument of createSale; its value is a JavaScript number. */
  datatype Discount = Discount(kind: DiscountKind, value: real)

  /** A row of `sales`. The total is a real number because the percent discount is
      not rounded; `createdAt` is the CURRENT_TIMESTAMP of the insert. */
  datatype Sale = Sale(id: int, total: real, items: seq<CartItem>, discount: Option<Discount>, status: Status, createdAt: int)

  /** What the dashboard receives from getSalesAnalytics and keeps as its state. */
  datatype AnalyticsData = AnalyticsData(todayRevenue: real, todayOrders: int, recentSales: seq<Sale>)

  /** The errors the two stores raise. */
  datatype DbError =
    | UniqueViolation   // UNIQUE constraint failed: products.barcode
    | OrderNotFound     // 'Order not found'
    | AlreadyVoided     // 'Order is already voided'

  /** Sum of price times quantity over the lines, folded from the left from 0. */
  function Subtotal(cart: seq<CartItem>): int
  {
    if cart == [] then 0 else Subtotal(cart[..|cart| - 1]) + cart[|cart| - 1].LineTotal()
  }

  lemma {:induction false} SubtotalAppend(a: seq<CartItem>, b: seq<CartItem>)
    ensures Subtotal(a + b) == Subtotal(a) + Subtotal(b)
    decreases |b|
  {
    if b == [] {
      assert a + b == a;
    } else {
      SubtotalAppend(a, b[..|b| - 1]);
      assert (a + b)[..|a + b| - 1] == a + b[..|b| - 1];
    }
  }

  /** With no negative price and no negative quantity the subtotal is not negative. */
  lemma {:induction false} SubtotalNonNegative(cart: seq<CartItem>)
    requires forall i :: 0 <= i < |cart| ==> cart[i].Price() >= 0 && cart[i].quantity >= 0
    ensures Subtotal(cart) >= 0
  {
    if cart != [] {
      SubtotalNonNegative(cart[..|cart| - 1]);
    }
  }

  /** Total quantity of the lines for product `id` (repeated ids add up). */
  function QtyFor(lines: seq<CartItem>, id: int): int
  {
    if lines == [] then 0
    else QtyFor(lines[..|lines| - 1], id) + (if lines[|lines| - 1].Id() == id then lines[|lines| - 1].quantity else 0)
  }

  lemma {:induction false} QtyForAbsent(lines: seq<CartItem>, id: int)
    requires forall i :: 0 <= i < |lines| ==> lines[i].Id() != id
    ensures QtyFor(lines, id) == 0
  {
    if lines != [] {
      QtyForAbsent(lines[..|lines| - 1], id);
    }
  }

  /** `UPDATE products SET stock = stock + delta WHERE id = id`. */
  function WithStockAdjusted(ps: seq<Product>, id: int, delta: int): (r: seq<Product>)
    ensures |r| == |ps|
    ensures forall i :: 0 <= i < |ps| && ps[i].id != id ==> r[i] == ps[i]
    ensures forall i :: 0 <= i < |ps| && ps[i].id == id ==> r[i] == ps[i].(stock := ps[i].stock + delta)
  {
    if ps == [] then []
    else [if ps[0].id == id then ps[0].(stock := ps[0].stock + delta) else ps[0]] + WithStockAdjusted(ps[1..], id, delta)
  }

  /** The stock statements run for every line, one after the other: each product's
      stock moves by `sign` times the total quantity of its lines. */
  function StockMoved(ps: seq<Product>, lines: seq<CartItem>, sign: int): (r: seq<Product>)
    ensures |r| == |ps|
    ensures forall i :: 0 <= i < |ps| ==> r[i] == ps[i].(stock := ps[i].stock + sign * QtyFor(lines, ps[i].id))
  {
    if lines == [] then ps
    else
      var mid := StockMoved(ps, lines[..|lines| - 1], sign);
      var last := lines[|lines| - 1];
      var r := WithStockAdjusted(mid, last.Id(), sign * last.quantity);
      StockMovedStep(ps, lines, sign, mid, r);
      r
  }

  /** One more stock statement: if `mid` has moved every product by the quantities
      of all lines but the last, then adjusting the last line's product moves every
      product by the quantities of all the lines. */
  lemma StockMovedStep(ps: seq<Product>, lines: seq<CartItem>, sign: int, mid: seq<Product>, r: seq<Product>)
    requires lines != [] && |mid| == |ps|
    requires forall i :: 0 <= i < |ps| ==> mid[i] == ps[i].(stock := ps[i].stock + sign * QtyFor(lines[..|lines| - 1], ps[i].id))
    requires r == WithStockAdjusted(mid, lines[|lines| - 1].Id(), sign * lines[|lines| - 1].quantity)
    ensures |r| == |ps|
    ensures forall i :: 0 <= i < |ps| ==> r[i] == ps[i].(stock := ps[i].stock + sign * QtyFor(lines, ps[i].id))
  {
    var init, last := lines[..|lines| - 1], lines[|lines| - 1];
    forall i | 0 <= i < |ps|
      ensures r[i] == ps[i].(stock := ps[i].stock + sign * QtyFor(lines, ps[i].id))
    {
      var m := mid[i];
      var here := if last.Id() == ps[i].id then last.quantity else 0;
      var total := QtyFor(lines, ps[i].id);
      assert total == QtyFor(init, ps[i].id) + here;
      if last.Id() == ps[i].id {
        assert r[i] == m.(stock := m.stock + sign * last.quantity);
      } else {
        assert r[i] == m;
      }
      AdjustStep(ps[i], m, r[i], sign, QtyFor(init, ps[i].id), here, total);
    }
  }

  /** Two stock moves in a row add up. */
  lemma AdjustStep(p: Product, m: Product, r: Product, sign: int, before: int, here: int, total: int)
    requires m == p.(stock := p.stock + sign * before)
    requires r == m.(stock := m.stock + sign * here)
    requires total == before + here
    ensures r == p.(stock := p.stock + sign * total)
  {
    assert sign * total == sign * before + sign * here;
  }

  /** Taking the lines' quantities out and putting them back restores every product. */
  lemma StockRoundTrip(ps: seq<Product>, lines: seq<CartItem>)
    ensures StockMoved(StockMoved(ps, lines, -1), lines, 1) == ps
  {
    var mid := StockMoved(ps, lines, -1);
    var back := StockMoved(mid, lines, 1);
    forall i | 0 <= i < |ps| ensures back[i] == ps[i] {
      assert mid[i].id == ps[i].id;
    }
  }

  ghost predicate IdsAscending(ps: seq<Product>)
  {
    forall i, j :: 0 <= i < j < |ps| ==> ps[i].id < ps[j].id
  }

  ghost predicate BarcodesUnique(ps: seq<Product>)
  {
    forall i, j :: 0 <= i < j < |ps| ==> ps[i].barcode != ps[j].barcode
  }

  /** The `products` table: rowid order, ids issued by the sequence counter, and
      the UNIQUE constraint on barcode. */
  ghost predicate ProductTable(ps: seq<Product>, lastId: int)
  {
    && IdsAscending(ps)
    && (forall i :: 0 <= i < |ps| ==> 1 <= ps[i].id <= lastId)
    && BarcodesUnique(ps)
  }

  ghost predicate SaleIdsAscending(ss: seq<Sale>)
  {
    forall i, j :: 0 <= i < j < |ss| ==> ss[i].id < ss[j].id
  }

  /** The `sales` table: rowid order and ids issued by the sequence counter. */
  ghost predicate SaleTable(ss: seq<Sale>, lastId: int)
  {
    && SaleIdsAscending(ss)
    && (forall i :: 0 <= i < |ss| ==> 1 <= ss[i].id <= lastId)
  }

  /** Moving stock changes neither ids nor barcodes, so the table stays valid. */
  lemma StockMovedKeepsTable(ps: seq<Product>, lines: seq<CartItem>, sign: int, lastId: int)
    requires ProductTable(ps, lastId)
    ensures ProductTable(StockMoved(ps, lines, sign), lastId)
  {
    var r := StockMoved(ps, lines, sign);
    assert forall i :: 0 <= i < |ps| ==> r[i].id == ps[i].id && r[i].barcode == ps[i].barcode;
  }

  /** Deleting a row keeps the table valid. */
  lemma RemoveKeepsTable(ps: seq<Product>, i: nat, lastId: int)
    requires i < |ps| && ProductTable(ps, lastId)
    ensures ProductTable(ps[..i] + ps[i + 1..], lastId)
  {
    var r := ps[..i] + ps[i + 1..];
    assert forall k :: 0 <= k < |r| ==> r[k] == if k < i then ps[k] else ps[k + 1];
  }

  /** The shared database handle. `lastProductId` and `lastSaleId` are the
      AUTOINCREMENT counters (sqlite_sequence): the largest id ever issued. */
  class Database {
    var products: seq<Product>
    var sales: seq<Sale>
    var lastProductId: int
    var lastSaleId: int

    ghost predicate Valid()
      reads this
    {
      && lastProductId >= 0 && ProductTable(products, lastProductId)
      && lastSaleId >= 0 && SaleTable(sales, lastSaleId)
    }

    /** initDB on an empty file: both tables created empty. */
    constructor()
      ensures Valid()
      ensures products == [] && sales == [] && lastProductId == 0 && lastSaleId == 0
    {
      products, sales := [], [];
      lastProductId, lastSaleId := 0, 0;
    }
  }

  /** The columns of `sales` as core.ts creates the table: there is no `status`. */
  const SalesColumnsAsWritten: set<string> := {"id", "total_price", "items_json", "discount_value", "discount_type", "created_at"}

  /** The columns with the `status` column the queries of sales.ts use. */
  const SalesColumns: set<string> := SalesColumnsAsWritten + {"status"}

  /** The columns createSale's INSERT names. */
  const SaleInsertColumns: seq<string> := ["total_price", "items_json", "discount_value", "discount_type", "status"]

  /** SQLite accepts an INSERT only when every named column exists. */
  predicate InsertAccepted(table: set<string>, columns: seq<string>)
  {
    forall i :: 0 <= i < |columns| ==> columns[i] in table
  }

  /** As written, the sales INSERT names a column the table lacks, so it is rejected. */
  lemma SaleInsertRejectedAsWritten()
    ensures !InsertAccepted(SalesColumnsAsWritten, SaleInsertColumns)
  {
    assert SaleInsertColumns[4] == "status" && "status" !in SalesColumnsAsWritten;
  }

  /** With the status column the INSERT is accepted. */
  lemma SaleInsertAcceptedWithStatus()
    ensures InsertAccepted(SalesColumns, SaleInsertColumns)
  {
  }
}
