/** The dashboard (src/renderer/src/components/Dashboard.tsx): the CSV export of
    the whole ledger, one row per sold line, and the figures it shows again
    right after a void without asking the server. */
module Dashboard {
  import opened Wrappers
  import opened Seqs
  import opened Text
  import opened Core
  import opened Sales

  /** The column titles of the export. */
  const HeaderFields: seq<string> := ["Order ID", "Date", "Time", "Product Name", "Quantity", "Unit Price", "Line Total"]

  /** The first line of the file. */
  const CsvHeader: string := Join(HeaderFields, ',') + "\n"

  /** One exported row: a line of a sale's item snapshot, with its sale. */
  datatype Record = Record(sale: Sale, item: CartItem)

  function Quote(s: string): string
  {
    "\"" + s + "\""
  }

  /** The seven fields of a row. The date and time are the sale's creation time
      as the locale prints them (`dateOf`, `timeOf`); the name is quoted but not
      escaped; the amounts are cents shown with two decimals. */
  function RowFields(r: Record, dateOf: int -> string, timeOf: int -> string): seq<string>
  {
    [ IntToString(r.sale.id), Quote(dateOf(r.sale.createdAt)), Quote(timeOf(r.sale.createdAt)),
      Quote(r.item.Name()), IntToString(r.item.quantity), Money(r.item.Price()), Money(r.item.LineTotal()) ]
  }

  function Row(r: Record, dateOf: int -> string, timeOf: int -> string): string
  {
    Join(RowFields(r, dateOf, timeOf), ',') + "\n"
  }

  /** The rows of one sale, in snapshot order. */
  function SaleRecords(s: Sale): (rs: seq<Record>)
    ensures |rs| == |s.items|
    ensures forall k :: 0 <= k < |rs| ==> rs[k] == Record(s, s.items[k])
  {
    seq(|s.items|, k requires 0 <= k < |s.items| => Record(s, s.items[k]))
  }

  /** The rows of the ledger: sales in the order received, each sale's lines in
      snapshot order. Voided sales are not left out. */
  function Records(sales: seq<Sale>): seq<Record>
  {
    if sales == [] then [] else Records(sales[..|sales| - 1]) + SaleRecords(sales[|sales| - 1])
  }

  /** The row printer for one locale. */
  function RowOf(dateOf: int -> string, timeOf: int -> string): Record -> string
  {
    (r: Record) => Row(r, dateOf, timeOf)
  }

  /** The rows printed one after the other. */
  function Lines(rs: seq<Record>, row: Record -> string): string
  {
    if rs == [] then "" else Lines(rs[..|rs| - 1], row) + row(rs[|rs| - 1])
  }

  function CsvText(sales: seq<Sale>, dateOf: int -> string, timeOf: int -> string): string
  {
    CsvHeader + Lines(Records(sales), RowOf(dateOf, timeOf))
  }

  lemma LinesSnoc(rs: seq<Record>, r: Record, row: Record -> string)
    ensures Lines(rs + [r], row) == Lines(rs, row) + row(r)
  {
    assert (rs + [r])[..|rs|] == rs;
  }

  lemma RecordsSnoc(sales: seq<Sale>, i: nat)
    requires i < |sales|
    ensures Records(sales[..i + 1]) == Records(sales[..i]) + SaleRecords(sales[i])
  {
    assert sales[..i + 1][..i] == sales[..i];
  }

  /** handleExport after the listing arrived: the header, then one row per line
      of every sale, appended as the two nested forEach loops do. */
  method ExportCsv(sales: seq<Sale>, dateOf: int -> string, timeOf: int -> string) returns (csv: string)
    ensures csv == CsvText(sales, dateOf, timeOf)
  {
    csv := CsvHeader;
    for i := 0 to |sales|
      invariant csv == CsvHeader + Lines(Records(sales[..i]), RowOf(dateOf, timeOf))
    {
      csv := AppendSaleRows(csv, sales[i], CsvHeader, Records(sales[..i]), RowOf(dateOf, timeOf));
      RecordsSnoc(sales, i);
    }
    assert sales[..|sales|] == sales;
  }

  /** The inner loop of the export: one row per line of `sale`, printed by `row`. */
  method AppendSaleRows(csv: string, sale: Sale, ghost head: string, ghost done: seq<Record>, row: Record -> string)
    returns (out: string)
    requires csv == head + Lines(done, row)
    ensures out == head + Lines(done + SaleRecords(sale), row)
  {
    out := csv;
    assert done + SaleRecords(sale)[..0] == done;
    for j := 0 to |sale.items|
      invariant out == head + Lines(done + SaleRecords(sale)[..j], row)
    {
      var line := row(Record(sale, sale.items[j]));
      NextRow(done, sale, j, row);
      assert (head + Lines(done + SaleRecords(sale)[..j], row)) + line
        == head + (Lines(done + SaleRecords(sale)[..j], row) + line);
      out := out + line;
    }
    assert SaleRecords(sale)[..|sale.items|] == SaleRecords(sale);
  }

  lemma NextRow(done: seq<Record>, sale: Sale, j: nat, row: Record -> string)
    requires j < |sale.items|
    ensures Lines(done + SaleRecords(sale)[..j + 1], row) == Lines(done + SaleRecords(sale)[..j], row) + row(Record(sale, sale.items[j]))
  {
    var recs := SaleRecords(sale);
    assert done + recs[..j + 1] == (done + recs[..j]) + [recs[j]];
    LinesSnoc(done + recs[..j], recs[j], row);
  }

  /** The number of sold lines in the ledger. */
  function ItemCount(sales: seq<Sale>): nat
  {
    if sales == [] then 0 else ItemCount(sales[..|sales| - 1]) + |sales[|sales| - 1].items|
  }

  /** There is exactly one row per sold line. */
  lemma {:induction false} OneRecordPerItem(sales: seq<Sale>)
    ensures |Records(sales)| == ItemCount(sales)
  {
    if sales != [] {
      OneRecordPerItem(sales[..|sales| - 1]);
    }
  }

  /** Row ItemCount(sales[..i]) + j is line j of sale i. */
  lemma {:induction false} RecordAt(sales: seq<Sale>, i: nat, j: nat)
    requires i < |sales| && j < |sales[i].items|
    ensures |Records(sales)| == ItemCount(sales) && ItemCount(sales[..i]) + j < ItemCount(sales)
    ensures Records(sales)[ItemCount(sales[..i]) + j] == Record(sales[i], sales[i].items[j])
  {
    OneRecordPerItem(sales);
    OneRecordPerItem(sales[..i]);
    var n := |sales| - 1;
    assert sales[..n][..i] == sales[..i] by {
      if i < n {
      }
    }
    if i == n {
      assert sales[..n] == sales[..i];
    } else {
      RecordAt(sales[..n], i, j);
      assert sales[..n][i] == sales[i];
      OneRecordPerItem(sales[..n]);
    }
  }

  /** Marking a sale void changes no row: voided sales are exported like any
      other. */
  lemma ExportIgnoresStatus(sales: seq<Sale>, i: nat, dateOf: int -> string, timeOf: int -> string)
    requires i < |sales|
    ensures CsvText(sales[i := sales[i].(status := Void)], dateOf, timeOf) == CsvText(sales, dateOf, timeOf)
  {
    var voided := sales[i := sales[i].(status := Void)];
    var row := RowOf(dateOf, timeOf);
    RecordsIgnoreStatusAt(sales, voided, 0);
    forall k | 0 <= k < |Records(sales)| ensures row(Records(voided)[k]) == row(Records(sales)[k]) {
      RecordsIgnoreStatusAt(sales, voided, k);
      SameRowPrintsSame(Records(voided)[k], Records(sales)[k], dateOf, timeOf);
    }
    LinesAgree(Records(voided), Records(sales), row);
  }

  lemma {:induction false} RecordsIgnoreStatusAt(sales: seq<Sale>, voided: seq<Sale>, k: nat)
    requires |voided| == |sales|
    requires forall m :: 0 <= m < |sales| ==> voided[m] == sales[m] || voided[m] == sales[m].(status := Void)
    ensures |Records(voided)| == |Records(sales)|
    ensures k < |Records(sales)| ==> SameRow(Records(voided)[k], Records(sales)[k])
  {
    if sales != [] {
      var n := |sales| - 1;
      RecordsIgnoreStatusAt(sales[..n], voided[..n], k);
      var a, b := Records(sales[..n]), Records(voided[..n]);
      if k >= |a| && k < |Records(sales)| {
        assert Records(sales)[k] == SaleRecords(sales[n])[k - |a|];
        assert Records(voided)[k] == SaleRecords(voided[n])[k - |a|];
      }
    }
  }

  /** Two records that print the same: same sale apart from its status, same line. */
  predicate SameRow(a: Record, b: Record)
  {
    a.item == b.item && a.sale.(status := Completed) == b.sale.(status := Completed)
  }

  lemma SameRowPrintsSame(a: Record, b: Record, dateOf: int -> string, timeOf: int -> string)
    requires SameRow(a, b)
    ensures Row(a, dateOf, timeOf) == Row(b, dateOf, timeOf)
  {
    assert a.sale.id == b.sale.id && a.sale.createdAt == b.sale.createdAt;
    assert RowFields(a, dateOf, timeOf) == RowFields(b, dateOf, timeOf);
  }

  /** Records printed alike one by one print alike together. */
  lemma {:induction false} LinesAgree(xs: seq<Record>, ys: seq<Record>, row: Record -> string)
    requires |xs| == |ys|
    requires forall k :: 0 <= k < |ys| ==> row(xs[k]) == row(ys[k])
    ensures Lines(xs, row) == Lines(ys, row)
  {
    if ys != [] {
      var n := |ys| - 1;
      LinesAgree(xs[..n], ys[..n], row);
    }
  }

  lemma NoCommaInDigits(s: string)
    requires AllDigits(s)
    ensures ',' !in s && '\n' !in s
  {
    assert forall c :: c in s ==> IsDigit(c);
  }

  lemma NoCommaInNumber(n: int)
    ensures ',' !in IntToString(n) && '\n' !in IntToString(n)
  {
    NoCommaInDigits(NatToString(if n < 0 then -n else n));
  }

  lemma NoCommaInMoney(c: int)
    ensures ',' !in Money(c) && '\n' !in Money(c)
  {
    var m := if c < 0 then -c else c;
    NoCommaInDigits(NatToString(m / 100));
    var cents := m % 100;
    NoCommaInDigits([DigitChar(cents / 10), DigitChar(cents % 10)]);
  }

  /** When the date, time and name texts hold no comma, splitting a row on commas
      gives back its seven fields. */
  lemma RowHasSevenFields(r: Record, dateOf: int -> string, timeOf: int -> string)
    requires ',' !in dateOf(r.sale.createdAt) && ',' !in timeOf(r.sale.createdAt) && ',' !in r.item.Name()
    ensures |RowFields(r, dateOf, timeOf)| == 7
    ensures Split(Join(RowFields(r, dateOf, timeOf), ','), ',') == RowFields(r, dateOf, timeOf)
  {
    var fs := RowFields(r, dateOf, timeOf);
    NoCommaInNumber(r.sale.id);
    NoCommaInNumber(r.item.quantity);
    NoCommaInMoney(r.item.Price());
    NoCommaInMoney(r.item.LineTotal());
    forall k | 0 <= k < |fs| ensures ',' !in fs[k] {
    }
    SplitJoin(fs, ',');
  }

  /** The last two fields read back as the unit price and as price times
      quantity, in cents. */
  lemma AmountsReadBack(r: Record, dateOf: int -> string, timeOf: int -> string)
    ensures ParseMoney(RowFields(r, dateOf, timeOf)[5]) == Some(r.item.Price())
    ensures ParseMoney(RowFields(r, dateOf, timeOf)[6]) == Some(r.item.Price() * r.item.quantity)
  {
    MoneyRoundTrip(r.item.Price());
    MoneyRoundTrip(r.item.LineTotal());
  }

  /** No line break in a record's date, time and name texts. */
  predicate OneLine(r: Record, dateOf: int -> string, timeOf: int -> string)
  {
    '\n' !in dateOf(r.sale.createdAt) && '\n' !in timeOf(r.sale.createdAt) && '\n' !in r.item.Name()
  }

  /** Without line breaks in the date, time and name texts, the export has one
      line for the header and one per sold line. */
  lemma LineCount(sales: seq<Sale>, dateOf: int -> string, timeOf: int -> string)
    requires forall k :: 0 <= k < |Records(sales)| ==> OneLine(Records(sales)[k], dateOf, timeOf)
    ensures Occurrences(CsvText(sales, dateOf, timeOf), '\n') == 1 + |Records(sales)|
  {
    var rs, row := Records(sales), RowOf(dateOf, timeOf);
    OccurrencesAppend(CsvHeader, Lines(rs, row), '\n');
    HeaderHasOneBreak();
    forall k | 0 <= k < |rs| ensures Occurrences(row(rs[k]), '\n') == 1 {
      RowHasOneBreak(rs[k], dateOf, timeOf);
    }
    LinesBreaks(rs, row);
  }

  lemma HeaderHasOneBreak()
    ensures Occurrences(CsvHeader, '\n') == 1
  {
    JoinWithoutBreak(HeaderFields);
    EndsWithOneBreak(Join(HeaderFields, ','));
  }

  lemma EndsWithOneBreak(s: string)
    requires '\n' !in s
    ensures Occurrences(s + "\n", '\n') == 1
  {
    OccurrencesAbsent(s, '\n');
    OccurrencesAppend(s, "\n", '\n');
    assert "\n"[..0] == "";
  }

  lemma RowHasOneBreak(r: Record, dateOf: int -> string, timeOf: int -> string)
    requires OneLine(r, dateOf, timeOf)
    ensures Occurrences(Row(r, dateOf, timeOf), '\n') == 1
  {
    var fs := RowFields(r, dateOf, timeOf);
    NoCommaInNumber(r.sale.id);
    NoCommaInNumber(r.item.quantity);
    NoCommaInMoney(r.item.Price());
    NoCommaInMoney(r.item.LineTotal());
    JoinWithoutBreak(fs);
    EndsWithOneBreak(Join(fs, ','));
  }

  /** Rows of one line each make as many lines as there are rows. */
  lemma {:induction false} LinesBreaks(rs: seq<Record>, row: Record -> string)
    requires forall k :: 0 <= k < |rs| ==> Occurrences(row(rs[k]), '\n') == 1
    ensures Occurrences(Lines(rs, row), '\n') == |rs|
  {
    if rs != [] {
      var n := |rs| - 1;
      LinesBreaks(rs[..n], row);
      OccurrencesAppend(Lines(rs[..n], row), row(rs[n]), '\n');
    }
  }

  lemma {:induction false} JoinWithoutBreak(xs: seq<string>)
    requires forall k :: 0 <= k < |xs| ==> '\n' !in xs[k]
    ensures '\n' !in Join(xs, ',')
  {
    if |xs| > 1 {
      JoinWithoutBreak(xs[1..]);
    }
  }

  /** Position of the first sale with id `saleId`, as `recentSales.find` looks for it. */
  function FindSale(ss: seq<Sale>, saleId: int): Option<nat>
  {
    IndexWhere(ss, (s: Sale) => s.id == saleId)
  }

  /** The recent sales with every sale of id `saleId` marked VOID. */
  function MarkVoid(ss: seq<Sale>, saleId: int): (r: seq<Sale>)
    ensures |r| == |ss|
  {
    seq(|ss|, k requires 0 <= k < |ss| => if ss[k].id == saleId then ss[k].(status := Void) else ss[k])
  }

  /** Only the sales with that id change, and only their status. */
  lemma MarkVoidAt(ss: seq<Sale>, saleId: int)
    ensures forall k :: 0 <= k < |ss| ==>
      MarkVoid(ss, saleId)[k] == if ss[k].id == saleId then ss[k].(status := Void) else ss[k]
  {
  }

  /** How `window.api.voidSale` came back: a success reply, a failure reply (its
      error is only shown in an alert), or a rejected promise. */
  datatype VoidReply = VoidDone | VoidRefused(error: string) | VoidThrew

  /** handleVoid after the confirmation. A rejected call leaves the handler before
      `setData`, so the screen stays as it was. Otherwise, with the data loaded and
      the sale among the recent ones, its total comes off today's revenue, one
      comes off today's orders and it shows as VOID, whether the reply was a
      success or a failure. The sale's date and its previous status are not looked
      at. */
  function AfterVoid(data: Option<AnalyticsData>, saleId: int, reply: VoidReply): (r: Option<AnalyticsData>)
    ensures reply.VoidThrew? || data.None? ==> r == data
    ensures !reply.VoidThrew? && data.Some? ==> match FindSale(data.value.recentSales, saleId)
      case None => r == data
      case Some(k) =>
        var d := data.value;
        r == Some(AnalyticsData(d.todayRevenue - d.recentSales[k].total, d.todayOrders - 1, MarkVoid(d.recentSales, saleId)))
  {
    if reply.VoidThrew? then data
    else
      match data
      case None => None
      case Some(d) =>
        match FindSale(d.recentSales, saleId)
        case None => data
        case Some(k) =>
          var voided := d.recentSales[k];
          Some(AnalyticsData(d.todayRevenue - voided.total, d.todayOrders - 1, MarkVoid(d.recentSales, saleId)))
  }

  /** The list keeps its length, its order and every other sale; the voided sale
      shows VOID unless the call threw, which leaves the list as it was. */
  lemma AfterVoidKeepsOthers(d: AnalyticsData, saleId: int, reply: VoidReply)
    requires FindSale(d.recentSales, saleId).Some?
    ensures var r := AfterVoid(Some(d), saleId, reply).value.recentSales;
      && |r| == |d.recentSales|
      && (forall k :: 0 <= k < |r| && d.recentSales[k].id != saleId ==> r[k] == d.recentSales[k])
      && (reply.VoidThrew? ==> r == d.recentSales)
      && (!reply.VoidThrew? ==> forall k :: 0 <= k < |r| && d.recentSales[k].id == saleId ==> r[k].status == Void)
  {
    MarkVoidAt(d.recentSales, saleId);
  }

  /** Voiding keeps the ledger in id order. */
  lemma VoidKeepsIdsAscending(sales: seq<Sale>, i: nat)
    requires SaleIdsAscending(sales) && i < |sales|
    ensures SaleIdsAscending(sales[i := sales[i].(status := Void)])
  {
    var after := sales[i := sales[i].(status := Void)];
    assert forall a :: 0 <= a < |after| ==> after[a].id == sales[a].id;
  }

  /** Sale i of the ledger sits at position |sales| - 1 - i of the ten most recent
      sales when it is among them, and no sale before it there has its id. */
  lemma RecentHoldsSale(sales: seq<Sale>, i: nat)
    requires SaleIdsAscending(sales) && i < |sales| && |sales| - 1 - i < 10
    ensures var recent, k := FetchRecentSales(sales, 10), |sales| - 1 - i;
      && k < |recent| && recent[k] == sales[i]
      && FindSale(recent, sales[i].id) == Some(k)
  {
    var recent, k := FetchRecentSales(sales, 10), |sales| - 1 - i;
    RecentAt(sales, k);
    forall m | 0 <= m < k ensures recent[m].id != sales[i].id {
      RecentAt(sales, m);
    }
    IndexWhereAt(recent, (s: Sale) => s.id == sales[i].id, k);
  }

  /** The m-th of the ten most recent sales is the m-th from the end of the table. */
  lemma RecentAt(sales: seq<Sale>, m: nat)
    requires SaleIdsAscending(sales) && m < |sales| && m < 10
    ensures m < |FetchRecentSales(sales, 10)|
    ensures FetchRecentSales(sales, 10)[m] == sales[|sales| - 1 - m]
  {
    assert GetAllSales(sales) == Reverse(sales);
  }

  /** Marking the sale void in the list the dashboard holds gives the list the
      server returns after the void. */
  lemma RecentAfterVoid(sales: seq<Sale>, i: nat)
    requires SaleIdsAscending(sales) && i < |sales|
    ensures SaleIdsAscending(sales[i := sales[i].(status := Void)])
    ensures MarkVoid(FetchRecentSales(sales, 10), sales[i].id) == FetchRecentSales(sales[i := sales[i].(status := Void)], 10)
  {
    var after := sales[i := sales[i].(status := Void)];
    VoidKeepsIdsAscending(sales, i);
    var recent, now := FetchRecentSales(sales, 10), FetchRecentSales(after, 10);
    var marked := MarkVoid(recent, sales[i].id);
    MarkVoidAt(recent, sales[i].id);
    forall m | 0 <= m < |recent| ensures marked[m] == now[m] {
      var n := |sales| - 1 - m;
      assert recent[m] == sales[n] && now[m] == after[n];
      assert n != i ==> sales[n].id != sales[i].id;
    }
  }

  /** Voiding one of today's counted sales among the ten most recent: the figures
      the dashboard computes on its own are those the server would now report. */
  lemma OptimisticVoidMatchesServer(sales: seq<Sale>, i: nat, today: int, localDay: int -> int)
    requires SaleIdsAscending(sales) && i < |sales| && |sales| - 1 - i < 10
    requires CountsToday(sales[i], today, localDay)
    ensures SaleIdsAscending(sales[i := sales[i].(status := Void)])
    ensures AfterVoid(Some(GetSalesAnalytics(sales, today, localDay)), sales[i].id, VoidDone)
      == Some(GetSalesAnalytics(sales[i := sales[i].(status := Void)], today, localDay))
  {
    var before, after := GetSalesAnalytics(sales, today, localDay), sales[i := sales[i].(status := Void)];
    var id, total, k := sales[i].id, sales[i].total, |sales| - 1 - i;
    DashboardHoldsSale(sales, i, today, localDay);
    assert SaleIdsAscending(after) by {
      VoidKeepsIdsAscending(sales, i);
    }
    var server := GetSalesAnalytics(after, today, localDay);
    assert server == AnalyticsData(before.todayRevenue - total, before.todayOrders - 1, MarkVoid(before.recentSales, id)) by {
      ServerAfterVoid(sales, i, today, localDay);
    }
    AfterVoidFound(before, server, id, k, total);
  }

  /** handleVoid when the sale is at position k of the list. */
  lemma AfterVoidFound(d: AnalyticsData, e: AnalyticsData, saleId: int, k: nat, total: real)
    requires k < |d.recentSales| && d.recentSales[k].id == saleId && d.recentSales[k].total == total
    requires forall m :: 0 <= m < k ==> d.recentSales[m].id != saleId
    requires e == AnalyticsData(d.todayRevenue - total, d.todayOrders - 1, MarkVoid(d.recentSales, saleId))
    ensures AfterVoid(Some(d), saleId, VoidDone) == Some(e)
  {
  }

  /** The dashboard's list holds sale i at position |sales| - 1 - i. */
  lemma DashboardHoldsSale(sales: seq<Sale>, i: nat, today: int, localDay: int -> int)
    requires SaleIdsAscending(sales) && i < |sales| && |sales| - 1 - i < 10
    ensures var recent, k := GetSalesAnalytics(sales, today, localDay).recentSales, |sales| - 1 - i;
      && k < |recent| && recent[k].id == sales[i].id && recent[k].total == sales[i].total
      && forall m :: 0 <= m < k ==> recent[m].id != sales[i].id
  {
    var recent, k := FetchRecentSales(sales, 10), |sales| - 1 - i;
    assert recent[k] == sales[i];
    forall m | 0 <= m < k ensures recent[m].id != sales[i].id {
      assert recent[m] == sales[|sales| - 1 - m];
    }
  }

  /** What the server reports once sale i, one of today's counted sales, is void. */
  lemma ServerAfterVoid(sales: seq<Sale>, i: nat, today: int, localDay: int -> int)
    requires SaleIdsAscending(sales) && i < |sales|
    requires CountsToday(sales[i], today, localDay)
    ensures SaleIdsAscending(sales[i := sales[i].(status := Void)])
    ensures var before := GetSalesAnalytics(sales, today, localDay);
      GetSalesAnalytics(sales[i := sales[i].(status := Void)], today, localDay)
        == AnalyticsData(before.todayRevenue - sales[i].total, before.todayOrders - 1, MarkVoid(before.recentSales, sales[i].id))
  {
    var after := sales[i := sales[i].(status := Void)];
    VoidKeepsIdsAscending(sales, i);
    RecentAfterVoid(sales, i);
    VoidLowersTodayStats(sales, i, today, localDay);
  }

  /** For a sale of another day the dashboard still takes it off today's figures,
      so it then shows one order fewer than the server counts. */
  lemma OptimisticVoidDriftsForOtherDays(sales: seq<Sale>, i: nat, today: int, localDay: int -> int)
    requires SaleIdsAscending(sales) && i < |sales| && |sales| - 1 - i < 10
    requires localDay(sales[i].createdAt) != today
    ensures SaleIdsAscending(sales[i := sales[i].(status := Void)])
    ensures AfterVoid(Some(GetSalesAnalytics(sales, today, localDay)), sales[i].id, VoidDone).value.todayOrders
      == GetSalesAnalytics(sales[i := sales[i].(status := Void)], today, localDay).todayOrders - 1
  {
    VoidKeepsIdsAscending(sales, i);
    SameFilterAfterUpdate(sales, i, sales[i].(status := Void), (s: Sale) => CountsToday(s, today, localDay));
    RecentHoldsSale(sales, i);
  }

  /** Replacing an element the filter rejects by another it rejects leaves the
      filter unchanged. */
  lemma {:induction false} SameFilterAfterUpdate(s: seq<Sale>, i: nat, x: Sale, keep: Sale -> bool)
    requires i < |s| && !keep(s[i]) && !keep(x)
    ensures Filter(s[i := x], keep) == Filter(s, keep)
  {
    var t := s[i := x];
    if i == 0 {
      assert t[1..] == s[1..];
    } else {
      SameFilterAfterUpdate(s[1..], i - 1, x, keep);
      assert t[1..] == s[1..][i - 1 := x];
    }
  }
}
