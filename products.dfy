/** The catalogue store (src/main/db/products.ts): INSERT, UPDATE and DELETE on
    the `products` table, and the SELECTs that list, search, page and count it. */
module Products {
  import opened Wrappers
  import opened Seqs
  import opened Text
  import opened Core

  /** Some row other than product `id` already holds this barcode. */
  predicate BarcodeHeldByOther(ps: seq<Product>, barcode: string, id: Option<int>)
  {
    exists i | 0 <= i < |ps| :: ps[i].barcode == barcode && Some(ps[i].id) != id
  }

  /** INSERT INTO products: a fresh id above every id issued so far, or the UNIQUE
      constraint on barcode fails and nothing is written. */
  method AddProduct(db: Database, p: Product) returns (r: Result<int, DbError>)
    requires db.Valid()
    modifies db
    ensures db.Valid()
    ensures db.sales == old(db.sales) && db.lastSaleId == old(db.lastSaleId)
    ensures BarcodeHeldByOther(old(db.products), p.barcode, None) ==>
      r == Failure(UniqueViolation) && db.products == old(db.products) && db.lastProductId == old(db.lastProductId)
    ensures !BarcodeHeldByOther(old(db.products), p.barcode, None) ==>
      && r == Success(old(db.lastProductId) + 1)
      && (forall q :: q in old(db.products) ==> q.id < r.value)
      && db.products == old(db.products) + [p.(id := r.value)]
      && db.lastProductId == r.value
  {
    if BarcodeHeldByOther(db.products, p.barcode, None) {
      return Failure(UniqueViolation);
    }
    var id := db.lastProductId + 1;
    db.products, db.lastProductId := db.products + [p.(id := id)], id;
    r := Success(id);
  }

  /** SELECT * FROM products ORDER BY id DESC. */
  function GetAllProducts(ps: seq<Product>): (r: seq<Product>)
    requires IdsAscending(ps)
    ensures |r| == |ps| && multiset(r) == multiset(ps)
    ensures forall i, j :: 0 <= i < j < |r| ==> r[i].id > r[j].id
  {
    Reverse(ps)
  }

  /** DELETE FROM products WHERE id = ?; the result is the number of rows deleted. */
  method DeleteProduct(db: Database, id: int) returns (changes: int)
    requires db.Valid()
    modifies db
    ensures db.Valid()
    ensures db.sales == old(db.sales) && db.lastSaleId == old(db.lastSaleId) && db.lastProductId == old(db.lastProductId)
    ensures changes == if exists i :: 0 <= i < |old(db.products)| && old(db.products)[i].id == id then 1 else 0
    ensures db.products == Filter(old(db.products), (q: Product) => q.id != id)
    ensures |db.products| == |old(db.products)| - changes
  {
    var at := IndexWhere(db.products, (q: Product) => q.id == id);
    if at.None? {
      FilterKeepsAll(db.products, (q: Product) => q.id != id);
      return 0;
    }
    var i := at.value;
    FilterDropsOne(db.products, i, (q: Product) => q.id != id);
    RemoveKeepsTable(db.products, i, db.lastProductId);
    db.products := db.products[..i] + db.products[i + 1..];
    changes := 1;
  }

  /** UPDATE products SET every column but id WHERE id = @id; the result is the
      number of rows changed. Taking another row's barcode fails the UNIQUE
      constraint; when no row has the id, nothing is checked and nothing changes. */
  method UpdateProduct(db: Database, p: Product) returns (r: Result<int, DbError>)
    requires db.Valid()
    modifies db
    ensures db.Valid()
    ensures db.sales == old(db.sales) && db.lastSaleId == old(db.lastSaleId) && db.lastProductId == old(db.lastProductId)
    ensures var at := IndexWhere(old(db.products), (q: Product) => q.id == p.id);
      if at.None? then r == Success(0) && db.products == old(db.products)
      else if BarcodeHeldByOther(old(db.products), p.barcode, Some(p.id)) then
        r == Failure(UniqueViolation) && db.products == old(db.products)
      else r == Success(1) && db.products == old(db.products)[at.value := p]
  {
    var at := IndexWhere(db.products, (q: Product) => q.id == p.id);
    if at.None? {
      return Success(0);
    }
    if BarcodeHeldByOther(db.products, p.barcode, Some(p.id)) {
      return Failure(UniqueViolation);
    }
    db.products := db.products[at.value := p];
    r := Success(1);
  }

  /** `name LIKE '%term%' OR barcode LIKE '%term%'`: LIKE ignores ASCII case. */
  predicate LikeMatches(p: Product, term: string)
  {
    Contains(Lower(p.name), Lower(term)) || Contains(Lower(p.barcode), Lower(term))
  }

  ghost predicate IdsDescending(ps: seq<Product>)
  {
    forall i, j :: 0 <= i < j < |ps| ==> ps[i].id > ps[j].id
  }

  lemma {:induction false} FilterKeepsDescending(ps: seq<Product>, keep: Product -> bool)
    requires IdsDescending(ps)
    ensures IdsDescending(Filter(ps, keep))
  {
    if ps != [] {
      assert IdsDescending(ps[1..]) by {
        forall i, j | 0 <= i < j < |ps[1..]| ensures ps[1..][i].id > ps[1..][j].id {
          assert ps[1..][i] == ps[i + 1] && ps[1..][j] == ps[j + 1];
        }
      }
      FilterKeepsDescending(ps[1..], keep);
      var rest := Filter(ps[1..], keep);
      assert Filter(ps, keep) == if keep(ps[0]) then [ps[0]] + rest else rest;
      if keep(ps[0]) {
        forall x | x in rest ensures x.id < ps[0].id {
          var j :| 0 <= j < |ps[1..]| && ps[1..][j] == x;
          assert ps[j + 1] == x;
        }
        ConsDescending(ps[0], rest);
      }
    }
  }

  lemma ConsDescending(x: Product, rest: seq<Product>)
    requires IdsDescending(rest)
    requires forall y :: y in rest ==> y.id < x.id
    ensures IdsDescending([x] + rest)
  {
    var s := [x] + rest;
    forall i, j | 0 <= i < j < |s| ensures s[i].id > s[j].id {
      assert s[j] == rest[j - 1];
      if i > 0 {
        assert s[i] == rest[i - 1];
      }
    }
  }

  /** The rows of the listing that the search term selects, still newest first;
      a blank term (empty after trim) selects every row. */
  function SearchResults(ps: seq<Product>, term: string): (r: seq<Product>)
    requires IdsAscending(ps)
    ensures Trim(term) == "" ==> r == GetAllProducts(ps)
  {
    var all := GetAllProducts(ps);
    if Trim(term) == "" then all else Filter(all, (p: Product) => LikeMatches(p, term))
  }

  lemma SearchNewestFirst(ps: seq<Product>, term: string)
    requires IdsAscending(ps)
    ensures IdsDescending(SearchResults(ps, term))
  {
    FilterKeepsDescending(GetAllProducts(ps), (p: Product) => LikeMatches(p, term));
  }

  /** A non-blank term selects exactly the rows whose name or barcode contains it,
      ignoring ASCII case. */
  lemma SearchSelectsMatches(ps: seq<Product>, term: string)
    requires IdsAscending(ps) && Trim(term) != ""
    ensures forall p :: p in SearchResults(ps, term) <==> p in ps && LikeMatches(p, term)
  {
    var all := GetAllProducts(ps);
    assert forall x :: x in all <==> x in multiset(ps);
  }

  /** The search keeps the listing's order: its rows are the listing with some
      rows left out. */
  lemma SearchKeepsListingOrder(ps: seq<Product>, term: string)
    requires IdsAscending(ps)
    ensures IsSubsequence(SearchResults(ps, term), GetAllProducts(ps))
  {
    if Trim(term) == "" {
      SubsequenceOfSelf(GetAllProducts(ps));
    } else {
      FilterIsSubsequence(GetAllProducts(ps), (p: Product) => LikeMatches(p, term));
    }
  }

  lemma PageKeepsDescending(ps: seq<Product>, page: int, pageSize: int)
    requires IdsDescending(ps)
    ensures IdsDescending(PageOf(ps, page, pageSize))
  {
    WindowKeepsDescending(ps, pageSize, (page - 1) * pageSize);
  }

  lemma WindowKeepsDescending(ps: seq<Product>, limit: int, offset: int)
    requires IdsDescending(ps)
    ensures IdsDescending(Window(ps, limit, offset))
  {
    var w := Window(ps, limit, offset);
    var start := if offset < 0 then 0 else if offset > |ps| then |ps| else offset;
    forall i, j | 0 <= i < j < |w| ensures w[i].id > w[j].id {
      assert w[i] == ps[start + i] && w[j] == ps[start + j];
    }
  }

  /** getProductsPaginated: LIMIT pageSize OFFSET (page - 1) * pageSize over the
      search results. */
  function GetProductsPaginated(ps: seq<Product>, page: int, pageSize: int, term: string): (r: seq<Product>)
    requires IdsAscending(ps)
    ensures var all, offset := SearchResults(ps, term), (page - 1) * pageSize;
      offset >= 0 && pageSize >= 0 ==>
        && |r| == (if offset + pageSize <= |all| then pageSize else if offset < |all| then |all| - offset else 0)
        && forall k :: 0 <= k < |r| ==> r[k] == all[offset + k]
  {
    PageOf(SearchResults(ps, term), page, pageSize)
  }

  /** Every page lists its products newest first. */
  lemma PaginatedNewestFirst(ps: seq<Product>, page: int, pageSize: int, term: string)
    requires IdsAscending(ps)
    ensures IdsDescending(GetProductsPaginated(ps, page, pageSize, term))
  {
    SearchNewestFirst(ps, term);
    PageKeepsDescending(SearchResults(ps, term), page, pageSize);
  }

  /** getProductsCount: COUNT(*) under the same WHERE clause. */
  function GetProductsCount(ps: seq<Product>, term: string): (n: nat)
    requires IdsAscending(ps)
    ensures n == |SearchResults(ps, term)|
  {
    if Trim(term) == "" then |ps|
    else
      FilterReverseLength(ps, (p: Product) => LikeMatches(p, term));
      CountWhere(ps, (p: Product) => LikeMatches(p, term))
  }

  /** Walking the pages 1..ceil(count / pageSize) lists every search result once,
      in order: page k of the query is the k-th window of the search results, and
      those windows, concatenated, are the search results. */
  lemma PagesReproduceResults(ps: seq<Product>, pageSize: nat, term: string)
    requires IdsAscending(ps) && pageSize >= 1
    ensures forall page :: page >= 1 ==>
      GetProductsPaginated(ps, page, pageSize, term) == Window(SearchResults(ps, term), pageSize, (page - 1) * pageSize)
    ensures Pages(SearchResults(ps, term), pageSize, PageCount(GetProductsCount(ps, term), pageSize)) == SearchResults(ps, term)
  {
    PagesCoverAll(SearchResults(ps, term), pageSize);
  }
}
