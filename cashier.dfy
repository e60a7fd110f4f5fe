/** The cashier screen (src/renderer/src/components/Cashier.tsx): the cart and
    its total, the product search, checkout, and the keyboard-wedge barcode
    scanner that turns fast key strokes into a product lookup. */
module Cashier {
  import opened Wrappers
  import opened Seqs
  import opened Text
  import opened Core

  /** Position of the cart line for product `id`, as `prev.find` looks for it. */
  function FindLine(cart: seq<CartItem>, id: int): Option<nat>
  {
    IndexWhere(cart, (item: CartItem) => item.Id() == id)
  }

  /** addToCart: a product already in the cart gets one more on its line (every
      line with its id, as `prev.map` does); a new product is appended with
      quantity 1. The line keeps the product as it was when first added. */
  function AddToCart(cart: seq<CartItem>, p: Product): (r: seq<CartItem>)
    ensures FindLine(cart, p.id).Some? ==>
      && |r| == |cart|
      && forall k :: 0 <= k < |cart| ==> r[k] == if cart[k].Id() == p.id then cart[k].(quantity := cart[k].quantity + 1) else cart[k]
    ensures FindLine(cart, p.id).None? ==> r == cart + [CartItem(p, 1)]
  {
    if FindLine(cart, p.id).Some? then
      seq(|cart|, k requires 0 <= k < |cart| =>
        if cart[k].Id() == p.id then cart[k].(quantity := cart[k].quantity + 1) else cart[k])
    else cart + [CartItem(p, 1)]
  }

  /** removeFromCart: every line but the one for `id`, in order. */
  function RemoveFromCart(cart: seq<CartItem>, id: int): (r: seq<CartItem>)
    ensures forall item :: item in r <==> item in cart && item.Id() != id
  {
    Filter(cart, (item: CartItem) => item.Id() != id)
  }

  /** The cart's invariant: one line per product, and every quantity at least 1. */
  ghost predicate CartOk(cart: seq<CartItem>)
  {
    && (forall i, j :: 0 <= i < j < |cart| ==> cart[i].Id() != cart[j].Id())
    && (forall i :: 0 <= i < |cart| ==> cart[i].quantity >= 1)
  }

  lemma AddToCartKeepsCartOk(cart: seq<CartItem>, p: Product)
    requires CartOk(cart)
    ensures CartOk(AddToCart(cart, p))
  {
    var r := AddToCart(cart, p);
    if FindLine(cart, p.id).Some? {
      assert forall k :: 0 <= k < |cart| ==> r[k].Id() == cart[k].Id();
    }
  }

  lemma RemoveFromCartKeepsCartOk(cart: seq<CartItem>, id: int)
    requires CartOk(cart)
    ensures CartOk(RemoveFromCart(cart, id))
  {
    var keep := (item: CartItem) => item.Id() != id;
    var at := FindLine(cart, id);
    if at.None? {
      FilterKeepsAll(cart, keep);
    } else {
      var i := at.value;
      FilterDropsOne(cart, i, keep);
      CartOkWithoutLine(cart, i);
    }
  }

  lemma CartOkWithoutLine(cart: seq<CartItem>, i: nat)
    requires CartOk(cart) && i < |cart|
    ensures CartOk(cart[..i] + cart[i + 1..])
  {
    var r := cart[..i] + cart[i + 1..];
    assert forall a :: 0 <= a < |r| ==> r[a] == cart[if a < i then a else a + 1];
  }

  /** Removing a line takes its amount off the total and leaves the other lines in
      order; removing an absent id changes nothing. */
  lemma RemoveFromCartLowersTotal(cart: seq<CartItem>, id: int)
    requires CartOk(cart)
    ensures var at := FindLine(cart, id);
      && (at.None? ==> RemoveFromCart(cart, id) == cart)
      && (at.Some? ==>
            && RemoveFromCart(cart, id) == cart[..at.value] + cart[at.value + 1..]
            && Subtotal(RemoveFromCart(cart, id)) == Subtotal(cart) - cart[at.value].LineTotal())
  {
    var keep := (item: CartItem) => item.Id() != id;
    var at := FindLine(cart, id);
    if at.None? {
      FilterKeepsAll(cart, keep);
    } else {
      var i := at.value;
      FilterDropsOne(cart, i, keep);
      assert cart == cart[..i] + [cart[i]] + cart[i + 1..];
      SubtotalAppend(cart[..i] + [cart[i]], cart[i + 1..]);
      SubtotalAppend(cart[..i], [cart[i]]);
      SubtotalAppend(cart[..i], cart[i + 1..]);
      assert [cart[i]][..0] == [];
    }
  }

  /** Adding a product and removing it again gives the cart back when it was not
      in the cart before. */
  lemma RemoveUndoesAdd(cart: seq<CartItem>, p: Product)
    requires FindLine(cart, p.id).None?
    ensures RemoveFromCart(AddToCart(cart, p), p.id) == cart
  {
    var r := AddToCart(cart, p);
    FilterDropsOne(r, |cart|, (item: CartItem) => item.Id() != p.id);
    assert r[..|cart|] == cart;
  }

  /** The total of a cart whose one line for `id` gets one more item. */
  lemma {:induction false} IncrementRaisesTotal(cart: seq<CartItem>, r: seq<CartItem>, i: nat)
    requires i < |cart| && |r| == |cart|
    requires r[i] == cart[i].(quantity := cart[i].quantity + 1)
    requires forall k :: 0 <= k < |cart| && k != i ==> r[k] == cart[k]
    ensures Subtotal(r) == Subtotal(cart) + cart[i].Price()
  {
    var n := |cart| - 1;
    if n == i {
      assert r[..n] == cart[..n];
    } else {
      IncrementRaisesTotal(cart[..n], r[..n], i);
    }
  }

  /** The displayed total (the same fold as the server's calculateTotal) rises by
      the price on the product's line: the line's price when the product is
      already in the cart, the product's price when it is appended. */
  lemma AddToCartRaisesTotal(cart: seq<CartItem>, p: Product)
    requires CartOk(cart)
    ensures var at := FindLine(cart, p.id);
      Subtotal(AddToCart(cart, p)) == Subtotal(cart) + (if at.Some? then cart[at.value].Price() else p.price)
  {
    var at := FindLine(cart, p.id);
    var r := AddToCart(cart, p);
    if at.Some? {
      IncrementRaisesTotal(cart, r, at.value);
    } else {
      SubtotalAppend(cart, [CartItem(p, 1)]);
      assert [CartItem(p, 1)][..0] == [];
    }
  }

  /** The cashier's search: the product name lower-cased contains the lower-cased
      term, or the barcode as stored contains it. */
  predicate UiMatches(p: Product, lowerTerm: string)
  {
    Contains(Lower(p.name), lowerTerm) || Contains(p.barcode, lowerTerm)
  }

  /** filteredProducts (the same expression on the inventory screen): the empty
      term shows every product; any other term keeps the matching products in
      their order. The term is not trimmed. */
  function FilterProducts(products: seq<Product>, term: string): (r: seq<Product>)
    ensures term == "" ==> r == products
    ensures term != "" ==> forall p :: p in r <==> p in products && UiMatches(p, Lower(term))
  {
    if term == "" then products else Filter(products, (p: Product) => UiMatches(p, Lower(term)))
  }

  /** The search keeps the products' order. */
  lemma FilterProductsIsSublist(products: seq<Product>, term: string)
    ensures IsSubsequence(FilterProducts(products, term), products)
  {
    if term == "" {
      SubsequenceOfSelf(products);
    } else {
      FilterIsSubsequence(products, (p: Product) => UiMatches(p, Lower(term)));
    }
  }

  /** Array.prototype.find on barcodes: the first product whose barcode is exactly
      `code`, or nothing when no product has it. */
  function FindByBarcode(products: seq<Product>, code: string): (r: Option<Product>)
    ensures r.Some? ==> r.value in products && r.value.barcode == code
    ensures r.Some? ==> exists i :: 0 <= i < |products| && products[i] == r.value && forall j :: 0 <= j < i ==> products[j].barcode != code
    ensures r.None? <==> forall p :: p in products ==> p.barcode != code
  {
    match IndexWhere(products, (p: Product) => p.barcode == code)
    case None => None
    case Some(i) => Some(products[i])
  }

  /** How the sale request came back. */
  datatype Reply =
    | Saved     // res.success
    | Refused   // a reply without success
    | Threw     // the call threw

  /** The cart handed to createSale, if any, and the cart afterwards. */
  datatype CheckoutOutcome = CheckoutOutcome(sent: Option<seq<CartItem>>, cartAfter: seq<CartItem>)

  /** handleCheckOut: an empty cart or a declined confirmation stops before any
      request; the cart is sent without a discount and cleared only once the
      sale is saved. */
  function CheckOut(cart: seq<CartItem>, confirmed: bool, reply: Reply): (r: CheckoutOutcome)
    ensures r.sent.Some? <==> cart != [] && confirmed
    ensures r.sent.Some? ==> r.sent.value == cart
    ensures r.cartAfter == [] <==> cart == [] || (r.sent.Some? && reply == Saved)
    ensures r.cartAfter != [] ==> r.cartAfter == cart
  {
    if cart == [] then CheckoutOutcome(None, cart)
    else if !confirmed then CheckoutOutcome(None, cart)
    else if reply == Saved then CheckoutOutcome(Some(cart), [])
    else CheckoutOutcome(Some(cart), cart)
  }

  /** What one key stroke produced. */
  datatype Scan =
    | Idle                      // nothing looked up
    | Found(product: Product)   // '✅ Found', and the product goes into the cart
    | NotFound(code: string)    // '❌ Not Found'

  /** The keydown listener's closure: the characters typed so far and the time of
      the last key. A barcode scanner types much faster than a person, so a gap
      of more than 100 ms starts a new code. */
  class Scanner {
    var buffer: string
    var lastKeyTime: int

    /** The listener is installed (again whenever the product list changes). */
    constructor(now: int)
      ensures buffer == "" && lastKeyTime == now
    {
      buffer, lastKeyTime := "", now;
    }

    /** handleKeyDown at time `now`: a product found on Enter goes into the cart. */
    method KeyDown(key: string, now: int, products: seq<Product>, cart: seq<CartItem>)
      returns (r: Scan, cartAfter: seq<CartItem>)
      modifies this
      ensures lastKeyTime == now
      ensures cartAfter == if r.Found? then AddToCart(cart, r.product) else cart
      ensures var b := if now - old(lastKeyTime) > 100 then "" else old(buffer);
        if key == "Enter" then
          && buffer == ""
          && (b == "" ==> r == Idle)
          && (b != "" ==> r == match FindByBarcode(products, b) case Some(p) => Found(p) case None => NotFound(b))
        else if |key| == 1 then buffer == b + key && r == Idle
        else buffer == b && r == Idle
    {
      if now - lastKeyTime > 100 {
        buffer := "";
      }
      lastKeyTime := now;
      r, cartAfter := Idle, cart;
      if key == "Enter" {
        if |buffer| > 0 {
          var found := FindByBarcode(products, buffer);
          if found.Some? {
            r := Found(found.value);
            cartAfter := AddToCart(cart, found.value);
          } else {
            r := NotFound(buffer);
          }
          buffer := "";
        }
      } else if |key| == 1 {
        buffer := buffer + key;
      }
    }
  }

  /** A scanner typing `code` one character per millisecond, then Enter, looks up
      exactly `code`, provided nothing typed just before is still in the buffer;
      a product found is added to the cart. */
  method ScanCode(s: Scanner, code: string, start: int, products: seq<Product>, cart: seq<CartItem>)
    returns (r: Scan, cartAfter: seq<CartItem>)
    requires code != []
    requires s.buffer == "" || start - s.lastKeyTime > 100
    modifies s
    ensures s.buffer == "" && s.lastKeyTime == start + |code|
    ensures r == match FindByBarcode(products, code) case Some(p) => Found(p) case None => NotFound(code)
    ensures cartAfter == match FindByBarcode(products, code) case Some(p) => AddToCart(cart, p) case None => cart
    ensures CartOk(cart) ==> CartOk(cartAfter)
  {
    var i := 0;
    while i < |code|
      invariant 0 <= i <= |code|
      invariant i > 0 ==> s.buffer == code[..i] && s.lastKeyTime == start + i - 1
      invariant i == 0 ==> s.buffer == "" || start - s.lastKeyTime > 100
    {
      var _, _ := s.KeyDown([code[i]], start + i, products, cart);
      assert code[..i + 1] == code[..i] + [code[i]];
      i := i + 1;
    }
    assert code[..|code|] == code;
    r, cartAfter := s.KeyDown("Enter", start + |code|, products, cart);
    if r.Found? && CartOk(cart) {
      AddToCartKeepsCartOk(cart, r.product);
    }
  }
}
