/** The inventory screen: the barcode a new product is saved under, the screen's
    product filter compared with the server's search, and the add/edit form with
    its submit routing and the state it leaves behind. */
module Inventory {
  import opened Wrappers
  import opened Text
  import opened Core
  import opened Cashier
  import Products

  // ---------------------------------------------------------------------------
  // The barcode rule of handleSubmit

  /** String.prototype.slice(-n): the last n characters, or the whole text when it
      is shorter. */
  function Last(s: string, n: nat): (r: string)
    ensures |r| == (if |s| < n then |s| else n)
  {
    if |s| <= n then s else s[|s| - n..]
  }

  function Pow10(n: nat): (r: nat)
    ensures r >= 1
  {
    if n == 0 then 1 else 10 * Pow10(n - 1)
  }

  lemma {:induction false} Pow10Monotone(m: nat, n: nat)
    requires m <= n
    ensures Pow10(m) <= Pow10(n)
    decreases n
  {
    if m < n {
      Pow10Monotone(m, n - 1);
    }
  }

  /** Euclidean division has one remainder. */
  lemma ModUnique(a: int, m: int, q: int, r: int)
    requires m > 0 && a == q * m + r && 0 <= r < m
    ensures a % m == r
  {
    var q', r' := a / m, a % m;
    assert (q - q') * m == r' - r;
    if q > q' {
      MulAtLeast(q - q', m);
    } else if q < q' {
      MulAtLeast(q' - q, m);
    }
  }

  lemma MulAtLeast(x: int, m: int)
    requires x >= 1 && m > 0
    ensures x * m >= m
  {
  }

  /** Appending a digit d to a numeral: the remainder modulo 10m follows from the
      remainder modulo m. */
  lemma AppendDigitMod(v: int, m: int, d: int)
    requires v >= 0 && m > 0 && 0 <= d < 10
    ensures (v * 10 + d) % (m * 10) == (v % m) * 10 + d
  {
    var q, r := v / m, v % m;
    assert v * 10 + d == q * (m * 10) + (r * 10 + d) by {
      assert v == q * m + r;
    }
    assert r * 10 + d < m * 10 by {
      assert (r + 1) * 10 <= m * 10;
    }
    ModUnique(v * 10 + d, m * 10, q, r * 10 + d);
  }

  /** n digits stand for a value below 10^n. */
  lemma {:induction false} ParseDigitsBound(s: string)
    requires AllDigits(s)
    ensures ParseDigits(s) < Pow10(|s|)
  {
    if s != [] {
      var t := s[..|s| - 1];
      ParseDigitsBound(t);
      var m := Pow10(|t|);
      assert (ParseDigits(t) + 1) * 10 <= m * 10;
    }
  }

  /** The last k digits of a numeral stand for its value modulo 10^k. */
  lemma {:induction false} ParseSuffix(s: string, k: nat)
    requires AllDigits(s) && k <= |s|
    ensures ParseDigits(s[|s| - k..]) == ParseDigits(s) % Pow10(k)
    decreases k
  {
    var n := |s|;
    if k == 0 {
      assert s[n..] == [];
    } else {
      var t := s[..n - 1];
      var u := s[n - k..];
      ParseSuffix(t, k - 1);
      assert u[..k - 1] == t[|t| - (k - 1)..];
      assert u[k - 1] == s[n - 1];
      var d := DigitValue(s[n - 1]);
      var v, m := ParseDigits(t), Pow10(k - 1);
      assert Pow10(k) == m * 10;
      assert ParseDigits(s) == v * 10 + d;
      assert ParseDigits(u) == (v % m) * 10 + d;
      AppendDigitMod(v, m, d);
    }
  }


  /** "SN" followed by the last ten digits of the clock reading in milliseconds. */
  function GeneratedBarcode(now: nat): string
  {
    "SN" + Last(NatToString(now), 10)
  }

  /** The barcode a submission carries: a blank field (empty or white space only)
      is replaced by the serial generated for this submission; anything else is
      kept as typed, untrimmed. */
  predicate Blank(s: string)
  {
    forall i :: 0 <= i < |s| ==> IsJsSpace(s[i])
  }

  function FinalBarcode(barcode: string, serial: string): string
  {
    if Blank(barcode) then serial else barcode
  }

  /** Whatever was typed, the barcode sent is never blank. */
  lemma FinalBarcodeNotBlank(barcode: string, now: nat)
    ensures Trim(FinalBarcode(barcode, GeneratedBarcode(now))) != ""
  {
    if Trim(barcode) == "" {
      var g := GeneratedBarcode(now);
      assert !IsJsSpace(g[0]);
    }
  }

  /** A generated serial is "SN" and one to ten digits that read back as the clock
      reading modulo 10^10. */
  lemma GeneratedBarcodeShape(now: nat)
    ensures var g := GeneratedBarcode(now);
      && 3 <= |g| <= 12 && g[..2] == "SN" && AllDigits(g[2..])
      && ParseDigits(g[2..]) == now % Pow10(10)
  {
    var s := NatToString(now);
    var g := GeneratedBarcode(now);
    assert g[2..] == Last(s, 10);
    ParseNatToString(now);
    if |s| <= 10 {
      ParseDigitsBound(s);
      Pow10Monotone(|s|, 10);
      ModUnique(now, Pow10(10), 0, now);
    } else {
      ParseSuffix(s, 10);
    }
  }

  /** Submitting again never replaces a barcode already chosen: the form keeps the
      serial it was given, so a second submission sends the same one. */
  lemma FinalBarcodeIdempotent(barcode: string, now: nat, later: nat)
    ensures var b := FinalBarcode(barcode, GeneratedBarcode(now));
      FinalBarcode(b, GeneratedBarcode(later)) == b
  {
    FinalBarcodeNotBlank(barcode, now);
  }

  /** Typing a generated serial into the screen filter finds the product only
      through its name: the typed term is lower-cased but the barcode is not, and
      "SN" is upper case. The server's LIKE search still finds it by barcode. */
  lemma GeneratedBarcodeMissedByScreenFilter(p: Product, now: nat)
    requires p.barcode == GeneratedBarcode(now)
    ensures UiMatches(p, Lower(p.barcode)) <==> Contains(Lower(p.name), Lower(p.barcode))
    ensures Products.LikeMatches(p, p.barcode)
  {
    assert HasUpper(p.barcode) by {
      assert p.barcode[0] == 'S';
    }
    UpperNotFoundByLowered(p.barcode);
    assert Lower(p.barcode) <= Lower(p.barcode)[0..];
  }

  // ---------------------------------------------------------------------------
  // filteredProducts against the server's search

  lemma {:induction false} LowerIdempotent(t: string)
    ensures Lower(Lower(t)) == Lower(t)
  {
  }

  /** A product the screen filter shows for a term also matches the server's LIKE
      search for it. */
  lemma ScreenMatchIsLikeMatch(p: Product, term: string)
    requires UiMatches(p, Lower(term))
    ensures Products.LikeMatches(p, term)
  {
    LowerIdempotent(term);
    if !Contains(Lower(p.name), Lower(term)) {
      ContainsLowered(p.barcode, Lower(term));
    }
  }

  /** Every product the inventory filter shows is among the rows the server's search
      returns for the same term (the converse fails: see
      GeneratedBarcodeMissedByScreenFilter). */
  lemma ScreenFilterWithinSearch(ps: seq<Product>, term: string)
    requires IdsAscending(ps)
    ensures forall p :: p in FilterProducts(ps, term) ==> p in Products.SearchResults(ps, term)
  {
    var all := Products.GetAllProducts(ps);
    assert forall x :: x in all <==> x in multiset(ps);
    if Trim(term) != "" {
      Products.SearchSelectsMatches(ps, term);
      forall p | p in FilterProducts(ps, term) ensures Products.LikeMatches(p, term) {
        ScreenMatchIsLikeMatch(p, term);
      }
    }
  }

  // ---------------------------------------------------------------------------
  // The form

  /** The form's state: the edited product's id (null when adding), the text fields
      as typed, and the status message. */
  datatype Form = Form(editingId: Option<int>, barcode: string, name: string, price: string,
                       stock: string, detail: string, message: string)

  /** The form on first render and after handleCancelEdit: stock starts at "1". */
  const BlankForm: Form := Form(None, "", "", "", "1", "", "")

  /** `editingId` is truthy: set and not zero. */
  predicate Editing(f: Form)
  {
    f.editingId.Some? && f.editingId.value != 0
  }

  /** handleEditClick: the product's fields copied into the form, the price written
      with two decimals and the stock as a numeral. */
  function EditClick(f: Form, p: Product): (r: Form)
    ensures Editing(r) <==> p.id != 0
    ensures r.message == f.message
    ensures ParseMoney(r.price) == Some(p.price)
  {
    MoneyRoundTrip(p.price);
    Form(Some(p.id), p.barcode, p.name, Money(p.price), IntToString(p.stock), p.detail, f.message)
  }

  /** What handleSubmit sends. */
  datatype Request = UpdateRequest(product: Product) | AddRequest(product: Product) | NoRequest

  /** handleSubmit's routing. `cents` and `units` are the numbers read from the price
      and stock fields; `labelSaved` is whether the label file was written. Editing
      sends an update under the edited id; adding first needs the label saved, and
      sends nothing when it was not. */
  function SubmitRequest(f: Form, now: nat, cents: int, units: int, labelSaved: bool): (r: Request)
    ensures r.UpdateRequest? <==> Editing(f)
    ensures r.AddRequest? <==> !Editing(f) && labelSaved
    ensures r.UpdateRequest? ==> r.product.id == f.editingId.value
    ensures !r.NoRequest? ==>
      && r.product.barcode == FinalBarcode(f.barcode, GeneratedBarcode(now))
      && Trim(r.product.barcode) != ""
      && r.product.name == f.name && r.product.detail == f.detail
      && r.product.price == cents && r.product.stock == units
  {
    FinalBarcodeNotBlank(f.barcode, now);
    var data := Product(0, f.name, cents, units, f.detail, FinalBarcode(f.barcode, GeneratedBarcode(now)));
    if Editing(f) then UpdateRequest(data.(id := f.editingId.value))
    else if labelSaved then AddRequest(data)
    else NoRequest
  }

  /** Editing a product and submitting the form unchanged sends the product back as
      it was: the price text reads back as its cents, the stock text as its stock,
      and the update carries its id and barcode. */
  lemma EditThenSubmitSendsProduct(f: Form, p: Product, now: nat, labelSaved: bool)
    requires p.id != 0 && Trim(p.barcode) != ""
    ensures var g := EditClick(f, p);
      && ParseMoney(g.price) == Some(p.price)
      && ParseInt(g.stock) == Some(p.stock)
      && SubmitRequest(g, now, p.price, p.stock, labelSaved) == UpdateRequest(p)
  {
    IntToStringRoundTrip(p.stock);
  }

  // ---------------------------------------------------------------------------
  // handleBarcodeKeyDown

  /** What Enter in the barcode field leads to. */
  datatype EnterAction = OfferEdit(existing: Product) | FocusName

  /** Enter in the barcode field: when adding and a product already has exactly this
      barcode, offer to edit the first one; otherwise move on to the name field. */
  function BarcodeEnter(products: seq<Product>, f: Form): (r: EnterAction)
    ensures r.OfferEdit? <==> !Editing(f) && exists p :: p in products && p.barcode == f.barcode
    ensures r.OfferEdit? ==> r.existing in products && r.existing.barcode == f.barcode
  {
    match FindByBarcode(products, f.barcode)
    case Some(p) => if Editing(f) then FocusName else OfferEdit(p)
    case None => FocusName
  }

  /** The answer to the offer: accepting loads the product into the form, declining
      clears the barcode field. */
  function AnswerOffer(f: Form, existing: Product, accepted: bool): (r: Form)
    ensures accepted ==> r == EditClick(f, existing)
    ensures !accepted ==> r == f.(barcode := "")
  {
    if accepted then EditClick(f, existing) else f.(barcode := "")
  }

  /** A scanned barcode that already exists does not lead to a second product with
      that code: accepting the offer and submitting updates the existing product,
      declining and submitting adds one under a generated serial. */
  lemma ScannedDuplicateNotAddedTwice(products: seq<Product>, f: Form, accepted: bool,
                                      now: nat, cents: int, units: int)
    requires BarcodeEnter(products, f).OfferEdit?
    requires BarcodeEnter(products, f).existing.id != 0
    ensures var e := BarcodeEnter(products, f).existing;
      var g := AnswerOffer(f, e, accepted);
      && (accepted && Trim(e.barcode) != "" ==> SubmitRequest(g, now, e.price, e.stock, true) == UpdateRequest(e))
      && (!accepted ==> SubmitRequest(g, now, cents, units, true).product.barcode == GeneratedBarcode(now))
  {
    var e := BarcodeEnter(products, f).existing;
    if accepted && Trim(e.barcode) != "" {
      EditThenSubmitSendsProduct(f, e, now, true);
    }
  }

  // ---------------------------------------------------------------------------
  // The state handleSubmit leaves behind

  /** How a sent request came back: success, an error reply, or an exception. */
  datatype Response = Accepted | Rejected(error: string) | Crashed

  /** A queued React state update of the form. */
  datatype FormUpdate = SetBarcode(barcode: string) | SetMessage(message: string) | CancelEdit

  function Apply(f: Form, u: FormUpdate): Form
  {
    match u
    case SetBarcode(b) => f.(barcode := b)
    case SetMessage(m) => f.(message := m)
    case CancelEdit => BlankForm
  }

  /** Queued updates take effect in the order they were made. */
  function ApplyAll(f: Form, us: seq<FormUpdate>): Form
    decreases |us|
  {
    if us == [] then f else ApplyAll(Apply(f, us[0]), us[1..])
  }

  lemma {:induction false} ApplyAllAppend(f: Form, us: seq<FormUpdate>, vs: seq<FormUpdate>)
    ensures ApplyAll(f, us + vs) == ApplyAll(ApplyAll(f, us), vs)
    decreases |us|
  {
    if us != [] {
      assert (us + vs)[1..] == us[1..] + vs;
      ApplyAllAppend(Apply(f, us[0]), us[1..], vs);
    } else {
      assert us + vs == vs;
    }
  }

  function SuccessMessage(f: Form): string
  {
    if Editing(f) then "Updated!" else "Added!"
  }

  /** The updates every submission makes before it hears back: a blank barcode
      field is filled in with the serial generated for the submission. */
  function BarcodeUpdates(f: Form, serial: string): seq<FormUpdate>
  {
    if Blank(f.barcode) then [SetBarcode(serial)] else []
  }

  lemma BarcodeFilledIn(f: Form, serial: string)
    ensures ApplyAll(f, BarcodeUpdates(f, serial)) == f.(barcode := FinalBarcode(f.barcode, serial))
  {
    if Blank(f.barcode) {
      assert [SetBarcode(serial)][1..] == [];
    }
  }

  /** The updates after the reply when it is not a success. */
  function FailureUpdates(res: Response): seq<FormUpdate>
  {
    match res
    case Rejected(e) => [SetMessage("Error: " + e)]
    case _ => [SetMessage("Save failed.")]
  }

  /** handleSubmit's updates as written: on success the message is set and then
      handleCancelEdit resets the form, its own empty message last. `reply` is None
      when no request was sent (the label was not saved). */
  function SubmitUpdatesAsWritten(f: Form, serial: string, reply: Option<Response>): seq<FormUpdate>
  {
    BarcodeUpdates(f, serial) +
    match reply
    case None => []
    case Some(Accepted) => [SetMessage(SuccessMessage(f)), CancelEdit]
    case Some(res) => FailureUpdates(res)
  }

  /** handleSubmit's updates with the reset made before the message. */
  function SubmitUpdates(f: Form, serial: string, reply: Option<Response>): seq<FormUpdate>
  {
    BarcodeUpdates(f, serial) +
    match reply
    case None => []
    case Some(Accepted) => [CancelEdit, SetMessage(SuccessMessage(f))]
    case Some(res) => FailureUpdates(res)
  }

  /** As written, a successful save ends with an empty message: "Updated!" or
      "Added!" is overwritten by handleCancelEdit before it is ever shown. */
  lemma SuccessMessageLostAsWritten(f: Form, serial: string)
    ensures ApplyAll(f, SubmitUpdatesAsWritten(f, serial, Some(Accepted))) == BlankForm
    ensures ApplyAll(f, SubmitUpdatesAsWritten(f, serial, Some(Accepted))).message == ""
  {
    var tail := [SetMessage(SuccessMessage(f)), CancelEdit];
    ApplyAllAppend(f, BarcodeUpdates(f, serial), tail);
    var h := ApplyAll(f, BarcodeUpdates(f, serial));
    assert ApplyAll(h, tail) == ApplyAll(h.(message := SuccessMessage(f)), [CancelEdit]);
    assert ApplyAll(BlankForm, []) == BlankForm;
  }

  /** With the reset first, a successful save leaves a blank form showing the
      success message. */
  lemma SuccessMessageShown(f: Form, serial: string)
    ensures var g := ApplyAll(f, SubmitUpdates(f, serial, Some(Accepted)));
      && g == BlankForm.(message := SuccessMessage(f))
      && g.message != ""
  {
    var tail := [CancelEdit, SetMessage(SuccessMessage(f))];
    ApplyAllAppend(f, BarcodeUpdates(f, serial), tail);
    var h := ApplyAll(f, BarcodeUpdates(f, serial));
    assert ApplyAll(h, tail) == ApplyAll(BlankForm, [SetMessage(SuccessMessage(f))]);
    var shown := BlankForm.(message := SuccessMessage(f));
    assert [SetMessage(SuccessMessage(f))][1..] == [];
    assert ApplyAll(shown, []) == shown;
  }

  /** A failed save keeps everything typed, with the serial filled in, and shows the
      error. */
  lemma FailureKeepsForm(f: Form, serial: string, res: Response)
    requires res != Accepted
    ensures ApplyAll(f, SubmitUpdatesAsWritten(f, serial, Some(res))) ==
      f.(barcode := FinalBarcode(f.barcode, serial),
         message := if res.Rejected? then "Error: " + res.error else "Save failed.")
  {
    ApplyAllAppend(f, BarcodeUpdates(f, serial), FailureUpdates(res));
    BarcodeFilledIn(f, serial);
    var h := f.(barcode := FinalBarcode(f.barcode, serial));
    var m := if res.Rejected? then "Error: " + res.error else "Save failed.";
    assert FailureUpdates(res) == [SetMessage(m)];
    assert [SetMessage(m)][1..] == [];
    assert ApplyAll(h, [SetMessage(m)]) == ApplyAll(h.(message := m), []);
  }

  /** Submitting again after a failure sends the same product, generated serial
      included, whenever the retry happens. */
  lemma RetryAfterFailureSendsSameProduct(f: Form, now: nat, res: Response, later: nat, cents: int, units: int)
    requires res != Accepted
    ensures var g := ApplyAll(f, SubmitUpdatesAsWritten(f, GeneratedBarcode(now), Some(res)));
      SubmitRequest(g, later, cents, units, true) == SubmitRequest(f, now, cents, units, true)
  {
    FailureKeepsForm(f, GeneratedBarcode(now), res);
    FinalBarcodeIdempotent(f.barcode, now, later);
  }
}
