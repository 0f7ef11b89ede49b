/**
 * The cart of the sales page (`Sales.jsx`). Unlike the purchase cart, adding an
 * item that is already present merges: the quantities are added.
 */
module SalesCart {
  import opened Http
  import Lists

  /** One cart entry: `{item: itemId, quantity}`. */
  datatype SalesLine = SalesLine(item: string, quantity: int)

  /** The page state a sale touches: chosen customer ("" is the walk-in option),
      the cart, the payment type and whether the create-sale modal is open. */
  datatype SaleDraft = SaleDraft(selectedCustomer: string, cart: seq<SalesLine>,
                                 paymentType: string, modalOpen: bool)

  /** The body posted to the sale-creation endpoint. */
  datatype SaleRequest = SaleRequest(customer: string, items: seq<SalesLine>, paymentType: string)

  predicate InCart(cart: seq<SalesLine>, id: string) {
    exists i :: 0 <= i < |cart| && cart[i].item == id
  }

  predicate DistinctIds(cart: seq<SalesLine>) {
    forall i, j :: 0 <= i < j < |cart| ==> cart[i].item != cart[j].item
  }

  function LineQuantity(l: SalesLine): int {
    l.quantity
  }

  /** The number of units in the cart. */
  function TotalQuantity(cart: seq<SalesLine>): int {
    Lists.SumBy(cart, LineQuantity)
  }

  /** `handleAddToCart(itemId, quantity)`. */
  function AddToCart(cart: seq<SalesLine>, itemId: string, quantity: int): (r: seq<SalesLine>)
    // Present: no new line; the matching line's quantity grows by `quantity`.
    ensures InCart(cart, itemId) ==> (|r| == |cart| &&
      forall i :: 0 <= i < |cart| ==>
        r[i].item == cart[i].item &&
        r[i].quantity == (if cart[i].item == itemId then cart[i].quantity + quantity else cart[i].quantity))
    // Absent: one line appended at the end.
    ensures !InCart(cart, itemId) ==> r == cart + [SalesLine(itemId, quantity)]
  {
    if InCart(cart, itemId) then
      Lists.MapWhere(cart, (l: SalesLine) => l.item == itemId,
                     (l: SalesLine) => l.(quantity := l.quantity + quantity))
    else cart + [SalesLine(itemId, quantity)]
  }

  /** The quantity box's change handler: the parsed value is added only when positive. */
  function OnQuantityInput(cart: seq<SalesLine>, itemId: string, parsed: int): (r: seq<SalesLine>)
    ensures parsed <= 0 ==> r == cart
    ensures parsed > 0 ==> r == AddToCart(cart, itemId, parsed)
    ensures parsed > 0 && DistinctIds(cart) ==> TotalQuantity(r) == TotalQuantity(cart) + parsed
  {
    if parsed > 0 then
      AddTotalQuantity(cart, itemId, parsed);
      AddToCart(cart, itemId, parsed)
    else cart
  }

  lemma TotalQuantityAppend(a: seq<SalesLine>, b: seq<SalesLine>)
    ensures TotalQuantity(a + b) == TotalQuantity(a) + TotalQuantity(b)
  {
    Lists.SumByAppend(a, b, LineQuantity);
  }

  /** Replacing the line at k changes the total quantity by the difference of the two quantities. */
  lemma TotalQuantityReplaceAt(s: seq<SalesLine>, k: int, y: SalesLine)
    requires 0 <= k < |s|
    ensures TotalQuantity(s[..k] + [y] + s[k + 1..]) == TotalQuantity(s) - s[k].quantity + y.quantity
  {
    Lists.SumByReplaceAt(s, k, y, LineQuantity);
  }

  /** With distinct ids, an add changes exactly one line or appends one. */
  lemma AddSplit(cart: seq<SalesLine>, k: int, quantity: int)
    requires DistinctIds(cart) && 0 <= k < |cart|
    ensures AddToCart(cart, cart[k].item, quantity) ==
            cart[..k] + [cart[k].(quantity := cart[k].quantity + quantity)] + cart[k + 1..]
  {
    var r := AddToCart(cart, cart[k].item, quantity);
    var e := cart[..k] + [cart[k].(quantity := cart[k].quantity + quantity)] + cart[k + 1..];
    assert |r| == |e|;
    forall i | 0 <= i < |r| ensures r[i] == e[i] {
      if i != k {
        assert e[i] == cart[i];
      }
    }
  }

  /** An add on a cart with distinct ids grows the total quantity by exactly the added amount. */
  lemma AddTotalQuantity(cart: seq<SalesLine>, itemId: string, quantity: int)
    ensures DistinctIds(cart) ==> TotalQuantity(AddToCart(cart, itemId, quantity)) == TotalQuantity(cart) + quantity
  {
    if !DistinctIds(cart) {
    } else if InCart(cart, itemId) {
      var k :| 0 <= k < |cart| && cart[k].item == itemId;
      AddSplit(cart, k, quantity);
      TotalQuantityReplaceAt(cart, k, cart[k].(quantity := cart[k].quantity + quantity));
    } else {
      TotalQuantityAppend(cart, [SalesLine(itemId, quantity)]);
    }
  }

  /** An add keeps item ids pairwise distinct. */
  lemma AddPreservesDistinct(cart: seq<SalesLine>, itemId: string, quantity: int)
    requires DistinctIds(cart)
    ensures DistinctIds(AddToCart(cart, itemId, quantity))
  {
    var r := AddToCart(cart, itemId, quantity);
    if !InCart(cart, itemId) {
      assert forall i :: 0 <= i < |cart| ==> r[i] == cart[i];
    }
  }

  /** The cart after a sequence of quantity-box events `(itemId, parsed value)`. */
  function InputAll(cart: seq<SalesLine>, events: seq<(string, int)>): seq<SalesLine>
    decreases |events|
  {
    if events == [] then cart
    else InputAll(OnQuantityInput(cart, events[0].0, events[0].1), events[1..])
  }

  /** Under any sequence of quantity-box events, ids stay distinct and every
      quantity stays positive. */
  lemma {:induction false} InputsKeepCartWellFormed(cart: seq<SalesLine>, events: seq<(string, int)>)
    requires DistinctIds(cart) && forall i :: 0 <= i < |cart| ==> cart[i].quantity > 0
    ensures var r := InputAll(cart, events);
      DistinctIds(r) && forall i :: 0 <= i < |r| ==> r[i].quantity > 0
    decreases |events|
  {
    if events != [] {
      var (id, q) := events[0];
      if q > 0 {
        AddPreservesDistinct(cart, id, q);
        var r := AddToCart(cart, id, q);
        if !InCart(cart, id) {
          assert forall i :: 0 <= i < |cart| ==> r[i] == cart[i];
        }
      }
      InputsKeepCartWellFormed(OnQuantityInput(cart, id, q), events[1..]);
    }
  }

  /** `handleSubmit()` given the outcome of the sale-creation call. There is no
      local guard: the request is always sent. */
  function HandleSubmit(d: SaleDraft, outcome: HttpOutcome<()>): (r: (SaleDraft, SaleRequest))
    ensures r.1 == SaleRequest(d.selectedCustomer, d.cart, d.paymentType)
    // A 201 empties the cart, resets the customer to walk-in and closes the modal.
    ensures outcome.ResolvedWith(201) ==>
      r.0 == d.(cart := [], selectedCustomer := "", modalOpen := false)
    // Any other status, or a rejected call, leaves the page state as it was.
    ensures !outcome.ResolvedWith(201) ==> r.0 == d
  {
    var request := SaleRequest(d.selectedCustomer, d.cart, d.paymentType);
    match outcome
    case Reply(status, _) =>
      if status == 201 then (d.(cart := [], selectedCustomer := "", modalOpen := false), request)
      else (d, request)
    case HttpError(_, _) => (d, request)
    case NoResponse => (d, request)
  }

  /** Submitting keeps the cart invariant of the quantity box: ids stay distinct and
      every quantity positive; after a 201 the cart holds no units at all. */
  lemma HandleSubmitKeepsCartWellFormed(d: SaleDraft, outcome: HttpOutcome<()>)
    requires DistinctIds(d.cart) && forall i :: 0 <= i < |d.cart| ==> d.cart[i].quantity > 0
    ensures var c := HandleSubmit(d, outcome).0.cart;
      DistinctIds(c) && (forall i :: 0 <= i < |c| ==> c[i].quantity > 0)
    ensures outcome.ResolvedWith(201) ==> TotalQuantity(HandleSubmit(d, outcome).0.cart) == 0
  {
  }
}
