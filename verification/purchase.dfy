/**
 * The purchase cart (`usePurchase`): an ordered list of lines keyed by item id,
 * built from the catalog, edited line by line, totalled, and submitted as one
 * sale for a chosen customer.
 */
module Purchase {
  import opened Wrappers
  import opened Http
  import Lists

  /** A catalog entry as fetched from the server; `price` is in minor units. */
  datatype CatalogItem = CatalogItem(id: string, name: string, description: string, quantity: int, price: int)

  /** One cart line: the catalog's name and price at the time of adding, and a quantity. */
  datatype CartLine = CartLine(itemId: string, name: string, price: int, quantity: int)

  /** The hook's state that a purchase touches: the chosen customer ("" for none) and the cart. */
  datatype PurchaseState = PurchaseState(selectedCustomer: string, cart: seq<CartLine>)

  /** The body posted to the sale-creation endpoint. */
  datatype SaleRequest = SaleRequest(customerId: string, items: seq<CartLine>, totalAmount: int)

  /** The toast a submission shows. */
  datatype PurchaseNotice =
    | SelectCustomer
    | AddAtLeastOneItem
    | Completed
    | Failed(message: string)

  /** Everything `handlePurchase` produces: the new state, the request it sent (if any),
      its notice, and whether it navigated to the sales page. */
  datatype PurchaseResult = PurchaseResult(state: PurchaseState, request: Option<SaleRequest>,
                                           notice: PurchaseNotice, navigateToSales: bool)

  const FailedToCompletePurchase: string := "Failed to complete purchase"
  const RequestError: string := "An error occurred while processing your request"

  predicate InCart(cart: seq<CartLine>, id: string) {
    exists i :: 0 <= i < |cart| && cart[i].itemId == id
  }

  /** The cart holds at most one line per item id. */
  predicate DistinctIds(cart: seq<CartLine>) {
    forall i, j :: 0 <= i < j < |cart| ==> cart[i].itemId != cart[j].itemId
  }

  /** The invariant the handlers keep: distinct ids and every quantity at least 1. */
  predicate WellFormed(cart: seq<CartLine>) {
    DistinctIds(cart) && forall i :: 0 <= i < |cart| ==> cart[i].quantity >= 1
  }

  /** `items.find(item => item._id === id)`: the first catalog entry with that id. */
  function FindCatalogItem(items: seq<CatalogItem>, id: string): (r: Option<CatalogItem>)
    ensures r.None? <==> forall i :: 0 <= i < |items| ==> items[i].id != id
    ensures r.Some? ==> exists k :: 0 <= k < |items| && items[k] == r.value && r.value.id == id &&
                                    forall j :: 0 <= j < k ==> items[j].id != id
    decreases |items|
  {
    if items == [] then None
    else if items[0].id == id then Some(items[0])
    else
      var r := FindCatalogItem(items[1..], id);
      if r.Some? then
        assert exists k :: 0 <= k < |items[1..]| && items[1..][k] == r.value && r.value.id == id &&
                           forall j :: 0 <= j < k ==> items[1..][j].id != id;
        var k :| 0 <= k < |items[1..]| && items[1..][k] == r.value && r.value.id == id &&
                 forall j :: 0 <= j < k ==> items[1..][j].id != id;
        assert items[k + 1] == r.value;
        assert forall j :: 0 <= j < k + 1 ==> items[j].id != id by {
          forall j | 0 <= j < k + 1 ensures items[j].id != id {
            if j > 0 { assert items[j] == items[1..][j - 1]; }
          }
        }
        r
      else r
  }

  /** `handleAddItem(itemId)`. */
  function AddItem(cart: seq<CartLine>, catalog: seq<CatalogItem>, itemId: string): (r: seq<CartLine>)
    // An empty id, an id already in the cart, or one missing from the catalog change nothing.
    ensures itemId == "" || InCart(cart, itemId) || FindCatalogItem(catalog, itemId).None? ==> r == cart
    // Otherwise exactly one line is appended, quantity 1, with the catalog's name and price.
    ensures itemId != "" && !InCart(cart, itemId) && FindCatalogItem(catalog, itemId).Some? ==>
      var item := FindCatalogItem(catalog, itemId).value;
      |r| == |cart| + 1 && r[..|cart|] == cart &&
      r[|cart|] == CartLine(itemId, item.name, item.price, 1)
  {
    if itemId == "" then cart
    else if InCart(cart, itemId) then cart
    else
      match FindCatalogItem(catalog, itemId)
      case Some(item) => cart + [CartLine(itemId, item.name, item.price, 1)]
      case None => cart
  }

  /** `handleQuantityChange(itemId, q)`. */
  function ChangeQuantity(cart: seq<CartLine>, itemId: string, q: int): (r: seq<CartLine>)
    ensures q <= 0 ==> r == cart
    // Otherwise only the quantity of lines with that id changes; order, length
    // and every other field stay.
    ensures q > 0 ==> (|r| == |cart| &&
      forall i :: 0 <= i < |cart| ==>
        r[i].itemId == cart[i].itemId && r[i].name == cart[i].name && r[i].price == cart[i].price &&
        r[i].quantity == (if cart[i].itemId == itemId then q else cart[i].quantity))
  {
    if q <= 0 then cart
    else Lists.MapWhere(cart, (l: CartLine) => l.itemId == itemId, (l: CartLine) => l.(quantity := q))
  }

  /** `handleRemoveItem(itemId)`. */
  function RemoveItem(cart: seq<CartLine>, itemId: string): (r: seq<CartLine>)
    ensures forall i :: 0 <= i < |r| ==> r[i].itemId != itemId && r[i] in cart
    ensures forall i :: 0 <= i < |cart| && cart[i].itemId != itemId ==> cart[i] in r
  {
    Lists.RemoveWhere(cart, (l: CartLine) => l.itemId == itemId)
  }

  /** Removing an id no line has changes nothing, on any cart. */
  lemma RemoveAbsentIsNoOp(cart: seq<CartLine>, itemId: string)
    ensures !InCart(cart, itemId) ==> RemoveItem(cart, itemId) == cart
  {
    if !InCart(cart, itemId) {
      Lists.RemoveWhereNone(cart, (l: CartLine) => l.itemId == itemId);
    }
  }

  /** Removing an id drops exactly its line and keeps the rest in order; removing
      an absent id is a no-op. */
  lemma RemoveItemExact(cart: seq<CartLine>, itemId: string)
    requires DistinctIds(cart)
    ensures !InCart(cart, itemId) ==> RemoveItem(cart, itemId) == cart
    ensures forall k :: 0 <= k < |cart| && cart[k].itemId == itemId ==>
      RemoveItem(cart, itemId) == cart[..k] + cart[k + 1..]
  {
    var drop := (l: CartLine) => l.itemId == itemId;
    RemoveAbsentIsNoOp(cart, itemId);
    forall k | 0 <= k < |cart| && cart[k].itemId == itemId
      ensures RemoveItem(cart, itemId) == cart[..k] + cart[k + 1..]
    {
      Lists.RemoveWhereUnique(cart, drop, k);
    }
  }

  /** The amount of one line. */
  function LineAmount(l: CartLine): int {
    l.price * l.quantity
  }

  /** No line has a negative price. */
  predicate NonNegativePrices(cart: seq<CartLine>) {
    forall i :: 0 <= i < |cart| ==> cart[i].price >= 0
  }

  /** `totalAmount`: the sum of price × quantity over the lines, accumulated left to right. */
  function Total(cart: seq<CartLine>): (t: int)
    ensures cart == [] ==> t == 0
    ensures |cart| == 1 ==> t == cart[0].price * cart[0].quantity
    ensures WellFormed(cart) && NonNegativePrices(cart) ==> t >= 0
  {
    Lists.SumByNonNegative(cart, LineAmount);
    assert WellFormed(cart) && NonNegativePrices(cart) ==>
      forall i :: 0 <= i < |cart| ==> LineAmount(cart[i]) >= 0;
    assert |cart| == 1 ==> cart[..0] == [] && Lists.SumBy(cart[..0], LineAmount) == 0;
    Lists.SumBy(cart, LineAmount)
  }

  /** The total of a concatenation is the sum of the totals. */
  lemma TotalAppend(a: seq<CartLine>, b: seq<CartLine>)
    ensures Total(a + b) == Total(a) + Total(b)
  {
    Lists.SumByAppend(a, b, LineAmount);
  }

  /** The `reduce` over the lines, as the hook computes it. */
  method ComputeTotal(cart: seq<CartLine>) returns (total: int)
    ensures total == Total(cart)
    ensures cart == [] ==> total == 0
  {
    total := 0;
    var i := 0;
    while i < |cart|
      invariant 0 <= i <= |cart|
      invariant total == Total(cart[..i])
    {
      assert cart[..i + 1][..i] == cart[..i];
      total := total + cart[i].price * cart[i].quantity;
      i := i + 1;
    }
    assert cart[..i] == cart;
  }

  /** Adding a new catalog item raises the total by that item's price. */
  lemma TotalAfterAdd(cart: seq<CartLine>, catalog: seq<CatalogItem>, itemId: string)
    requires itemId != "" && !InCart(cart, itemId) && FindCatalogItem(catalog, itemId).Some?
    ensures Total(AddItem(cart, catalog, itemId)) == Total(cart) + FindCatalogItem(catalog, itemId).value.price
  {
    var r := AddItem(cart, catalog, itemId);
    assert r[..|r| - 1] == cart;
  }

  /** A line's amount enters the total once, wherever the line sits. */
  lemma TotalSplit(pre: seq<CartLine>, x: CartLine, post: seq<CartLine>)
    ensures Total(pre + [x] + post) == Total(pre) + LineAmount(x) + Total(post)
  {
    Lists.SumBySplit(pre, x, post, LineAmount);
  }

  /** With distinct ids, a quantity edit rewrites exactly one slot. */
  lemma ChangeQuantitySplit(cart: seq<CartLine>, k: int, q: int)
    requires DistinctIds(cart) && 0 <= k < |cart| && q > 0
    ensures ChangeQuantity(cart, cart[k].itemId, q) == cart[..k] + [cart[k].(quantity := q)] + cart[k + 1..]
  {
    var r := ChangeQuantity(cart, cart[k].itemId, q);
    var e := cart[..k] + [cart[k].(quantity := q)] + cart[k + 1..];
    assert |r| == |e|;
    forall i | 0 <= i < |r| ensures r[i] == e[i] {
      if i < k {
        assert e[i] == cart[i];
      } else if i > k {
        assert e[i] == cart[i];
      }
    }
  }

  /** Replacing the line at k changes the total by the difference of the two amounts. */
  lemma TotalReplaceAt(s: seq<CartLine>, k: int, y: CartLine)
    requires 0 <= k < |s|
    ensures Total(s[..k] + [y] + s[k + 1..]) == Total(s) - LineAmount(s[k]) + LineAmount(y)
  {
    Lists.SumByReplaceAt(s, k, y, LineAmount);
  }

  /** Changing one line's quantity to q swaps that line's old amount for price × q in the total. */
  lemma TotalAfterChange(cart: seq<CartLine>, k: int, q: int)
    requires DistinctIds(cart) && 0 <= k < |cart| && q > 0
    ensures Total(ChangeQuantity(cart, cart[k].itemId, q)) ==
            Total(cart) - LineAmount(cart[k]) + LineAmount(cart[k].(quantity := q))
  {
    ChangeQuantitySplit(cart, k, q);
    TotalReplaceAt(cart, k, cart[k].(quantity := q));
  }

  /** Removing a line lowers the total by that line's amount. */
  lemma TotalAfterRemove(cart: seq<CartLine>, k: int)
    requires DistinctIds(cart) && 0 <= k < |cart|
    ensures Total(RemoveItem(cart, cart[k].itemId)) == Total(cart) - LineAmount(cart[k])
  {
    RemoveItemExact(cart, cart[k].itemId);
    assert cart == cart[..k] + [cart[k]] + cart[k + 1..];
    TotalSplit(cart[..k], cart[k], cart[k + 1..]);
    TotalAppend(cart[..k], cart[k + 1..]);
  }

  /** The three cart edits. */
  datatype CartAction = Add(itemId: string) | SetQuantity(itemId: string, quantity: int) | Remove(itemId: string)

  function Apply(cart: seq<CartLine>, catalog: seq<CatalogItem>, a: CartAction): seq<CartLine> {
    match a
    case Add(id) => AddItem(cart, catalog, id)
    case SetQuantity(id, q) => ChangeQuantity(cart, id, q)
    case Remove(id) => RemoveItem(cart, id)
  }

  function ApplyAll(cart: seq<CartLine>, catalog: seq<CatalogItem>, acts: seq<CartAction>): seq<CartLine>
    decreases |acts|
  {
    if acts == [] then cart else ApplyAll(Apply(cart, catalog, acts[0]), catalog, acts[1..])
  }

  /** Every edit keeps ids distinct and quantities at least 1. */
  lemma ApplyPreservesWellFormed(cart: seq<CartLine>, catalog: seq<CatalogItem>, a: CartAction)
    requires WellFormed(cart)
    ensures WellFormed(Apply(cart, catalog, a))
  {
    match a
    case Add(id) => AddKeepsWellFormed(cart, catalog, id);
    case SetQuantity(id, q) =>
    case Remove(id) => RemoveKeepsWellFormed(cart, id);
  }

  /** Adding never duplicates an id and starts the new line at quantity 1. */
  lemma AddKeepsWellFormed(cart: seq<CartLine>, catalog: seq<CatalogItem>, id: string)
    requires WellFormed(cart)
    ensures WellFormed(AddItem(cart, catalog, id))
  {
    var r := AddItem(cart, catalog, id);
    if r != cart {
      assert forall i :: 0 <= i < |cart| ==> r[i] == cart[i];
      assert r[|cart|].itemId == id;
    }
  }

  /** Dropping one slot keeps ids distinct and quantities positive. */
  lemma DropKeepsWellFormed(cart: seq<CartLine>, k: int)
    requires WellFormed(cart) && 0 <= k < |cart|
    ensures WellFormed(cart[..k] + cart[k + 1..])
  {
    var r := cart[..k] + cart[k + 1..];
    forall i | 0 <= i < |r| ensures r[i] == cart[if i < k then i else i + 1] {
    }
  }

  /** Removing a line leaves the others, in order, so ids stay distinct. */
  lemma RemoveKeepsWellFormed(cart: seq<CartLine>, id: string)
    requires WellFormed(cart)
    ensures WellFormed(RemoveItem(cart, id))
  {
    RemoveItemExact(cart, id);
    if InCart(cart, id) {
      var k :| 0 <= k < |cart| && cart[k].itemId == id;
      assert RemoveItem(cart, id) == cart[..k] + cart[k + 1..];
      DropKeepsWellFormed(cart, k);
    }
  }

  /** From an empty cart, any sequence of adds, quantity edits and removals yields
      a cart with pairwise distinct item ids and positive quantities. */
  lemma {:induction false} ReachableCartsWellFormed(cart: seq<CartLine>, catalog: seq<CatalogItem>, acts: seq<CartAction>)
    requires WellFormed(cart)
    ensures WellFormed(ApplyAll(cart, catalog, acts))
    decreases |acts|
  {
    if acts != [] {
      ApplyPreservesWellFormed(cart, catalog, acts[0]);
      ReachableCartsWellFormed(Apply(cart, catalog, acts[0]), catalog, acts[1..]);
    }
  }

  /** `handlePurchase()` given the outcome the sale-creation call would have. */
  function HandlePurchase(st: PurchaseState, outcome: HttpOutcome<()>): (r: PurchaseResult)
    // No customer or no lines: a warning and no request.
    ensures r.request.None? <==> st.selectedCustomer == "" || st.cart == []
    ensures st.selectedCustomer == "" ==> r.notice == SelectCustomer
    ensures st.selectedCustomer != "" && st.cart == [] ==> r.notice == AddAtLeastOneItem
    // The request carries the customer, the lines and their total.
    ensures r.request.Some? ==>
      r.request.value == SaleRequest(st.selectedCustomer, st.cart, Total(st.cart))
    // State is cleared, with navigation, exactly when the request was made and succeeded.
    ensures r.request.Some? && outcome.Resolved() <==> r.notice == Completed
    ensures r.notice == Completed ==> r.state == PurchaseState("", []) && r.navigateToSales
    ensures r.notice != Completed ==> r.state == st && !r.navigateToSales
    ensures r.request.Some? && outcome.HttpError? ==>
      r.notice == Failed(OrElse(outcome.message, FailedToCompletePurchase))
    ensures r.request.Some? && outcome.NoResponse? ==> r.notice == Failed(RequestError)
  {
    if st.selectedCustomer == "" then PurchaseResult(st, None, SelectCustomer, false)
    else if |st.cart| == 0 then PurchaseResult(st, None, AddAtLeastOneItem, false)
    else
      var request := SaleRequest(st.selectedCustomer, st.cart, Total(st.cart));
      match outcome
      case Reply(_, _) => PurchaseResult(PurchaseState("", []), Some(request), Completed, true)
      case HttpError(_, message) =>
        PurchaseResult(st, Some(request), Failed(OrElse(message, FailedToCompletePurchase)), false)
      case NoResponse => PurchaseResult(st, Some(request), Failed(RequestError), false)
  }

  /** A submission keeps the cart invariant; a completed purchase leaves an empty
      cart totalling zero, and the amount it sent is never negative. */
  lemma HandlePurchaseKeepsWellFormed(st: PurchaseState, outcome: HttpOutcome<()>)
    requires WellFormed(st.cart)
    ensures WellFormed(HandlePurchase(st, outcome).state.cart)
    ensures HandlePurchase(st, outcome).notice == Completed ==> Total(HandlePurchase(st, outcome).state.cart) == 0
    ensures NonNegativePrices(st.cart) && HandlePurchase(st, outcome).request.Some? ==>
      HandlePurchase(st, outcome).request.value.totalAmount >= 0
  {
  }
}
