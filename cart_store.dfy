/**
 * The cart store: the storefront's mutable `cart` array and the operations
 * that change it. Each method says exactly what the new list of rows is, in
 * terms of the old one, and that it keeps a well-formed cart well-formed.
 */
module CartStore {
  import opened Wrappers
  import opened Seqs
  import opened Catalog
  import opened LineItems
  import opened Totals

  /**
   * What `loadCart` finds under the storage key: nothing (or an empty
   * string), text that is not JSON, JSON that is not an array, or an array
   * of rows.
   */
  datatype SavedCart = NoRecord | Unparsable | NotAnArray | Rows(rows: seq<LineItem>)

  datatype CheckoutError = EmptyCart

  class Cart {
    var items: seq<LineItem>

    /** The page starts with an empty cart. */
    constructor ()
      ensures items == []
    {
      items := [];
    }

    /**
     * `loadCart`: keep a stored array, leave the cart alone when nothing is
     * stored, and otherwise reset it to empty and ask for the stored record
     * to be discarded.
     */
    method LoadCart(saved: SavedCart) returns (discardRecord: bool)
      modifies this
      ensures saved.NoRecord? ==> items == old(items) && !discardRecord
      ensures saved.Rows? ==> items == saved.rows && !discardRecord
      ensures (saved.Unparsable? || saved.NotAnArray?) ==> items == [] && discardRecord
    {
      discardRecord := false;
      match saved
      case NoRecord =>
      case Rows(rows) =>
        items := rows;
      case Unparsable =>
        items := [];
        discardRecord := true;
      case NotAnArray =>
        items := [];
        discardRecord := true;
    }

    /**
     * `addToCart(productId)`: an unknown product leaves the cart as it was; a
     * product already in the cart gets one more unit in its row and every
     * other row, and the order, stay the same; a new product is appended as a
     * snapshot with quantity 1.
     */
    method AddToCart(catalog: seq<Product>, productId: int)
      modifies this
      ensures items == AddItem(old(items), catalog, productId)
      ensures FindProduct(catalog, productId).None? ==> items == old(items)
      ensures FindProduct(catalog, productId).Some? && FindItem(old(items), productId).Some? ==>
                var i := FindItem(old(items), productId).value;
                && |items| == |old(items)|
                && items[i] == old(items)[i].(quantity := old(items)[i].quantity + 1)
                && forall j :: 0 <= j < |items| && j != i ==> items[j] == old(items)[j]
      ensures FindProduct(catalog, productId).Some? && FindItem(old(items), productId).None? ==>
                var p := FindProduct(catalog, productId).value;
                items == old(items) + [LineItem(p.id, p.title, p.price, p.image, 1)]
      ensures WellFormed(old(items)) ==> WellFormed(items)
      ensures UniqueIds(old(items)) ==> UniqueIds(items)
    {
      if WellFormed(items) {
        AddPreservesWellFormed(items, catalog, productId);
      }
      if UniqueIds(items) {
        AddPreservesUniqueIds(items, catalog, productId);
      }
      var productToAdd := FindProduct(catalog, productId);
      if productToAdd.None? {
        return;
      }
      var existing := FindItem(items, productId);
      if existing.Some? {
        var i := existing.value;
        items := items[i := items[i].(quantity := items[i].quantity + 1)];
      } else {
        items := items + [Snapshot(productToAdd.value)];
      }
    }

    /**
     * `removeFromCart(productId)`: every row with that id goes, every other
     * row stays, as often as it occurred and in the same relative order.
     */
    method RemoveFromCart(productId: int)
      modifies this
      ensures items == RemoveItems(old(items), productId)
      ensures forall x :: x in items <==> x in old(items) && x.id != productId
      ensures forall x :: multiset(items)[x] == if x.id != productId then multiset(old(items))[x] else 0
      ensures IsSubseq(items, old(items))
      ensures WellFormed(old(items)) ==> WellFormed(items)
      ensures UniqueIds(old(items)) ==> UniqueIds(items)
      ensures UniqueIds(old(items)) && FindItem(old(items), productId).Some? ==>
                var i := FindItem(old(items), productId).value;
                items == old(items)[..i] + old(items)[i + 1..]
    {
      if WellFormed(items) {
        RemovePreservesWellFormed(items, productId);
      }
      if UniqueIds(items) {
        RemovePreservesUniqueIds(items, productId);
      }
      FilterCount(items, OtherId(productId));
      if UniqueIds(items) && FindItem(items, productId).Some? {
        RemoveDeletesRow(items, productId, FindItem(items, productId).value);
      }
      items := Filter(items, OtherId(productId));
    }

    /**
     * `updateQuantity(productId, quantity)`: no row with that id, no change;
     * otherwise that row's quantity becomes `quantity`, or 1 if `quantity` is
     * below 1, and nothing else changes.
     */
    method UpdateQuantity(productId: int, quantity: int)
      modifies this
      ensures items == SetQuantity(old(items), productId, quantity)
      ensures FindItem(old(items), productId).None? ==> items == old(items)
      ensures FindItem(old(items), productId).Some? ==>
                var i := FindItem(old(items), productId).value;
                && |items| == |old(items)|
                && items[i] == old(items)[i].(quantity := if quantity < 1 then 1 else quantity)
                && forall j :: 0 <= j < |items| && j != i ==> items[j] == old(items)[j]
      ensures WellFormed(old(items)) ==> WellFormed(items)
      ensures UniqueIds(old(items)) ==> UniqueIds(items)
    {
      if WellFormed(items) {
        SetQuantityPreservesWellFormed(items, productId, quantity);
      }
      if UniqueIds(items) {
        SetQuantityPreservesUniqueIds(items, productId, quantity);
      }
      var cartItem := FindItem(items, productId);
      if cartItem.Some? {
        var q := quantity;
        if q < 1 {
          q := 1;
        }
        var i := cartItem.value;
        items := items[i := items[i].(quantity := q)];
      }
    }

    /**
     * `handleCheckout`: an empty cart is refused and left as it is; otherwise
     * the charged total is the sum of price times quantity over the rows and
     * the cart is emptied.
     */
    method Checkout() returns (outcome: Result<int, CheckoutError>)
      modifies this
      ensures old(items) == [] ==> outcome == Failure(EmptyCart) && items == old(items)
      ensures old(items) != [] ==> outcome == Success(Sum(old(items), LineTotal)) && items == []
      ensures outcome.Success? ==> outcome.value == TotalPrice(old(items))
    {
      if |items| == 0 {
        return Failure(EmptyCart);
      }
      TotalsAreSums(items);
      var totalFinal := TotalPrice(items);
      items := [];
      return Success(totalFinal);
    }
  }
}
