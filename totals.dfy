/**
 * The two cart figures shown by `updateCartUI` and charged by
 * `handleCheckout`: the total price (sum of price times quantity) and the item
 * count (sum of quantities). The source computes both with
 * `Array.prototype.reduce`, a left fold from an initial 0; Sum is the
 * reference definition the fold is proved to agree with.
 */
module Totals {
  import opened Wrappers
  import opened Seqs
  import opened Catalog
  import opened LineItems

  function LineTotal(item: LineItem): int
  {
    item.price * item.quantity
  }

  function Quantity(item: LineItem): int
  {
    item.quantity
  }

  /** The sum of `f` over the rows. */
  function Sum(items: seq<LineItem>, f: LineItem -> int): int
  {
    if items == [] then 0 else f(items[0]) + Sum(items[1..], f)
  }

  /** The left fold that adds `f` of each row to a running sum starting at `acc`. */
  function Reduce(items: seq<LineItem>, f: LineItem -> int, acc: int): int
  {
    if items == [] then acc else Reduce(items[1..], f, acc + f(items[0]))
  }

  /** The cart total: price times quantity folded over the rows from 0 (app.js:268, 289). */
  function TotalPrice(items: seq<LineItem>): int
  {
    Reduce(items, LineTotal, 0)
  }

  /** The cart counter: quantities folded over the rows from 0 (app.js:272). */
  function ItemCount(items: seq<LineItem>): int
  {
    Reduce(items, Quantity, 0)
  }

  /** The left fold from `acc` adds the sum of the rows to `acc`. */
  lemma {:induction false} ReduceIsSum(items: seq<LineItem>, f: LineItem -> int, acc: int)
    ensures Reduce(items, f, acc) == acc + Sum(items, f)
  {
    if items != [] {
      ReduceIsSum(items[1..], f, acc + f(items[0]));
    }
  }

  /** The totals are the sums of price times quantity and of quantities; both are 0 for the empty cart. */
  lemma TotalsAreSums(items: seq<LineItem>)
    ensures TotalPrice(items) == Sum(items, LineTotal)
    ensures ItemCount(items) == Sum(items, Quantity)
    ensures items == [] ==> TotalPrice(items) == 0 && ItemCount(items) == 0
  {
    ReduceIsSum(items, LineTotal, 0);
    ReduceIsSum(items, Quantity, 0);
  }

  lemma {:induction false} SumAppend(a: seq<LineItem>, b: seq<LineItem>, f: LineItem -> int)
    ensures Sum(a + b, f) == Sum(a, f) + Sum(b, f)
  {
    if a == [] {
      assert a + b == b;
    } else {
      assert (a + b)[1..] == a[1..] + b;
      SumAppend(a[1..], b, f);
    }
  }

  lemma {:induction false} SumUpdate(s: seq<LineItem>, i: nat, x: LineItem, f: LineItem -> int)
    requires i < |s|
    ensures Sum(s[i := x], f) == Sum(s, f) - f(s[i]) + f(x)
  {
    if i > 0 {
      assert s[i := x][1..] == s[1..][i - 1 := x];
      SumUpdate(s[1..], i - 1, x, f);
    }
  }

  lemma SumWithout(s: seq<LineItem>, i: nat, f: LineItem -> int)
    requires i < |s|
    ensures Sum(s[..i] + s[i + 1..], f) == Sum(s, f) - f(s[i])
  {
    SplitAt(s, i);
    SumAppend(s[..i], [s[i]] + s[i + 1..], f);
    SumAppend([s[i]], s[i + 1..], f);
    SumAppend(s[..i], s[i + 1..], f);
  }

  /**
   * `addToCart(id)` raises the item count by one and the total by the row's
   * snapshot price when the product is known (the price stored in the cart
   * for a row already there, the catalog price for a new row), and changes
   * neither for an unknown product.
   */
  lemma TotalsAfterAdd(items: seq<LineItem>, catalog: seq<Product>, id: int)
    ensures ItemCount(AddItem(items, catalog, id)) == ItemCount(items) + (if FindProduct(catalog, id).Some? then 1 else 0)
    ensures TotalPrice(AddItem(items, catalog, id)) == TotalPrice(items) +
              match FindProduct(catalog, id)
              case None => 0
              case Some(p) =>
                match FindItem(items, id)
                case Some(i) => items[i].price
                case None => p.price
  {
    var r := AddItem(items, catalog, id);
    TotalsAreSums(items);
    TotalsAreSums(r);
    match FindProduct(catalog, id)
    case None =>
    case Some(p) =>
      match FindItem(items, id)
      case Some(i) =>
        var bumped := items[i].(quantity := items[i].quantity + 1);
        assert LineTotal(bumped) == LineTotal(items[i]) + items[i].price;
        SumUpdate(items, i, bumped, LineTotal);
        SumUpdate(items, i, bumped, Quantity);
      case None =>
        SumAppend(items, [Snapshot(p)], LineTotal);
        SumAppend(items, [Snapshot(p)], Quantity);
  }

  /** `removeFromCart(id)` on a cart with unique ids lowers the totals by exactly the removed row. */
  lemma TotalsAfterRemove(items: seq<LineItem>, id: int)
    requires UniqueIds(items)
    ensures TotalPrice(RemoveItems(items, id)) == TotalPrice(items) -
              match FindItem(items, id) case None => 0 case Some(i) => LineTotal(items[i])
    ensures ItemCount(RemoveItems(items, id)) == ItemCount(items) -
              match FindItem(items, id) case None => 0 case Some(i) => items[i].quantity
  {
    var r := RemoveItems(items, id);
    TotalsAreSums(items);
    TotalsAreSums(r);
    match FindItem(items, id)
    case None =>
      RemoveAbsentIsNoOp(items, id);
    case Some(i) =>
      RemoveDeletesRow(items, id, i);
      SumWithout(items, i, LineTotal);
      SumWithout(items, i, Quantity);
  }

  /** `updateQuantity(id, q)` moves the totals by the change of that row's quantity. */
  lemma TotalsAfterSetQuantity(items: seq<LineItem>, id: int, q: int)
    ensures ItemCount(SetQuantity(items, id, q)) == ItemCount(items) +
              match FindItem(items, id) case None => 0 case Some(i) => Clamp(q) - items[i].quantity
    ensures TotalPrice(SetQuantity(items, id, q)) == TotalPrice(items) +
              match FindItem(items, id) case None => 0 case Some(i) => items[i].price * (Clamp(q) - items[i].quantity)
  {
    TotalsAreSums(items);
    TotalsAreSums(SetQuantity(items, id, q));
    match FindItem(items, id)
    case None =>
    case Some(i) =>
      var row := items[i].(quantity := Clamp(q));
      assert LineTotal(row) - LineTotal(items[i]) == items[i].price * (Clamp(q) - items[i].quantity);
      SumUpdate(items, i, row, LineTotal);
      SumUpdate(items, i, row, Quantity);
  }

  lemma {:induction false} SumBounds(items: seq<LineItem>)
    requires forall i :: 0 <= i < |items| ==> items[i].quantity >= 1 && items[i].price >= 0
    ensures Sum(items, LineTotal) >= 0
    ensures Sum(items, Quantity) >= |items|
  {
    if items != [] {
      assert LineTotal(items[0]) >= 0;
      SumBounds(items[1..]);
    }
  }

  /**
   * On a well-formed cart the total is never negative and the item count is
   * at least the number of rows, so the cart counter (shown when the count
   * is positive) is shown exactly when the cart has rows.
   */
  lemma WellFormedTotals(items: seq<LineItem>)
    requires WellFormed(items)
    ensures TotalPrice(items) >= 0
    ensures ItemCount(items) >= |items|
    ensures ItemCount(items) > 0 <==> items != []
  {
    TotalsAreSums(items);
    SumBounds(items);
  }
}
