/**
 * Cart line items and the three cart edits as functions from the old list of
 * line items to the new one. The class in cart_store.dfy performs these edits
 * in place and is specified by them; the lemmas here are what the edits
 * guarantee about the cart.
 */
module LineItems {
  import opened Wrappers
  import opened Seqs
  import opened Catalog

  /**
   * One cart row: a snapshot of the product's id, title, price (cents) and
   * image taken when it was first added, and a quantity. Price and quantity
   * are plain integers because a cart read back from storage may hold any
   * numbers.
   */
  datatype LineItem = LineItem(id: int, title: string, price: int, image: string, quantity: int)

  /** The row `addToCart` appends for a product not yet in the cart. */
  function Snapshot(p: Product): LineItem
  {
    LineItem(p.id, p.title, p.price, p.image, 1)
  }

  function HasItemId(id: int): LineItem -> bool
  {
    (item: LineItem) => item.id == id
  }

  function OtherId(id: int): LineItem -> bool
  {
    (item: LineItem) => item.id != id
  }

  /** Index of the first row with this id, or None: the row lookup of `addToCart` and `updateQuantity` (app.js:189, 229). */
  function FindItem(items: seq<LineItem>, id: int): (r: Option<nat>)
    ensures r.Some? ==> r.value < |items| && items[r.value].id == id
    ensures r.Some? ==> forall j :: 0 <= j < r.value ==> items[j].id != id
    ensures r.None? <==> forall j :: 0 <= j < |items| ==> items[j].id != id
  {
    FindIndex(items, HasItemId(id))
  }

  /** At most one row per product id. */
  predicate UniqueIds(items: seq<LineItem>)
  {
    forall i, j :: 0 <= i < j < |items| ==> items[i].id != items[j].id
  }

  /** The shape every edit keeps: unique ids, positive quantities, non-negative prices. */
  predicate WellFormed(items: seq<LineItem>)
  {
    && UniqueIds(items)
    && forall i :: 0 <= i < |items| ==> items[i].quantity >= 1 && items[i].price >= 0
  }

  /** The quantity floor of `updateQuantity`: anything below 1 becomes 1. */
  function Clamp(q: int): (r: int)
    ensures r >= 1
    ensures q >= 1 ==> r == q
    ensures q < 1 ==> r == 1
  {
    if q < 1 then 1 else q
  }

  /** `addToCart(id)`: bump the existing row, append a snapshot, or do nothing for an unknown product. */
  function AddItem(items: seq<LineItem>, catalog: seq<Product>, id: int): seq<LineItem>
  {
    match FindProduct(catalog, id)
    case None => items
    case Some(p) =>
      match FindItem(items, id)
      case Some(i) => items[i := items[i].(quantity := items[i].quantity + 1)]
      case None => items + [Snapshot(p)]
  }

  /** `removeFromCart(id)`: keep the rows whose id differs, in order (app.js:217). */
  function RemoveItems(items: seq<LineItem>, id: int): seq<LineItem>
  {
    Filter(items, OtherId(id))
  }

  /** `updateQuantity(id, q)`: set the first matching row's quantity to the clamped value. */
  function SetQuantity(items: seq<LineItem>, id: int, q: int): seq<LineItem>
  {
    match FindItem(items, id)
    case None => items
    case Some(i) => items[i := items[i].(quantity := Clamp(q))]
  }

  /** `n` successive `addToCart(id)` calls. */
  function AddTimes(items: seq<LineItem>, catalog: seq<Product>, id: int, n: nat): seq<LineItem>
  {
    if n == 0 then items else AddItem(AddTimes(items, catalog, id, n - 1), catalog, id)
  }

  /** Adding keeps ids unique: an existing row is bumped in place, a new id is appended. */
  lemma AddPreservesUniqueIds(items: seq<LineItem>, catalog: seq<Product>, id: int)
    requires UniqueIds(items)
    ensures UniqueIds(AddItem(items, catalog, id))
  {
    match FindProduct(catalog, id)
    case None =>
    case Some(p) =>
      match FindItem(items, id)
      case Some(i) =>
      case None =>
        var r := items + [Snapshot(p)];
        assert forall j :: 0 <= j < |items| ==> r[j] == items[j];
        assert r[|items|].id == id;
  }

  /** Adding keeps a well-formed cart well-formed. */
  lemma AddPreservesWellFormed(items: seq<LineItem>, catalog: seq<Product>, id: int)
    requires WellFormed(items)
    ensures WellFormed(AddItem(items, catalog, id))
  {
    AddPreservesUniqueIds(items, catalog, id);
    match FindProduct(catalog, id)
    case None =>
    case Some(p) =>
      match FindItem(items, id)
      case Some(i) =>
      case None =>
        var r := items + [Snapshot(p)];
        assert forall j :: 0 <= j < |items| ==> r[j] == items[j];
  }

  /** Removing keeps ids unique. */
  lemma {:induction false} RemovePreservesUniqueIds(items: seq<LineItem>, id: int)
    requires UniqueIds(items)
    ensures UniqueIds(RemoveItems(items, id))
  {
    if items != [] {
      var rest := items[1..];
      assert UniqueIds(rest) by {
        assert forall i :: 0 <= i < |rest| ==> rest[i] == items[i + 1];
      }
      RemovePreservesUniqueIds(rest, id);
      var tail := RemoveItems(rest, id);
      if items[0].id != id {
        assert [items[0]] + tail == RemoveItems(items, id);
        forall j | 0 <= j < |tail|
          ensures tail[j].id != items[0].id
        {
          assert tail[j] in rest;
          var k :| 0 <= k < |rest| && rest[k] == tail[j];
          assert rest[k] == items[k + 1];
        }
        ConsUniqueIds(items[0], tail);
      }
    }
  }

  /** A row put in front of rows with unique ids, none of them its own, gives unique ids. */
  lemma ConsUniqueIds(x: LineItem, tail: seq<LineItem>)
    requires UniqueIds(tail)
    requires forall j :: 0 <= j < |tail| ==> tail[j].id != x.id
    ensures UniqueIds([x] + tail)
  {
    var r := [x] + tail;
    assert forall j :: 1 <= j < |r| ==> r[j] == tail[j - 1];
  }

  /** Removing keeps a well-formed cart well-formed and leaves no row with the removed id. */
  lemma RemovePreservesWellFormed(items: seq<LineItem>, id: int)
    requires WellFormed(items)
    ensures WellFormed(RemoveItems(items, id))
    ensures FindItem(RemoveItems(items, id), id).None?
  {
    RemovePreservesUniqueIds(items, id);
    var r := RemoveItems(items, id);
    forall j | 0 <= j < |r|
      ensures r[j].quantity >= 1 && r[j].price >= 0 && r[j].id != id
    {
      assert r[j] in r;
      var k :| 0 <= k < |items| && items[k] == r[j];
    }
  }

  /** Rows with other ids pass `removeFromCart`'s filter unchanged. */
  lemma KeepsOthers(rows: seq<LineItem>, id: int)
    requires forall j :: 0 <= j < |rows| ==> rows[j].id != id
    ensures Filter(rows, OtherId(id)) == rows
  {
    forall x | x in rows ensures OtherId(id)(x) {
      var k :| 0 <= k < |rows| && rows[k] == x;
    }
    FilterKeepsAll(rows, OtherId(id));
  }

  /** On a cart with unique ids, removing an id that is present deletes exactly that row. */
  lemma RemoveDeletesRow(items: seq<LineItem>, id: int, i: nat)
    requires UniqueIds(items)
    requires FindItem(items, id) == Some(i)
    ensures RemoveItems(items, id) == items[..i] + items[i + 1..]
  {
    var before, after := items[..i], items[i + 1..];
    KeepsOthers(before, id);
    assert forall j :: 0 <= j < |after| ==> after[j] == items[i + 1 + j];
    KeepsOthers(after, id);
    calc {
      RemoveItems(items, id);
      { SplitAt(items, i); }
      Filter(before + ([items[i]] + after), OtherId(id));
      { FilterAppend(before, [items[i]] + after, OtherId(id)); }
      Filter(before, OtherId(id)) + Filter([items[i]] + after, OtherId(id));
      { assert ([items[i]] + after)[1..] == after; }
      before + Filter(after, OtherId(id));
      before + after;
    }
  }

  /** Removing an id that is not in the cart changes nothing. */
  lemma RemoveAbsentIsNoOp(items: seq<LineItem>, id: int)
    requires FindItem(items, id).None?
    ensures RemoveItems(items, id) == items
  {
    assert forall x :: x in items ==> x.id != id;
    FilterKeepsAll(items, OtherId(id));
  }

  /** Setting a quantity changes no id, so ids stay unique. */
  lemma SetQuantityPreservesUniqueIds(items: seq<LineItem>, id: int, q: int)
    requires UniqueIds(items)
    ensures UniqueIds(SetQuantity(items, id, q))
  {
  }

  /** Setting a quantity keeps a well-formed cart well-formed. */
  lemma SetQuantityPreservesWellFormed(items: seq<LineItem>, id: int, q: int)
    requires WellFormed(items)
    ensures WellFormed(SetQuantity(items, id, q))
  {
  }

  /**
   * `n >= 1` additions of a catalog product that is not yet in the cart leave
   * exactly one row for it, appended after the old rows, with quantity `n`.
   */
  lemma {:induction false} RepeatedAdd(items: seq<LineItem>, catalog: seq<Product>, id: int, n: nat)
    requires FindProduct(catalog, id).Some? && FindItem(items, id).None? && n >= 1
    ensures |AddTimes(items, catalog, id, n)| == |items| + 1
    ensures AddTimes(items, catalog, id, n)[..|items|] == items
    ensures AddTimes(items, catalog, id, n)[|items|] == Snapshot(FindProduct(catalog, id).value).(quantity := n)
    ensures forall j :: 0 <= j < |items| ==> AddTimes(items, catalog, id, n)[j].id != id
  {
    var p := FindProduct(catalog, id).value;
    if n == 1 {
      assert AddTimes(items, catalog, id, 0) == items;
      assert (items + [Snapshot(p)])[..|items|] == items;
    } else {
      RepeatedAdd(items, catalog, id, n - 1);
      var prev := AddTimes(items, catalog, id, n - 1);
      AddBumpsLast(prev, catalog, id, |items|);
      var cur := AddTimes(items, catalog, id, n);
      assert cur == AddItem(prev, catalog, id);
      assert cur[..|items|] == items;
      assert prev[|items|] == LineItem(p.id, p.title, p.price, p.image, n - 1);
      assert cur[|items|] == LineItem(p.id, p.title, p.price, p.image, n);
      forall j | 0 <= j < |items| ensures cur[j].id != id {
        assert cur[j] == cur[..|items|][j];
      }
    }
  }

  /** Adding a product whose only row is the last one raises that row's quantity and changes nothing else. */
  lemma AddBumpsLast(prev: seq<LineItem>, catalog: seq<Product>, id: int, k: nat)
    requires FindProduct(catalog, id).Some? && |prev| == k + 1 && prev[k].id == id
    requires forall j :: 0 <= j < k ==> prev[j].id != id
    ensures |AddItem(prev, catalog, id)| == k + 1
    ensures AddItem(prev, catalog, id)[..k] == prev[..k]
    ensures AddItem(prev, catalog, id)[k] == prev[k].(quantity := prev[k].quantity + 1)
  {
    assert FindItem(prev, id) == Some(k);
    var r := prev[k := prev[k].(quantity := prev[k].quantity + 1)];
    assert r[..k] == prev[..k];
  }

  /**
   * Removing a product and adding it again yields a fresh snapshot of the
   * current catalog entry, with quantity 1, at the end of the cart.
   */
  lemma RemoveThenAdd(items: seq<LineItem>, catalog: seq<Product>, id: int)
    requires FindProduct(catalog, id).Some?
    ensures AddItem(RemoveItems(items, id), catalog, id)
            == RemoveItems(items, id) + [Snapshot(FindProduct(catalog, id).value)]
  {
    var r := RemoveItems(items, id);
    assert forall j :: 0 <= j < |r| ==> r[j] in r;
  }
}
