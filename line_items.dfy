/** What checkout records about a cart: one line item per cart entry, copying
    the item's name and its price at that moment together with the entry's
    quantity. */
module LineItems {
  import opened Models
  import Catalog
  import Cart

  /** The line item recording one cart entry at the menu's current prices. */
  function LineItem(e: CartEntry, catalog: seq<FoodItem>): (li: OrderItem)
    requires Catalog.Find(catalog, e.itemId).Some?
    ensures li.quantity == e.quantity
    ensures li.price == Cart.UnitPrice(catalog, e.itemId)
    ensures exists x :: x in catalog && x.id == e.itemId && li.itemName == x.name && li.price == x.price
  {
    var food := Catalog.Find(catalog, e.itemId).value;
    OrderItem(food.name, e.quantity, food.price)
  }

  /** The line items for some cart entries, in the entries' order. */
  function Snapshot(es: seq<CartEntry>, catalog: seq<FoodItem>): (r: seq<OrderItem>)
    requires Cart.ItemsKnown(es, catalog)
    ensures |r| == |es|
  {
    if es == [] then []
    else
      assert forall e :: e in es[..|es| - 1] ==> e in es;
      Snapshot(es[..|es| - 1], catalog) + [LineItem(es[|es| - 1], catalog)]
  }

  /** The k-th line item records the k-th entry: its item's name, its
      quantity and its item's price. */
  lemma {:induction false} SnapshotAt(es: seq<CartEntry>, catalog: seq<FoodItem>, k: nat)
    requires Cart.ItemsKnown(es, catalog) && k < |es|
    ensures Snapshot(es, catalog)[k] == LineItem(es[k], catalog)
    ensures Snapshot(es, catalog)[k].itemName == Catalog.Find(catalog, es[k].itemId).value.name
    ensures Snapshot(es, catalog)[k].quantity == es[k].quantity
    ensures Snapshot(es, catalog)[k].price == Cart.UnitPrice(catalog, es[k].itemId)
  {
    var init := es[..|es| - 1];
    assert forall e :: e in init ==> e in es;
    if k < |es| - 1 {
      SnapshotAt(init, catalog, k);
    }
  }

  /** Recording one more entry adds its line item at the end. */
  lemma SnapshotLast(es: seq<CartEntry>, catalog: seq<FoodItem>)
    requires Cart.ItemsKnown(es, catalog) && es != []
    ensures Cart.ItemsKnown(es[..|es| - 1], catalog)
    ensures Snapshot(es, catalog) == Snapshot(es[..|es| - 1], catalog) + [LineItem(es[|es| - 1], catalog)]
  {
    assert forall e :: e in es[..|es| - 1] ==> e in es;
  }

  /** One line item contributes its price times its quantity. */
  lemma TotalPriceLast(items: seq<OrderItem>, li: OrderItem)
    ensures TotalPrice(items + [li]) == TotalPrice(items) + li.price * li.quantity
  {
    TotalPriceAppend(items, [li]);
    assert [li][1..] == [];
  }

  /** The recorded items total what the entries cost at the prices copied:
      the order's total equals the cart total at the moment of checkout. */
  lemma {:induction false} SnapshotTotal(es: seq<CartEntry>, catalog: seq<FoodItem>)
    requires Cart.ItemsKnown(es, catalog)
    ensures TotalPrice(Snapshot(es, catalog)) == Cart.EntriesTotal(es, catalog)
  {
    if es != [] {
      var init, last := es[..|es| - 1], es[|es| - 1];
      SnapshotLast(es, catalog);
      SnapshotTotal(init, catalog);
      var li := LineItem(last, catalog);
      TotalPriceLast(Snapshot(init, catalog), li);
      Cart.EntriesTotalLast(es, catalog);
      var p, q := li.price, li.quantity;
      assert p * q == q * p;
    }
  }
}
