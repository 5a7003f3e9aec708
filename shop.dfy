/** The shop's stored state and its views: the cart views, checkout, the
    owner's edit and cancel of an order, the staff's status change and delete,
    and the owner's order history. The current user is a parameter of every
    view that needs one; the outcome of form validation is a parameter too. */
module Shop {
  import opened Wrappers
  import opened Models
  import Catalog
  import Cart
  import LineItems
  import OrderHistory

  /** Why a view made no change. */
  datatype Error =
    | ItemNotFound      // no menu item has the requested id
    | EntryNotFound     // the user's cart has no entry for the requested item
    | OrderNotFound     // no such order, or, for the owner's views, not the user's order
    | EmptyCart         // checkout with nothing in the user's cart
    | InvalidForm       // the submitted form did not validate
    | NotPending        // an owner's edit or cancel of an order that is no longer pending
    | InvalidStatus     // a status value outside the status choices
    | NegativeQuantity  // storage refuses a quantity below zero

  class Store {
    var catalog: seq<FoodItem>
    var cart: seq<CartEntry>
    var orders: map<OrderId, Order>
    /** The line items of each order, keyed by the order's id. */
    var lineItems: map<OrderId, seq<OrderItem>>
    /** The id the next order gets. */
    var nextOrderId: OrderId
    /** The time stamp the next order gets; it only grows. */
    var clock: nat

    /** Every cart entry refers to a menu item, there is at most one entry per
        (user, item), every order has its line items and every line item list
        its order, and ids were handed out in placement order. */
    ghost predicate Valid()
      reads this
    {
      && Cart.ItemsKnown(cart, catalog)
      && Cart.Unique(cart)
      && orders.Keys == lineItems.Keys
      && OrderHistory.StampedBefore(orders, nextOrderId, clock)
      && OrderHistory.TimeOrdered(orders)
    }

    /** A shop with the given menu, no carts and no orders. */
    constructor (menu: seq<FoodItem>)
      ensures Valid()
      ensures catalog == menu && cart == [] && orders == map[] && lineItems == map[]
    {
      catalog := menu;
      cart := [];
      orders := map[];
      lineItems := map[];
      nextOrderId := 1;
      clock := 0;
    }

    /** add_to_cart: one more of the item for the user, or a new entry with
        quantity 1; the user's total rises by the item's price. */
    method AddToCart(user: UserId, item: ItemId) returns (r: Result<(), Error>)
      requires Valid()
      modifies this
      ensures Valid()
      ensures catalog == old(catalog) && orders == old(orders) && lineItems == old(lineItems)
      ensures nextOrderId == old(nextOrderId) && clock == old(clock)
      ensures r.Ok? <==> Catalog.Find(catalog, item).Some?
      ensures r.Err? ==> r.error == ItemNotFound && cart == old(cart)
      ensures r.Ok? ==> cart == Cart.AddEntry(old(cart), user, item)
      ensures r.Ok? ==> (Cart.Quantity(cart, user, item) ==
        Some(match Cart.Quantity(old(cart), user, item) case None => 1 case Some(q) => q + 1))
      ensures r.Ok? ==> (Cart.CartTotal(cart, catalog, user) ==
        old(Cart.CartTotal(cart, catalog, user)) + Cart.UnitPrice(catalog, item))
      ensures forall u :: u != user ==> Cart.UserEntries(cart, u) == Cart.UserEntries(old(cart), u)
    {
      if Catalog.Find(catalog, item).None? {
        return Err(ItemNotFound);
      }
      Cart.AddEntryEffect(cart, user, item);
      Cart.AddEntryTotal(cart, catalog, user, item);
      match Cart.IndexOf(cart, user, item) {
        case Some(k) =>
          cart := Cart.SetQuantityAt(cart, k, cart[k].quantity + 1);
        case None =>
          cart := cart + [CartEntry(user, item, DefaultQuantity)];
      }
      r := Ok(());
    }

    /** remove_from_cart: deletes the user's entry for the item and nothing
        else; fails when there is none. */
    method RemoveFromCart(user: UserId, item: ItemId) returns (r: Result<(), Error>)
      requires Valid()
      modifies this
      ensures Valid()
      ensures catalog == old(catalog) && orders == old(orders) && lineItems == old(lineItems)
      ensures nextOrderId == old(nextOrderId) && clock == old(clock)
      ensures r.Ok? <==> Cart.Quantity(old(cart), user, item).Some?
      ensures r.Err? ==> r.error == EntryNotFound && cart == old(cart)
      ensures r.Ok? ==> cart == Cart.RemoveAt(old(cart), Cart.IndexOf(old(cart), user, item).value)
      ensures r.Ok? ==> forall e :: e in cart <==> e in old(cart) && !Cart.IsFor(e, user, item)
      ensures Cart.Quantity(cart, user, item).None?
      ensures r.Ok? ==> (Cart.CartTotal(cart, catalog, user)
        + old(Cart.Quantity(cart, user, item)).value * Cart.UnitPrice(catalog, item)
        == old(Cart.CartTotal(cart, catalog, user)))
      ensures forall u :: u != user ==> Cart.UserEntries(cart, u) == Cart.UserEntries(old(cart), u)
    {
      match Cart.IndexOf(cart, user, item) {
        case None =>
          return Err(EntryNotFound);
        case Some(k) =>
          Cart.RemoveAtEffect(cart, user, item);
          Cart.RemoveTotal(cart, catalog, user, item);
          cart := Cart.RemoveAt(cart, k);
          return Ok(());
      }
    }

    /** update_quantity_ajax: overwrites the quantity of the user's entry for
        the item and answers with the new quantity and the user's new cart
        total. Zero is accepted; storage refuses a negative quantity. */
    method UpdateQuantity(user: UserId, item: ItemId, quantity: int) returns (r: Result<(nat, int), Error>)
      requires Valid()
      modifies this
      ensures Valid()
      ensures catalog == old(catalog) && orders == old(orders) && lineItems == old(lineItems)
      ensures nextOrderId == old(nextOrderId) && clock == old(clock)
      ensures r.Ok? <==> Cart.Quantity(old(cart), user, item).Some? && quantity >= 0
      ensures Cart.Quantity(old(cart), user, item).None? ==> r == Err(EntryNotFound)
      ensures Cart.Quantity(old(cart), user, item).Some? && quantity < 0 ==> r == Err(NegativeQuantity)
      ensures r.Err? ==> cart == old(cart)
      ensures r.Ok? ==> cart == Cart.SetQuantityAt(old(cart), Cart.IndexOf(old(cart), user, item).value, quantity)
      ensures r.Ok? ==> Cart.Quantity(cart, user, item) == Some(quantity) && r.value.0 == quantity
      ensures forall u, i :: (u != user || i != item) ==> Cart.Quantity(cart, u, i) == Cart.Quantity(old(cart), u, i)
      ensures r.Ok? ==> r.value.1 == Cart.CartTotal(cart, catalog, user)
      ensures r.Ok? ==> (r.value.1 + old(Cart.Quantity(cart, user, item)).value * Cart.UnitPrice(catalog, item)
        == old(Cart.CartTotal(cart, catalog, user)) + quantity * Cart.UnitPrice(catalog, item))
      ensures forall u :: u != user ==> Cart.UserEntries(cart, u) == Cart.UserEntries(old(cart), u)
    {
      match Cart.IndexOf(cart, user, item) {
        case None =>
          return Err(EntryNotFound);
        case Some(k) =>
          if quantity < 0 {
            return Err(NegativeQuantity);
          }
          Cart.SetQuantityAtEffect(cart, k, quantity);
          Cart.SetQuantityTotal(cart, catalog, user, item, quantity);
          cart := Cart.SetQuantityAt(cart, k, quantity);
          var total := Cart.CartTotal(cart, catalog, user);
          return Ok((quantity, total));
      }
    }

    /** cart_drawer: the user's entries and their total at live prices. */
    method CartDrawer(user: UserId) returns (entries: seq<CartEntry>, total: int)
      requires Valid()
      ensures forall e :: e in entries <==> e in cart && e.user == user
      ensures entries == Cart.UserEntries(cart, user)
      ensures total == Cart.CartTotal(cart, catalog, user)
      ensures entries == [] ==> total == 0
    {
      entries := Cart.UserEntries(cart, user);
      total := Cart.EntriesTotal(entries, catalog);
    }

    /** checkout (the submitted form): refuses an empty cart and an invalid
        form; otherwise places one pending order for the user with the
        submitted contact details, records one line item per cart entry and
        empties the user's cart. */
    method Checkout(user: UserId, contact: Contact, formValid: bool) returns (r: Result<OrderId, Error>)
      requires Valid()
      modifies this
      ensures Valid()
      ensures catalog == old(catalog)
      ensures r.Ok? <==> Cart.UserEntries(old(cart), user) != [] && formValid
      ensures Cart.UserEntries(old(cart), user) == [] ==> r == Err(EmptyCart)
      ensures Cart.UserEntries(old(cart), user) != [] && !formValid ==> r == Err(InvalidForm)
      ensures r.Err? ==> cart == old(cart) && orders == old(orders) && lineItems == old(lineItems)
      ensures r.Err? ==> nextOrderId == old(nextOrderId) && clock == old(clock)
      ensures r.Ok? ==> r.value !in old(orders)
      ensures r.Ok? ==> nextOrderId == old(nextOrderId) + 1 && clock == old(clock) + 1
      ensures r.Ok? ==> orders == old(orders)[r.value := Order(user, contact, old(clock), Pending)]
      ensures r.Ok? ==> lineItems == old(lineItems)[r.value := LineItems.Snapshot(Cart.UserEntries(old(cart), user), catalog)]
      ensures r.Ok? ==> |lineItems[r.value]| == |Cart.UserEntries(old(cart), user)|
      ensures r.Ok? ==> forall k :: 0 <= k < |lineItems[r.value]| ==>
        lineItems[r.value][k] == LineItems.LineItem(Cart.UserEntries(old(cart), user)[k], catalog)
      ensures r.Ok? ==> TotalPrice(lineItems[r.value]) == old(Cart.CartTotal(cart, catalog, user))
      ensures r.Ok? ==> cart == Cart.OtherEntries(old(cart), user) && Cart.UserEntries(cart, user) == []
      ensures forall u :: u != user ==> Cart.UserEntries(cart, u) == Cart.UserEntries(old(cart), u)
    {
      var entries := Cart.UserEntries(cart, user);
      if entries == [] {
        return Err(EmptyCart);
      }
      if !formValid {
        return Err(InvalidForm);
      }
      var id := PlaceOrder(user, contact, entries);
      LineItems.SnapshotTotal(entries, catalog);
      forall k | 0 <= k < |entries|
        ensures lineItems[id][k] == LineItems.LineItem(entries[k], catalog)
      {
        LineItems.SnapshotAt(entries, catalog, k);
      }
      Cart.ClearUser(cart, catalog, user);
      cart := Cart.OtherEntries(cart, user);
      return Ok(id);
    }

    /** The part of checkout that records the order: a pending order under
        the next id with the current time stamp, and its line items. */
    method PlaceOrder(user: UserId, contact: Contact, entries: seq<CartEntry>) returns (id: OrderId)
      requires orders.Keys == lineItems.Keys
      requires OrderHistory.StampedBefore(orders, nextOrderId, clock) && OrderHistory.TimeOrdered(orders)
      requires Cart.ItemsKnown(entries, catalog)
      modifies this`orders, this`lineItems, this`nextOrderId, this`clock
      ensures orders.Keys == lineItems.Keys
      ensures OrderHistory.StampedBefore(orders, nextOrderId, clock) && OrderHistory.TimeOrdered(orders)
      ensures id == old(nextOrderId) && id !in old(orders)
      ensures nextOrderId == old(nextOrderId) + 1 && clock == old(clock) + 1
      ensures orders == old(orders)[id := Order(user, contact, old(clock), Pending)]
      ensures lineItems == old(lineItems)[id := LineItems.Snapshot(entries, catalog)]
    {
      id := nextOrderId;
      OrderHistory.PlaceKeepsOrder(orders, id, clock, Order(user, contact, clock, Pending));
      orders := orders[id := Order(user, contact, clock, Pending)];
      nextOrderId := nextOrderId + 1;
      clock := clock + 1;
      var items := BuildLineItems(entries);
      lineItems := lineItems[id := items];
    }

    /** The line items checkout creates for the given cart entries, one
        after the other in the entries' order, each copying its item's name
        and current price. */
    method BuildLineItems(entries: seq<CartEntry>) returns (items: seq<OrderItem>)
      requires Cart.ItemsKnown(entries, catalog)
      ensures items == LineItems.Snapshot(entries, catalog)
    {
      items := [];
      var i := 0;
      while i < |entries|
        invariant 0 <= i <= |entries|
        invariant Cart.ItemsKnown(entries[..i], catalog)
        invariant items == LineItems.Snapshot(entries[..i], catalog)
      {
        var e := entries[i];
        var food := Catalog.Find(catalog, e.itemId).value;
        assert entries[..i + 1][..i] == entries[..i];
        items := items + [OrderItem(food.name, e.quantity, food.price)];
        i := i + 1;
      }
      assert entries[..i] == entries;
    }

    /** edit_order (the submitted form): the owner may change the contact
        details of a pending order, and nothing else of it. */
    method EditOrder(user: UserId, id: OrderId, contact: Contact, formValid: bool) returns (r: Result<(), Error>)
      requires Valid()
      modifies this
      ensures Valid()
      ensures catalog == old(catalog) && cart == old(cart) && lineItems == old(lineItems)
      ensures nextOrderId == old(nextOrderId) && clock == old(clock)
      ensures (id !in old(orders) || old(orders)[id].user != user) ==> r == Err(OrderNotFound)
      ensures id in old(orders) && old(orders)[id].user == user && old(orders)[id].status != Pending ==> r == Err(NotPending)
      ensures id in old(orders) && old(orders)[id].user == user && old(orders)[id].status == Pending && !formValid ==> r == Err(InvalidForm)
      ensures r.Ok? <==> id in old(orders) && old(orders)[id].user == user && old(orders)[id].status == Pending && formValid
      ensures r.Err? ==> orders == old(orders)
      ensures r.Ok? ==> orders == old(orders)[id := old(orders)[id].(contact := contact)]
    {
      if id !in orders || orders[id].user != user {
        return Err(OrderNotFound);
      }
      if orders[id].status != Pending {
        return Err(NotPending);
      }
      if !formValid {
        return Err(InvalidForm);
      }
      orders := orders[id := orders[id].(contact := contact)];
      return Ok(());
    }

    /** cancel_order: the owner may cancel a pending order, and only that. */
    method CancelOrder(user: UserId, id: OrderId) returns (r: Result<(), Error>)
      requires Valid()
      modifies this
      ensures Valid()
      ensures catalog == old(catalog) && cart == old(cart) && lineItems == old(lineItems)
      ensures nextOrderId == old(nextOrderId) && clock == old(clock)
      ensures (id !in old(orders) || old(orders)[id].user != user) ==> r == Err(OrderNotFound)
      ensures id in old(orders) && old(orders)[id].user == user && old(orders)[id].status != Pending ==> r == Err(NotPending)
      ensures r.Ok? <==> id in old(orders) && old(orders)[id].user == user && old(orders)[id].status == Pending
      ensures r.Err? ==> orders == old(orders)
      ensures r.Ok? ==> orders == old(orders)[id := old(orders)[id].(status := Cancelled)]
    {
      if id !in orders || orders[id].user != user {
        return Err(OrderNotFound);
      }
      if orders[id].status != Pending {
        return Err(NotPending);
      }
      orders := orders[id := orders[id].(status := Cancelled)];
      return Ok(());
    }

    /** update_order_status (staff, submitted form): sets any order to any of
        the three statuses; any other value changes nothing. */
    method UpdateOrderStatus(id: OrderId, newStatus: string) returns (r: Result<(), Error>)
      requires Valid()
      modifies this
      ensures Valid()
      ensures catalog == old(catalog) && cart == old(cart) && lineItems == old(lineItems)
      ensures nextOrderId == old(nextOrderId) && clock == old(clock)
      ensures id !in old(orders) ==> r == Err(OrderNotFound)
      ensures id in old(orders) && newStatus !in StatusChoices ==> r == Err(InvalidStatus)
      ensures r.Ok? <==> id in old(orders) && newStatus in StatusChoices
      ensures r.Err? ==> orders == old(orders)
      ensures r.Ok? ==> orders == old(orders)[id := old(orders)[id].(status := ParseStatus(newStatus).value)]
      ensures r.Ok? ==> StatusName(orders[id].status) == newStatus
    {
      if id !in orders {
        return Err(OrderNotFound);
      }
      match ParseStatus(newStatus) {
        case None =>
          return Err(InvalidStatus);
        case Some(st) =>
          orders := orders[id := orders[id].(status := st)];
          return Ok(());
      }
    }

    /** delete_order (staff): removes the order and, with it, its line items. */
    method DeleteOrder(id: OrderId) returns (r: Result<(), Error>)
      requires Valid()
      modifies this
      ensures Valid()
      ensures catalog == old(catalog) && cart == old(cart)
      ensures nextOrderId == old(nextOrderId) && clock == old(clock)
      ensures r.Ok? <==> id in old(orders)
      ensures r.Err? ==> r.error == OrderNotFound && orders == old(orders) && lineItems == old(lineItems)
      ensures r.Ok? ==> orders == old(orders) - {id} && lineItems == old(lineItems) - {id}
      ensures id !in orders && id !in lineItems
    {
      if id !in orders {
        return Err(OrderNotFound);
      }
      orders := orders - {id};
      lineItems := lineItems - {id};
      return Ok(());
    }

    /** my_orders: the user's orders, each once, latest first. */
    method MyOrders(user: UserId) returns (ids: seq<OrderId>)
      requires Valid()
      ensures forall id :: id in ids <==> id in orders && orders[id].user == user
      ensures forall j, k :: 0 <= j < k < |ids| ==> ids[j] != ids[k]
      ensures forall j, k :: 0 <= j < k < |ids| ==>
        ids[j] in orders && ids[k] in orders && orders[ids[j]].orderedAt > orders[ids[k]].orderedAt
    {
      ids := OrderHistory.NewestFirst(orders, user, nextOrderId);
      OrderHistory.NewestFirstByTime(orders, user, nextOrderId);
    }

    /** A change of a menu item's price, as the administration site makes it.
        Orders keep the prices they copied: no order total moves, while carts
        are priced afresh. */
    method ChangePrice(item: ItemId, price: int) returns (r: Result<(), Error>)
      requires Valid()
      modifies this
      ensures Valid()
      ensures cart == old(cart) && orders == old(orders) && lineItems == old(lineItems)
      ensures nextOrderId == old(nextOrderId) && clock == old(clock)
      ensures r.Ok? <==> Catalog.Find(old(catalog), item).Some?
      ensures r.Err? ==> r.error == ItemNotFound && catalog == old(catalog)
      ensures r.Ok? ==> Catalog.Find(catalog, item).Some? && Cart.UnitPrice(catalog, item) == price
      ensures r.Ok? ==> catalog == old(catalog)[Catalog.IndexOfItem(old(catalog), item).value :=
        old(catalog)[Catalog.IndexOfItem(old(catalog), item).value].(price := price)]
      ensures forall id :: id in lineItems ==> TotalPrice(lineItems[id]) == old(TotalPrice(lineItems[id]))
    {
      match Catalog.IndexOfItem(catalog, item) {
        case None =>
          return Err(ItemNotFound);
        case Some(k) =>
          var next := catalog[k := catalog[k].(price := price)];
          forall id | true
            ensures Catalog.IndexOfItem(next, id) == Catalog.IndexOfItem(catalog, id)
          {
            Catalog.SameIdsSameIndex(catalog, next, id);
          }
          catalog := next;
          return Ok(());
      }
    }
  }
}
