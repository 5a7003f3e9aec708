/** The records of the shop's schema: menu categories, food items, cart
    entries, orders with their contact details and status, and the line items
    that snapshot a cart at checkout. Prices are integers in minor currency
    units. */
module Models {
  import opened Wrappers

  type UserId = nat
  type ItemId = nat
  type OrderId = nat

  /** The four menu categories of the category choice list. */
  datatype Category = Starters | MainCourse | Desserts | Beverages

  const CategoryChoices: seq<string> := ["Starters", "Main Course", "Desserts", "Beverages"]

  /** The value a category is stored as. */
  function CategoryName(c: Category): (s: string)
    ensures s in CategoryChoices
  {
    match c
    case Starters => "Starters"
    case MainCourse => "Main Course"
    case Desserts => "Desserts"
    case Beverages => "Beverages"
  }

  /** Reads a stored or requested category value; only the four choices parse. */
  function ParseCategory(s: string): (r: Option<Category>)
    ensures r.Some? <==> s in CategoryChoices
    ensures r.Some? ==> CategoryName(r.value) == s
  {
    if s == "Starters" then Some(Starters)
    else if s == "Main Course" then Some(MainCourse)
    else if s == "Desserts" then Some(Desserts)
    else if s == "Beverages" then Some(Beverages)
    else None
  }

  /** A menu entry. Its category is always one of the four choices. */
  datatype FoodItem = FoodItem(id: ItemId, name: string, description: string, price: int, category: Category)

  /** One row of a user's cart: the item it refers to and how many of it. */
  datatype CartEntry = CartEntry(user: UserId, itemId: ItemId, quantity: nat)

  /** The quantity a new cart entry or line item gets when none is given. */
  const DefaultQuantity: nat := 1

  /** The three order states of the status choice list. */
  datatype Status = Pending | Cancelled | Delivered

  const StatusChoices: seq<string> := ["Pending", "Cancelled", "Delivered"]

  /** The value a status is stored as. */
  function StatusName(st: Status): (s: string)
    ensures s in StatusChoices
  {
    match st
    case Pending => "Pending"
    case Cancelled => "Cancelled"
    case Delivered => "Delivered"
  }

  /** Membership in the status choice list: a submitted value is a status
      exactly when it is one of the three stored values. */
  function ParseStatus(s: string): (r: Option<Status>)
    ensures r.Some? <==> s in StatusChoices
    ensures r.Some? ==> StatusName(r.value) == s
  {
    if s == "Pending" then Some(Pending)
    else if s == "Cancelled" then Some(Cancelled)
    else if s == "Delivered" then Some(Delivered)
    else None
  }

  /** The delivery details an order is placed with and an owner may edit. */
  datatype Contact = Contact(fullName: string, email: string, phone: string, address: string)

  /** An order row. Its line items are stored apart from it, keyed by the
      order's id, so that deleting the order can take them with it. */
  datatype Order = Order(user: UserId, contact: Contact, orderedAt: nat, status: Status)

  /** A line item: a copy of an item's name and price taken at checkout, with
      the quantity that was in the cart. It does not refer to the menu. */
  datatype OrderItem = OrderItem(itemName: string, quantity: nat, price: int)

  /** The order total: the sum of price times quantity over its line items.
      It is derived, never stored. */
  function TotalPrice(items: seq<OrderItem>): (t: int)
    ensures items == [] ==> t == 0
    ensures (forall k :: 0 <= k < |items| ==> items[k].price >= 0) ==> t >= 0
  {
    if items == [] then 0 else items[0].price * items[0].quantity + TotalPrice(items[1..])
  }

  /** The total of two lists of line items put together is the sum of their totals. */
  lemma {:induction false} TotalPriceAppend(a: seq<OrderItem>, b: seq<OrderItem>)
    ensures TotalPrice(a + b) == TotalPrice(a) + TotalPrice(b)
  {
    if a != [] {
      assert (a + b)[1..] == a[1..] + b;
      TotalPriceAppend(a[1..], b);
    } else {
      assert a + b == b;
    }
  }
}
