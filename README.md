# Eatzy cart-to-order core

A Dafny model of the part of the Eatzy food-ordering site that turns a
user's cart into an order. It covers:

- the menu filter of the home page (category equality, case-insensitive
  substring search on the name);
- the cart views: add to cart, remove from cart, set quantity (the AJAX
  view) and the cart drawer with its total at live prices;
- checkout: refuses an empty cart and an invalid form. Otherwise it places
  one pending order with the submitted contact details, copies one line
  item per cart entry (item name, quantity, the price at that moment) and
  empties the user's cart;
- the order lifecycle: the owner's edit and cancel, both only while the
  order is pending; the staff's status change, restricted to the three
  status choices; the staff's delete, which takes the line items with it;
- the owner's order history, latest first;
- the records of `main/models.py`: the category and status choices, the
  default quantity and status, and the order's derived total price.

Layout:

- `wrappers.dfy`: `Option` and `Result`.
- `models.dfy` (module `Models`): the records, the choice lists,
  `TotalPrice`.
- `catalog.dfy` (module `Catalog`): item lookup by id and the home page
  filter.
- `cart.dfy` (module `Cart`): cart entries as a sequence in insertion
  order, the pure effect of each cart view, and the totals.
- `line_items.dfy` (module `LineItems`): the line items checkout copies from
  a cart.
- `order_history.dfy` (module `OrderHistory`): the owner's list of orders.
- `shop.dfy` (module `Shop`): the class `Store`, holding the database's
  tables as fields. It has one method per modelled view, except `home`,
  which is the function `Catalog.Home`; two helper
  methods, `PlaceOrder` and `BuildLineItems`, for the steps of checkout;
  and `ChangePrice`, which stands for the administration site's edit of a
  menu price. Its `Valid()` invariant holds before and after every method:
  - every cart entry refers to a menu item;
  - there is at most one entry per (user, item);
  - orders and line-item lists have the same keys;
  - order ids follow placement time.

Modelling choices:

- The logged-in user is a parameter of the views that need one.
- The outcome of form validation is a boolean parameter.
- A missing query parameter is the empty string; both are false in Python.
- Order ids are handed out in increasing order. The `auto_now_add` time
  stamp is a counter that grows with every order.
- Prices are integers (for example, amounts in paise).
- A lookup that raises `DoesNotExist` or `Http404` in the source is an `Err`
  result that leaves the state unchanged.

What the code does at the edges:

- `update_quantity_ajax` does not check the quantity itself. Zero is stored
  as an entry with quantity 0. A negative value is refused only when the
  `PositiveIntegerField` column check runs on save. The model shows that as
  `Err(NegativeQuantity)`, with the cart unchanged.
- The AJAX answer holds the new quantity and the user's new cart total. It
  holds no line total.
- `checkout` is not wrapped in a transaction. The model applies it as one
  step (see "Left out").

## Model

| member | source | states |
|---|---|---|
| Models.CategoryName | main/models.py:4-9 | every category is shown as one of the four category choices |
| Models.ParseCategory | main/models.py:4-16 | a string names a category exactly when it is one of the choices, and then it names that category |
| Models.StatusName | main/models.py:27-31 | every status is shown as one of the three status choices |
| Models.ParseStatus | main/views.py:204 | a string is accepted as a status exactly when it is a key of the status choices, and it then stands for that status |
| Models.TotalPrice | main/models.py:41-43 | an order with no line items totals 0, and line items with no negative price never total below 0 |
| Models.TotalPriceAppend | main/models.py:41-43 | the derived total is additive over line items: the total of two lists together is the sum of their totals |
| Catalog.IndexOfItem | main/views.py:68 | the position found holds the first item with the id; no position means no item has it |
| Catalog.Find | main/views.py:68 | an item is found exactly when the id occurs in the menu; the item found is on the menu and has that id |
| Catalog.Lower | main/views.py:23 | folding keeps the length, leaves no capital letter, keeps every other character and turns each capital into its small letter |
| Catalog.LowerIdempotent | main/views.py:23 | folding an already folded text changes nothing |
| Catalog.Contains | main/views.py:23 | true exactly when the needle occurs at some position of the text |
| Catalog.IContains | main/views.py:23 | true exactly when the folded search text occurs in the folded name; an empty search always matches; a search longer than the name never does |
| Catalog.IContainsFoldedName | main/views.py:23 | the name lookup gives the same answer for the name in any case, so the case of the name does not matter |
| Catalog.IContainsFoldedSearch | main/views.py:23 | the name lookup gives the same answer for the search text in any case, so the case of the search does not matter |
| Catalog.IContainsExample | main/views.py:23 | the search "TIKK" finds the name "Paneer Tikka" |
| Catalog.FilterCategory | main/views.py:19-20 | keeps exactly the items whose category is the requested one; a value outside the category choices keeps nothing |
| Catalog.FilterSearch | main/views.py:22-23 | keeps exactly the items whose name contains the search text, ignoring case |
| Catalog.Home | main/views.py:13-25 | an item is listed exactly when it is on the menu and passes each filter that was given; no filters lists the whole menu; an unknown category lists nothing |
| Catalog.Select | main/views.py:17-23 | one pass over the menu keeps exactly the items that pass both filters, and never more items than the menu has |
| Catalog.SelectAll | main/views.py:17-23 | with neither filter the listing is the whole menu, in menu order |
| Catalog.SelectByCategory | main/views.py:19-20 | with only a category, the one-pass selection equals the category filter |
| Catalog.SelectBySearch | main/views.py:22-23 | with only a search text, the one-pass selection equals the name filter |
| Catalog.SelectByBoth | main/views.py:19-23 | with both, the one-pass selection equals the name filter applied after the category filter |
| Catalog.HomeIsOnePass | main/views.py:17-23 | the chained filters keep the menu's order: the listing equals one pass over the menu |
| Cart.IndexOf | main/views.py:69 | the position found holds the first entry for the (user, item) pair; no position means there is none |
| Cart.AddEntry | main/views.py:69-72 | with an entry for the pair, that entry's quantity goes up by one and the cart keeps its length; without one, a new entry with quantity 1 goes at the end; entries for other pairs stay in place |
| Cart.SetQuantityAt | main/views.py:87-89 | the entry at the position holds the new quantity for the same user and item; the length and every other entry stay |
| Cart.RemoveAt | main/views.py:78 | the cart loses exactly the entry at the position; the entries before it stay put and the entries after it move up by one |
| Cart.QuantityInUnique | main/views.py:78 | with one entry per pair, the pair's quantity is that entry's, and there is none exactly when no entry is for the pair |
| Cart.SetQuantityAtEffect | main/views.py:87-89 | overwriting a quantity sets that pair's quantity, leaves every other pair's quantity as it was, and keeps one entry per pair |
| Cart.AddEntryEffect | main/views.py:69-72 | adding gives the pair quantity old + 1, or 1 when it had no entry; the cart grows by one entry only in the second case; other pairs and entries are untouched; one entry per pair is kept |
| Cart.AddTwice | main/views.py:69-72 | adding the same item twice to a cart without it gives one entry of quantity 2, not two entries |
| Cart.RemoveAtEffect | main/views.py:78 | deleting the pair's entry shortens the cart by one, keeps exactly the other entries, leaves the pair with no quantity and other pairs as they were |
| Cart.UserEntries | main/views.py:103 | the user's entries are exactly the cart entries that belong to the user |
| Cart.OtherEntries | main/views.py:171 | what remains after clearing a user's cart is exactly the entries of other users |
| Cart.OtherEntriesOwn | main/views.py:171 | after clearing, the user has no entries |
| Cart.OtherEntriesOthers | main/views.py:171 | after clearing one user's cart, every other user has the same entries in the same order |
| Cart.OtherEntriesUnique | main/views.py:171 | clearing keeps one entry per pair |
| Cart.EntriesTotal | main/views.py:104 | the sum of quantity × live price is 0 over no entries and never negative when no price is negative |
| Cart.CartTotal | main/views.py:103-104 | a user's total over that user's entries is 0 for a user with no entries and never negative when no menu price is negative |
| Cart.AddEntryTotal | main/views.py:69-72 | adding an item raises the user's total by the item's live price and leaves every other user's entries as they were |
| Cart.SetQuantityTotal | main/views.py:87-93 | setting a quantity changes the user's total by (new − old quantity) × live price and leaves other users' entries as they were |
| Cart.RemoveTotal | main/views.py:78 | removing an entry lowers the user's total by its quantity × live price and leaves other users' entries as they were |
| Cart.ClearUser | main/views.py:171 | clearing leaves the user nothing, other users unchanged, and every remaining entry on the menu with one entry per pair |
| LineItems.LineItem | main/views.py:164-169 | a line item copies the entry's quantity, and the name and price of the menu item with the entry's id; the price is the live price at that moment |
| LineItems.Snapshot | main/views.py:163-169 | checkout records exactly one line item per cart entry |
| LineItems.SnapshotAt | main/views.py:163-169 | the k-th line item copies the k-th entry's item name, its quantity and its item's current price |
| LineItems.SnapshotTotal | main/views.py:163-169 | at the moment of checkout, the order's total equals the cart's total at live prices |
| OrderHistory.NewestFirst | main/views.py:59 | lists exactly the user's orders, each once, with ids strictly decreasing |
| OrderHistory.NewestFirstByTime | main/views.py:59 | when ids follow placement time, the list is strictly ordered by time stamp, latest first |
| OrderHistory.PlaceKeepsOrder | main/models.py:38 | a new order under the next id, stamped with the current time, keeps ids in placement order |
| Shop.Store.AddToCart | main/views.py:62-74 | an unknown item id fails and changes nothing; otherwise the pair's quantity becomes old + 1 (or 1), the user's total rises by the item's price, and nothing else changes |
| Shop.Store.RemoveFromCart | main/views.py:76-79 | fails exactly when the user has no entry for the item; otherwise deletes just that entry; the total falls by its quantity × price; other users are untouched |
| Shop.Store.UpdateQuantity | main/views.py:81-99 | a missing entry or a negative quantity fails without change; otherwise the entry holds the new quantity, the answer is that quantity and the user's new total, and no other pair changes |
| Shop.Store.CartDrawer | main/views.py:101-105 | shows the user's entries and their total at live prices; 0 for an empty cart |
| Shop.Store.Checkout | main/views.py:140-173 | an empty cart or invalid form fails and changes nothing; otherwise adds one pending order with a fresh id and the given contact, records one line item per entry, whose total equals the cart's total, and empties exactly the user's cart |
| Shop.Store.PlaceOrder | main/views.py:157-169 | the order gets the next id and the current time stamp, and its line items are the snapshot of the entries; keys stay paired and ids stay in placement order |
| Shop.Store.BuildLineItems | main/views.py:163-169 | the loop creates the line items of the entries, in the entries' order |
| Shop.Store.EditOrder | main/views.py:107-124 | not the user's order, not pending or an invalid form each fail without change; otherwise only the order's contact details change |
| Shop.Store.CancelOrder | main/views.py:127-138 | not the user's order or not pending fails without change; otherwise only that order's status becomes Cancelled |
| Shop.Store.UpdateOrderStatus | main/views.py:199-210 | an unknown order or a value outside the status choices fails without change; otherwise the order takes the named status, from any status |
| Shop.Store.DeleteOrder | main/views.py:213-218 | an unknown order fails; otherwise the order and all its line items are gone and nothing else changes |
| Shop.Store.MyOrders | main/views.py:57-60 | lists exactly the user's orders, each once, strictly latest first by time stamp |
| Shop.Store.ChangePrice | main/models.py:46-50 | a new menu price is the item's live price from then on, while every recorded order keeps its total |

## Left out

- Authentication, sessions, `login_required` and `staff_member_required`: the user is a parameter, and staff views are methods that take no user.
- `update_quantity_ajax` has no `login_required`, so an anonymous request fails inside the query. Anonymous users are not modelled.
- The unreachable `is_authenticated` branch of `add_to_cart` is not modelled.
- Registration, login, logout, `profile_view` and `order_success` are outside the cart-to-order core.
- The GET branches of `checkout` and `edit_order` render a form and change nothing. The profile pre-fill of the checkout form is presentation only.
- `update_order_status` on a GET request changes nothing, so only the POST path is modelled.
- `admin_order_list` is a plain listing of all orders. It is not part of this model.
- Templates, redirects, flash messages and JSON encoding and decoding are not modelled.
- Shop.Store.UpdateQuantity: accepts every quantity of 0 or more. The column is an integer of the database's width: PostgreSQL refuses values above 2147483647 on save, and SQLite refuses values above 2^63 − 1. That upper bound depends on the database and is not modelled.
- Shop.Store.AddToCart: the `+= 1` on a quantity already at the column's upper bound fails on save in the same way. That failure is not modelled.
- `int()` failing on a non-numeric quantity raises before any change, so the model's quantity is already an integer.
- A missing `item_id` in the JSON body is not modelled.
- Prices are a float field on the menu and a decimal field on line items. The model uses exact integers. Float and decimal rounding and the decimal field's digit limits are not modelled.
- Text length limits of the char fields and email validation are left to the form, which is a boolean parameter.
- The category choices are not enforced when a menu item is saved. The model's `Category` type allows only the four choices.
- Catalog.Lower: folds ASCII letters only, while `icontains` folds case with the database's rules, which can also fold other letters.
- `ordered_at` is a counter, not a clock. Equal time stamps cannot occur.
- Checkout is not atomic in the code, and concurrent requests can interleave. The model applies each view as one step and has no concurrency.
- `MultipleObjectsReturned` is not modelled. With one request at a time, `get_or_create` keeps at most one entry per (user, item). `CartItem` has no uniqueness constraint, so concurrent adds can create a second entry for a pair. After that, the lookups of `add_to_cart`, `remove_from_cart` and `update_quantity_ajax` raise `MultipleObjectsReturned`. The model has no concurrency, and `Valid()` keeps one entry per pair.
- The admin site edits menu items, but `admin.py` is not part of this model. Only the price edit is modelled, as `Shop.Store.ChangePrice`, to state that order totals are independent of later price changes.
- Deleting a menu item or a user, which cascades to cart entries and orders, is not modelled.
