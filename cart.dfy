/** The cart store: a sequence of (user, item, quantity) entries in the order
    they were created, the lookups the views make on it, the changes they
    make to it, and the cart total at live menu prices. */
module Cart {
  import opened Wrappers
  import opened Models
  import Catalog

  predicate IsFor(e: CartEntry, user: UserId, item: ItemId) {
    e.user == user && e.itemId == item
  }

  /** The position of the first entry for (user, item), as a lookup of the
      cart by user and item finds it. */
  function IndexOf(cart: seq<CartEntry>, user: UserId, item: ItemId): (r: Option<nat>)
    ensures r.Some? ==> r.value < |cart| && IsFor(cart[r.value], user, item)
    ensures r.Some? ==> forall k :: 0 <= k < r.value ==> !IsFor(cart[k], user, item)
    ensures r.None? ==> forall k :: 0 <= k < |cart| ==> !IsFor(cart[k], user, item)
  {
    if cart == [] then None
    else if IsFor(cart[0], user, item) then Some(0)
    else match IndexOf(cart[1..], user, item)
      case None => None
      case Some(k) => Some(k + 1)
  }

  /** The quantity in the cart entry for (user, item), or None without one. */
  function Quantity(cart: seq<CartEntry>, user: UserId, item: ItemId): Option<nat> {
    match IndexOf(cart, user, item)
    case None => None
    case Some(k) => Some(cart[k].quantity)
  }

  /** At most one entry per (user, item). */
  ghost predicate Unique(cart: seq<CartEntry>) {
    forall j, k :: 0 <= j < |cart| && 0 <= k < |cart| && IsFor(cart[j], cart[k].user, cart[k].itemId) ==> j == k
  }

  /** In a cart with one entry per pair, an entry's quantity is the quantity
      for its pair, and a pair without an entry has none. */
  lemma QuantityInUnique(cart: seq<CartEntry>, user: UserId, item: ItemId)
    requires Unique(cart)
    ensures Quantity(cart, user, item).None? <==> forall e :: e in cart ==> !IsFor(e, user, item)
    ensures forall e :: e in cart && IsFor(e, user, item) ==> Quantity(cart, user, item) == Some(e.quantity)
  {
    forall e | e in cart && IsFor(e, user, item)
      ensures Quantity(cart, user, item) == Some(e.quantity)
    {
      var j :| 0 <= j < |cart| && cart[j] == e;
    }
  }

  /** The same users and items in the same places (quantities may differ). */
  ghost predicate SameKeys(a: seq<CartEntry>, b: seq<CartEntry>) {
    |a| == |b| && forall k :: 0 <= k < |a| ==> a[k].user == b[k].user && a[k].itemId == b[k].itemId
  }

  lemma SameKeysSameIndex(a: seq<CartEntry>, b: seq<CartEntry>, user: UserId, item: ItemId)
    requires SameKeys(a, b)
    ensures IndexOf(a, user, item) == IndexOf(b, user, item)
  {
    match IndexOf(a, user, item)
    case None =>
      if IndexOf(b, user, item).Some? {
        var j := IndexOf(b, user, item).value;
        assert IsFor(a[j], user, item);
      }
    case Some(k) =>
      assert IsFor(b[k], user, item);
      var j := IndexOf(b, user, item).value;
      assert IsFor(a[j], user, item);
  }

  lemma SameKeysUnique(a: seq<CartEntry>, b: seq<CartEntry>)
    requires SameKeys(a, b) && Unique(a)
    ensures Unique(b)
  {
    forall j, k | 0 <= j < |b| && 0 <= k < |b| && IsFor(b[j], b[k].user, b[k].itemId)
      ensures j == k
    {
      assert IsFor(a[j], a[k].user, a[k].itemId);
    }
  }

  // ---------------------------------------------------------------------
  // The changes the views make to the cart

  /** Adding an item: one more of it when the user already has an entry for
      it, otherwise a new entry with the default quantity at the end. */
  function AddEntry(cart: seq<CartEntry>, user: UserId, item: ItemId): (r: seq<CartEntry>)
    ensures |r| == |cart| + (if IndexOf(cart, user, item).None? then 1 else 0)
    ensures forall k :: 0 <= k < |cart| && !IsFor(cart[k], user, item) ==> r[k] == cart[k]
    ensures IndexOf(cart, user, item).Some? ==>
      var k := IndexOf(cart, user, item).value;
      IsFor(r[k], user, item) && r[k].quantity == cart[k].quantity + 1
    ensures IndexOf(cart, user, item).None? ==> r[|cart|] == CartEntry(user, item, DefaultQuantity)
  {
    match IndexOf(cart, user, item)
    case Some(k) => SetQuantityAt(cart, k, cart[k].quantity + 1)
    case None => cart + [CartEntry(user, item, DefaultQuantity)]
  }

  /** Overwriting the quantity of the entry at position k. */
  function SetQuantityAt(cart: seq<CartEntry>, k: nat, q: nat): (r: seq<CartEntry>)
    requires k < |cart|
    ensures |r| == |cart|
    ensures r[k].user == cart[k].user && r[k].itemId == cart[k].itemId && r[k].quantity == q
    ensures forall j :: 0 <= j < |cart| && j != k ==> r[j] == cart[j]
  {
    cart[k := cart[k].(quantity := q)]
  }

  /** Deleting the entry at position k. */
  function RemoveAt(cart: seq<CartEntry>, k: nat): (r: seq<CartEntry>)
    requires k < |cart|
    ensures |r| == |cart| - 1
    ensures forall j :: 0 <= j < k ==> r[j] == cart[j]
    ensures forall j :: k <= j < |r| ==> r[j] == cart[j + 1]
  {
    cart[..k] + cart[k + 1..]
  }

  lemma IndexOfAppend(cart: seq<CartEntry>, e: CartEntry, user: UserId, item: ItemId)
    ensures IndexOf(cart + [e], user, item) ==
      if IndexOf(cart, user, item).Some? then IndexOf(cart, user, item)
      else if IsFor(e, user, item) then Some(|cart|) else None
  {
    var c := cart + [e];
    assert forall k :: 0 <= k < |cart| ==> c[k] == cart[k];
    match IndexOf(c, user, item)
    case None =>
      assert !IsFor(c[|cart|], user, item);
    case Some(j) =>
      if IndexOf(cart, user, item).Some? {
        var i := IndexOf(cart, user, item).value;
        assert IsFor(c[i], user, item);
        if j < |cart| { assert IsFor(cart[j], user, item); }
      }
  }

  lemma SetQuantityAtEffect(cart: seq<CartEntry>, k: nat, q: nat)
    requires k < |cart|
    ensures SameKeys(cart, SetQuantityAt(cart, k, q))
    ensures Unique(cart) ==> Unique(SetQuantityAt(cart, k, q))
    ensures Quantity(SetQuantityAt(cart, k, q), cart[k].user, cart[k].itemId) ==
      (if IndexOf(cart, cart[k].user, cart[k].itemId) == Some(k) then Some(q)
       else Quantity(cart, cart[k].user, cart[k].itemId))
    ensures forall u, i :: !IsFor(cart[k], u, i) ==> Quantity(SetQuantityAt(cart, k, q), u, i) == Quantity(cart, u, i)
  {
    var r := SetQuantityAt(cart, k, q);
    if Unique(cart) { SameKeysUnique(cart, r); }
    SameKeysSameIndex(cart, r, cart[k].user, cart[k].itemId);
    forall u, i | !IsFor(cart[k], u, i)
      ensures Quantity(r, u, i) == Quantity(cart, u, i)
    {
      SameKeysSameIndex(cart, r, u, i);
    }
  }

  /** Adding an item raises the quantity for that (user, item) by exactly one,
      or creates the entry with quantity 1; it touches no other pair, adds an
      entry only when the pair had none, and keeps one entry per pair. */
  lemma AddEntryEffect(cart: seq<CartEntry>, user: UserId, item: ItemId)
    ensures Quantity(AddEntry(cart, user, item), user, item) ==
      Some(match Quantity(cart, user, item) case None => 1 case Some(q) => q + 1)
    ensures forall u, i :: (u != user || i != item) ==> Quantity(AddEntry(cart, user, item), u, i) == Quantity(cart, u, i)
    ensures |AddEntry(cart, user, item)| == |cart| + (if Quantity(cart, user, item).None? then 1 else 0)
    ensures forall k :: 0 <= k < |cart| && !IsFor(cart[k], user, item) ==> AddEntry(cart, user, item)[k] == cart[k]
    ensures Unique(cart) ==> Unique(AddEntry(cart, user, item))
  {
    var r := AddEntry(cart, user, item);
    match IndexOf(cart, user, item)
    case Some(k) =>
      SetQuantityAtEffect(cart, k, cart[k].quantity + 1);
    case None =>
      var e := CartEntry(user, item, DefaultQuantity);
      IndexOfAppend(cart, e, user, item);
      forall u, i | u != user || i != item
        ensures Quantity(r, u, i) == Quantity(cart, u, i)
      {
        IndexOfAppend(cart, e, u, i);
      }
      if Unique(cart) {
        forall j, k | 0 <= j < |r| && 0 <= k < |r| && IsFor(r[j], r[k].user, r[k].itemId)
          ensures j == k
        {
          if j < |cart| && k < |cart| {
            assert IsFor(cart[j], cart[k].user, cart[k].itemId);
          }
        }
      }
  }

  /** Two adds of a pair the cart did not hold leave one entry for it, with
      quantity 2, and one more entry in all. */
  lemma AddTwice(cart: seq<CartEntry>, user: UserId, item: ItemId)
    requires Quantity(cart, user, item).None?
    ensures Quantity(AddEntry(AddEntry(cart, user, item), user, item), user, item) == Some(2)
    ensures |AddEntry(AddEntry(cart, user, item), user, item)| == |cart| + 1
  {
    AddEntryEffect(cart, user, item);
    AddEntryEffect(AddEntry(cart, user, item), user, item);
  }

  /** Deleting the entry for (user, item) leaves exactly the other entries,
      in their order, and keeps one entry per pair. */
  lemma RemoveAtEffect(cart: seq<CartEntry>, user: UserId, item: ItemId)
    requires Unique(cart) && IndexOf(cart, user, item).Some?
    ensures |RemoveAt(cart, IndexOf(cart, user, item).value)| == |cart| - 1
    ensures forall e :: e in RemoveAt(cart, IndexOf(cart, user, item).value) <==> e in cart && !IsFor(e, user, item)
    ensures Unique(RemoveAt(cart, IndexOf(cart, user, item).value))
    ensures Quantity(RemoveAt(cart, IndexOf(cart, user, item).value), user, item).None?
    ensures forall u, i :: (u != user || i != item) ==>
      Quantity(RemoveAt(cart, IndexOf(cart, user, item).value), u, i) == Quantity(cart, u, i)
  {
    var k := IndexOf(cart, user, item).value;
    var r := RemoveAt(cart, k);
    assert forall j :: 0 <= j < |r| ==> r[j] == cart[if j < k then j else j + 1];
    forall e | e in cart && !IsFor(e, user, item)
      ensures e in r
    {
      var j :| 0 <= j < |cart| && cart[j] == e;
      assert j != k;
      assert r[if j < k then j else j - 1] == e;
    }
    forall e | e in r
      ensures e in cart && !IsFor(e, user, item)
    {
      var j :| 0 <= j < |r| && r[j] == e;
      var i := if j < k then j else j + 1;
      assert cart[i] == e && i != k;
    }
    forall a, b | 0 <= a < |r| && 0 <= b < |r| && IsFor(r[a], r[b].user, r[b].itemId)
      ensures a == b
    {
      var a', b' := if a < k then a else a + 1, if b < k then b else b + 1;
      assert IsFor(cart[a'], cart[b'].user, cart[b'].itemId);
    }
    QuantityInUnique(r, user, item);
    forall u, i | u != user || i != item
      ensures Quantity(r, u, i) == Quantity(cart, u, i)
    {
      QuantityInUnique(r, u, i);
      QuantityInUnique(cart, u, i);
      if Quantity(cart, u, i).Some? {
        assert cart[IndexOf(cart, u, i).value] in cart;
      }
    }
  }

  // ---------------------------------------------------------------------
  // One user's cart and its total

  /** The user's entries, in cart order. */
  function UserEntries(cart: seq<CartEntry>, user: UserId): (r: seq<CartEntry>)
    ensures forall e :: e in r <==> e in cart && e.user == user
    ensures |r| <= |cart|
  {
    if cart == [] then []
    else (if cart[0].user == user then [cart[0]] else []) + UserEntries(cart[1..], user)
  }

  /** The cart without the user's entries, in cart order. */
  function OtherEntries(cart: seq<CartEntry>, user: UserId): (r: seq<CartEntry>)
    ensures forall e :: e in r <==> e in cart && e.user != user
  {
    if cart == [] then []
    else (if cart[0].user != user then [cart[0]] else []) + OtherEntries(cart[1..], user)
  }

  lemma {:induction false} UserEntriesAppend(a: seq<CartEntry>, b: seq<CartEntry>, user: UserId)
    ensures UserEntries(a + b, user) == UserEntries(a, user) + UserEntries(b, user)
  {
    if a == [] {
      assert a + b == b;
    } else {
      assert (a + b)[1..] == a[1..] + b;
      UserEntriesAppend(a[1..], b, user);
    }
  }

  lemma UniqueTail(cart: seq<CartEntry>)
    requires cart != [] && Unique(cart)
    ensures Unique(cart[1..])
    ensures forall i :: 0 <= i < |cart[1..]| ==> !IsFor(cart[1..][i], cart[0].user, cart[0].itemId)
  {
    var t := cart[1..];
    forall j, k | 0 <= j < |t| && 0 <= k < |t| && IsFor(t[j], t[k].user, t[k].itemId)
      ensures j == k
    {
      assert IsFor(cart[j + 1], cart[k + 1].user, cart[k + 1].itemId);
    }
    forall i | 0 <= i < |t|
      ensures !IsFor(t[i], cart[0].user, cart[0].itemId)
    {
      assert IsFor(cart[0], cart[i + 1].user, cart[i + 1].itemId) ==> i + 1 == 0;
    }
  }

  lemma UniqueCons(x: CartEntry, t: seq<CartEntry>)
    requires Unique(t)
    requires forall i :: 0 <= i < |t| ==> !IsFor(t[i], x.user, x.itemId)
    ensures Unique([x] + t)
  {
    var r := [x] + t;
    forall j, k | 0 <= j < |r| && 0 <= k < |r| && IsFor(r[j], r[k].user, r[k].itemId)
      ensures j == k
    {
      if j != 0 && k != 0 {
        assert IsFor(t[j - 1], t[k - 1].user, t[k - 1].itemId);
      }
    }
  }

  /** An entry of another user added at the end does not alter a user's entries. */
  lemma OtherUserAppend(cart: seq<CartEntry>, e: CartEntry, u: UserId)
    requires e.user != u
    ensures UserEntries(cart + [e], u) == UserEntries(cart, u)
  {
    assert [e][1..] == [];
    UserEntriesAppend(cart, [e], u);
  }

  /** An entry of another user, replaced by another user's entry, does not
      alter a user's entries. */
  lemma OtherUserAt(cart: seq<CartEntry>, k: nat, e: CartEntry, u: UserId)
    requires k < |cart| && cart[k].user != u && e.user != u
    ensures UserEntries(cart[k := e], u) == UserEntries(cart, u)
  {
    var x := cart[k];
    assert [x][1..] == [] && [e][1..] == [];
    assert cart == cart[..k] + ([x] + cart[k + 1..]);
    assert cart[k := e] == cart[..k] + ([e] + cart[k + 1..]);
    UserEntriesAppend(cart[..k], [x] + cart[k + 1..], u);
    UserEntriesAppend([x], cart[k + 1..], u);
    UserEntriesAppend(cart[..k], [e] + cart[k + 1..], u);
    UserEntriesAppend([e], cart[k + 1..], u);
  }

  /** Deleting an entry of another user does not alter a user's entries. */
  lemma OtherUserRemove(cart: seq<CartEntry>, k: nat, u: UserId)
    requires k < |cart| && cart[k].user != u
    ensures UserEntries(RemoveAt(cart, k), u) == UserEntries(cart, u)
  {
    var x := cart[k];
    assert [x][1..] == [];
    assert cart == cart[..k] + ([x] + cart[k + 1..]);
    UserEntriesAppend(cart[..k], [x] + cart[k + 1..], u);
    UserEntriesAppend([x], cart[k + 1..], u);
    UserEntriesAppend(cart[..k], cart[k + 1..], u);
  }

  /** Clearing one user's cart leaves that user nothing. */
  lemma OtherEntriesOwn(cart: seq<CartEntry>, user: UserId)
    ensures UserEntries(OtherEntries(cart, user), user) == []
  {
    var r := OtherEntries(cart, user);
    if UserEntries(r, user) != [] {
      assert UserEntries(r, user)[0] in UserEntries(r, user);
    }
  }

  /** Clearing one user's cart leaves every other user's entries as they were. */
  lemma {:induction false} OtherEntriesOthers(cart: seq<CartEntry>, user: UserId, u: UserId)
    requires u != user
    ensures UserEntries(OtherEntries(cart, user), u) == UserEntries(cart, u)
  {
    if cart != [] {
      var rest := cart[1..];
      OtherEntriesOthers(rest, user, u);
      if cart[0].user != user {
        assert OtherEntries(cart, user) == [cart[0]] + OtherEntries(rest, user);
        UserEntriesAppend([cart[0]], OtherEntries(rest, user), u);
        assert [cart[0]][1..] == [];
        assert UserEntries([cart[0]], u) == (if cart[0].user == u then [cart[0]] else []);
      } else {
        assert OtherEntries(cart, user) == OtherEntries(rest, user);
        assert UserEntries(cart, u) == UserEntries(rest, u);
      }
    }
  }

  /** Clearing one user's cart keeps one entry per pair. */
  lemma {:induction false} OtherEntriesUnique(cart: seq<CartEntry>, user: UserId)
    requires Unique(cart)
    ensures Unique(OtherEntries(cart, user))
  {
    if cart != [] {
      var rest := OtherEntries(cart[1..], user);
      UniqueTail(cart);
      OtherEntriesUnique(cart[1..], user);
      if cart[0].user != user {
        forall i | 0 <= i < |rest|
          ensures !IsFor(rest[i], cart[0].user, cart[0].itemId)
        {
          assert rest[i] in cart[1..];
        }
        UniqueCons(cart[0], rest);
      }
    }
  }

  /** Every entry refers to an item on the menu. */
  ghost predicate ItemsKnown(es: seq<CartEntry>, catalog: seq<FoodItem>) {
    forall e :: e in es ==> Catalog.Find(catalog, e.itemId).Some?
  }

  /** The live menu price of an item. */
  function UnitPrice(catalog: seq<FoodItem>, item: ItemId): int
    requires Catalog.Find(catalog, item).Some?
  {
    Catalog.Find(catalog, item).value.price
  }

  /** Sum of quantity times live unit price over some entries. */
  function EntriesTotal(es: seq<CartEntry>, catalog: seq<FoodItem>): (t: int)
    requires ItemsKnown(es, catalog)
    ensures es == [] ==> t == 0
    ensures (forall e :: e in es ==> UnitPrice(catalog, e.itemId) >= 0) ==> t >= 0
  {
    if es == [] then 0
    else es[0].quantity * UnitPrice(catalog, es[0].itemId) + EntriesTotal(es[1..], catalog)
  }

  /** The user's cart total: quantity times live unit price, summed over the
      user's entries. */
  function CartTotal(cart: seq<CartEntry>, catalog: seq<FoodItem>, user: UserId): (t: int)
    requires ItemsKnown(cart, catalog)
    ensures UserEntries(cart, user) == [] ==> t == 0
    ensures (forall e :: e in cart ==> UnitPrice(catalog, e.itemId) >= 0) ==> t >= 0
  {
    EntriesTotal(UserEntries(cart, user), catalog)
  }

  lemma {:induction false} EntriesTotalAppend(a: seq<CartEntry>, b: seq<CartEntry>, catalog: seq<FoodItem>)
    requires ItemsKnown(a, catalog) && ItemsKnown(b, catalog)
    ensures ItemsKnown(a + b, catalog)
    ensures EntriesTotal(a + b, catalog) == EntriesTotal(a, catalog) + EntriesTotal(b, catalog)
  {
    if a == [] {
      assert a + b == b;
    } else {
      assert (a + b)[1..] == a[1..] + b;
      EntriesTotalAppend(a[1..], b, catalog);
    }
  }

  /** The last entry adds its quantity times its live price. */
  lemma EntriesTotalLast(es: seq<CartEntry>, catalog: seq<FoodItem>)
    requires ItemsKnown(es, catalog) && es != []
    ensures ItemsKnown(es[..|es| - 1], catalog)
    ensures EntriesTotal(es, catalog) ==
      EntriesTotal(es[..|es| - 1], catalog) + es[|es| - 1].quantity * UnitPrice(catalog, es[|es| - 1].itemId)
  {
    var init, last := es[..|es| - 1], es[|es| - 1];
    assert forall e :: e in init ==> e in es;
    assert es == init + [last];
    EntriesTotalAppend(init, [last], catalog);
    assert [last][1..] == [];
  }

  /** The part one entry contributes to its owner's total. */
  function Contribution(e: CartEntry, catalog: seq<FoodItem>, user: UserId): int
    requires Catalog.Find(catalog, e.itemId).Some?
  {
    if e.user == user then e.quantity * UnitPrice(catalog, e.itemId) else 0
  }

  /** A user's total splits around any one entry of the cart. */
  lemma CartTotalSplit(cart: seq<CartEntry>, catalog: seq<FoodItem>, user: UserId, k: nat)
    requires ItemsKnown(cart, catalog) && k < |cart|
    ensures ItemsKnown(cart[..k], catalog) && ItemsKnown(cart[k + 1..], catalog)
    ensures CartTotal(cart, catalog, user) ==
      CartTotal(cart[..k], catalog, user) + Contribution(cart[k], catalog, user) + CartTotal(cart[k + 1..], catalog, user)
  {
    assert cart == cart[..k] + ([cart[k]] + cart[k + 1..]);
    UserEntriesAppend(cart[..k], [cart[k]] + cart[k + 1..], user);
    UserEntriesAppend([cart[k]], cart[k + 1..], user);
    var a, m, b := UserEntries(cart[..k], user), UserEntries([cart[k]], user), UserEntries(cart[k + 1..], user);
    EntriesTotalAppend(m, b, catalog);
    EntriesTotalAppend(a, m + b, catalog);
  }

  /** An entry added at the end of the cart adds its quantity times its price
      to its owner's total and nothing to anyone else's. */
  lemma CartTotalAppend(cart: seq<CartEntry>, e: CartEntry, catalog: seq<FoodItem>, user: UserId)
    requires ItemsKnown(cart, catalog) && Catalog.Find(catalog, e.itemId).Some?
    ensures ItemsKnown(cart + [e], catalog)
    ensures CartTotal(cart + [e], catalog, user) == CartTotal(cart, catalog, user) + Contribution(e, catalog, user)
  {
    var c := cart + [e];
    CartTotalSplit(c, catalog, user, |cart|);
    assert c[..|cart|] == cart && c[|cart| + 1..] == [];
  }

  /** Overwriting one entry's quantity trades its old contribution to its
      owner's total for the new one. */
  lemma CartTotalSetQuantity(cart: seq<CartEntry>, catalog: seq<FoodItem>, user: UserId, k: nat, q: nat)
    requires ItemsKnown(cart, catalog) && k < |cart|
    ensures ItemsKnown(SetQuantityAt(cart, k, q), catalog)
    ensures CartTotal(SetQuantityAt(cart, k, q), catalog, user) + Contribution(cart[k], catalog, user) ==
      CartTotal(cart, catalog, user) + Contribution(SetQuantityAt(cart, k, q)[k], catalog, user)
  {
    var r := SetQuantityAt(cart, k, q);
    assert forall e :: e in r ==> e == r[k] || e in cart;
    CartTotalSplit(cart, catalog, user, k);
    CartTotalSplit(r, catalog, user, k);
    assert r[..k] == cart[..k] && r[k + 1..] == cart[k + 1..];
  }

  /** Deleting one entry takes its contribution off its owner's total. */
  lemma CartTotalRemove(cart: seq<CartEntry>, catalog: seq<FoodItem>, user: UserId, k: nat)
    requires ItemsKnown(cart, catalog) && k < |cart|
    ensures ItemsKnown(RemoveAt(cart, k), catalog)
    ensures CartTotal(RemoveAt(cart, k), catalog, user) + Contribution(cart[k], catalog, user) == CartTotal(cart, catalog, user)
  {
    CartTotalSplit(cart, catalog, user, k);
    UserEntriesAppend(cart[..k], cart[k + 1..], user);
    EntriesTotalAppend(UserEntries(cart[..k], user), UserEntries(cart[k + 1..], user), catalog);
  }

  lemma MulSucc(q: int, p: int)
    ensures (q + 1) * p == q * p + p
  {
  }

  /** Adding an item puts its live price on the user's total and leaves every
      other user's entries as they were. */
  lemma AddEntryTotal(cart: seq<CartEntry>, catalog: seq<FoodItem>, user: UserId, item: ItemId)
    requires ItemsKnown(cart, catalog) && Catalog.Find(catalog, item).Some?
    ensures ItemsKnown(AddEntry(cart, user, item), catalog)
    ensures CartTotal(AddEntry(cart, user, item), catalog, user) == CartTotal(cart, catalog, user) + UnitPrice(catalog, item)
    ensures forall u :: u != user ==> UserEntries(AddEntry(cart, user, item), u) == UserEntries(cart, u)
  {
    var p := UnitPrice(catalog, item);
    match IndexOf(cart, user, item)
    case Some(k) =>
      var q := cart[k].quantity;
      var r := SetQuantityAt(cart, k, q + 1);
      assert AddEntry(cart, user, item) == r;
      SetQuantityTotal(cart, catalog, user, item, q + 1);
      assert CartTotal(r, catalog, user) + q * p == CartTotal(cart, catalog, user) + (q + 1) * p;
      MulSucc(q, p);
      assert forall u :: u != user ==> UserEntries(r, u) == UserEntries(cart, u);
    case None =>
      var e := CartEntry(user, item, DefaultQuantity);
      assert AddEntry(cart, user, item) == cart + [e];
      CartTotalAppend(cart, e, catalog, user);
      forall u | u != user
        ensures UserEntries(cart + [e], u) == UserEntries(cart, u)
      {
        OtherUserAppend(cart, e, u);
      }
  }

  /** Overwriting the quantity of the user's entry for an item changes the
      user's total by the difference times the live price, and leaves every
      other user's entries as they were. */
  lemma SetQuantityTotal(cart: seq<CartEntry>, catalog: seq<FoodItem>, user: UserId, item: ItemId, q: nat)
    requires ItemsKnown(cart, catalog) && IndexOf(cart, user, item).Some?
    ensures ItemsKnown(SetQuantityAt(cart, IndexOf(cart, user, item).value, q), catalog)
    ensures CartTotal(SetQuantityAt(cart, IndexOf(cart, user, item).value, q), catalog, user)
              + cart[IndexOf(cart, user, item).value].quantity * UnitPrice(catalog, item)
            == CartTotal(cart, catalog, user) + q * UnitPrice(catalog, item)
    ensures forall u :: u != user ==>
      UserEntries(SetQuantityAt(cart, IndexOf(cart, user, item).value, q), u) == UserEntries(cart, u)
  {
    var k := IndexOf(cart, user, item).value;
    CartTotalSetQuantity(cart, catalog, user, k, q);
    forall u | u != user
      ensures UserEntries(SetQuantityAt(cart, k, q), u) == UserEntries(cart, u)
    {
      OtherUserAt(cart, k, cart[k].(quantity := q), u);
    }
  }

  /** Deleting the user's entry for an item takes its quantity times the live
      price off the user's total, and leaves every other user's entries as
      they were. */
  lemma RemoveTotal(cart: seq<CartEntry>, catalog: seq<FoodItem>, user: UserId, item: ItemId)
    requires ItemsKnown(cart, catalog) && IndexOf(cart, user, item).Some?
    ensures ItemsKnown(RemoveAt(cart, IndexOf(cart, user, item).value), catalog)
    ensures CartTotal(RemoveAt(cart, IndexOf(cart, user, item).value), catalog, user)
              + cart[IndexOf(cart, user, item).value].quantity * UnitPrice(catalog, item)
            == CartTotal(cart, catalog, user)
    ensures forall u :: u != user ==>
      UserEntries(RemoveAt(cart, IndexOf(cart, user, item).value), u) == UserEntries(cart, u)
  {
    var k := IndexOf(cart, user, item).value;
    CartTotalRemove(cart, catalog, user, k);
    forall u | u != user
      ensures UserEntries(RemoveAt(cart, k), u) == UserEntries(cart, u)
    {
      OtherUserRemove(cart, k, u);
    }
  }

  /** Clearing a user's cart: nothing is left for that user, every other
      user's entries stay as they were, every remaining entry still refers
      to a menu item and there is still one entry per pair. */
  lemma ClearUser(cart: seq<CartEntry>, catalog: seq<FoodItem>, user: UserId)
    requires ItemsKnown(cart, catalog) && Unique(cart)
    ensures ItemsKnown(OtherEntries(cart, user), catalog) && Unique(OtherEntries(cart, user))
    ensures UserEntries(OtherEntries(cart, user), user) == []
    ensures forall u :: u != user ==> UserEntries(OtherEntries(cart, user), u) == UserEntries(cart, u)
  {
    OtherEntriesOwn(cart, user);
    OtherEntriesUnique(cart, user);
    forall u | u != user
      ensures UserEntries(OtherEntries(cart, user), u) == UserEntries(cart, u)
    {
      OtherEntriesOthers(cart, user, u);
    }
  }
}
