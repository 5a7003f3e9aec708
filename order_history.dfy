/** The order history page: a user's orders, newest first. */
module OrderHistory {
  import opened Models

  /** The user's orders among the ids below n, from the highest id down. */
  function NewestFirst(orders: map<OrderId, Order>, user: UserId, n: nat): (r: seq<OrderId>)
    ensures forall id :: id in r <==> id in orders && id < n && orders[id].user == user
    ensures forall j, k :: 0 <= j < k < |r| ==> r[j] > r[k]
  {
    if n == 0 then []
    else
      var rest := NewestFirst(orders, user, n - 1);
      if n - 1 in orders && orders[n - 1].user == user then
        assert forall k :: 0 <= k < |rest| ==> rest[k] in rest;
        [n - 1] + rest
      else rest
  }

  /** Orders placed later have larger ids. */
  ghost predicate TimeOrdered(orders: map<OrderId, Order>) {
    forall i, j :: i in orders && j in orders && i < j ==> orders[i].orderedAt < orders[j].orderedAt
  }

  /** When ids follow placement time, the list runs from the latest order to
      the earliest. */
  lemma NewestFirstByTime(orders: map<OrderId, Order>, user: UserId, n: nat)
    requires TimeOrdered(orders)
    ensures forall j, k :: 0 <= j < k < |NewestFirst(orders, user, n)| ==>
      orders[NewestFirst(orders, user, n)[j]].orderedAt > orders[NewestFirst(orders, user, n)[k]].orderedAt
  {
    var r := NewestFirst(orders, user, n);
    forall j, k | 0 <= j < k < |r|
      ensures orders[r[j]].orderedAt > orders[r[k]].orderedAt
    {
      assert r[j] in r && r[k] in r;
    }
  }

  /** Every order id is below n and every time stamp below now. */
  ghost predicate StampedBefore(orders: map<OrderId, Order>, n: nat, now: nat) {
    forall id :: id in orders ==> id < n && orders[id].orderedAt < now
  }

  /** Placing an order under the next id with the current time stamp keeps
      ids in placement order. */
  lemma PlaceKeepsOrder(orders: map<OrderId, Order>, n: nat, now: nat, o: Order)
    requires StampedBefore(orders, n, now) && TimeOrdered(orders) && o.orderedAt == now
    ensures StampedBefore(orders[n := o], n + 1, now + 1)
    ensures TimeOrdered(orders[n := o])
  {
  }
}
