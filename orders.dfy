/**
 * The three read handlers of the order tables. Each is a decision over the
 * tables that writes nothing: list every order, list a user's orders through
 * the eight columns a customer may see, list the lines of one order.
 */
module OrderController {
  import opened Common
  import opened Text
  import opened Tables
  import opened Records
  import UserController

  /** GET /api/orders: 404 when the table is empty, else every row as stored. */
  function GetOrders(orders: seq<Order>): (r: Response)
    ensures r.status == 404 <==> orders == []
    ensures r.status == 404 ==> r.body == Failure("No orders found")
    ensures r.status != 404 ==> r == Response(200, OrderList(orders))
  {
    if |orders| == 0 then Response(404, Failure("No orders found"))
    else Response(200, OrderList(orders))
  }

  /** The summaries of the rows `p` accepts, in table order. */
  function SummariesWhere(orders: seq<Order>, p: Order -> bool): (s: seq<OrderSummary>)
    ensures |s| == |Where(orders, p)|
    ensures forall i :: 0 <= i < |s| ==> s[i] == Summary(Where(orders, p)[i])
  {
    if orders == [] then []
    else (if p(orders[0]) then [Summary(orders[0])] else []) + SummariesWhere(orders[1..], p)
  }

  /**
   * GET /api/orders/user/:id: 404 when no user has the id; otherwise 200 with
   * the orders whose `user_id` is that id, each cut down to its summary
   * (possibly none).
   */
  function GetOrderOfUser(users: seq<User>, orders: seq<Order>, id: string): (r: Response)
    ensures r.status == 404 <==> UserController.ById(users, id).None?
    ensures r.status == 404 ==> r.body == Failure("User not found")
    ensures r.status != 404 ==>
      && r.status == 200 && r.body.SummaryList?
      && r.body.summaries == SummariesWhere(orders, OrderOfUser(UserController.ById(users, id).value.id))
  {
    match UserController.ById(users, id)
    case None => Response(404, Failure("User not found"))
    case Some(user) => Response(200, SummaryList(SummariesWhere(orders, OrderOfUser(user.id))))
  }

  /** A summary is listed for a user exactly when some order of that user has it. */
  lemma SummariesOfUser(users: seq<User>, orders: seq<Order>, id: string, s: OrderSummary)
    requires GetOrderOfUser(users, orders, id).status == 200
    ensures KeyOf(id).Some?
    ensures s in GetOrderOfUser(users, orders, id).body.summaries <==>
      exists o :: o in orders && o.user_id == KeyOf(id).value && Summary(o) == s
  {
    var k := KeyOf(id).value;
    var w := Where(orders, OrderOfUser(k));
    var listed := GetOrderOfUser(users, orders, id).body.summaries;
    if s in listed {
      var i :| 0 <= i < |listed| && listed[i] == s;
      var o := w[i];
      assert multiset(w)[o] > 0;
      assert o in orders && o.user_id == k;
    }
    if o :| o in orders && o.user_id == k && Summary(o) == s {
      assert OrderOfUser(k)(o);
      assert multiset(w)[o] == multiset(orders)[o] > 0;
      var i :| 0 <= i < |w| && w[i] == o;
      assert listed[i] == s;
    }
  }

  /** An order with its Stripe columns blanked. */
  function WithoutPayment(o: Order): Order {
    o.(stripe_payment_id := None, stripe_client_secret := None)
  }

  /** Two order tables that differ at most in their Stripe columns. */
  ghost predicate SameButPayment(a: seq<Order>, b: seq<Order>) {
    |a| == |b| && forall i :: 0 <= i < |a| ==> WithoutPayment(a[i]) == WithoutPayment(b[i])
  }

  lemma {:induction false} SummariesIgnorePayment(a: seq<Order>, b: seq<Order>, k: int)
    requires SameButPayment(a, b)
    ensures SummariesWhere(a, OrderOfUser(k)) == SummariesWhere(b, OrderOfUser(k))
  {
    if a != [] {
      assert SameButPayment(a[1..], b[1..]) by {
        forall i | 0 <= i < |a| - 1
          ensures WithoutPayment(a[1..][i]) == WithoutPayment(b[1..][i])
        {
          assert a[1..][i] == a[i + 1] && b[1..][i] == b[i + 1];
        }
      }
      SummariesIgnorePayment(a[1..], b[1..], k);
      assert WithoutPayment(a[0]) == WithoutPayment(b[0]);
      assert Summary(a[0]) == Summary(b[0]) && a[0].user_id == b[0].user_id;
    }
  }

  /** A user's order list never depends on the Stripe payment columns. */
  lemma OrderListHidesPayment(users: seq<User>, a: seq<Order>, b: seq<Order>, id: string)
    requires SameButPayment(a, b)
    ensures GetOrderOfUser(users, a, id) == GetOrderOfUser(users, b, id)
  {
    match UserController.ById(users, id)
    case None =>
    case Some(user) =>
      SummariesIgnorePayment(a, b, user.id);
  }

  /**
   * GET /api/orders/:id/details: 404 when no order has the id; otherwise 200
   * with the order's lines, in table order, each exactly as often as stored.
   */
  function GetOrderDetail(orders: seq<Order>, details: seq<OrderDetail>, id: string): (r: Response)
    ensures r.status == 404 <==> forall o :: o in orders ==> KeyOf(id) != Some(o.id)
    ensures r.status == 404 ==> r.body == Failure("Order not found")
    ensures r.status != 404 ==>
      && r.status == 200 && r.body.DetailList? && KeyOf(id).Some?
      && forall d :: multiset(r.body.details)[d] ==
           if d.order_id == KeyOf(id).value then multiset(details)[d] else 0
  {
    match KeyOf(id)
    case None => Response(404, Failure("Order not found"))
    case Some(k) =>
      if FindOne(orders, OrderWithId(k)).None? then Response(404, Failure("Order not found"))
      else Response(200, DetailList(Where(details, DetailOfOrder(k))))
  }
}
