/** The order handlers: createOrder records an order taken from the request
    body; getUserOrders lists orders by owner. The Order schema is not part of
    this model, so an order's items are left generic. */
module OrderController {
  import opened Common
  import opened Firebase

  datatype Order<I> = Order(firebaseUID: string, items: seq<I>, totalAmount: int, shippingAddress: string)

  /** The JSON body of `POST /orders/add`; a missing field reads as its falsy value. */
  datatype OrderRequest<I> = OrderRequest(firebaseUID: string, items: seq<I>, totalAmount: int, shippingAddress: string)

  datatype OrdersReply<I> = OrdersReply(status: int, orders: seq<Order<I>>)

  /** createOrder: a missing owner uid, an empty item list, a zero amount or a
      missing address answers 400 and stores nothing; otherwise exactly one
      order, owned by the uid the body names, is appended. The caller's
      verified token plays no part. */
  function CreateOrder<I>(caller: DecodedToken, body: OrderRequest<I>, orders: seq<Order<I>>): (r: OrdersReply<I>)
    ensures r.status == StatusBadRequest <==>
      body.firebaseUID == "" || |body.items| == 0 || body.totalAmount == 0 || body.shippingAddress == ""
    ensures r.status == StatusBadRequest ==> r.orders == orders
    ensures r.status != StatusBadRequest ==>
      && r.status == StatusCreated
      && |r.orders| == |orders| + 1 && r.orders[..|orders|] == orders
      && r.orders[|orders|] == Order(body.firebaseUID, body.items, body.totalAmount, body.shippingAddress)
  {
    if body.firebaseUID == "" || |body.items| == 0 || body.totalAmount == 0 || body.shippingAddress == "" then
      OrdersReply(StatusBadRequest, orders)
    else
      OrdersReply(StatusCreated, orders + [Order(body.firebaseUID, body.items, body.totalAmount, body.shippingAddress)])
  }

  /** Only truthiness is tested: a negative amount is recorded. */
  lemma NegativeTotalAccepted<I>(caller: DecodedToken, body: OrderRequest<I>, orders: seq<Order<I>>)
    requires body.firebaseUID != "" && |body.items| > 0 && body.shippingAddress != ""
    requires body.totalAmount < 0
    ensures CreateOrder(caller, body, orders).status == StatusCreated
    ensures CreateOrder(caller, body, orders).orders[|orders|].totalAmount < 0
  {
  }

  /** Any authenticated caller can record an order under another user's uid. */
  lemma OrderOwnerFromBody<I>(caller: DecodedToken, body: OrderRequest<I>, orders: seq<Order<I>>)
    requires body.firebaseUID != "" && |body.items| > 0 && body.totalAmount != 0 && body.shippingAddress != ""
    requires body.firebaseUID != caller.uid
    ensures CreateOrder(caller, body, orders).orders[|orders|].firebaseUID != caller.uid
  {
  }

  /** `req.user.firebaseUID`: the token the middleware attaches carries its
      identifier as `uid` and has no `firebaseUID` property, so the read gives
      undefined whoever the caller is. */
  function FirebaseUIDField(t: DecodedToken): Option<string>
  {
    None
  }

  /** getUserOrders: the orders `find` returns for the key read from
      `req.user`; an empty result answers 404 rather than an empty list. */
  function GetUserOrders<I>(caller: DecodedToken, find: Option<string> -> seq<Order<I>>): (r: OrdersReply<I>)
    ensures r.status == StatusNotFound <==> |find(FirebaseUIDField(caller))| == 0
    ensures r.status != StatusNotFound ==> r.status == StatusOk && r.orders == find(FirebaseUIDField(caller))
    ensures r.status == StatusNotFound ==> r.orders == []
  {
    var orders := find(FirebaseUIDField(caller));
    if |orders| == 0 then OrdersReply(StatusNotFound, []) else OrdersReply(StatusOk, orders)
  }

  /** As written, the reply does not depend on the caller: two users with
      different uids receive the same orders. */
  lemma OrdersIgnoreCaller<I>(a: DecodedToken, b: DecodedToken, find: Option<string> -> seq<Order<I>>)
    ensures GetUserOrders(a, find) == GetUserOrders(b, find)
  {
  }

  /** The stored orders owned by `uid`, in stored order. */
  function OwnedBy<I(!new)>(stored: seq<Order<I>>, uid: string): (r: seq<Order<I>>)
    ensures |r| <= |stored|
    ensures forall o :: o in r <==> o in stored && o.firebaseUID == uid
  {
    if |stored| == 0 then []
    else
      var rest := OwnedBy(stored[1..], uid);
      assert forall o :: o in stored <==> o == stored[0] || o in stored[1..];
      if stored[0].firebaseUID == uid then [stored[0]] + rest else rest
  }

  /** getUserOrders keyed by the verified uid, as evidently intended: 404 when
      the caller owns no stored order, otherwise exactly the caller's orders. */
  function GetOwnOrders<I(!new)>(caller: DecodedToken, stored: seq<Order<I>>): (r: OrdersReply<I>)
    ensures r.status == StatusNotFound <==> forall o :: o in stored ==> o.firebaseUID != caller.uid
    ensures r.status != StatusNotFound ==> r.status == StatusOk
    ensures forall o :: o in r.orders <==> r.status == StatusOk && o in stored && o.firebaseUID == caller.uid
  {
    var orders := OwnedBy(stored, caller.uid);
    if |orders| == 0 then OrdersReply(StatusNotFound, [])
    else
      assert orders[0] in orders;
      OrdersReply(StatusOk, orders)
  }

  /** Under the intended lookup, callers with different uids never see a
      common order. */
  lemma OwnOrdersSeparate<I(!new)>(a: DecodedToken, b: DecodedToken, stored: seq<Order<I>>)
    requires a.uid != b.uid
    ensures forall o :: o in GetOwnOrders(a, stored).orders ==> o !in GetOwnOrders(b, stored).orders
  {
  }
}
