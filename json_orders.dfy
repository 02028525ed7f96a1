/** The order, message and review lists of the storefront server (server.js),
    each kept in its own JSON file: orders are appended and have their status
    changed, messages are appended, reviews go to the front, and the statistics
    endpoint counts them. The fixed admin login sits beside them. */
module JsonOrders {
  import opened Wrappers
  import opened JsStrings
  import opened JsonStaffDirectory

  /** A stored order, message or review: a JSON object with string properties. */
  type Entry = map<string, string>

  /** `{ id, ...req.body, timestamp }`: the body's own properties come after the
      server's `id`, so an `id` in the body wins, and the server's timestamp comes
      last, so it always wins. */
  function Stamped(body: Entry, serverId: string, nowIso: string): Entry {
    map["id" := serverId] + body + map["timestamp" := nowIso]
  }

  /** `{ id, ...req.body, timestamp, status: 'pending' }`. */
  function NewOrder(body: Entry, serverId: string, nowIso: string): Entry {
    Stamped(body, serverId, nowIso)["status" := "pending"]
  }

  /** A new order is pending with the server's timestamp whatever the body says;
      its id is the body's when it has one; every other property is the body's. */
  lemma NewOrderFacts(body: Entry, serverId: string, nowIso: string)
    ensures var o := NewOrder(body, serverId, nowIso);
            && o["status"] == "pending" && o["timestamp"] == nowIso
            && o["id"] == (if "id" in body then body["id"] else serverId)
            && o.Keys == body.Keys + {"id", "timestamp", "status"}
            && forall k :: k in body && k !in {"id", "timestamp", "status"} ==> o[k] == body[k]
  {
  }

  /** The first order whose `id` is strictly equal to the one asked for. */
  function IndexOfOrder(orders: seq<Entry>, id: string): (k: Option<nat>)
    ensures k.Some? ==> k.value < |orders| && "id" in orders[k.value] && orders[k.value]["id"] == id
    ensures k.Some? ==> forall j :: 0 <= j < k.value ==> !("id" in orders[j] && orders[j]["id"] == id)
    ensures k.None? <==> forall j :: 0 <= j < |orders| ==> !("id" in orders[j] && orders[j]["id"] == id)
  {
    if orders == [] then None
    else if "id" in orders[0] && orders[0]["id"] == id then Some(0)
    else
      var k := IndexOfOrder(orders[1..], id);
      if k.Some? then Some(k.value + 1) else None
  }

  const OrderNotFound := HttpError(404, "Order not found")
  const CreateFailed := HttpError(500, "Failed to create order")

  /** What the confirmation e-mail helper answers; it catches its own errors. */
  datatype Mail = Sent(messageId: string) | NotSent(error: string)

  /** The order after the e-mail outcome is noted on it (JSON `true` and
      `false` are written as text). */
  function WithMail(o: Entry, mail: Mail): Entry {
    if mail.Sent? then o["emailSent" := "true"]["emailMessageId" := mail.messageId]
    else o["emailSent" := "false"]["emailError" := mail.error]
  }

  /** The second write of POST /api/orders: the file as first written is read
      back and the first order whose `id` equals the new order's is replaced by
      the order carrying its e-mail outcome. */
  function WriteBack(written: seq<Entry>, mailed: Entry): seq<Entry>
    requires "id" in mailed
  {
    var k := IndexOfOrder(written, mailed["id"]);
    if k.None? then written else written[k.value := mailed]
  }

  /** The reply of POST /api/orders: 201 with the order and a message naming the
      e-mail outcome; 500 when the body has no `customerInfo`, whose `email` is
      read after the first write. */
  function CreateReply(body: Entry, serverId: string, nowIso: string, mail: Mail): Result<Entry, HttpError> {
    if "customerInfo" !in body then Err(CreateFailed)
    else
      var message := if mail.Sent? then "Order created and confirmation email sent!"
                     else "Order created, but email failed to send";
      Ok(WithMail(NewOrder(body, serverId, nowIso), mail)["message" := message])
  }

  /** The orders file after POST /api/orders. */
  function CreateOrderSpec(orders: seq<Entry>, body: Entry, serverId: string, nowIso: string, mail: Mail): seq<Entry> {
    var written := orders + [NewOrder(body, serverId, nowIso)];
    if "customerInfo" !in body then written
    else WriteBack(written, WithMail(NewOrder(body, serverId, nowIso), mail))
  }

  /** The order after `status = ...; lastUpdated = ...`. A body without `status`
      assigns `undefined`, which the JSON file then leaves out. */
  function WithStatus(o: Entry, status: Option<string>, nowIso: string): Entry {
    var s := if status.Some? then o["status" := status.value] else o - {"status"};
    s["lastUpdated" := nowIso]
  }

  /** PUT /api/orders/:id/status. */
  function UpdateStatusSpec(orders: seq<Entry>, id: string, status: Option<string>, nowIso: string): Result<seq<Entry>, HttpError> {
    var k := IndexOfOrder(orders, id);
    if k.None? then Err(OrderNotFound)
    else Ok(orders[k.value := WithStatus(orders[k.value], status, nowIso)])
  }

  /** `orders.filter(order => order.status === 'pending').length`. */
  function PendingCount(orders: seq<Entry>): (n: nat)
    ensures n <= |orders|
  {
    if orders == [] then 0
    else PendingCount(orders[..|orders| - 1]) + (if IsPending(orders[|orders| - 1]) then 1 else 0)
  }

  predicate IsPending(o: Entry) {
    "status" in o && o["status"] == "pending"
  }

  /** The three files. */
  class DataFiles {
    var orders: seq<Entry>
    var messages: seq<Entry>
    var reviews: seq<Entry>

    constructor ()
      ensures orders == [] && messages == [] && reviews == []
    {
      orders, messages, reviews := [], [], [];
    }

    /** POST /api/orders: the new order is appended and written; then, unless
      reading `customerInfo.email` throws, the e-mail outcome is noted on it and
      the file is written again. */
    method CreateOrder(body: Entry, serverId: string, nowIso: string, mail: Mail) returns (reply: Result<Entry, HttpError>)
      modifies this
      ensures reply == CreateReply(body, serverId, nowIso, mail)
      ensures orders == CreateOrderSpec(old(orders), body, serverId, nowIso, mail)
      ensures messages == old(messages) && reviews == old(reviews)
    {
      var order := NewOrder(body, serverId, nowIso);
      orders := orders + [order];
      if "customerInfo" !in body {
        return Err(CreateFailed);
      }
      var mailed := WithMail(order, mail);
      var k := 0;
      while k < |orders|
        invariant 0 <= k <= |orders|
        invariant forall j :: 0 <= j < k ==> !("id" in orders[j] && orders[j]["id"] == mailed["id"])
      {
        if "id" in orders[k] && orders[k]["id"] == mailed["id"] {
          break;
        }
        k := k + 1;
      }
      if k < |orders| {
        FirstOrder(orders, mailed["id"], k);
        orders := orders[k := mailed];
      }
      reply := CreateReply(body, serverId, nowIso, mail);
    }

    /** PUT /api/orders/:id/status. */
    method UpdateOrderStatus(id: string, status: Option<string>, nowIso: string) returns (err: Option<HttpError>)
      modifies this
      ensures UpdateStatusSpec(old(orders), id, status, nowIso) == if err.Some? then Err(err.value) else Ok(orders)
      ensures err.Some? ==> orders == old(orders)
      ensures messages == old(messages) && reviews == old(reviews)
    {
      var k := 0;
      while k < |orders|
        invariant 0 <= k <= |orders|
        invariant forall j :: 0 <= j < k ==> !("id" in orders[j] && orders[j]["id"] == id)
      {
        if "id" in orders[k] && orders[k]["id"] == id {
          break;
        }
        k := k + 1;
      }
      if k == |orders| {
        return Some(OrderNotFound);
      }
      FirstOrder(orders, id, k);
      orders := orders[k := WithStatus(orders[k], status, nowIso)];
      return None;
    }

    /** POST /api/messages: appended. */
    method AddMessage(body: Entry, serverId: string, nowIso: string) returns (message: Entry)
      modifies this
      ensures message == Stamped(body, serverId, nowIso)
      ensures messages == old(messages) + [message]
      ensures orders == old(orders) && reviews == old(reviews)
    {
      message := Stamped(body, serverId, nowIso);
      messages := messages + [message];
    }

    /** POST /api/reviews: `unshift`, newest first. */
    method AddReview(body: Entry, serverId: string, nowIso: string) returns (review: Entry)
      modifies this
      ensures review == Stamped(body, serverId, nowIso)
      ensures reviews == [review] + old(reviews)
      ensures orders == old(orders) && messages == old(messages)
    {
      review := Stamped(body, serverId, nowIso);
      reviews := [review] + reviews;
    }

    /** DELETE /api/orders, /api/messages and /api/reviews. */
    method ClearOrders()
      modifies this
      ensures orders == [] && messages == old(messages) && reviews == old(reviews)
    {
      orders := [];
    }

    method ClearMessages()
      modifies this
      ensures messages == [] && orders == old(orders) && reviews == old(reviews)
    {
      messages := [];
    }

    method ClearReviews()
      modifies this
      ensures reviews == [] && orders == old(orders) && messages == old(messages)
    {
      reviews := [];
    }

    /** GET /api/stats, without the money and rating averages. */
    method Stats() returns (totalOrders: nat, pendingOrders: nat, totalMessages: nat, totalReviews: nat)
      ensures totalOrders == |orders| && totalMessages == |messages| && totalReviews == |reviews|
      ensures pendingOrders == PendingCount(orders)
      ensures pendingOrders <= totalOrders
    {
      pendingOrders := CountPending(orders);
      totalOrders, totalMessages, totalReviews := |orders|, |messages|, |reviews|;
    }
  }

  /** The `filter(...).length` loop behind the pending count. */
  method CountPending(orders: seq<Entry>) returns (n: nat)
    ensures n == PendingCount(orders)
  {
    n := 0;
    var i := 0;
    while i < |orders|
      invariant 0 <= i <= |orders|
      invariant n == PendingCount(orders[..i])
    {
      assert orders[..i + 1][..i] == orders[..i];
      if IsPending(orders[i]) {
        n := n + 1;
      }
      i := i + 1;
    }
    assert orders[..i] == orders;
  }

  lemma FirstOrder(orders: seq<Entry>, id: string, k: nat)
    requires k < |orders| && "id" in orders[k] && orders[k]["id"] == id
    requires forall j :: 0 <= j < k ==> !("id" in orders[j] && orders[j]["id"] == id)
    ensures IndexOfOrder(orders, id) == Some(k)
  {
    var r := IndexOfOrder(orders, id);
    assert r.Some?;
  }

  /** A status update answers 404 exactly when no order has the id; otherwise it
      touches one order, and in it only `status` and `lastUpdated`. */
  lemma UpdateStatusFacts(orders: seq<Entry>, id: string, status: Option<string>, nowIso: string)
    ensures var r := UpdateStatusSpec(orders, id, status, nowIso);
            && (r.Err? <==> forall j :: 0 <= j < |orders| ==> !("id" in orders[j] && orders[j]["id"] == id))
            && (r.Ok? ==> && |r.value| == |orders|
                          && var k := IndexOfOrder(orders, id).value;
                          && (forall j :: 0 <= j < |orders| && j != k ==> r.value[j] == orders[j])
                          && r.value[k]["lastUpdated"] == nowIso
                          && (status.Some? ==> r.value[k]["status"] == status.value)
                          && (forall p :: p != "status" && p != "lastUpdated" ==>
                                (p in r.value[k] <==> p in orders[k]) && (p in orders[k] ==> r.value[k][p] == orders[k][p])))
  {
  }

  /** The id the new order carries: the body's when it has one. */
  function NewId(body: Entry, serverId: string): string {
    if "id" in body then body["id"] else serverId
  }

  predicate HasId(orders: seq<Entry>, id: string) {
    exists j :: 0 <= j < |orders| && "id" in orders[j] && orders[j]["id"] == id
  }

  /** When no stored order has the new id, the create route appends one pending
      order, carrying the e-mail outcome when `customerInfo` is present, and
      leaves the earlier orders alone. */
  lemma CreateFresh(orders: seq<Entry>, body: Entry, serverId: string, nowIso: string, mail: Mail)
    requires !HasId(orders, NewId(body, serverId))
    ensures var r := CreateOrderSpec(orders, body, serverId, nowIso, mail);
            && |r| == |orders| + 1 && r[..|orders|] == orders
            && r[|orders|] == (if "customerInfo" in body then WithMail(NewOrder(body, serverId, nowIso), mail)
                               else NewOrder(body, serverId, nowIso))
            && IsPending(r[|orders|])
  {
    var o := NewOrder(body, serverId, nowIso);
    var written := orders + [o];
    NewOrderFacts(body, serverId, nowIso);
    if "customerInfo" in body {
      var mailed := WithMail(o, mail);
      assert written[|orders|]["id"] == mailed["id"];
      FirstOrder(written, mailed["id"], |orders|);
    }
  }

  /** When an earlier order already has the id the body supplies, the write-back
      replaces that earlier order by the new one and the appended copy keeps no
      e-mail outcome: the file then holds the new order twice. */
  lemma CreateOverwritesEarlier(orders: seq<Entry>, body: Entry, serverId: string, nowIso: string, mail: Mail)
    requires "customerInfo" in body && HasId(orders, NewId(body, serverId))
    ensures var r := CreateOrderSpec(orders, body, serverId, nowIso, mail);
            var k := IndexOfOrder(orders, NewId(body, serverId));
            && |r| == |orders| + 1 && k.Some?
            && r[k.value] == WithMail(NewOrder(body, serverId, nowIso), mail)
            && r[|orders|] == NewOrder(body, serverId, nowIso)
            && forall j :: 0 <= j < |orders| && j != k.value ==> r[j] == orders[j]
  {
    var o := NewOrder(body, serverId, nowIso);
    var written := orders + [o];
    var id := NewId(body, serverId);
    NewOrderFacts(body, serverId, nowIso);
    var k := IndexOfOrder(orders, id);
    assert k.Some?;
    assert written[k.value] == orders[k.value];
    FirstOrder(written, id, k.value);
  }

  /** With a fresh id a new order adds one to the pending count. */
  lemma {:induction false} PendingAfterCreate(orders: seq<Entry>, body: Entry, serverId: string, nowIso: string, mail: Mail)
    requires !HasId(orders, NewId(body, serverId))
    ensures PendingCount(CreateOrderSpec(orders, body, serverId, nowIso, mail)) == PendingCount(orders) + 1
  {
    CreateFresh(orders, body, serverId, nowIso, mail);
    var s := CreateOrderSpec(orders, body, serverId, nowIso, mail);
    assert s[..|s| - 1] == orders;
  }

  /** Updating one order's status moves the pending count by at most one, in the
      direction of the change. */
  lemma {:induction false} PendingAfterStatus(orders: seq<Entry>, k: nat, o: Entry)
    requires k < |orders|
    ensures PendingCount(orders[k := o]) == PendingCount(orders) - (if IsPending(orders[k]) then 1 else 0) + (if IsPending(o) then 1 else 0)
  {
    var last := |orders| - 1;
    if k == last {
      assert orders[k := o][..last] == orders[..last];
    } else {
      PendingAfterStatus(orders[..last], k, o);
      assert orders[k := o][..last] == orders[..last][k := o];
    }
  }

  // ---------------------------------------------------------------- login

  const InvalidLogin := HttpError(401, "Invalid username or password")

  /** POST /api/auth/login: only admin / admin123 gets a token, and the token is
      `admin-token-` followed by the time in milliseconds. */
  function Login(username: Option<string>, password: Option<string>, now: nat): (r: Result<string, HttpError>)
    ensures r.Ok? <==> username == Some("admin") && password == Some("admin123")
    ensures r.Err? ==> r.error == InvalidLogin
    ensures r.Ok? ==> |r.value| > 12 && r.value[..12] == "admin-token-" && AllDigits(r.value[12..]) && ParseDecimal(r.value[12..]) == now
  {
    if username == Some("admin") && password == Some("admin123") then
      var token := "admin-token-" + NatToDecimal(now);
      assert token[12..] == NatToDecimal(now);
      DecimalRoundTrip(now);
      Ok(token)
    else Err(InvalidLogin)
  }
}
