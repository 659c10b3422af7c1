/** `OrderServiceImpl`: the order service over its collaborators, held as the
    fields of one object: the user directory behind `UserClient`, the
    product catalogue behind `ProductClient`, and the order table behind
    `OrderRepository`. The ghost log `calls` records every call made to
    them, in order. */
module OrderServiceImpl {
  import opened Common
  import opened OrderStatuses
  import opened OrderDomain
  import opened OrderPlacement
  import opened OrderLifecycle

  class OrderService {
    var users: set<UserId>
    var catalog: map<ProductId, CatalogProduct>
    var orders: seq<Order>
    var nextId: OrderId
    ghost var calls: seq<Call>

    /** The order table is keyed by identities the repository has already
        handed out, and every stored order is well formed. */
    ghost predicate Valid()
      reads this
    {
      && IdsDistinct(orders)
      && (forall i :: 0 <= i < |orders| ==> orders[i].id < nextId)
      && forall i :: 0 <= i < |orders| ==> WellFormed(orders[i])
    }

    /** The collaborators' state as the specification of `createOrder` sees it. */
    function State(): World
      reads this
    {
      World(users, catalog, orders, nextId)
    }

    /** A service over the given collaborators and an empty order table. */
    constructor(users: set<UserId>, catalog: map<ProductId, CatalogProduct>)
      ensures Valid()
      ensures State() == World(users, catalog, [], 1)
      ensures calls == []
    {
      this.users := users;
      this.catalog := catalog;
      orders := [];
      nextId := 1;
      calls := [];
    }

    // -------------------------------------------------------------------
    // The collaborators. `net` says how the remote calls of the current
    // `createOrder` call turn out, and `line` which line of it is being placed.

    /** `userClient.getUserById(id)`: the user, `null`, or a RestClientException. */
    method FetchUser(id: UserId, net: Network) returns (r: Reply<UserId>)
      modifies this`calls
      ensures r == if !net.userServiceUp then Unavailable else if id in users then Found(id) else Missing
      ensures calls == old(calls) + [GetUser(id)]
    {
      r := if !net.userServiceUp then Unavailable else if id in users then Found(id) else Missing;
      calls := calls + [GetUser(id)];
    }

    /** `productClient.getProductById(pid)`: the product, `null`, or a RestClientException. */
    method FetchProduct(pid: ProductId, line: nat, net: Network) returns (r: Reply<CatalogProduct>)
      modifies this`calls
      ensures r == if line in net.readFails then Unavailable
                   else if pid in catalog then Found(catalog[pid]) else Missing
      ensures calls == old(calls) + [GetProduct(pid)]
    {
      r := if line in net.readFails then Unavailable
           else if pid in catalog then Found(catalog[pid]) else Missing;
      calls := calls + [GetProduct(pid)];
    }

    /** `productClient.updateProductStock(pid, newStock)`: it either sets the
        product's stock or fails without effect. */
    method WriteStock(pid: ProductId, newStock: Int32, line: nat, net: Network) returns (ok: bool)
      requires pid in catalog
      modifies this
      ensures ok == (line !in net.writeFails)
      ensures catalog == if ok then old(catalog)[pid := old(catalog)[pid].(stock := Some(newStock))]
                         else old(catalog)
      ensures State() == old(State()).(catalog := catalog)
      ensures calls == old(calls) + [SetStock(pid, newStock)]
    {
      ok := line !in net.writeFails;
      if ok {
        catalog := catalog[pid := catalog[pid].(stock := Some(newStock))];
      }
      calls := calls + [SetStock(pid, newStock)];
    }

    // -------------------------------------------------------------------
    // The operations

    /** One iteration of the per-line loop of `createOrder`: read the product,
        check its stock, price the line and write the new stock. It does what
        `PlaceLine` does on line number `line` from a loop state `acc` that
        matches the catalogue and the call log: the same error, the same catalogue, the same calls, and on
        success the line `PlaceLine` appends. */
    method ProcessLine(req: ItemRequest, line: nat, net: Network, ghost acc: Lines, ghost calls0: seq<Call>)
      returns (r: Result<OrderItem, OrderError>)
      requires acc.failure.None? && acc.catalog == catalog && calls == calls0 + acc.calls
      modifies this
      ensures var n := PlaceLine(acc, line, req, net.readFails, net.writeFails);
        && (r.Err? <==> n.failure.Some?)
        && (r.Err? ==> r.error == n.failure.value)
        && (r.Ok? ==> n.items == acc.items + [r.value] && n.total == acc.total + r.value.subtotal)
        && catalog == n.catalog
        && calls == calls0 + n.calls
      ensures State() == old(State()).(catalog := catalog)
    {
      var pid := req.productId;
      var found := FetchProduct(pid, line, net);
      if found.Unavailable? {
        return Err(ProductServiceUnavailable(pid));
      }
      if found.Missing? {
        return Err(ProductNotFound(pid));
      }
      var product := found.value;
      if product.stock.None? || product.stock.value < req.quantity {
        return Err(InsufficientStock(pid, product.stock, req.quantity));
      }
      var item := OrderItem(pid, product.name, product.price, req.quantity,
                            Subtotal(product.price, req.quantity));
      var newStock := Sub32(product.stock.value, req.quantity);
      var written := WriteStock(pid, newStock, line, net);
      if !written {
        return Err(StockUpdateFailed(pid));
      }
      r := Ok(item);
    }

    /** The per-line loop of `createOrder` over the lines `reqs`: it does what
        `PlaceLines` does from the current catalogue, stopping at the first
        line that fails, and on success builds the lines and the total. */
    method ProcessLines(reqs: seq<ItemRequest>, net: Network)
      returns (items: seq<OrderItem>, total: real, failure: Option<OrderError>)
      modifies this
      ensures var l := PlaceLines(reqs, old(catalog), net.readFails, net.writeFails);
        && failure == l.failure
        && (failure.None? ==> items == l.items && total == l.total)
        && catalog == l.catalog
        && calls == old(calls) + l.calls
      ensures State() == old(State()).(catalog := catalog)
    {
      ghost var w0 := State();
      ghost var calls0 := calls;
      items, total, failure := [], 0.0, None;
      var i := 0;
      while i < |reqs|
        invariant i <= |reqs|
        invariant State() == w0.(catalog := catalog)
        invariant var l := PlaceLines(reqs[..i], w0.catalog, net.readFails, net.writeFails);
          && l.failure.None? && l.items == items && l.total == total && l.catalog == catalog
          && calls == calls0 + l.calls
      {
        ghost var done := PlaceLines(reqs[..i], w0.catalog, net.readFails, net.writeFails);
        NextLine(reqs, i, w0.catalog, net.readFails, net.writeFails);
        var line := ProcessLine(reqs[i], i, net, done, calls0);
        if line.Err? {
          FailureIsFinal(reqs, i + 1, w0.catalog, net.readFails, net.writeFails);
          return items, total, Some(line.error);
        }
        total := total + line.value.subtotal;
        items := items + [line.value];
        i := i + 1;
      }
      assert reqs[..i] == reqs;
    }

    /** `createOrder(request)`, with `now` for the clock and `net` for how
        the remote calls turn out. It does exactly what
        `PlaceOrder` says: the same result, the same new state of the
        catalogue and the order table, and the same calls in the same order. */
    method CreateOrder(req: OrderRequest, now: Timestamp, net: Network) returns (r: Result<Order, OrderError>)
      requires Valid()
      modifies this
      ensures Valid()
      ensures var out := PlaceOrder(old(State()), req, now, net);
        r == out.result && State() == out.world && calls == old(calls) + out.calls
    {
      ghost var w0 := State();
      if req.items.None? || req.items.value == [] {
        return Err(NoItems);
      }
      var user := FetchUser(req.userId, net);
      if user.Unavailable? {
        return Err(UserServiceUnavailable(req.userId));
      }
      if user.Missing? {
        return Err(UserNotFound(req.userId));
      }
      var items, total, failure := ProcessLines(req.items.value, net);
      if failure.Some? {
        return Err(failure.value);
      }
      var order := Order(nextId, req.userId, PENDING, now, total, items);
      PlacedOrderIsWellFormed(w0, req, now, net);
      orders := orders + [order];
      nextId := nextId + 1;
      calls := calls + [SaveOrder(order)];
      r := Ok(order);
    }

    /** `getOrderById(id)`: the stored order with that id, or an
        IllegalArgumentException when there is none. */
    function GetOrderById(id: OrderId): (r: Result<Order, OrderError>)
      reads this
      ensures r.Ok? <==> exists i :: 0 <= i < |orders| && orders[i].id == id
      ensures r.Ok? ==> r.value in orders && r.value.id == id
      ensures r.Err? ==> r.error == OrderNotFound(id) && ExceptionOf(r.error) == IllegalArgument
      ensures Valid() && r.Ok? ==> WellFormed(r.value)
    {
      match IndexOfOrder(orders, id)
      case None => Err(OrderNotFound(id))
      case Some(k) => Ok(orders[k])
    }

    /** `getAllOrders()`: every stored order once, in table order; in a valid
        table each of them is what a lookup by its id returns. */
    function GetAllOrders(): (r: seq<Order>)
      reads this
      ensures |r| == |orders| && forall i :: 0 <= i < |r| ==> r[i] == orders[i]
      ensures Valid() ==> forall i :: 0 <= i < |r| ==> GetOrderById(r[i].id) == Ok(r[i])
    {
      assert Valid() ==> forall i :: 0 <= i < |orders| ==> IndexOfOrder(orders, orders[i].id) == Some(i) by {
        if Valid() {
          forall i | 0 <= i < |orders| ensures IndexOfOrder(orders, orders[i].id) == Some(i) {
            IndexOfKey(orders, i);
          }
        }
      }
      orders
    }

    /** `getOrdersByUser(userId)`: exactly the stored orders of that user, in
        table order; an empty sequence, never null, when there are none. */
    function GetOrdersByUser(userId: UserId): (r: seq<Order>)
      reads this
      ensures forall o :: o in r <==> o in orders && o.userId == userId
      ensures Subsequence(r, orders)
      ensures forall o :: multiset(r)[o] == if o.userId == userId then multiset(orders)[o] else 0
      ensures (forall i :: 0 <= i < |orders| ==> orders[i].userId != userId) ==> r == []
    {
      Select(orders, (o: Order) => o.userId == userId)
    }

    /** `getOrdersByStatus(text)`: a label that names no status, in any mix of
        cases, is an IllegalArgumentException carrying the label; otherwise
        exactly the stored orders whose status the label names, in table
        order, and an empty sequence when there are none. */
    function GetOrdersByStatus(text: string): (r: Result<seq<Order>, OrderError>)
      reads this
      ensures r.Err? <==> forall s :: !EqualsIgnoreCase(text, Name(s))
      ensures r.Err? ==> r.error == InvalidStatus(text) && ExceptionOf(r.error) == IllegalArgument
      ensures r.Ok? ==> forall o :: o in r.value <==> o in orders && EqualsIgnoreCase(text, Name(o.status))
      ensures r.Ok? ==> Subsequence(r.value, orders)
      ensures r.Ok? ==> forall o ::
        multiset(r.value)[o] == if EqualsIgnoreCase(text, Name(o.status)) then multiset(orders)[o] else 0
    {
      match Parse(text)
      case None =>
        assert forall s :: !EqualsIgnoreCase(text, Name(s)) by {
          forall s ensures !EqualsIgnoreCase(text, Name(s)) {
            ParseIsCaseInsensitiveMatch(text, s);
          }
        }
        Err(InvalidStatus(text))
      case Some(st) =>
        assert forall s :: EqualsIgnoreCase(text, Name(s)) <==> s == st by {
          forall s ensures EqualsIgnoreCase(text, Name(s)) <==> s == st {
            ParseIsCaseInsensitiveMatch(text, s);
          }
        }
        Ok(Select(orders, (o: Order) => o.status == st))
    }

    /** `updateOrderStatus(id, text)`: an unknown id is an
        IllegalArgumentException; a found order goes through `ChangeStatus`,
        and only when that succeeds is the changed order saved in its place.
        No other order and no other collaborator changes. */
    method UpdateOrderStatus(id: OrderId, text: string) returns (r: Result<Order, OrderError>)
      requires Valid()
      modifies this
      ensures Valid()
      ensures State() == old(State()).(orders := orders)
      ensures match IndexOfOrder(old(orders), id)
        case None =>
          r == Err(OrderNotFound(id)) && orders == old(orders) && calls == old(calls)
        case Some(k) =>
          && r == ChangeStatus(old(orders)[k], text)
          && (r.Ok? ==> orders == old(orders)[k := r.value] && calls == old(calls) + [SaveOrder(r.value)])
          && (r.Err? ==> orders == old(orders) && calls == old(calls))
    {
      var found := IndexOfOrder(orders, id);
      if found.None? {
        return Err(OrderNotFound(id));
      }
      var k := found.value;
      var order := orders[k];
      if IsTerminal(order.status) {
        return Err(OrderLocked(order.status));
      }
      var status := Parse(text);
      if status.None? {
        return Err(InvalidStatus(text));
      }
      order := order.(status := status.value);
      orders := orders[k := order];
      calls := calls + [SaveOrder(order)];
      r := Ok(order);
    }

    /** `deleteOrder(id)`: an unknown id is an IllegalArgumentException, a
        DELIVERED or CANCELLED order an IllegalStateException, and either way
        nothing changes; otherwise exactly the order with that id leaves the
        table. */
    method DeleteOrder(id: OrderId) returns (r: Result<(), OrderError>)
      requires Valid()
      modifies this
      ensures Valid()
      ensures State() == old(State()).(orders := orders)
      ensures match IndexOfOrder(old(orders), id)
        case None =>
          r == Err(OrderNotFound(id)) && orders == old(orders) && calls == old(calls)
        case Some(k) =>
          match DeleteCheck(old(orders)[k])
          case Some(e) =>
            r == Err(e) && orders == old(orders) && calls == old(calls)
          case None =>
            r == Ok(()) && orders == RemoveAt(old(orders), k) && calls == old(calls) + [Call.DeleteOrder(id)]
    {
      var found := IndexOfOrder(orders, id);
      if found.None? {
        return Err(OrderNotFound(id));
      }
      var k := found.value;
      var refused := DeleteCheck(orders[k]);
      if refused.Some? {
        return Err(refused.value);
      }
      ghost var o0 := orders;
      orders := RemoveAt(orders, k);
      forall j | 0 <= j < |orders| ensures WellFormed(orders[j]) {
        assert orders[j] in o0;
      }
      calls := calls + [Call.DeleteOrder(id)];
      r := Ok(());
    }
  }
}
