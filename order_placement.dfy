/** What `createOrder` does, as a function of the state of its collaborators:
    validate the request and the user, then for each line in request order
    read the product, check its stock, price the line and write the
    decremented stock at once; on the first failure stop, leaving the stock
    writes already made in place; if every line passes, save one PENDING order. */
module OrderPlacement {
  import opened Common
  import opened OrderStatuses
  import opened OrderDomain

  /** The collaborators' stored state as `createOrder` sees it: the user
      directory, the product catalogue, and the order table with the next
      identity the repository will assign. */
  datatype World = World(
    users: set<UserId>,
    catalog: map<ProductId, CatalogProduct>,
    orders: seq<Order>,
    nextId: OrderId)

  /** How the remote calls of one `createOrder` call turn out: whether the
      user service answers, and the lines of the request, numbered from 0,
      whose product read or whose stock write throws. Each line makes calls
      of its own, so two lines of one product can fare differently. */
  datatype Network = Network(userServiceUp: bool, readFails: set<nat>, writeFails: set<nat>)

  /** The state of the per-line loop: the lines built so far, the running
      total, the catalogue after the stock writes made so far, the calls
      made, and the error that stopped the loop, if any. */
  datatype Lines = Lines(
    items: seq<OrderItem>,
    total: real,
    catalog: map<ProductId, CatalogProduct>,
    calls: seq<Call>,
    failure: Option<OrderError>)

  /** The result of a whole `createOrder` call. */
  datatype Outcome = Outcome(result: Result<Order, OrderError>, world: World, calls: seq<Call>)

  /** One iteration of the per-line loop, on line number `line`. */
  function PlaceLine(acc: Lines, line: nat, req: ItemRequest, readFails: set<nat>,
                     writeFails: set<nat>): Lines
  {
    var pid := req.productId;
    var calls := acc.calls + [GetProduct(pid)];
    if line in readFails then
      acc.(calls := calls, failure := Some(ProductServiceUnavailable(pid)))
    else if pid !in acc.catalog then
      acc.(calls := calls, failure := Some(ProductNotFound(pid)))
    else
      var p := acc.catalog[pid];
      if p.stock.None? || p.stock.value < req.quantity then
        acc.(calls := calls, failure := Some(InsufficientStock(pid, p.stock, req.quantity)))
      else
        var item := OrderItem(pid, p.name, p.price, req.quantity, Subtotal(p.price, req.quantity));
        var newStock := Sub32(p.stock.value, req.quantity);
        var calls' := calls + [SetStock(pid, newStock)];
        if line in writeFails then
          acc.(calls := calls', failure := Some(StockUpdateFailed(pid)))
        else
          Lines(acc.items + [item], acc.total + item.subtotal,
                acc.catalog[pid := p.(stock := Some(newStock))], calls', None)
  }

  /** One line that passes: the product is known and in stock, the line is
      priced from the catalogue, and the loop makes one read and one write. */
  lemma StepPasses(acc: Lines, line: nat, req: ItemRequest, readFails: set<nat>, writeFails: set<nat>)
    requires PlaceLine(acc, line, req, readFails, writeFails).failure.None?
    ensures var pid := req.productId;
      var r := PlaceLine(acc, line, req, readFails, writeFails);
      && line !in readFails && line !in writeFails && pid in acc.catalog
      && var p := acc.catalog[pid];
      && p.stock.Some? && req.quantity <= p.stock.value
      && var newStock := Sub32(p.stock.value, req.quantity);
      && r.items == acc.items + [OrderItem(pid, p.name, p.price, req.quantity, Subtotal(p.price, req.quantity))]
      && r.total == acc.total + Subtotal(p.price, req.quantity)
      && r.calls == acc.calls + [GetProduct(pid), SetStock(pid, newStock)]
      && r.catalog == acc.catalog[pid := p.(stock := Some(newStock))]
  {
  }

  /** The per-line loop run over `reqs`, from a catalogue `catalog`. It is
      defined on the last line so that it follows the loop one iteration at a time. */
  function PlaceLines(reqs: seq<ItemRequest>, catalog: map<ProductId, CatalogProduct>,
                      readFails: set<nat>, writeFails: set<nat>): Lines
    decreases |reqs|
  {
    if reqs == [] then Lines([], 0.0, catalog, [], None)
    else
      var prev := PlaceLines(reqs[..|reqs| - 1], catalog, readFails, writeFails);
      if prev.failure.Some? then prev
      else PlaceLine(prev, |reqs| - 1, reqs[|reqs| - 1], readFails, writeFails)
  }

  /** `createOrder(request)` with `now` standing for `LocalDateTime.now()`
      and `net` for how its remote calls turn out. */
  function PlaceOrder(w: World, req: OrderRequest, now: Timestamp, net: Network): Outcome
  {
    if req.items.None? || req.items.value == [] then
      Outcome(Err(NoItems), w, [])
    else if !net.userServiceUp then
      Outcome(Err(UserServiceUnavailable(req.userId)), w, [GetUser(req.userId)])
    else if req.userId !in w.users then
      Outcome(Err(UserNotFound(req.userId)), w, [GetUser(req.userId)])
    else
      var lines := PlaceLines(req.items.value, w.catalog, net.readFails, net.writeFails);
      var calls := [GetUser(req.userId)] + lines.calls;
      if lines.failure.Some? then
        Outcome(Err(lines.failure.value), w.(catalog := lines.catalog), calls)
      else
        var order := Order(w.nextId, req.userId, PENDING, now, lines.total, lines.items);
        Outcome(Ok(order),
                w.(catalog := lines.catalog, orders := w.orders + [order], nextId := w.nextId + 1),
                calls + [SaveOrder(order)])
  }

  // ---------------------------------------------------------------------
  // The per-line loop

  /** Once a line fails, later lines are not looked at: the state of the
      loop is the one the failure left. */
  lemma {:induction false} FailureIsFinal(reqs: seq<ItemRequest>, k: nat,
      catalog: map<ProductId, CatalogProduct>, readFails: set<nat>, writeFails: set<nat>)
    requires k <= |reqs|
    requires PlaceLines(reqs[..k], catalog, readFails, writeFails).failure.Some?
    ensures PlaceLines(reqs, catalog, readFails, writeFails)
         == PlaceLines(reqs[..k], catalog, readFails, writeFails)
    decreases |reqs|
  {
    if k < |reqs| {
      var front := reqs[..|reqs| - 1];
      assert front[..k] == reqs[..k];
      FailureIsFinal(front, k, catalog, readFails, writeFails);
    } else {
      assert reqs[..k] == reqs;
    }
  }

  /** Every prefix of a request that passes passes too. */
  lemma PrefixSucceeds(reqs: seq<ItemRequest>, k: nat,
      catalog: map<ProductId, CatalogProduct>, readFails: set<nat>, writeFails: set<nat>)
    requires k <= |reqs|
    requires PlaceLines(reqs, catalog, readFails, writeFails).failure.None?
    ensures PlaceLines(reqs[..k], catalog, readFails, writeFails).failure.None?
  {
    if PlaceLines(reqs[..k], catalog, readFails, writeFails).failure.Some? {
      FailureIsFinal(reqs, k, catalog, readFails, writeFails);
    }
  }

  /** The loop only ever changes stock: the catalogue keeps its products and
      their names and prices. */
  lemma {:induction false} CatalogKeepsNamesAndPrices(reqs: seq<ItemRequest>,
      catalog: map<ProductId, CatalogProduct>, readFails: set<nat>, writeFails: set<nat>)
    ensures var l := PlaceLines(reqs, catalog, readFails, writeFails);
      l.catalog.Keys == catalog.Keys &&
      forall pid :: pid in catalog ==>
        l.catalog[pid].name == catalog[pid].name && l.catalog[pid].price == catalog[pid].price
    decreases |reqs|
  {
    if reqs != [] {
      CatalogKeepsNamesAndPrices(reqs[..|reqs| - 1], catalog, readFails, writeFails);
    }
  }

  /** A request whose lines all pass yields one order line and two calls per
      requested line, and its running total is the sum of the line subtotals. */
  lemma {:induction false} SuccessShape(reqs: seq<ItemRequest>,
      catalog: map<ProductId, CatalogProduct>, readFails: set<nat>, writeFails: set<nat>)
    requires PlaceLines(reqs, catalog, readFails, writeFails).failure.None?
    ensures var l := PlaceLines(reqs, catalog, readFails, writeFails);
      |l.items| == |reqs| && |l.calls| == 2 * |reqs| && l.total == Total(l.items)
    decreases |reqs|
  {
    if reqs != [] {
      var front := reqs[..|reqs| - 1];
      var prev := PlaceLines(front, catalog, readFails, writeFails);
      SuccessShape(front, catalog, readFails, writeFails);
      var l := PlaceLines(reqs, catalog, readFails, writeFails);
      TotalAppend(prev.items, l.items[|l.items| - 1]);
    }
  }

  /** When every line passes, the loop after `k` lines agrees with the loop
      after all of them on everything it had built and called by then. */
  lemma {:induction false} PrefixAgrees(reqs: seq<ItemRequest>, k: nat,
      catalog: map<ProductId, CatalogProduct>, readFails: set<nat>, writeFails: set<nat>)
    requires k <= |reqs|
    requires PlaceLines(reqs, catalog, readFails, writeFails).failure.None?
    ensures var l := PlaceLines(reqs, catalog, readFails, writeFails);
      var p := PlaceLines(reqs[..k], catalog, readFails, writeFails);
      && p.failure.None?
      && |p.items| == k <= |l.items|
      && p.items == l.items[..k]
      && |p.calls| == 2 * k <= |l.calls|
      && p.calls == l.calls[..2 * k]
    decreases |reqs|
  {
    SuccessShape(reqs, catalog, readFails, writeFails);
    if k < |reqs| {
      var front := reqs[..|reqs| - 1];
      assert front[..k] == reqs[..k];
      PrefixAgrees(front, k, catalog, readFails, writeFails);
      SuccessShape(front, catalog, readFails, writeFails);
    } else {
      assert reqs[..k] == reqs;
    }
    PrefixSucceeds(reqs, k, catalog, readFails, writeFails);
    SuccessShape(reqs[..k], catalog, readFails, writeFails);
  }

  /** The stock that line `i` reads: the catalogue's after the writes of the
      lines before it. */
  function StockRead(reqs: seq<ItemRequest>, i: nat, catalog: map<ProductId, CatalogProduct>,
                     readFails: set<nat>, writeFails: set<nat>): Option<Int32>
    requires i < |reqs|
  {
    var c := PlaceLines(reqs[..i], catalog, readFails, writeFails).catalog;
    if reqs[i].productId in c then c[reqs[i].productId].stock else None
  }

  /** After `i` lines that pass, the loop state after line `i` is one more
      iteration of the loop. */
  lemma NextLine(reqs: seq<ItemRequest>, i: nat,
      catalog: map<ProductId, CatalogProduct>, readFails: set<nat>, writeFails: set<nat>)
    requires i < |reqs|
    requires PlaceLines(reqs[..i], catalog, readFails, writeFails).failure.None?
    ensures PlaceLines(reqs[..i + 1], catalog, readFails, writeFails)
         == PlaceLine(PlaceLines(reqs[..i], catalog, readFails, writeFails), i, reqs[i], readFails, writeFails)
  {
    assert reqs[..i + 1][..i] == reqs[..i];
  }

  /** When every line passes, line `i` of the order carries the requested
      product and quantity, the catalogue's name and unit price, and
      subtotal = unit price x quantity. */
  lemma ItemAt(reqs: seq<ItemRequest>, i: nat,
      catalog: map<ProductId, CatalogProduct>, readFails: set<nat>, writeFails: set<nat>)
    requires i < |reqs|
    requires PlaceLines(reqs, catalog, readFails, writeFails).failure.None?
    ensures var l := PlaceLines(reqs, catalog, readFails, writeFails);
      var pid := reqs[i].productId;
      && pid in catalog
      && |l.items| == |reqs|
      && l.items[i] == OrderItem(pid, catalog[pid].name, catalog[pid].price, reqs[i].quantity,
                                 Subtotal(catalog[pid].price, reqs[i].quantity))
  {
    var p := PlaceLines(reqs[..i], catalog, readFails, writeFails);
    var q := PlaceLines(reqs[..i + 1], catalog, readFails, writeFails);
    var l := PlaceLines(reqs, catalog, readFails, writeFails);
    SuccessShape(reqs, catalog, readFails, writeFails);
    PrefixAgrees(reqs, i + 1, catalog, readFails, writeFails);
    PrefixAgrees(reqs, i, catalog, readFails, writeFails);
    NextLine(reqs, i, catalog, readFails, writeFails);
    StepPasses(p, i, reqs[i], readFails, writeFails);
    CatalogKeepsNamesAndPrices(reqs[..i], catalog, readFails, writeFails);
    var pid := reqs[i].productId;
    var pc := p.catalog[pid];
    var line := OrderItem(pid, pc.name, pc.price, reqs[i].quantity, Subtotal(pc.price, reqs[i].quantity));
    assert q.items == p.items + [line];
    assert l.items[i] == q.items[i] == line;
  }

  /** When every line passes, the stock read of line `i` found at least the
      quantity, and its two calls are the product read followed by one stock
      write setting that product's stock to the stock read minus the quantity. */
  lemma CallsAt(reqs: seq<ItemRequest>, i: nat,
      catalog: map<ProductId, CatalogProduct>, readFails: set<nat>, writeFails: set<nat>)
    requires i < |reqs|
    requires PlaceLines(reqs, catalog, readFails, writeFails).failure.None?
    ensures var l := PlaceLines(reqs, catalog, readFails, writeFails);
      var pid := reqs[i].productId;
      var read := StockRead(reqs, i, catalog, readFails, writeFails);
      && |l.calls| == 2 * |reqs|
      && read.Some? && reqs[i].quantity <= read.value
      && l.calls[2 * i] == GetProduct(pid)
      && l.calls[2 * i + 1] == SetStock(pid, Sub32(read.value, reqs[i].quantity))
  {
    var p := PlaceLines(reqs[..i], catalog, readFails, writeFails);
    var q := PlaceLines(reqs[..i + 1], catalog, readFails, writeFails);
    var l := PlaceLines(reqs, catalog, readFails, writeFails);
    PrefixAgrees(reqs, i + 1, catalog, readFails, writeFails);
    assert reqs[..i + 1][..i] == reqs[..i];
    assert p.failure.None?;
    assert q == PlaceLine(p, i, reqs[i], readFails, writeFails);
    StepPasses(p, i, reqs[i], readFails, writeFails);
    var pid := reqs[i].productId;
    var read := p.catalog[pid].stock;
    var write := SetStock(pid, Sub32(read.value, reqs[i].quantity));
    assert q.calls == p.calls + [GetProduct(pid), write];
    assert l.calls[2 * i] == q.calls[2 * i] == GetProduct(pid);
    assert l.calls[2 * i + 1] == q.calls[2 * i + 1] == write;
  }

  /** Whether some line of `reqs` orders product `pid`. */
  predicate Mentions(reqs: seq<ItemRequest>, pid: ProductId)
  {
    exists i :: 0 <= i < |reqs| && reqs[i].productId == pid
  }

  /** How much of product `pid` the lines of `reqs` ask for. */
  function Demand(reqs: seq<ItemRequest>, pid: ProductId): int
    decreases |reqs|
  {
    if reqs == [] then 0
    else Demand(reqs[..|reqs| - 1], pid) + (if reqs[|reqs| - 1].productId == pid then reqs[|reqs| - 1].quantity else 0)
  }

  /** When every line passes and no quantity is negative, the stock of an
      ordered product goes down by exactly the quantity ordered of it over all
      lines (repeated lines of one product included) and stays non-negative;
      a product no line orders is untouched. */
  lemma {:induction false} StockDecreasesByDemand(reqs: seq<ItemRequest>, pid: ProductId,
      catalog: map<ProductId, CatalogProduct>, readFails: set<nat>, writeFails: set<nat>)
    requires pid in catalog
    requires forall i :: 0 <= i < |reqs| ==> reqs[i].quantity >= 0
    requires PlaceLines(reqs, catalog, readFails, writeFails).failure.None?
    ensures var l := PlaceLines(reqs, catalog, readFails, writeFails);
      && pid in l.catalog
      && if Mentions(reqs, pid) then
           && catalog[pid].stock.Some? && l.catalog[pid].stock.Some?
           && l.catalog[pid].stock.value == catalog[pid].stock.value - Demand(reqs, pid)
           && l.catalog[pid].stock.value >= 0
           && l.catalog[pid].name == catalog[pid].name && l.catalog[pid].price == catalog[pid].price
         else
           l.catalog[pid] == catalog[pid]
    decreases |reqs|
  {
    CatalogKeepsNamesAndPrices(reqs, catalog, readFails, writeFails);
    if reqs != [] {
      var n := |reqs| - 1;
      var front := reqs[..n];
      var prev := PlaceLines(front, catalog, readFails, writeFails);
      var l := PlaceLines(reqs, catalog, readFails, writeFails);
      assert prev.failure.None?;
      assert l == PlaceLine(prev, n, reqs[n], readFails, writeFails);
      StepPasses(prev, n, reqs[n], readFails, writeFails);
      StockDecreasesByDemand(front, pid, catalog, readFails, writeFails);
      assert Demand(reqs, pid)
          == Demand(front, pid) + (if reqs[n].productId == pid then reqs[n].quantity else 0);
      assert Mentions(reqs, pid) <==> Mentions(front, pid) || reqs[n].productId == pid by {
        if Mentions(reqs, pid) {
          var i :| 0 <= i < |reqs| && reqs[i].productId == pid;
          if i < n { assert front[i].productId == pid; }
        }
        if Mentions(front, pid) {
          var i :| 0 <= i < n && front[i].productId == pid;
          assert reqs[i].productId == pid;
        }
      }
      if reqs[n].productId == pid {
        var before := prev.catalog[pid].stock.value;
        assert 0 <= before - reqs[n].quantity <= before;
        assert l.catalog[pid].stock == Some(before - reqs[n].quantity);
        if !Mentions(front, pid) {
          assert Demand(front, pid) == 0 by { DemandWithoutMention(front, pid); }
        }
      }
    }
  }

  /** A product no line orders is not demanded. */
  lemma {:induction false} DemandWithoutMention(reqs: seq<ItemRequest>, pid: ProductId)
    requires !Mentions(reqs, pid)
    ensures Demand(reqs, pid) == 0
    decreases |reqs|
  {
    if reqs != [] {
      var front := reqs[..|reqs| - 1];
      assert !Mentions(front, pid);
      DemandWithoutMention(front, pid);
      assert reqs[|reqs| - 1].productId != pid;
    }
  }

  // ---------------------------------------------------------------------
  // The whole call

  /** An absent or empty item list fails with NoItems (an
      IllegalArgumentException) before any call is made. */
  lemma EmptyRequestMakesNoCall(w: World, req: OrderRequest, now: Timestamp, net: Network)
    requires req.items.None? || req.items.value == []
    ensures PlaceOrder(w, req, now, net) == Outcome(Err(NoItems), w, [])
    ensures ExceptionOf(NoItems) == IllegalArgument
  {
  }

  /** A user service that does not answer gives an IllegalStateException, and
      an unknown user an IllegalArgumentException; either way the user
      lookup is the only call, so no product is read, no stock written and
      no order saved. */
  lemma UserCheckStopsEarly(w: World, req: OrderRequest, now: Timestamp, net: Network)
    requires req.items.Some? && req.items.value != []
    requires !net.userServiceUp || req.userId !in w.users
    ensures var out := PlaceOrder(w, req, now, net);
      && out.result.Err?
      && out.result.error == (if !net.userServiceUp then UserServiceUnavailable(req.userId)
                              else UserNotFound(req.userId))
      && ExceptionOf(out.result.error) == (if !net.userServiceUp then IllegalState else IllegalArgument)
      && out.world == w
      && out.calls == [GetUser(req.userId)]
  {
  }

  /** If lines `0..k-1` pass and line `k` fails, the call fails with line
      `k`'s error: the product service being down (IllegalState), an
      unknown product (IllegalArgument), too little or no stock, carrying
      the product id, the stock read and the quantity (IllegalArgument), or
      the stock write itself failing (the REST client's exception). The stock
      writes of lines `0..k-1` stay in the catalogue, nothing is compensated,
      no order is saved, and no line after `k` is looked at: the calls are
      the user lookup, the calls of lines `0..k-1`, line `k`'s product read
      and, when its stock check passed, its stock write. */
  lemma FailedLineKeepsEarlierWrites(w: World, req: OrderRequest, now: Timestamp, net: Network, k: nat)
    requires req.items.Some? && net.userServiceUp && req.userId in w.users
    requires k < |req.items.value|
    requires PlaceLines(req.items.value[..k], w.catalog, net.readFails, net.writeFails).failure.None?
    requires PlaceLines(req.items.value[..k + 1], w.catalog, net.readFails, net.writeFails).failure.Some?
    ensures var reqs := req.items.value;
      var done := PlaceLines(reqs[..k], w.catalog, net.readFails, net.writeFails);
      var pid := reqs[k].productId;
      var checked := k !in net.readFails && pid in done.catalog && done.catalog[pid].stock.Some?
                     && reqs[k].quantity <= done.catalog[pid].stock.value;
      var out := PlaceOrder(w, req, now, net);
      && out.result.Err?
      && out.result.error == (
           if k in net.readFails then ProductServiceUnavailable(pid)
           else if pid !in done.catalog then ProductNotFound(pid)
           else if !checked then InsufficientStock(pid, done.catalog[pid].stock, reqs[k].quantity)
           else StockUpdateFailed(pid))
      && out.world == w.(catalog := done.catalog)
      && out.calls == [GetUser(req.userId)] + done.calls + [GetProduct(pid)]
                      + (if checked then [SetStock(pid, Sub32(done.catalog[pid].stock.value, reqs[k].quantity))]
                         else [])
      && forall c :: c in out.calls ==> !c.SaveOrder?
  {
    var reqs := req.items.value;
    var done := PlaceLines(reqs[..k], w.catalog, net.readFails, net.writeFails);
    assert reqs[..k + 1][..k] == reqs[..k];
    FailureIsFinal(reqs, k + 1, w.catalog, net.readFails, net.writeFails);
    var l := PlaceLines(reqs, w.catalog, net.readFails, net.writeFails);
    assert l == PlaceLine(done, k, reqs[k], net.readFails, net.writeFails);
    NoSaveInLines(reqs[..k], w.catalog, net.readFails, net.writeFails);
  }

  /** The per-line loop never saves an order. */
  lemma {:induction false} NoSaveInLines(reqs: seq<ItemRequest>,
      catalog: map<ProductId, CatalogProduct>, readFails: set<nat>, writeFails: set<nat>)
    ensures forall c :: c in PlaceLines(reqs, catalog, readFails, writeFails).calls ==> !c.SaveOrder?
    decreases |reqs|
  {
    if reqs != [] {
      NoSaveInLines(reqs[..|reqs| - 1], catalog, readFails, writeFails);
    }
  }

  /** A successful call saves exactly one order, as its last call and so after
      every stock write: it gets the next identity, status PENDING, the
      requesting user, the given date, one line per requested line in
      request order, and the sum of the line subtotals as its total. Nothing
      else in the order table changes. */
  lemma SuccessfulPlacement(w: World, req: OrderRequest, now: Timestamp, net: Network)
    requires PlaceOrder(w, req, now, net).result.Ok?
    ensures var out := PlaceOrder(w, req, now, net);
      var o := out.result.value;
      var reqs := req.items.value;
      && req.items.Some? && reqs != []
      && req.userId in w.users
      && o.id == w.nextId && o.status == PENDING && o.userId == req.userId && o.orderDate == now
      && |o.items| == |reqs|
      && (forall i :: 0 <= i < |reqs| ==>
            var pid := reqs[i].productId;
            pid in w.catalog &&
            o.items[i] == OrderItem(pid, w.catalog[pid].name, w.catalog[pid].price, reqs[i].quantity,
                                    Subtotal(w.catalog[pid].price, reqs[i].quantity)))
      && o.totalAmount == Total(o.items)
      && out.world.orders == w.orders + [o]
      && out.world.nextId == w.nextId + 1
      && |out.calls| == 2 * |reqs| + 2
      && out.calls[0] == GetUser(req.userId)
      && out.calls[|out.calls| - 1] == SaveOrder(o)
      && forall j :: 0 <= j < |out.calls| - 1 ==> !out.calls[j].SaveOrder?
  {
    var reqs := req.items.value;
    SuccessShape(reqs, w.catalog, net.readFails, net.writeFails);
    NoSaveInLines(reqs, w.catalog, net.readFails, net.writeFails);
    var l := PlaceLines(reqs, w.catalog, net.readFails, net.writeFails);
    forall i | 0 <= i < |reqs|
      ensures var pid := reqs[i].productId;
        pid in w.catalog &&
        l.items[i] == OrderItem(pid, w.catalog[pid].name, w.catalog[pid].price, reqs[i].quantity,
                                Subtotal(w.catalog[pid].price, reqs[i].quantity))
    {
      ItemAt(reqs, i, w.catalog, net.readFails, net.writeFails);
    }
    var out := PlaceOrder(w, req, now, net);
    assert out.calls == [GetUser(req.userId)] + l.calls + [SaveOrder(out.result.value)];
    forall j | 0 <= j < |out.calls| - 1 ensures !out.calls[j].SaveOrder? {
      if j > 0 { assert out.calls[j] == l.calls[j - 1]; }
    }
  }

  /** A placed order is well formed: it has a line, each subtotal is unit
      price x quantity, and its total is the sum of the subtotals. */
  lemma PlacedOrderIsWellFormed(w: World, req: OrderRequest, now: Timestamp, net: Network)
    requires PlaceOrder(w, req, now, net).result.Ok?
    ensures WellFormed(PlaceOrder(w, req, now, net).result.value)
  {
    SuccessfulPlacement(w, req, now, net);
  }

  /** Round trip: the saved order is what a later lookup by its id finds, with
      the same lines, total, status and date, provided the table was keyed
      by identities below the next one. */
  lemma SavedOrderIsFound(w: World, req: OrderRequest, now: Timestamp, net: Network)
    requires IdsDistinct(w.orders) && forall i :: 0 <= i < |w.orders| ==> w.orders[i].id < w.nextId
    requires PlaceOrder(w, req, now, net).result.Ok?
    ensures var out := PlaceOrder(w, req, now, net);
      && IdsDistinct(out.world.orders)
      && IndexOfOrder(out.world.orders, out.result.value.id) == Some(|w.orders|)
      && out.world.orders[|w.orders|] == out.result.value
  {
    var out := PlaceOrder(w, req, now, net);
    var s := out.world.orders;
    assert s == w.orders + [out.result.value];
    assert IdsDistinct(s);
    IndexOfKey(s, |w.orders|);
  }

  // ---------------------------------------------------------------------
  // Scenarios

  /** User 1 orders 2 x product A (9.99, stock 10) and 1 x product B (5.00,
      stock 1): the total is 24.98, A's stock becomes 8, B's 0, and the
      order is PENDING. */
  lemma TwoProductScenario()
    ensures var w := World({1},
                           map[10 := CatalogProduct("A", 9.99, Some(10)), 20 := CatalogProduct("B", 5.00, Some(1))],
                           [], 1);
      var out := PlaceOrder(w, OrderRequest(1, Some([ItemRequest(10, 2), ItemRequest(20, 1)])), 0, Network(true, {}, {}));
      && out.result.Ok?
      && out.result.value.totalAmount == 24.98
      && out.result.value.status == PENDING
      && 10 in out.world.catalog && out.world.catalog[10].stock == Some(8)
      && 20 in out.world.catalog && out.world.catalog[20].stock == Some(0)
  {
    var a, b := CatalogProduct("A", 9.99, Some(10)), CatalogProduct("B", 5.00, Some(1));
    var cat := map[10 := a, 20 := b];
    var reqs := [ItemRequest(10, 2), ItemRequest(20, 1)];
    assert reqs[..1] == [ItemRequest(10, 2)] && reqs[..1][..0] == [];
    var l0 := PlaceLines([], cat, {}, {});
    assert l0 == Lines([], 0.0, cat, [], None);
    var l1 := PlaceLines(reqs[..1], cat, {}, {});
    assert l1 == PlaceLine(l0, 0, reqs[0], {}, {});
    var cat1 := cat[10 := a.(stock := Some(8))];
    assert l1.catalog == cat1 && l1.total == 19.98 && l1.failure == None;
    var l2 := PlaceLines(reqs, cat, {}, {});
    assert l2 == PlaceLine(l1, 1, reqs[1], {}, {});
    assert l2.catalog == cat1[20 := b.(stock := Some(0))] && l2.total == 24.98 && l2.failure == None;
  }

  /** The same order when B's stock is 0: it fails with InsufficientStock
      naming B, its stock 0 and the quantity 1, while A's stock has already
      gone down to 8 and stays there. */
  lemma OutOfStockScenario()
    ensures var w := World({1},
                           map[10 := CatalogProduct("A", 9.99, Some(10)), 20 := CatalogProduct("B", 5.00, Some(0))],
                           [], 1);
      var out := PlaceOrder(w, OrderRequest(1, Some([ItemRequest(10, 2), ItemRequest(20, 1)])), 0, Network(true, {}, {}));
      && out.result == Err(InsufficientStock(20, Some(0), 1))
      && 10 in out.world.catalog && out.world.catalog[10].stock == Some(8)
      && out.world.orders == []
  {
    var a, b := CatalogProduct("A", 9.99, Some(10)), CatalogProduct("B", 5.00, Some(0));
    var cat := map[10 := a, 20 := b];
    var reqs := [ItemRequest(10, 2), ItemRequest(20, 1)];
    assert reqs[..1] == [ItemRequest(10, 2)] && reqs[..1][..0] == [];
    var l0 := PlaceLines([], cat, {}, {});
    assert l0 == Lines([], 0.0, cat, [], None);
    var l1 := PlaceLines(reqs[..1], cat, {}, {});
    assert l1 == PlaceLine(l0, 0, reqs[0], {}, {});
    assert l1.catalog == cat[10 := a.(stock := Some(8))] && l1.failure == None;
    var l2 := PlaceLines(reqs, cat, {}, {});
    assert l2 == PlaceLine(l1, 1, reqs[1], {}, {});
    assert l2.catalog == l1.catalog && l2.failure == Some(InsufficientStock(20, Some(0), 1));
  }

  /** Two lines of one product: the second line reads the stock the first
      one wrote. With stock 3 and two lines of 2, the second fails with
      stock 1 and the first line's decrement stays. */
  lemma RepeatedProductScenario()
    ensures var w := World({1}, map[10 := CatalogProduct("A", 1.0, Some(3))], [], 1);
      var out := PlaceOrder(w, OrderRequest(1, Some([ItemRequest(10, 2), ItemRequest(10, 2)])), 0, Network(true, {}, {}));
      && out.result == Err(InsufficientStock(10, Some(1), 2))
      && 10 in out.world.catalog && out.world.catalog[10].stock == Some(1)
  {
    var a := CatalogProduct("A", 1.0, Some(3));
    var cat := map[10 := a];
    var reqs := [ItemRequest(10, 2), ItemRequest(10, 2)];
    assert reqs[..1] == [ItemRequest(10, 2)] && reqs[..1][..0] == [];
    var l0 := PlaceLines([], cat, {}, {});
    assert l0 == Lines([], 0.0, cat, [], None);
    var l1 := PlaceLines(reqs[..1], cat, {}, {});
    assert l1 == PlaceLine(l0, 0, reqs[0], {}, {});
    assert l1.catalog == cat[10 := a.(stock := Some(1))] && l1.failure == None;
    var l2 := PlaceLines(reqs, cat, {}, {});
    assert l2 == PlaceLine(l1, 1, reqs[1], {}, {});
    assert l2.catalog == l1.catalog && l2.failure == Some(InsufficientStock(10, Some(1), 2));
  }

  /** Each line makes remote calls of its own: of two lines of one unit of
      one product (stock 3), the first passes and the read for the second
      throws, so the call fails with the product service unavailable, after
      the first line's stock write, which stays. */
  lemma SecondReadOfProductFails()
    ensures var w := World({1}, map[10 := CatalogProduct("A", 1.0, Some(3))], [], 1);
      var out := PlaceOrder(w, OrderRequest(1, Some([ItemRequest(10, 1), ItemRequest(10, 1)])), 0,
                            Network(true, {1}, {}));
      && out.result == Err(ProductServiceUnavailable(10))
      && 10 in out.world.catalog && out.world.catalog[10].stock == Some(2)
      && out.calls == [GetUser(1), GetProduct(10), SetStock(10, 2), GetProduct(10)]
  {
    var a := CatalogProduct("A", 1.0, Some(3));
    var cat := map[10 := a];
    var reqs := [ItemRequest(10, 1), ItemRequest(10, 1)];
    assert reqs[..1] == [ItemRequest(10, 1)] && reqs[..1][..0] == [];
    var l0 := PlaceLines([], cat, {1}, {});
    assert l0 == Lines([], 0.0, cat, [], None);
    var l1 := PlaceLines(reqs[..1], cat, {1}, {});
    assert l1 == PlaceLine(l0, 0, reqs[0], {1}, {});
    assert l1.catalog == cat[10 := a.(stock := Some(2))] && l1.failure == None;
    var l2 := PlaceLines(reqs, cat, {1}, {});
    assert l2 == PlaceLine(l1, 1, reqs[1], {1}, {});
  }

  /** No quantity check: a negative quantity passes the stock test and gives
      a negative subtotal. From stock 5, quantity -1 raises the stock to 6;
      at the top of the `int` range the new stock wraps around to the most
      negative `int`. */
  lemma NegativeQuantityScenario()
    ensures var req := OrderRequest(1, Some([ItemRequest(10, -1)]));
      var w5 := World({1}, map[10 := CatalogProduct("A", 2.0, Some(5))], [], 1);
      var wMax := World({1}, map[10 := CatalogProduct("A", 2.0, Some(INT32_MAX))], [], 1);
      var out5 := PlaceOrder(w5, req, 0, Network(true, {}, {}));
      var outMax := PlaceOrder(wMax, req, 0, Network(true, {}, {}));
      && out5.result.Ok? && outMax.result.Ok?
      && out5.result.value.totalAmount == -2.0 && outMax.result.value.totalAmount == -2.0
      && 10 in out5.world.catalog && out5.world.catalog[10].stock == Some(6)
      && 10 in outMax.world.catalog && outMax.world.catalog[10].stock == Some(INT32_MIN)
  {
    var reqs := [ItemRequest(10, -1)];
    assert reqs[..0] == [];
    var a5 := CatalogProduct("A", 2.0, Some(5));
    var cat5 := map[10 := a5];
    assert PlaceLines([], cat5, {}, {}) == Lines([], 0.0, cat5, [], None);
    var l5 := PlaceLines(reqs, cat5, {}, {});
    assert l5 == PlaceLine(PlaceLines([], cat5, {}, {}), 0, reqs[0], {}, {});
    assert l5.catalog == cat5[10 := a5.(stock := Some(6))] && l5.total == -2.0 && l5.failure == None;
    var a := CatalogProduct("A", 2.0, Some(INT32_MAX));
    var cat := map[10 := a];
    var l0 := PlaceLines([], cat, {}, {});
    assert l0 == Lines([], 0.0, cat, [], None);
    assert Sub32(INT32_MAX, -1) == INT32_MIN;
    var l1 := PlaceLines(reqs, cat, {}, {});
    assert l1 == PlaceLine(l0, 0, reqs[0], {}, {});
    assert l1.catalog == cat[10 := a.(stock := Some(INT32_MIN))] && l1.total == -2.0 && l1.failure == None;
  }
}
