/** The entities of the order service, the errors its operations throw, the
    calls it makes to its collaborators, and the keyed operations on the
    order table that the repository performs. */
module OrderDomain {
  import opened Common
  import opened OrderStatuses

  type UserId = int
  type ProductId = int
  type OrderId = int
  /** The creation timestamp; the clock is a parameter of the model. */
  type Timestamp = int

  /** What the product service returns for a product: `ProductDto`. */
  datatype CatalogProduct = CatalogProduct(name: string, price: real, stock: Option<Int32>)

  /** One requested line: `OrderItemRequestDto`. */
  datatype ItemRequest = ItemRequest(productId: ProductId, quantity: Int32)

  /** `OrderRequestDto`; a null item list is `None`. */
  datatype OrderRequest = OrderRequest(userId: UserId, items: Option<seq<ItemRequest>>)

  /** A line of a stored order, with the name and unit price copied from the
      catalogue when the order was created. */
  datatype OrderItem = OrderItem(
    productId: ProductId,
    productName: string,
    unitPrice: real,
    quantity: Int32,
    subtotal: real)

  datatype Order = Order(
    id: OrderId,
    userId: UserId,
    status: OrderStatus,
    orderDate: Timestamp,
    totalAmount: real,
    items: seq<OrderItem>)

  /** Why an operation of the order service fails. */
  datatype OrderError =
    | NoItems
    | UserServiceUnavailable(userId: UserId)
    | UserNotFound(userId: UserId)
    | ProductServiceUnavailable(productId: ProductId)
    | ProductNotFound(productId: ProductId)
    | InsufficientStock(productId: ProductId, stock: Option<Int32>, requested: Int32)
    | StockUpdateFailed(productId: ProductId)
    | OrderNotFound(orderId: OrderId)
    | OrderLocked(status: OrderStatus)
    | InvalidStatus(text: string)

  /** The Java exception classes the service throws. */
  datatype ExceptionKind = IllegalArgument | IllegalState | RestClient

  /** The exception each error is thrown as. A failed stock write is not
      caught, so the REST client's own exception reaches the caller. */
  function ExceptionOf(e: OrderError): ExceptionKind
  {
    match e
    case UserServiceUnavailable(_) => IllegalState
    case ProductServiceUnavailable(_) => IllegalState
    case OrderLocked(_) => IllegalState
    case StockUpdateFailed(_) => RestClient
    case _ => IllegalArgument
  }

  /** What a lookup on a remote service answers. */
  datatype Reply<+T> = Found(value: T) | Missing | Unavailable

  /** The calls the service makes to the user service, the product service
      and the order repository, as recorded in the model's call log. */
  datatype Call =
    | GetUser(userId: UserId)
    | GetProduct(productId: ProductId)
    | SetStock(productId: ProductId, newStock: Int32)
    | SaveOrder(order: Order)
    | DeleteOrder(orderId: OrderId)

  /** The identity the repository assigns on first save is a key of the table. */
  ghost predicate IdsDistinct(s: seq<Order>)
  {
    forall i, j :: 0 <= i < |s| && 0 <= j < |s| && s[i].id == s[j].id ==> i == j
  }

  /** The position of the order with the given id (`findById`). */
  function IndexOfOrder(s: seq<Order>, id: OrderId): (r: Option<nat>)
    ensures r.Some? ==> r.value < |s| && s[r.value].id == id
    ensures r.Some? ==> forall j :: 0 <= j < r.value ==> s[j].id != id
    ensures r.None? <==> forall j :: 0 <= j < |s| ==> s[j].id != id
  {
    if s == [] then None
    else if s[0].id == id then Some(0)
    else
      match IndexOfOrder(s[1..], id)
      case None => None
      case Some(k) => Some(k + 1)
  }

  /** In a keyed table the lookup finds each row at its own position. */
  lemma IndexOfKey(s: seq<Order>, i: nat)
    requires IdsDistinct(s) && i < |s|
    ensures IndexOfOrder(s, s[i].id) == Some(i)
  {
  }

  /** `delete(order)`: the row at position `k` leaves the table. */
  function RemoveAt(s: seq<Order>, k: nat): (r: seq<Order>)
    requires k < |s| && IdsDistinct(s)
    ensures |r| == |s| - 1
    ensures IdsDistinct(r)
    ensures forall o :: o in r <==> o in s && o.id != s[k].id
  {
    var r := s[..k] + s[k + 1..];
    assert forall j :: 0 <= j < |r| ==> r[j] == s[if j < k then j else j + 1];
    r
  }

  /** A line's subtotal: `unitPrice.multiply(BigDecimal.valueOf(quantity))`,
      exact. */
  function Subtotal(unitPrice: real, quantity: Int32): real
  {
    unitPrice * quantity as real
  }

  /** Sum of the line subtotals. */
  function Total(items: seq<OrderItem>): real
  {
    if items == [] then 0.0 else items[0].subtotal + Total(items[1..])
  }

  /** What every stored order keeps from its creation on: at least one line,
      each line's subtotal is its unit price times its quantity, and the
      total is the sum of the subtotals. */
  ghost predicate WellFormed(o: Order)
  {
    && o.items != []
    && (forall j :: 0 <= j < |o.items| ==>
          o.items[j].subtotal == Subtotal(o.items[j].unitPrice, o.items[j].quantity))
    && o.totalAmount == Total(o.items)
  }

  lemma {:induction false} TotalAppend(items: seq<OrderItem>, x: OrderItem)
    ensures Total(items + [x]) == Total(items) + x.subtotal
  {
    if items != [] {
      assert (items + [x])[1..] == items[1..] + [x];
      TotalAppend(items[1..], x);
    }
  }
}
