# Order placement and product catalogue, in Dafny

This project models the core of a small e-commerce back end made of separate
services. It has three parts.

**Order service (`OrderServiceImpl`).**
- `createOrder` checks the item list, then looks up the user. For each
  requested line, in request order, it reads the product and checks its
  stock. It then prices the line (subtotal = unit price × quantity) and
  writes the decremented stock back right away.
- The first failure stops the call. Stock writes made for earlier lines stay.
- If every line passes, one `PENDING` order is saved, whose total is the sum
  of the subtotals.
- The service also looks orders up by id, lists all orders, and lists them by
  user or by a status label matched without regard to case.
- A status change or a deletion is refused on a `DELIVERED` or `CANCELLED`
  order.

**Product service (`ProductService`).** Products are looked up by id and
listed. A product is created only if no stored product already has its name.

**Product request checks (`ProductRequestDTO`).** The Bean Validation
constraints on the product-creation request are modelled as one predicate.

Modules:

| file | module | what it holds |
|---|---|---|
| `common.dfy` | `Common` | `Option`, `Result`, Java's `int` as `Int32` and its subtraction `Sub32`, order-preserving `Select` |
| `order_status.dfy` | `OrderStatuses` | the status enum; `valueOf(text.toUpperCase())` as `Parse` |
| `order_domain.dfy` | `OrderDomain` | orders, lines, requests, errors, the Java exception each error is thrown as, the call log's entries, keyed look-up and removal in the order table |
| `order_placement.dfy` | `OrderPlacement` | `createOrder` as a function `PlaceOrder` of the collaborators' state, and what it guarantees |
| `order_lifecycle.dfy` | `OrderLifecycle` | the terminal-status guard and the status change on one order |
| `order_service.dfy` | `OrderServiceImpl` | class `OrderService`: the collaborators as fields, a ghost call log, and the seven operations |
| `product_request.dfy` | `ProductRequests` | the request, `String.trim`, and the field constraints |
| `product_service.dfy` | `ProductServices` | class `ProductService` over a keyed product table |

How the model is built:
- **Collaborators.** The user directory, the product catalogue and the order
  table are fields of `OrderService`.
- **Remote failures.** How the remote calls of one `createOrder` call turn out
  is its parameter `net` (a `Network`).
  - An unreachable user service is a flag.
  - A failing product read or stock write is given by the line number it is
    made for: `net.readFails` and `net.writeFails` are sets of line numbers.
  - Each line makes its own read and its own write, so a failure can be
    stated at any line. That includes a later line of a product whose earlier
    line passed (`SecondReadOfProductFails`).
- **Call log.** The ghost field `calls` records every user lookup, product
  read, stock write, order save and order delete, in order.
- **Specification.** `CreateOrder` is a loop proved to do exactly what the
  function `PlaceOrder` says: same result, same new state, same calls.
  `PlaceOrder` is defined line by line: `PlaceLines`, built from `PlaceLine`.
  The properties of `createOrder` are lemmas about `PlaceOrder`.
- **Numbers.** Money is `real`, which is exact like `BigDecimal`. Quantities
  and stock are Java `int` values. The stock write `currentStock -
  requestedQty` is the 32-bit subtraction `Sub32`. There is no quantity check,
  so a negative quantity passes the stock test and raises the stock.
  `NegativeQuantityScenario` shows both: quantity −1 takes stock 5 to 6,
  and at the top of the `int` range it wraps the stock to the smallest `int`.

Behaviour of the code worth knowing, which the model keeps:
- **Stock-write failure.** The code does not catch a failed stock write, so
  the REST client's exception reaches the caller instead of a
  "dependency unavailable" error: `ExceptionOf(StockUpdateFailed(_)) == RestClient`.
- **Unknown order id.** An unknown order id is an `IllegalArgumentException`
  (`OrderNotFound`, thrown as `IllegalArgument`), not a separate not-found
  kind.
- **Quantities.** Quantities are not checked to be positive.
- **Size messages.** The messages on the two `@Size` constraints say 3..100
  and 10..500 characters. The annotations enforce 2..50, and the model
  enforces 2..50 (`SizeBoundsAreTheAnnotations`).

## Model

| member | source | states |
|---|---|---|
| Common.Sub32 | TP1/ms-order/src/main/java/com/episen/order/application/service/OrderServiceImpl.java:126-128 | `int` subtraction gives the exact difference whenever it fits in 32 bits |
| Common.Sub32IsModular | TP1/ms-order/src/main/java/com/episen/order/application/service/OrderServiceImpl.java:128 | `int` subtraction gives the one 32-bit value congruent to the exact difference modulo 2^32 |
| Common.Select | TP1/ms-order/src/main/java/com/episen/order/application/service/OrderServiceImpl.java:185-194 | the kept elements are exactly those of the table that pass the filter, each as many times as in the table, in table order (a subsequence) |
| OrderStatuses.ValueOf | TP1/ms-order/src/main/java/com/episen/order/application/service/OrderServiceImpl.java:203 | an accepted name is exactly a constant's name; a rejected one is no constant's name |
| OrderStatuses.ParseIsCaseInsensitiveMatch | TP1/ms-order/src/main/java/com/episen/order/application/service/OrderServiceImpl.java:203 | the label parse yields status `s` if and only if the label equals `s`'s name up to ASCII case |
| OrderStatuses.ParseIgnoresCase | TP1/ms-order/src/main/java/com/episen/order/application/service/OrderServiceImpl.java:239 | labels equal up to case parse the same |
| OrderStatuses.ParseName | TP1/ms-order/src/main/java/com/episen/order/application/service/OrderServiceImpl.java:239 | every status's own name parses back to it |
| OrderStatuses.ParseExamples | TP1/ms-order/src/main/java/com/episen/order/application/service/OrderServiceImpl.java:202-208 | "delivered" and "Shipped" are accepted; "pending " (trailing blank) and "" are rejected |
| OrderStatuses.NameIsUpper | TP1/ms-order/src/main/java/com/episen/order/application/service/OrderServiceImpl.java:239 | upper-casing a constant's name leaves it unchanged |
| OrderDomain.IndexOfOrder | TP1/ms-order/src/main/java/com/episen/order/application/service/OrderServiceImpl.java:159-162 | `findById`: finds the first order with the id, or reports that none has it |
| OrderDomain.IndexOfKey | TP1/ms-order/src/main/java/com/episen/order/application/service/OrderServiceImpl.java:159 | in a table keyed by id, each order is found at its own position |
| OrderDomain.RemoveAt | TP1/ms-order/src/main/java/com/episen/order/application/service/OrderServiceImpl.java:284 | `delete`: one order fewer, still keyed; an order remains exactly when it was stored and has another id |
| OrderDomain.TotalAppend | TP1/ms-order/src/main/java/com/episen/order/application/service/OrderServiceImpl.java:120 | adding a line to the running total adds its subtotal |
| OrderPlacement.StepPasses | TP1/ms-order/src/main/java/com/episen/order/application/service/OrderServiceImpl.java:86-130 | a line that passes: product readable and known, stock present and at least the quantity, line copied from the catalogue, subtotal added, one read then one write of stock − quantity, catalogue updated |
| OrderPlacement.FailureIsFinal | TP1/ms-order/src/main/java/com/episen/order/application/service/OrderServiceImpl.java:82-134 | after the first failing line, no later line is looked at: the loop state is the one the failure left |
| OrderPlacement.PrefixSucceeds | TP1/ms-order/src/main/java/com/episen/order/application/service/OrderServiceImpl.java:82-134 | if all lines pass, every prefix of them passes |
| OrderPlacement.CatalogKeepsNamesAndPrices | TP1/ms-order/src/main/java/com/episen/order/application/service/OrderServiceImpl.java:126-130 | the stock writes change only stock: the same products, names and prices before and after |
| OrderPlacement.SuccessShape | TP1/ms-order/src/main/java/com/episen/order/application/service/OrderServiceImpl.java:115-123 | when all lines pass: one order line and two calls per requested line, and the running total is the sum of the subtotals |
| OrderPlacement.PrefixAgrees | TP1/ms-order/src/main/java/com/episen/order/application/service/OrderServiceImpl.java:82-134 | when all lines pass, the loop after `k` lines built the first `k` order lines and made the first `2k` calls of the whole loop |
| OrderPlacement.NextLine | TP1/ms-order/src/main/java/com/episen/order/application/service/OrderServiceImpl.java:82-134 | after `i` lines that pass, line `i` is one more iteration of the loop |
| OrderPlacement.ItemAt | TP1/ms-order/src/main/java/com/episen/order/application/service/OrderServiceImpl.java:111-117 | order line `i` carries the requested product and quantity, the catalogue's name and unit price, and subtotal = unit price × quantity |
| OrderPlacement.CallsAt | TP1/ms-order/src/main/java/com/episen/order/application/service/OrderServiceImpl.java:126-130 | the calls of line `i` are the product read, then one stock write of that product setting it to the stock line `i` read minus its quantity; the stock read was at least the quantity |
| OrderPlacement.StockDecreasesByDemand | TP1/ms-order/src/main/java/com/episen/order/application/service/OrderServiceImpl.java:126-130 | with no negative quantity, an ordered product's stock goes down by exactly its total quantity over all lines, repeated lines included, and stays ≥ 0; a product not ordered is unchanged |
| OrderPlacement.DemandWithoutMention | TP1/ms-order/src/main/java/com/episen/order/application/service/OrderServiceImpl.java:126-130 | a product no line orders has demand 0 |
| OrderPlacement.EmptyRequestMakesNoCall | TP1/ms-order/src/main/java/com/episen/order/application/service/OrderServiceImpl.java:48-50 | an absent or empty item list fails as an IllegalArgumentException before any call; nothing changes |
| OrderPlacement.UserCheckStopsEarly | TP1/ms-order/src/main/java/com/episen/order/application/service/OrderServiceImpl.java:56-65 | user service down: IllegalStateException; unknown user: IllegalArgumentException; either way the user lookup is the only call and nothing changes |
| OrderPlacement.FailedLineKeepsEarlierWrites | TP1/ms-order/src/main/java/com/episen/order/application/service/OrderServiceImpl.java:86-134 | if lines before `k` pass and line `k` fails, the error is line `k`'s (read failure, unknown product, insufficient stock carrying id, stock and quantity, or failed write); earlier stock writes stay; no order is saved; the calls are exactly the user lookup, the calls of lines before `k`, line `k`'s read and, when its stock check passed, its stock write |
| OrderPlacement.NoSaveInLines | TP1/ms-order/src/main/java/com/episen/order/application/service/OrderServiceImpl.java:82-134 | the per-line loop never saves an order |
| OrderPlacement.SuccessfulPlacement | TP1/ms-order/src/main/java/com/episen/order/application/service/OrderServiceImpl.java:72-145 | a successful create saves exactly one order, as the last call after every stock write, with the next id, PENDING, the user, the date, lines in request order taken from the catalogue, and the sum of subtotals as total |
| OrderPlacement.SavedOrderIsFound | TP1/ms-order/src/main/java/com/episen/order/application/service/OrderServiceImpl.java:145-162 | round trip: the saved order is what a look-up by its id then finds, with the same lines, total, status and date |
| OrderPlacement.PlacedOrderIsWellFormed | TP1/ms-order/src/main/java/com/episen/order/application/service/OrderServiceImpl.java:111-145 | the order a successful create saves has a line, subtotal = unit price × quantity on every line, and the sum of the subtotals as total |
| OrderPlacement.TwoProductScenario | TP1/ms-order/src/main/java/com/episen/order/application/service/OrderServiceImpl.java:82-145 | 2 × A (9.99, stock 10) and 1 × B (5.00, stock 1): total 24.98, A's stock 8, B's 0, PENDING |
| OrderPlacement.OutOfStockScenario | TP1/ms-order/src/main/java/com/episen/order/application/service/OrderServiceImpl.java:98-104 | the same order with B's stock 0 fails with InsufficientStock(B, 0, 1), and A's decrement to 8 stays |
| OrderPlacement.RepeatedProductScenario | TP1/ms-order/src/main/java/com/episen/order/application/service/OrderServiceImpl.java:86-130 | a second line of a product reads the stock the first line wrote |
| OrderPlacement.SecondReadOfProductFails | TP1/ms-order/src/main/java/com/episen/order/application/service/OrderServiceImpl.java:86-93 | each line makes its own product read: the second read of a product can fail after the first line passed and wrote its stock, which stays |
| OrderPlacement.NegativeQuantityScenario | TP1/ms-order/src/main/java/com/episen/order/application/service/OrderServiceImpl.java:98-128 | quantity −1 passes the stock check and gives a negative total; it raises stock 5 to 6, and wraps the largest `int` to the smallest |
| OrderLifecycle.TerminalIsFrozen | TP1/ms-order/src/main/java/com/episen/order/application/service/OrderServiceImpl.java:232-234 | a DELIVERED or CANCELLED order refuses any status change, valid label or not, as an IllegalStateException, and `DeleteCheck` refuses its deletion |
| OrderLifecycle.UnknownLabelRejected | TP1/ms-order/src/main/java/com/episen/order/application/service/OrderServiceImpl.java:237-242 | on an order open to change, a label naming no status in any case is an IllegalArgumentException carrying the label |
| OrderLifecycle.OnlyStatusChanges | TP1/ms-order/src/main/java/com/episen/order/application/service/OrderServiceImpl.java:245-251 | a successful change starts from a non-terminal order, moves to the status the label names up to case, and keeps id, user, date, total and lines |
| OrderLifecycle.AnyStatusReachable | TP1/ms-order/src/main/java/com/episen/order/application/service/OrderServiceImpl.java:236-248 | from a non-terminal order every status can be set, terminal ones and PENDING included |
| OrderLifecycle.RemoveAtKeepsOthers | TP1/ms-order/src/main/java/com/episen/order/application/service/OrderServiceImpl.java:284 | after a deletion the deleted id is not found, and every other order is still found by its id, unchanged |
| OrderServiceImpl.OrderService.FetchUser | TP1/ms-order/src/main/java/com/episen/order/application/service/OrderServiceImpl.java:57 | the user lookup answers "unavailable" when this call's user service is down, otherwise "found" or "missing" from the directory, and is logged |
| OrderServiceImpl.OrderService.FetchProduct | TP1/ms-order/src/main/java/com/episen/order/application/service/OrderServiceImpl.java:87 | the product read for line `line` answers "unavailable" when that line's read fails, otherwise the catalogue entry or "missing", and is logged |
| OrderServiceImpl.OrderService.WriteStock | TP1/ms-order/src/main/java/com/episen/order/application/service/OrderServiceImpl.java:130 | the stock write for line `line` fails without effect exactly when that line's write fails, and otherwise sets that product's stock; it is logged either way |
| OrderServiceImpl.OrderService.ProcessLine | TP1/ms-order/src/main/java/com/episen/order/application/service/OrderServiceImpl.java:84-133 | iteration `line` of the loop does what `PlaceLine` says: same error, same catalogue, same calls, and the same appended line and total |
| OrderServiceImpl.OrderService.ProcessLines | TP1/ms-order/src/main/java/com/episen/order/application/service/OrderServiceImpl.java:82-134 | the loop does what `PlaceLines` says over all the lines |
| OrderServiceImpl.OrderService.CreateOrder | TP1/ms-order/src/main/java/com/episen/order/application/service/OrderServiceImpl.java:43-154 | `createOrder` has the result, new state and calls of `PlaceOrder`, and keeps the order table keyed and every stored order well formed (a line, subtotal = unit price × quantity, total = sum of subtotals) |
| OrderServiceImpl.OrderService.GetOrderById | TP1/ms-order/src/main/java/com/episen/order/application/service/OrderServiceImpl.java:157-165 | succeeds exactly when some stored order has the id, and returns a stored order with that id, well formed in a valid table; otherwise an IllegalArgumentException naming the id |
| OrderServiceImpl.OrderService.GetAllOrders | TP1/ms-order/src/main/java/com/episen/order/application/service/OrderServiceImpl.java:168-177 | every stored order once, in table order, and each is what a look-up by its id returns |
| OrderServiceImpl.OrderService.GetOrdersByUser | TP1/ms-order/src/main/java/com/episen/order/application/service/OrderServiceImpl.java:180-194 | exactly the user's stored orders, each as often as in the table, in table order; empty (not null) when there are none |
| OrderServiceImpl.OrderService.GetOrdersByStatus | TP1/ms-order/src/main/java/com/episen/order/application/service/OrderServiceImpl.java:197-222 | fails with an IllegalArgumentException carrying the label exactly when the label names no status up to case; otherwise exactly the stored orders whose status the label names, each as often as in the table, in table order |
| OrderServiceImpl.OrderService.UpdateOrderStatus | TP1/ms-order/src/main/java/com/episen/order/application/service/OrderServiceImpl.java:225-258 | unknown id: IllegalArgumentException, no change; otherwise the result of `ChangeStatus`, and only on success is that order replaced in place and saved; nothing else changes, and the table stays keyed and well formed |
| OrderServiceImpl.OrderService.DeleteOrder | TP1/ms-order/src/main/java/com/episen/order/application/service/OrderServiceImpl.java:260-285 | unknown id: IllegalArgumentException; a found order goes through `DeleteCheck`, and a DELIVERED or CANCELLED one is refused with an IllegalStateException; either error leaves everything unchanged; otherwise exactly that order leaves the table and a delete is logged; the table stays keyed and well formed |
| ProductRequests.DropLeading | TP1/ms-product/src/main/java/com/episen/ms_product/application/dto/ProductRequestDTO.java:34 | a suffix of the string, starting at a character above U+0020, with only U+0000..U+0020 removed before it |
| ProductRequests.DropTrailing | TP1/ms-product/src/main/java/com/episen/ms_product/application/dto/ProductRequestDTO.java:34 | a prefix of the string, ending at a character above U+0020, with only U+0000..U+0020 removed after it |
| ProductRequests.TrimEmptyIffBlank | TP1/ms-product/src/main/java/com/episen/ms_product/application/dto/ProductRequestDTO.java:34 | a string trims to nothing exactly when all its characters are U+0000..U+0020 |
| ProductRequests.NotBlankIff | TP1/ms-product/src/main/java/com/episen/ms_product/application/dto/ProductRequestDTO.java:38 | `@NotBlank` holds exactly for a present string with a character above U+0020 |
| ProductRequests.ValidIff | TP1/ms-product/src/main/java/com/episen/ms_product/application/dto/ProductRequestDTO.java:34-55 | valid if and only if name and description are present, 2..50 long and not blank, the price is present and ≥ 0.01, the stock is present and ≥ 0, and the category is present |
| ProductRequests.EachViolationAloneRejects | TP1/ms-product/src/main/java/com/episen/ms_product/application/dto/ProductRequestDTO.java:34-55 | the five constraints are independent: a valid request, and each field broken on its own is rejected while the others still hold |
| ProductRequests.SizeBoundsAreTheAnnotations | TP1/ms-product/src/main/java/com/episen/ms_product/application/dto/ProductRequestDTO.java:35-39 | the enforced bounds are the annotations' 2..50, not the messages': two characters pass, 51 fail |
| ProductServices.ToEntity | TP1/ms-product/src/main/java/com/episen/ms_product/application/service/ProductService.java:85 | the entity carries the request's fields and the given id, with price ≥ 0.01 and stock ≥ 0 |
| ProductServices.HasName | TP1/ms-product/src/main/java/com/episen/ms_product/application/service/ProductService.java:79 | `existsByName`: true exactly when some stored product has the name |
| ProductServices.IndexOfProduct | TP1/ms-product/src/main/java/com/episen/ms_product/application/service/ProductService.java:62 | `findById`: a position holding the id, or none exactly when no product has it |
| ProductServices.AppendKeepsNamesDistinct | TP1/ms-product/src/main/java/com/episen/ms_product/application/service/ProductService.java:79-86 | adding a product whose name is not yet stored keeps names pairwise distinct |
| ProductServices.AppendedIsFound | TP1/ms-product/src/main/java/com/episen/ms_product/application/service/ProductService.java:85-86 | adding under a fresh id keeps the table keyed; the new product is found at the end and the others where they were |
| ProductServices.KeyIsFound | TP1/ms-product/src/main/java/com/episen/ms_product/application/service/ProductService.java:62-63 | in a keyed table each product is found at its own position |
| ProductServices.ProductService.GetAllProducts | TP1/ms-product/src/main/java/com/episen/ms_product/application/service/ProductService.java:44-54 | exactly the stored products, one result each, in table order, each what a look-up by its id returns; nothing changes |
| ProductServices.ProductService.GetProductById | TP1/ms-product/src/main/java/com/episen/ms_product/application/service/ProductService.java:59-68 | not-found naming the id exactly when no stored product has it; otherwise a stored product with that id |
| ProductServices.ProductService.CreateProduct | TP1/ms-product/src/main/java/com/episen/ms_product/application/service/ProductService.java:75-98 | a stored name gives already-exists and no change; otherwise exactly one product is appended, with a fresh id and the requested fields, found by its id; distinct names stay distinct |

## Left out

- `ProductController.java` is not part of this model. It handles HTTP routing, response entities, the `Location` header and API documentation. Its update and delete endpoints call service methods that are absent from `ProductService`.
- `ProductMetrics.java`, the Micrometer counters and all logging: no-ops, with no effect on results or state.
- `LocalDateTime.now()` is the parameter `now` of `CreateOrder`.
- Which remote calls fail is the parameter `net` of `CreateOrder`, given per call. What makes a call fail (timeouts, HTTP errors) is not modelled.
- The mappers (`OrderMapper`, `OrderItemMapper`, `ProductMapper`) are not part of this model. They are taken to copy fields unchanged.
- `UserClient` and `ProductClient` are not part of this model.
  - A user or product they report as absent is taken to come back as `null`.
  - Any other failure of theirs is taken to be a `RestClientException`.
  - The product read is taken to return the requested id, so the code's `product.getId()` equals the requested product id.
- OrderServiceImpl.OrderService.WriteStock: a failed stock write is taken to have no effect on the catalogue. Whether the product service applied it before failing cannot be seen from this code.
- Concurrency: the model handles one request at a time. Two concurrent creates can both pass the stock check on the same stock and both write a decrement, so stock can be oversold, and the model does not show this.
- Persistence failures: a failing `orderRepository.save` or `delete`, and the database constraints behind them, are not modelled.
- Null-pointer paths are not modelled, for example:
  - a null status label;
  - a null update request;
  - a product with a null price;
  - a null item inside the item list;
  - a null quantity, which is unboxed in the stock check and the stock write;
  - a null product id or a null user id.
- `OrderStatus.java` is not part of this model. Its constants are taken to be PENDING, CONFIRMED, SHIPPED, DELIVERED and CANCELLED. Only DELIVERED and CANCELLED are treated specially by the code.
- OrderStatuses.Parse: upper-casing covers ASCII letters only. `String.toUpperCase` also maps a few non-ASCII characters onto ASCII letters (dotless i to I, long s to S, the ligature ﬁ to FI), and it follows the default locale (Turkish dotted i). Labels that depend on these are not modelled.
- ProductRequests.SizeWithin: `@Size` counts UTF-16 code units; the model counts Dafny characters. The two differ for characters outside the Basic Multilingual Plane.
- ProductServices.HasName: `existsByName` is exact string equality. A database collation that ignores case or accents would reject more names.
- ProductServices.ProductService.CreateProduct: the request is required to be valid. Its only caller validates it with `@Valid` before the call, so the service never sees an invalid one.
- A category string that names no `ProductCategory` fails JSON parsing, before validation runs, and is not modelled.
- Identities (`Long`) are unbounded integers; the repository is taken to assign 1, 2, 3, … in order of saves.
- The product entity's other fields and the response DTOs are not modelled.
