# order-delivery in Dafny

A model of the core logic of the order-delivery system: a Spring backend
that keeps products, orders, deliveries and a tracking history, and a
React client that normalises whatever the server answers before showing
it.

Backend, one module per service:

- `Tracking` (OrderTrackingService) covers the order and delivery
  lifecycles as transition checks, plus the three status-changing
  operations. A status change appends a history entry, attaches a
  delivery on READY_FOR_DELIVERY, and forces the order status from the
  delivery.
- `Orders` (OrderService) covers order validation and stock accounting:
  create, cancel and update an order, with consume and restore over a
  stock map.
- `Inventory` (InventoryService) covers the low-stock and out-of-stock
  views, the direct stock update, and the per-day movement of one
  product.
- The shared types live in `Statuses` (the two enums and their wire
  names) and `Entities` (products, order lines, orders, deliveries,
  history entries, and the store).
- Every operation maps a store to `Ok(store')` or to `Err(message)`.
  For an exception the services throw themselves, the message is that
  exception's message. A `@Transactional` method that throws rolls back,
  so an `Err` leaves the caller with the store it had.
- A null dereference is `Err("NullPointerException")`, which names the
  exception's class, not a message (see "## Left out").

Client, one module per file:

- `ProductApi` (inventoryApi.ts) covers the extraction, fallback,
  validation, defaulting and id-deduplication of `getAllProducts`, and
  the fallback branches of the other three calls.
- `Suppliers` (SupplierManagement) covers the list extraction, the
  revenue, and the delete and assign guards.
- `InventoryView` (InventoryManagement) covers the two stock views, the
  keyed local update, and the two number inputs.
- `TrackingPage` (OrderTrackingPage) covers the id check, the
  normalisation of the tracking record and history, the stepper
  positions and the step labels.
- `Payments` (PaymentPage) covers the keyed status updates, the counts,
  the offered actions, and the display maps.
- `Navigation` (Layout) covers the menu-selection predicate.

The client's inputs are modelled as follows:

- JSON values are a datatype (`Json`), and the outcome of a request is an
  input (`Http`).
- The JavaScript operations the client relies on follow ECMA-262:
  - truthiness (section 7.1.2);
  - `Object.values` in own-property order (section 10.1.11.1);
  - object spread (section 7.3.25);
  - `parseInt` (section 19.2.5);
  - `isNaN(Number(s))` (section 7.1.4.1.1).

## Model

| member | source | states |
|---|---|---|
| Statuses.OrderStatusFromName | order-delivery-frontend/src/types/index.ts:1-9 | a name is found exactly when one of the seven constants carries it, and the constant found carries that name |
| Statuses.DeliveryStatusFromName | order-delivery-frontend/src/types/index.ts:11-18 | the same for the six delivery constants |
| Statuses.OrderNamesRoundTrip | src/main/java/com/example/orderdelivery/entity/OrderStatus.java:3-11 | every order status's wire name reads back as that status |
| Statuses.DeliveryNamesRoundTrip | src/main/java/com/example/orderdelivery/entity/DeliveryStatus.java:3-10 | every delivery status's wire name reads back as that status |
| Statuses.OrderStatusesListed | order-delivery-frontend/src/types/index.ts:1-9 | the list the page searches holds every order status |
| Statuses.DeliveryStatusesListed | order-delivery-frontend/src/types/index.ts:11-18 | the list the page searches holds every delivery status |
| Statuses.ListedIffNamed | order-delivery-frontend/src/pages/OrderTrackingPage.tsx:65-72 | for every string, `Object.values(...).includes` over the listed constants holds exactly when the name lookup finds a constant, for both enums |
| Tracking.ValidateOrderTransition | src/main/java/com/example/orderdelivery/service/OrderTrackingService.java:143-178 | a null current status admits anything; DELIVERED and CANCELLED reject every target with "Cannot change status from X"; any other rejection carries "Invalid status transition from X" |
| Tracking.ValidateDeliveryTransition | src/main/java/com/example/orderdelivery/service/OrderTrackingService.java:180-210 | the same for deliveries, with DELIVERED and FAILED terminal |
| Tracking.OrderTransitionsFollowChain | src/main/java/com/example/orderdelivery/service/OrderTrackingService.java:148-176 | the order check passes exactly for a move to the chain successor, or to CANCELLED from a non-terminal state; no state may move to itself |
| Tracking.OrderStepIsAccepted | src/main/java/com/example/orderdelivery/service/OrderTrackingService.java:148-172 | every lifecycle step is accepted |
| Tracking.AcceptedOrderIsStep | src/main/java/com/example/orderdelivery/service/OrderTrackingService.java:148-176 | everything accepted is a lifecycle step |
| Tracking.DeliveryTransitionsFollowChain | src/main/java/com/example/orderdelivery/service/OrderTrackingService.java:185-209 | the delivery check passes exactly along PENDING, ASSIGNED, PICKED_UP, IN_TRANSIT, then DELIVERED or FAILED; no state may move to itself |
| Tracking.DeliveryStepIsAccepted | src/main/java/com/example/orderdelivery/service/OrderTrackingService.java:185-205 | every delivery step is accepted |
| Tracking.AcceptedDeliveryIsStep | src/main/java/com/example/orderdelivery/service/OrderTrackingService.java:185-209 | everything accepted is a delivery step |
| Tracking.UpdateOrderStatus | src/main/java/com/example/orderdelivery/service/OrderTrackingService.java:29-56 | an unknown order fails with "Order not found". Otherwise it succeeds iff the transition check passes. On success the order has the new status and exactly one history entry is appended, carrying that status. A PENDING delivery is attached only on READY_FOR_DELIVERY when the order has none. Every other order is untouched. A rejection changes nothing |
| Tracking.AssignCarrier | src/main/java/com/example/orderdelivery/service/OrderTrackingService.java:58-73 | succeeds iff the delivery exists and is PENDING. It then becomes ASSIGNED with the given carrier and nothing else changes, so the order and delivery links still resolve |
| Tracking.UpdateDeliveryStatus | src/main/java/com/example/orderdelivery/service/OrderTrackingService.java:75-102 | succeeds iff the delivery check passes. DELIVERED and IN_TRANSIT also need an order to dereference. It appends one history entry, forces the order to DELIVERED or IN_DELIVERY on DELIVERED or IN_TRANSIT, and otherwise leaves the order as it was |
| Tracking.ForcedOrderStatus | src/main/java/com/example/orderdelivery/service/OrderTrackingService.java:92-99 | only DELIVERED and IN_TRANSIT force an order status, and the forced status is DELIVERED or IN_DELIVERY |
| Tracking.ForcedStatusBypassesOrderRules | src/main/java/com/example/orderdelivery/service/OrderTrackingService.java:92-99 | a CANCELLED order whose delivery is delivered becomes DELIVERED, a move the order check rejects |
| Orders.ValidateLines | src/main/java/com/example/orderdelivery/service/OrderService.java:133-149 | passes iff every line names an existing product with a positive quantity that the product's current stock covers; a failure carries one of the four messages |
| Orders.ValidateOrder | src/main/java/com/example/orderdelivery/service/OrderService.java:123-150 | a missing customer and an empty line list are rejected with their messages; otherwise the order passes iff every line passes on its own |
| Orders.Consume | src/main/java/com/example/orderdelivery/service/OrderService.java:164-177 | on success each product's stock is lowered by the total ordered of it, no line leaves negative stock, and only stocks change |
| Orders.ConsumeKeepsNonNegative | src/main/java/com/example/orderdelivery/service/OrderService.java:164-177 | a successful consume never makes a stock negative: named products are checked and the others keep their stock |
| Orders.ConsumeSucceedsIff | src/main/java/com/example/orderdelivery/service/OrderService.java:164-177 | with positive quantities, consuming succeeds iff every named product exists and covers the order's whole demand on it |
| Orders.Restore | src/main/java/com/example/orderdelivery/service/OrderService.java:183-199 | lines with no product or a non-positive quantity are skipped and an empty order restores nothing. It fails iff a counted line names a missing product. Otherwise each product gains back its counted quantity |
| Orders.RestoreIsRestored | src/main/java/com/example/orderdelivery/service/OrderService.java:183-199 | a successful restore yields the catalog with every counted line given back and nothing else changed |
| Orders.OrderedOfPositive | src/main/java/com/example/orderdelivery/service/OrderService.java:188-190 | with positive quantities the restored quantity equals the ordered one |
| Orders.CreateOrder | src/main/java/com/example/orderdelivery/service/OrderService.java:34-50 | a validation failure is reported with its message. Otherwise it succeeds iff the stock covers the order. On success the order is stored PENDING with the given date, stock drops by the ordered amounts, no stock goes negative, and nothing else changes |
| Orders.CancelOrder | src/main/java/com/example/orderdelivery/service/OrderService.java:104-121 | unknown orders and DELIVERED or CANCELLED orders are rejected with their messages. On success the order is CANCELLED and its counted lines are given back, so stock that was never negative stays so |
| Orders.ReplaceLines | src/main/java/com/example/orderdelivery/service/OrderService.java:68-87 | on success the stock moves by the restored old lines (when the guard holds) minus the new lines (unless the new status is CANCELLED), and no stock becomes negative |
| Orders.CopyFields | src/main/java/com/example/orderdelivery/service/OrderService.java:62-89 | the stored lines are kept, and every other field comes from the request |
| Orders.ReplaceLinesSucceedsIff | src/main/java/com/example/orderdelivery/service/OrderService.java:68-87 | replacing lines succeeds iff the optional restore finds its products, and the new lines have a customer, pass the per-line checks and (unless CANCELLED) are covered by the stock after that restore |
| Orders.UpdateOrder | src/main/java/com/example/orderdelivery/service/OrderService.java:52-93 | as written: the stock effect per product, including the second restore when a CANCELLED order is reactivated with new lines. No stock becomes negative |
| Orders.UpdateOrderSucceedsIff | src/main/java/com/example/orderdelivery/service/OrderService.java:52-93 | as written, an update succeeds iff the order exists, the restore it performs finds its products, and any new lines are accepted against the stock after that restore. The old lines are restored with new lines unless the order stays CANCELLED |
| Orders.UpdateOrderCorrected | src/main/java/com/example/orderdelivery/service/OrderService.java:58-87 | the old lines are given back only if the stored order was not CANCELLED; the new lines are taken unless the new status is CANCELLED. No stock becomes negative |
| Orders.UpdateOrderCorrectedSucceedsIff | src/main/java/com/example/orderdelivery/service/OrderService.java:58-87 | the corrected update succeeds under the same conditions, with the old lines restored with new lines iff the stored order was not CANCELLED |
| Orders.ReactivationRestoresTwice | src/main/java/com/example/orderdelivery/service/OrderService.java:65-71 | a concrete store in which reactivating a cancelled order leaves 12 in stock where 9 is right |
| Orders.CreatedOrderCanBeCancelled | src/main/java/com/example/orderdelivery/service/OrderService.java:104-121 | an order just created can be cancelled |
| Orders.CancelSucceeds | src/main/java/com/example/orderdelivery/service/OrderService.java:104-121 | cancelling succeeds for a live order whose products exist |
| Orders.CreateThenCancelRestoresStock | src/main/java/com/example/orderdelivery/service/OrderService.java:164-199 | creating an order and then cancelling it restores every product to its stock before the create |
| Orders.PerLineValidationIsNotCumulative | src/main/java/com/example/orderdelivery/service/OrderService.java:133-177 | two lines of 3 against a stock of 5 pass validation, and the decrement step then rejects the order |
| Inventory.LowStock | src/main/java/com/example/orderdelivery/service/InventoryService.java:43-47 | exactly the products with stock below the threshold, in listing order, each as often as it is listed |
| Inventory.OutOfStock | src/main/java/com/example/orderdelivery/service/InventoryService.java:53-57 | exactly the products with stock zero or less, in listing order, each as often as it is listed |
| Inventory.OutOfStockWithinLowStock | src/main/java/com/example/orderdelivery/service/InventoryService.java:43-57 | for a threshold of at least 1, every out-of-stock product is in the low-stock result, as often as it is listed |
| Inventory.UpdateProductStock | src/main/java/com/example/orderdelivery/service/InventoryService.java:116-127 | a negative stock is refused before the lookup and an unknown id is refused. Otherwise only that product's stock changes, so no stock becomes negative |
| Inventory.ProductMovement | src/main/java/com/example/orderdelivery/service/InventoryService.java:76-108 | an unknown product is refused. A known one succeeds iff no order in the range has a line without a product or a line for it without a status. The days present are then exactly those on which an order in the range names the product, each carrying the sum of its lines' effects |
| Inventory.AddLines | src/main/java/com/example/orderdelivery/service/InventoryService.java:90-104 | the inner loop drops no day and changes no day but the order's |
| Inventory.AddOrders | src/main/java/com/example/orderdelivery/service/InventoryService.java:89-105 | the outer loop drops no day and changes no day on which no order is dated |
| Inventory.AddLinesSpec | src/main/java/com/example/orderdelivery/service/InventoryService.java:90-104 | the inner loop adds the order's effect on the product to its day, and adds that day iff a line names the product |
| Inventory.AddOrdersSpec | src/main/java/com/example/orderdelivery/service/InventoryService.java:89-105 | the outer loop adds every day's effect and exactly the days on which the product is ordered |
| Inventory.MovementRangeIsInclusive | src/main/java/com/example/orderdelivery/repository/OrderRepository.java:10-16 | an order dated on the end day counts and one dated a day later does not |
| JsNumber.ParseIntOfDecimal | order-delivery-frontend/src/services/inventoryApi.ts:129 | the decimal numeral of any integer parses back to it, with radix 10 or none |
| JsNumber.ParseInt | order-delivery-frontend/src/services/inventoryApi.ts:129 | a blank string is NaN. With radix 10, a digit after the leading white space always gives a number. Only a leading minus gives a negative value |
| JsNumber.ParseIntSkipsWhitespace | order-delivery-frontend/src/services/inventoryApi.ts:129 | leading white space does not change what `parseInt` reads |
| JsNumber.ParseIntReadsLeadingDigits | order-delivery-frontend/src/services/inventoryApi.ts:129 | `parseInt` reads the leading digit run and ignores whatever follows |
| JsNumber.ParseIntWithoutDigits | order-delivery-frontend/src/services/inventoryApi.ts:129-131 | a string not starting with white space, a sign or a digit is NaN |
| JsNumber.ParseIntOfTwelveAbc | order-delivery-frontend/src/services/inventoryApi.ts:129 | "12abc" parses to 12 |
| JsNumber.ParseIntHexPrefix | order-delivery-frontend/src/components/InventoryManagement.tsx:325 | without a radix, "0x1A" parses as hexadecimal 26 |
| JsNumber.ParseIntDecimalIgnoresHexPrefix | order-delivery-frontend/src/services/inventoryApi.ts:129 | with radix 10, "0x1A" parses to 0 |
| JsNumber.DecimalIsNumber | order-delivery-frontend/src/pages/OrderTrackingPage.tsx:46 | `Number` converts the decimal numeral of any integer |
| JsNumber.NumberIsNaN | order-delivery-frontend/src/pages/OrderTrackingPage.tsx:46 | a blank string converts. A trimmed string starting with anything but a digit, a sign, a point or the I of Infinity is NaN |
| JsNumber.NumberRejectsTrailingCharacters | order-delivery-frontend/src/pages/OrderTrackingPage.tsx:46 | `Number("12abc")` is NaN where `parseInt` reads 12 |
| JsNumber.NumberTrimsWhitespace | order-delivery-frontend/src/pages/OrderTrackingPage.tsx:46 | surrounding white space is ignored by `Number` |
| JsNumber.EmptyIsNumber | order-delivery-frontend/src/pages/OrderTrackingPage.tsx:46 | the empty string converts to a number |
| JsNumber.HexIsNumber | order-delivery-frontend/src/pages/OrderTrackingPage.tsx:46 | a hexadecimal literal converts to a number |
| JsNumber.ExponentIsNumber | order-delivery-frontend/src/pages/OrderTrackingPage.tsx:46 | a literal with a fraction and an exponent converts to a number |
| JsNumber.LettersAreNaN | order-delivery-frontend/src/pages/OrderTrackingPage.tsx:46 | letters do not convert |
| Json.Get | order-delivery-frontend/src/services/inventoryApi.ts:114-115 | an object's property is its member's value, an array index reads the element, and booleans and numbers have no properties |
| Json.OwnEntriesIndicesFirst | order-delivery-frontend/src/services/inventoryApi.ts:88 | the own entries start with the array-index members |
| Json.OwnEntriesIndicesSorted | order-delivery-frontend/src/services/inventoryApi.ts:88 | those members come in ascending index order |
| Json.OwnEntriesNamesAfter | order-delivery-frontend/src/services/inventoryApi.ts:88 | the other members follow in creation order |
| Json.OwnEntries | order-delivery-frontend/src/services/inventoryApi.ts:88 | the own entries are a permutation of the members |
| Json.ObjectValues | order-delivery-frontend/src/services/inventoryApi.ts:88 | `Object.values` holds every member's value once |
| Json.ObjectValuesOrder | order-delivery-frontend/src/services/inventoryApi.ts:88 | an index key written last still comes first |
| Json.SetMember | order-delivery-frontend/src/services/inventoryApi.ts:277 | after an assignment the key reads the new value; an existing key keeps its place and a new key goes last |
| Json.SetMemberKeepsOthers | order-delivery-frontend/src/services/inventoryApi.ts:277 | assigning one key leaves every other key's value |
| Json.SetMemberReplaces | order-delivery-frontend/src/services/inventoryApi.ts:277 | a present key is replaced in place |
| Json.Spread | order-delivery-frontend/src/pages/OrderTrackingPage.tsx:63 | a spread copies an object's members, an array's elements and a string's characters under their indices, and nothing for null, booleans and numbers |
| Json.AssignReads | order-delivery-frontend/src/pages/OrderTrackingPage.tsx:62-87 | with distinct keys in the literal, each key it writes reads its value |
| Json.AssignKeepsOthers | order-delivery-frontend/src/pages/OrderTrackingPage.tsx:62-87 | a key the literal does not write keeps the spread value |
| Json.Assign | order-delivery-frontend/src/pages/OrderTrackingPage.tsx:62-87 | no spread key is lost and every written key is present |
| ProductApi.Candidates | order-delivery-frontend/src/services/inventoryApi.ts:65-94 | precedence: the array itself, then `content`, then `products`, then `_embedded.products`, then the object's values. A truthy non-object gives nothing |
| ProductApi.WithFallback | order-delivery-frontend/src/services/inventoryApi.ts:101-110 | no candidates become the three fallback entries; otherwise the candidates are kept |
| ProductApi.ValidEntry | order-delivery-frontend/src/services/inventoryApi.ts:113-116 | only an object can be a valid entry: arrays and primitives fail the id test |
| ProductApi.OrElse | order-delivery-frontend/src/services/inventoryApi.ts:135 | a truthy read is kept, otherwise the default |
| ProductApi.NumberOrZero | order-delivery-frontend/src/services/inventoryApi.ts:137-138 | a number is kept, anything else is 0 |
| ProductApi.EntryId | order-delivery-frontend/src/services/inventoryApi.ts:129-131 | a number id is kept; a string id is dropped iff `parseInt(id, 10)` is NaN |
| ProductApi.Normalize | order-delivery-frontend/src/services/inventoryApi.ts:129-140 | the record has the entry's id and a truthy name and category |
| ProductApi.NormalizeDefaults | order-delivery-frontend/src/services/inventoryApi.ts:133-140 | field by field, a truthy name, description or category is kept and a falsy or missing one becomes 'Unknown Product', '' or 'Uncategorized'. A number price or stock is kept and anything else becomes 0 |
| ProductApi.NormalizeAll | order-delivery-frontend/src/services/inventoryApi.ts:113-148 | one record per surviving entry (a valid entry whose id is not NaN), all with defaulted fields |
| ProductApi.NormalizeOne | order-delivery-frontend/src/services/inventoryApi.ts:113-131 | a single entry yields its record iff it is an object with a number id or a string id that `parseInt` reads |
| ProductApi.NormalizeAllAppend | order-delivery-frontend/src/services/inventoryApi.ts:113-131 | entries are kept or dropped independently: a concatenation normalises to the concatenation, so a mixed list keeps exactly its surviving entries, in order |
| ProductApi.FindId | order-delivery-frontend/src/services/inventoryApi.ts:143 | finds a record with the id iff one is present |
| ProductApi.Keep | order-delivery-frontend/src/services/inventoryApi.ts:142-146 | a new id is added last; a known id keeps its position |
| ProductApi.Dedup | order-delivery-frontend/src/services/inventoryApi.ts:124-151 | the output ids are the input ids in first-occurrence order, pairwise distinct |
| ProductApi.DedupKeepsChosen | order-delivery-frontend/src/services/inventoryApi.ts:142-146 | each kept record is the first one with a real name for its id, or the first one if none has |
| ProductApi.KeepSame | order-delivery-frontend/src/services/inventoryApi.ts:143-145 | a later duplicate replaces the kept record iff the kept name is 'Unknown Product' and the new one is not |
| ProductApi.KeepNew | order-delivery-frontend/src/services/inventoryApi.ts:143-145 | a record with an unseen id is the one chosen for it |
| ProductApi.DedupFrom | order-delivery-frontend/src/services/inventoryApi.ts:150-151 | every output record is one of the inputs |
| ProductApi.GetAllProducts | order-delivery-frontend/src/services/inventoryApi.ts:48-168 | a failed request gives the three fallback products and a falsy body gives []. For a truthy body, the ids are the first occurrences of the surviving candidates' ids and every record is one of theirs. Every result has distinct ids and defaulted fields |
| ProductApi.NormalizeToJson | order-delivery-frontend/src/services/inventoryApi.ts:133-140 | normalising the JSON of a returned record gives the record back |
| ProductApi.DedupOfDistinct | order-delivery-frontend/src/services/inventoryApi.ts:124-151 | records with distinct ids pass deduplication unchanged |
| ProductApi.GetAllProductsIdempotent | order-delivery-frontend/src/services/inventoryApi.ts:113-151 | sending a non-empty result back through the service returns it unchanged |
| ProductApi.NormalRecordsAreFixed | order-delivery-frontend/src/services/inventoryApi.ts:113-151 | defaulted records with distinct ids are returned unchanged for their own JSON |
| ProductApi.ArrayAnswer | order-delivery-frontend/src/services/inventoryApi.ts:65-68 | a non-empty array answer is the candidate list itself |
| ProductApi.AllInvalidGivesEmpty | order-delivery-frontend/src/services/inventoryApi.ts:101-120 | the fallback comes before validation: a non-empty all-invalid answer gives [] |
| ProductApi.InvalidEntriesAreNotReplaced | order-delivery-frontend/src/services/inventoryApi.ts:101-120 | `[5]` gives [] and not the fallback |
| ProductApi.EmptyAnswerGivesFallback | order-delivery-frontend/src/services/inventoryApi.ts:101-110 | `[]` gives the three fallback products |
| ProductApi.NoCandidatesGivesFallback | order-delivery-frontend/src/services/inventoryApi.ts:101-110 | any truthy answer without candidates, such as `{}`, `{content: []}` or a string, gives the three fallback products |
| ProductApi.FallbackNormalizes | order-delivery-frontend/src/services/inventoryApi.ts:105-109 | the fallback entries normalise to the fallback products |
| ProductApi.GetProductById | order-delivery-frontend/src/services/inventoryApi.ts:171-203 | a truthy body is returned. Otherwise the result is the placeholder named 'Product '+id with stock 0. It is always truthy |
| ProductApi.UpdateProduct | order-delivery-frontend/src/services/inventoryApi.ts:206-231 | a truthy body is returned, otherwise the record that was sent |
| ProductApi.UpdateProductStock | order-delivery-frontend/src/services/inventoryApi.ts:234-311 | a failed or empty GET, or a primitive body, gives the placeholder with the new stock and no PUT. An object is sent with its stock set and an array is sent as it is. The result is what `updateProduct`'s rule makes of the PUT |
| ProductApi.SentRecordHasNewStock | order-delivery-frontend/src/services/inventoryApi.ts:276-293 | the record sent has the new stock and every other member the server returned |
| ProductApi.StockFallbackIsProductFallback | order-delivery-frontend/src/services/inventoryApi.ts:236-243 | the placeholder returned without a PUT is `getProductById`'s placeholder with the stock assigned |
| Suppliers.ListCandidates | order-delivery-frontend/src/components/SupplierManagement.tsx:121-139 | the array itself, then `content`, then the key, then the object's values; there is no `_embedded` case |
| Suppliers.Extract | order-delivery-frontend/src/components/SupplierManagement.tsx:142-145 | exactly the candidates that are objects with a number or string id, unmodified, in order and as often as they occur |
| Suppliers.SameChainWithoutEmbedded | order-delivery-frontend/src/components/SupplierManagement.tsx:121-139 | where the product service would not look into `_embedded`, both chains find the same candidates |
| Suppliers.EmbeddedIsNotUnwrapped | order-delivery-frontend/src/components/SupplierManagement.tsx:121-139 | a HATEOAS answer is unwrapped by the product service but yields nothing here |
| Suppliers.Amount | order-delivery-frontend/src/components/SupplierManagement.tsx:232 | a non-zero amount comes from a numeric `totalAmount` |
| Suppliers.Revenue | order-delivery-frontend/src/components/SupplierManagement.tsx:231-234 | orders without a numeric amount add up to 0 |
| Suppliers.RevenueAppend | order-delivery-frontend/src/components/SupplierManagement.tsx:231-234 | the revenue is additive over concatenation |
| Suppliers.RevenueCountsNumbersOnly | order-delivery-frontend/src/components/SupplierManagement.tsx:231-234 | the revenue equals the revenue of the orders with a numeric amount |
| Suppliers.FetchSuppliers | order-delivery-frontend/src/components/SupplierManagement.tsx:118-158 | a failed request gives [] with 'Failed to fetch suppliers: '+message. A falsy body gives [] with 'No data received from API'. Otherwise the kept entries, each as often as it occurs, are returned with no message |
| Suppliers.FetchSupplierOrders | order-delivery-frontend/src/components/SupplierManagement.tsx:196-250 | the same with the key `orders`, multiplicities included. The revenue is summed over the kept orders, and is 0 on no data or failure |
| Suppliers.DeleteSupplier | order-delivery-frontend/src/components/SupplierManagement.tsx:307-321 | a successful deletion clears the message, since the refetch it starts runs `setError(null)` (line 110) before its first await. Deleting the selected supplier also clears the selection, its orders and the revenue; deleting another changes nothing else. A failure only sets the message |
| Suppliers.DeleteClearsFailure | order-delivery-frontend/src/components/SupplierManagement.tsx:307-321 | the message of a failed deletion is gone after a successful one |
| Suppliers.DeletedIsNotSelected | order-delivery-frontend/src/components/SupplierManagement.tsx:311-315 | after a deletion the supplier is not selected, and deleting it again changes nothing |
| Suppliers.IdValue | order-delivery-frontend/src/components/SupplierManagement.tsx:328 | a selection is null iff nothing is selected |
| Suppliers.AssignSupplier | order-delivery-frontend/src/components/SupplierManagement.tsx:327-341 | nothing is sent iff either id is null or 0. A failure sets 'Failed to assign supplier to product: '+message |
| InventoryView.FetchViews | order-delivery-frontend/src/components/InventoryManagement.tsx:76-126 | both views are order-preserving sublists of the products, keeping each product's multiplicity. Low stock is exactly 0 < stock <= threshold, and out of stock is exactly stock 0. No products give empty views and a total of 0 |
| InventoryView.ViewsAreDisjoint | order-delivery-frontend/src/components/InventoryManagement.tsx:86-100 | no product is in both views |
| InventoryView.SetStock | order-delivery-frontend/src/components/InventoryManagement.tsx:158-162 | length and order are kept. Entries with the id get the new stock, and every other entry and field is unchanged |
| InventoryView.SetStockKeepsIds | order-delivery-frontend/src/components/InventoryManagement.tsx:158-175 | the update keeps the ids |
| InventoryView.SetStockLastWins | order-delivery-frontend/src/components/InventoryManagement.tsx:158-162 | a second update of the same id overrides the first |
| InventoryView.UpdateStock | order-delivery-frontend/src/components/InventoryManagement.tsx:157-175 | in each of the three lists, the entries with the id get the new stock and every other entry is unchanged. Lengths and the total are kept |
| InventoryView.UpdateStockLastWins | order-delivery-frontend/src/components/InventoryManagement.tsx:157-175 | a second save of the same product overrides the first on all three lists |
| InventoryView.StaleLowStockView | order-delivery-frontend/src/components/InventoryManagement.tsx:165-181 | until the refresh, a product raised above the threshold stays in the low-stock list |
| InventoryView.ParseThreshold | order-delivery-frontend/src/components/InventoryManagement.tsx:323-327 | always at least 1; '' or unparsable input gives 5 |
| InventoryView.ThresholdOfNumeral | order-delivery-frontend/src/components/InventoryManagement.tsx:325-326 | a typed numeral gives its value raised to at least 1 |
| InventoryView.ParseStockEdit | order-delivery-frontend/src/components/InventoryManagement.tsx:255-258 | '' or unparsable input gives 0 |
| InventoryView.StockEditOfNumeral | order-delivery-frontend/src/components/InventoryManagement.tsx:257-258 | a typed numeral gives its value, negative ones included |
| InventoryView.LowStockTestsDiffer | order-delivery-frontend/src/components/InventoryManagement.tsx:86-91 | against the backend's `stock < threshold`: they disagree at stock == threshold and at stock <= 0, and agree strictly in between |
| TrackingPage.OrderIdError | order-delivery-frontend/src/pages/OrderTrackingPage.tsx:46-50 | the only message is 'Invalid order ID' |
| TrackingPage.NumeralIdAccepted | order-delivery-frontend/src/pages/OrderTrackingPage.tsx:46 | any integer numeral is accepted |
| TrackingPage.TrailingLettersRefused | order-delivery-frontend/src/pages/OrderTrackingPage.tsx:46 | "12abc" is refused |
| TrackingPage.BlankIdAccepted | order-delivery-frontend/src/pages/OrderTrackingPage.tsx:46 | " " is accepted |
| TrackingPage.NormalizeOrderStatus | order-delivery-frontend/src/pages/OrderTrackingPage.tsx:65-67 | a valid name is kept; anything else, absent included, is PENDING |
| TrackingPage.NormalizeDeliveryStatus | order-delivery-frontend/src/pages/OrderTrackingPage.tsx:70-72 | the same for the six delivery names |
| TrackingPage.NormalizeMirrorsIncludes | order-delivery-frontend/src/pages/OrderTrackingPage.tsx:65-72 | both normalisers keep a string exactly when it is among the listed enum values, and otherwise give PENDING |
| TrackingPage.NormalizeKeepsNames | order-delivery-frontend/src/pages/OrderTrackingPage.tsx:65-72 | normalising a normalised status changes nothing |
| TrackingPage.ProcessTrackingInfo | order-delivery-frontend/src/pages/OrderTrackingPage.tsx:60-92 | a falsy answer is the error 'No tracking data received' |
| TrackingPage.InfoOrderStatus | order-delivery-frontend/src/pages/OrderTrackingPage.tsx:65-67 | the kept order status is the normalised one |
| TrackingPage.InfoDeliveryStatus | order-delivery-frontend/src/pages/OrderTrackingPage.tsx:70-72 | the kept delivery status is the normalised one |
| TrackingPage.InfoDefaults | order-delivery-frontend/src/pages/OrderTrackingPage.tsx:75-86 | a non-number total reads 0; falsy customer fields read 'N/A' and falsy carrier fields read '' |
| TrackingPage.InfoReads | order-delivery-frontend/src/pages/OrderTrackingPage.tsx:62-87 | each of the eight written properties reads its value |
| TrackingPage.InfoCopiesOthers | order-delivery-frontend/src/pages/OrderTrackingPage.tsx:62-63 | every other field is the server's |
| TrackingPage.ProcessHistory | order-delivery-frontend/src/pages/OrderTrackingPage.tsx:104-127 | a non-array gives [], and so does an array holding null. Otherwise there is one entry per element, in order |
| TrackingPage.HistoryEntry | order-delivery-frontend/src/pages/OrderTrackingPage.tsx:105-122 | every key of the server's entry is kept, and the four written keys are present |
| TrackingPage.HistoryEntryFields | order-delivery-frontend/src/pages/OrderTrackingPage.tsx:105-122 | statuses are normalised, a falsy timestamp becomes the current time and a falsy description becomes 'No description available'; truthy ones are the server's |
| TrackingPage.LoadTracking | order-delivery-frontend/src/pages/OrderTrackingPage.tsx:44-141 | an invalid id fetches nothing and shows 'Invalid order ID'. Otherwise the history is processed independently of the record, and a missing record is reported with the wrapped message |
| TrackingPage.StepIndex | order-delivery-frontend/src/pages/OrderTrackingPage.tsx:163-170 | a listed status gives its position; an unlisted one gives 0 |
| TrackingPage.OrderStepIndex | order-delivery-frontend/src/pages/OrderTrackingPage.tsx:163-165 | the order step lies in 0..5 |
| TrackingPage.DeliveryStepIndex | order-delivery-frontend/src/pages/OrderTrackingPage.tsx:168-170 | the delivery step lies in 0..4 |
| TrackingPage.OrderStepPositions | order-delivery-frontend/src/pages/OrderTrackingPage.tsx:20-27 | each chain status has its own position, and CANCELLED shows as 0 |
| TrackingPage.DeliveryStepPositions | order-delivery-frontend/src/pages/OrderTrackingPage.tsx:29-35 | each delivery status has its own position, and FAILED shows as 0 |
| TrackingPage.OrderStepsCollide | order-delivery-frontend/src/pages/OrderTrackingPage.tsx:163-165 | two statuses share a position iff they are equal or are PENDING and CANCELLED |
| TrackingPage.ReplaceFirst | order-delivery-frontend/src/pages/OrderTrackingPage.tsx:185 | the length is kept and a string without the character is unchanged |
| TrackingPage.ReplaceFirstAt | order-delivery-frontend/src/pages/OrderTrackingPage.tsx:185 | character by character, the first occurrence becomes the replacement and every other character is kept |
| TrackingPage.ReplaceFirstSkips | order-delivery-frontend/src/pages/OrderTrackingPage.tsx:185 | characters before the first occurrence are passed over |
| TrackingPage.ReplaceFirstUndo | order-delivery-frontend/src/pages/OrderTrackingPage.tsx:185 | where the replacement character is new, replacing back restores the string |
| TrackingPage.StepLabel | order-delivery-frontend/src/pages/OrderTrackingPage.tsx:185 | the order stepper's label has its status name's length, and a name without an underscore is its own label |
| TrackingPage.DeliveryStepLabel | order-delivery-frontend/src/pages/OrderTrackingPage.tsx:199 | the delivery stepper's label has its status name's length, and a name without an underscore is its own label |
| TrackingPage.StepLabelsAreLabels | order-delivery-frontend/src/pages/OrderTrackingPage.tsx:183-201 | both steppers' labels are their names with the first underscore turned into a space and every other character kept |
| TrackingPage.NamesHaveNoSpace | order-delivery-frontend/src/types/index.ts:1-18 | no order or delivery status name contains a space |
| TrackingPage.StepLabelUndo | order-delivery-frontend/src/pages/OrderTrackingPage.tsx:183-201 | turning a label's first space back into an underscore gives the status name, for both steppers |
| TrackingPage.ReadyForDeliveryLabel | order-delivery-frontend/src/pages/OrderTrackingPage.tsx:185 | READY_FOR_DELIVERY is labelled 'READY FOR_DELIVERY' |
| TrackingPage.PickedUpLabel | order-delivery-frontend/src/pages/OrderTrackingPage.tsx:199 | PICKED_UP is labelled 'PICKED UP' |
| TrackingPage.InTransitLabel | order-delivery-frontend/src/pages/OrderTrackingPage.tsx:199 | IN_TRANSIT is labelled 'IN TRANSIT' |
| Payments.SetStatus | order-delivery-frontend/src/pages/PaymentPage.tsx:196-215 | length and order are kept. Payments with the id get the status, and every other payment and field is unchanged |
| Payments.ProcessPayment | order-delivery-frontend/src/pages/PaymentPage.tsx:196-204 | payments with the id become completed and the others are untouched |
| Payments.RefundPayment | order-delivery-frontend/src/pages/PaymentPage.tsx:207-215 | payments with the id become refunded and the others are untouched |
| Payments.SetStatusOfAbsentId | order-delivery-frontend/src/pages/PaymentPage.tsx:196-215 | an id no payment carries changes nothing |
| Payments.SetStatusLastWins | order-delivery-frontend/src/pages/PaymentPage.tsx:196-215 | a second update of the same id overrides the first |
| Payments.Count | order-delivery-frontend/src/pages/PaymentPage.tsx:169-172 | a count is 0 iff no payment has the status |
| Payments.CountsSum | order-delivery-frontend/src/pages/PaymentPage.tsx:169-172 | the four counts add up to the number of payments |
| Payments.StatsOf | order-delivery-frontend/src/pages/PaymentPage.tsx:167-180 | each card counts the payments with its status, and the four counts add up to the number of payments |
| Payments.FetchPayments | order-delivery-frontend/src/pages/PaymentPage.tsx:151-188 | the page lists the mock payments, with the cards computed from them |
| Payments.MockStats | order-delivery-frontend/src/pages/PaymentPage.tsx:41-92 | the mock list counts 2 completed, 1 pending, 1 failed and 1 refunded payment |
| Payments.StaleStatsAfterProcess | order-delivery-frontend/src/pages/PaymentPage.tsx:196-204 | after processing the pending payment the cards still count one pending payment, though none is left |
| Payments.OfferedAction | order-delivery-frontend/src/pages/PaymentPage.tsx:334-364 | refunded payments offer no button, and every other status offers one |
| Payments.ActionTarget | order-delivery-frontend/src/pages/PaymentPage.tsx:334-364 | every button sets completed or refunded |
| Payments.Moves | order-delivery-frontend/src/pages/PaymentPage.tsx:334-364 | the moves are exactly pending to completed, failed to completed and completed to refunded |
| Payments.RefundedIsFinal | order-delivery-frontend/src/pages/PaymentPage.tsx:334-364 | nothing moves a refunded payment |
| Payments.Click | order-delivery-frontend/src/pages/PaymentPage.tsx:334-364 | a click sets the clicked row to its button's target status, and a row with no button changes nothing |
| Payments.ClickFollowsMoves | order-delivery-frontend/src/pages/PaymentPage.tsx:334-364 | with distinct ids a click changes only the clicked row's status, and only along a move |
| Payments.SharedIdBypassesMoves | order-delivery-frontend/src/pages/PaymentPage.tsx:196-204 | with a repeated id, processing one row completes a refunded row too |
| Payments.StatusColor | order-delivery-frontend/src/pages/PaymentPage.tsx:107-120 | every status has a colour, and the 'default' branch is never taken |
| Payments.StatusColorInjective | order-delivery-frontend/src/pages/PaymentPage.tsx:107-120 | distinct statuses have distinct colours |
| Payments.MethodDisplay | order-delivery-frontend/src/pages/PaymentPage.tsx:123-136 | every method has a display name different from its raw name |
| Payments.MethodDisplayInjective | order-delivery-frontend/src/pages/PaymentPage.tsx:123-136 | distinct methods have distinct display names |
| Payments.Upper | order-delivery-frontend/src/pages/PaymentPage.tsx:328 | a lower-case letter becomes the matching capital; other characters are kept |
| Payments.Capitalize | order-delivery-frontend/src/pages/PaymentPage.tsx:328 | the first character is upper-cased, the rest is kept, and '' stays '' |
| Payments.CapitalizeIdempotent | order-delivery-frontend/src/pages/PaymentPage.tsx:328 | capitalising twice is capitalising once |
| Payments.ChipLabel | order-delivery-frontend/src/pages/PaymentPage.tsx:328 | the label starts with a capital and has the status name's length |
| Payments.ChipLabels | order-delivery-frontend/src/pages/PaymentPage.tsx:328 | the labels read Pending, Completed, Failed and Refunded, and distinct statuses have distinct labels |
| Navigation.SelectedIsPrefix | order-delivery-frontend/src/components/Layout.tsx:56-57 | a non-Home item is selected iff its path is a prefix of the location. Home is selected iff the location is exactly '/' |
| Navigation.Selected | order-delivery-frontend/src/components/Layout.tsx:56-57 | a selected item's path is a prefix of the location, and an item is selected at its own path |
| Navigation.TrackingMatchesByCharacters | order-delivery-frontend/src/components/Layout.tsx:24-57 | the '/tracking/1' item is selected at '/tracking/12' but not at '/tracking/2' |
| Navigation.AtMostOneSelected | order-delivery-frontend/src/components/Layout.tsx:22-57 | with the six configured paths, at most one item is selected for any location |
| Navigation.SelectedIndex | order-delivery-frontend/src/components/Layout.tsx:56-57 | finds a selected item iff there is one |
| Navigation.SelectedIndexIsUnique | order-delivery-frontend/src/components/Layout.tsx:22-57 | any selected item is the one found |
| Navigation.OwnPathSelected | order-delivery-frontend/src/components/Layout.tsx:22-29 | each configured path selects its own item and no other |

## Left out

- Persistence and HTTP:
  - Repositories are maps, and the listing order of `findAll` is a sequence.
  - Controllers, the exception-to-status mapping, axios and the `api.ts` wrappers are not modelled.
  - A request is an input outcome: a thrown error with its message, or the parsed body.
  - The tracking client in `api.ts` replaces failures by its own values. So the page's inputs are arbitrary JSON values rather than errors.
- Generated identities are parameters with a freshness requirement: the order id and the id of the delivery attached on READY_FOR_DELIVERY.
- Clocks are parameters or are left out:
  - `LocalDate.now` is the `today` parameter, and `new Date().toISOString()` is the `now` parameter.
  - History timestamps and delivery dates are not kept.
  - The 800 ms delay is not modelled.
- Money (`calculateTotalAmount`, `getTotalInventoryValue`, the client's `reduce` sums) is computed over idealised reals, not doubles. `toFixed` formatting is left out.
- Integer widths:
  - Java `int` stock and quantities are unbounded integers, so overflow is not modelled.
  - A null `quantity` is not modelled.
  - `parseInt` results are exact integers, without the rounding to doubles above 2^53.
- A null order-line list is identified with the empty list. Every modelled path treats them alike except `getProductMovement`, which dereferences it.
- JavaScript details outside what the screens rely on are not modelled:
  - prototype properties and getters;
  - UTF-16 code units (strings are sequences of characters);
  - `-0`, which collapses to 0;
  - `err instanceof Error` for thrown non-Error values ('Unknown error').
- ProductApi.GetProductById: the placeholder's name uses the decimal numeral of an integer id. A non-integer id, rendered by JavaScript's number formatting, is not modelled.
- The catch blocks that cannot be reached once the service never throws are not modelled:
  - in InventoryManagement, `fetchData` with `getAllProducts`;
  - in InventoryManagement, `updateStock` with `updateProductStock`;
  - in SupplierManagement, the revenue's inner `try`.
- React machinery is not modelled: state hooks, effects, re-renders, dialogs, markup, and the ordering of asynchronous responses. A handler is a function from the state it reads to the state it sets.
- Thin CRUD services, `SupplierService`, and the presentation-only pages (DashboardPage, HomePage, App, ErrorBoundary) are not part of this model.
- A null dereference (`getProductMovement` on a line without a product or an order without a status, `updateDeliveryStatus` on a delivery without an order) is `Err("NullPointerException")`. The JVM's detail message is not modelled.
- ProductApi.UpdateProductStock: when the GET answers an array, the `stock` property the assignment adds to that array is not represented, since `Json` arrays have no named members. The PUT body is unaffected because JSON serialisation drops it, but an array returned after a falsy PUT answer lacks it in the model.
- Entities.Product: `price` and `stock` are never null in the model. In the source they are boxed and may be null; a null stock then makes the stock checks and updates throw (OrderService.java:146, 169, 194; InventoryService.java:45, 55), and a null price makes `calculateTotalAmount` and `getTotalInventoryValue` throw (OrderService.java:158; InventoryService.java:65). Orders.ValidateLines, Orders.ValidateOrder, Orders.Consume, Orders.ConsumeSucceedsIff, Orders.Restore, Orders.CreateOrder, Orders.CancelOrder, Orders.UpdateOrder, Orders.UpdateOrderSucceedsIff, Orders.UpdateOrderCorrected, Inventory.LowStock and Inventory.OutOfStock assume non-null values.
- Payments.FetchPayments: the page always loads its built-in mock list. Its commented-out server call is not modelled, and neither is the date formatting (`toLocaleDateString`).

## Findings

| source | as written | input that shows it | evidently intended | confidence | as-written member | corrected member |
|---|---|---|---|---|---|---|
| src/main/java/com/example/orderdelivery/service/OrderService.java:58-87 | the guard at line 70 reads the status that line 65 already overwrote with the requested one, so a CANCELLED order reactivated with new lines gets its old lines back a second time | a product with stock 10; an order of 3 created (7) and cancelled (10); `updateOrder` to PENDING with one line of 1 | the old lines are given back only if the stored order was not CANCELLED, leaving 9 | not executed | Orders.UpdateOrder, Orders.ReactivationRestoresTwice | Orders.UpdateOrderCorrected |
