/** The supplier screen's handling of server answers: the suppliers list
    and a supplier's orders are extracted from whatever the endpoint
    answers and filtered to entries with an id, the revenue is summed over
    the orders, and deleting and assigning are guarded. The HTTP outcomes
    are inputs; the component's state is the record the handlers return. */
module Suppliers {
  import opened Wrappers
  import opened Seqs
  import opened Json
  import opened ProductApi

  // ----- Extraction -----

  /** The candidate entries of a truthy response body: the body itself if
      it is an array, else the first array among `content` and `key`, else
      the object's values. Unlike the product service there is no
      `_embedded` case. A truthy body that is neither array nor object
      yields nothing. */
  function ListCandidates(data: Json, key: string): (r: seq<Json>)
    requires Truthy(data)
    ensures data.JArr? ==> r == data.items
    ensures !TypeofObject(data) ==> r == []
  {
    match data
    case JArr(items) => items
    case JObj(m) =>
      if ArrayAt(data, "content") then Get(data, "content").value.items
      else if ArrayAt(data, key) then Get(data, key).value.items
      else ObjectValues(m)
    case _ => []
  }

  /** The kept entries: exactly the candidates that are objects with a
      number or string id, unmodified, in their original order and with
      their multiplicity. */
  function Extract(data: Json, key: string): (r: seq<Json>)
    requires Truthy(data)
    ensures IsSubsequence(r, ListCandidates(data, key))
    ensures forall x :: x in r <==> x in ListCandidates(data, key) && ValidEntry(x)
    ensures forall x :: multiset(r)[x] == if ValidEntry(x) then multiset(ListCandidates(data, key))[x] else 0
  {
    Filter(ListCandidates(data, key), ValidEntry)
  }

  /** Where the product service would not look into `_embedded`, the
      supplier chain with key `products` finds the same candidates. */
  lemma {:induction false} SameChainWithoutEmbedded(data: Json)
    requires Truthy(data)
    requires data.JObj? && !ArrayAt(data, "content") && !ArrayAt(data, "products") ==> !EmbeddedProducts(data)
    ensures ListCandidates(data, "products") == Candidates(data)
  {
  }

  /** An answer in the HATEOAS shape `{_embedded: {products: [item]}}`: the
      product service unwraps it, the supplier chain takes the wrapper
      object itself as the only candidate, and that object has no id. */
  lemma {:induction false} EmbeddedIsNotUnwrapped(item: Json)
    requires ValidEntry(item)
    ensures
      var wrapper := JObj([("products", JArr([item]))]);
      var data := JObj([("_embedded", wrapper)]);
      && Candidates(data) == [item]
      && ListCandidates(data, "products") == [wrapper]
      && Extract(data, "products") == []
  {
    var wrapper := JObj([("products", JArr([item]))]);
    var data := JObj([("_embedded", wrapper)]);
    assert Get(data, "content").None?;
    assert Get(data, "products").None?;
    assert Get(wrapper, "id").None?;
    assert Values(data.members) == [wrapper];
    var values := ObjectValues(data.members);
    assert values[0] in Values(data.members);
  }

  // ----- Revenue -----

  /** `typeof order.totalAmount === 'number' ? order.totalAmount : 0`. */
  function Amount(order: Json): (r: real)
    requires !order.JNull?
    ensures r != 0.0 ==> HasNumericAmount(order)
  {
    NumberOrZero(Get(order, "totalAmount"))
  }

  predicate HasNumericAmount(order: Json)
  {
    && !order.JNull?
    && var a := Get(order, "totalAmount");
       a.Some? && a.value.JNum?
  }

  /** The running sum of the amounts, first to last (money as reals). */
  function Revenue(orders: seq<Json>): (r: real)
    requires forall o :: o in orders ==> !o.JNull?
    ensures (forall i :: 0 <= i < |orders| ==> !HasNumericAmount(orders[i])) ==> r == 0.0
  {
    if |orders| == 0 then 0.0 else Amount(orders[0]) + Revenue(orders[1..])
  }

  /** The revenue is additive over concatenation. */
  lemma {:induction false} RevenueAppend(a: seq<Json>, b: seq<Json>)
    requires forall o :: o in a + b ==> !o.JNull?
    ensures Revenue(a + b) == Revenue(a) + Revenue(b)
    decreases |a|
  {
    if |a| > 0 {
      assert (a + b)[1..] == a[1..] + b;
      assert (a + b)[0] == a[0];
      RevenueAppend(a[1..], b);
    } else {
      assert a + b == b;
    }
  }

  /** Orders whose amount is not a number contribute nothing: the revenue
      is the same over the orders that carry a numeric amount. */
  lemma {:induction false} RevenueCountsNumbersOnly(orders: seq<Json>)
    requires forall o :: o in orders ==> !o.JNull?
    ensures Revenue(orders) == Revenue(Filter(orders, HasNumericAmount))
    decreases |orders|
  {
    if |orders| > 0 {
      var rest := Filter(orders[1..], HasNumericAmount);
      RevenueCountsNumbersOnly(orders[1..]);
      assert orders == [orders[0]] + orders[1..];
      if HasNumericAmount(orders[0]) {
        assert Filter(orders, HasNumericAmount) == [orders[0]] + rest;
        assert ([orders[0]] + rest)[1..] == rest;
      } else {
        assert Filter(orders, HasNumericAmount) == rest;
      }
    }
  }

  // ----- The two fetches -----

  /** The suppliers list and the message shown above it. */
  datatype Listing = Listing(items: seq<Json>, error: Option<string>)

  /** `fetchSuppliers`: a failed request or an empty body leaves an empty
      list with a message; otherwise the kept entries and no message. */
  function FetchSuppliers(resp: Http): (r: Listing)
    ensures resp.HttpError? ==> r == Listing([], Some("Failed to fetch suppliers: " + resp.message))
    ensures resp.HttpOk? && !Truthy(resp.data) ==> r == Listing([], Some("No data received from API"))
    ensures resp.HttpOk? && Truthy(resp.data) ==>
      && r.error.None?
      && IsSubsequence(r.items, ListCandidates(resp.data, "suppliers"))
      && (forall x :: x in r.items <==> x in ListCandidates(resp.data, "suppliers") && ValidEntry(x))
      && forall x :: multiset(r.items)[x] == if ValidEntry(x) then multiset(ListCandidates(resp.data, "suppliers"))[x] else 0
  {
    match resp
    case HttpError(message) => Listing([], Some("Failed to fetch suppliers: " + message))
    case HttpOk(data) =>
      if !Truthy(data) then Listing([], Some("No data received from API"))
      else Listing(Extract(data, "suppliers"), None)
  }

  /** A supplier's orders, the message shown above them and the revenue. */
  datatype OrdersListing = OrdersListing(orders: seq<Json>, error: Option<string>, revenue: real)

  /** `fetchSupplierOrders`: like the suppliers fetch with key `orders`,
      and the revenue summed over the kept orders, or reset to 0 when
      there is no data or the request failed. */
  function FetchSupplierOrders(resp: Http): (r: OrdersListing)
    ensures resp.HttpError? ==> r == OrdersListing([], Some("Failed to fetch supplier orders: " + resp.message), 0.0)
    ensures resp.HttpOk? && !Truthy(resp.data) ==> r == OrdersListing([], Some("No data received from API"), 0.0)
    ensures resp.HttpOk? && Truthy(resp.data) ==>
      && r.error.None?
      && IsSubsequence(r.orders, ListCandidates(resp.data, "orders"))
      && (forall x :: x in r.orders <==> x in ListCandidates(resp.data, "orders") && ValidEntry(x))
      && forall x :: multiset(r.orders)[x] == if ValidEntry(x) then multiset(ListCandidates(resp.data, "orders"))[x] else 0
    ensures forall o :: o in r.orders ==> !o.JNull?
    ensures r.revenue == Revenue(r.orders)
  {
    match resp
    case HttpError(message) => OrdersListing([], Some("Failed to fetch supplier orders: " + message), 0.0)
    case HttpOk(data) =>
      if !Truthy(data) then OrdersListing([], Some("No data received from API"), 0.0)
      else
        var orders := Extract(data, "orders");
        OrdersListing(orders, None, Revenue(orders))
  }

  // ----- Delete and assign -----

  /** The part of the screen a deletion touches: the selected supplier,
      its orders, the revenue and the message. */
  datatype Panel = Panel(selected: Option<int>, orders: seq<Json>, revenue: real, error: Option<string>)

  /** `handleDeleteSupplier`: on success the list is refetched, and that
      fetch clears the message before its first `await`. The selection,
      its orders and the revenue are cleared as well if the deleted
      supplier was the selected one. On failure only the message changes.
      What the refetch later sets is `FetchSuppliers`'s business. */
  function DeleteSupplier(p: Panel, id: int, outcome: Outcome): (r: Panel)
    ensures outcome.Fail? ==> r == p.(error := Some("Failed to delete supplier: " + outcome.error))
    ensures outcome.Pass? ==> r.error.None?
    ensures outcome.Pass? && p.selected == Some(id) ==> r == Panel(None, [], 0.0, None)
    ensures outcome.Pass? && p.selected != Some(id) ==> r == p.(error := None)
  {
    match outcome
    case Fail(message) => p.(error := Some("Failed to delete supplier: " + message))
    case Pass =>
      var refetching := p.(error := None);
      if p.selected == Some(id) then refetching.(selected := None, orders := [], revenue := 0.0)
      else refetching
  }

  /** A message left by an earlier failed deletion is gone after a
      successful one, whichever supplier it deletes. */
  lemma {:induction false} DeleteClearsFailure(p: Panel, id: int, other: int, message: string)
    ensures DeleteSupplier(DeleteSupplier(p, other, Fail(message)), id, Pass).error.None?
    ensures DeleteSupplier(p, other, Fail(message)).error.Some?
  {
  }

  /** After a successful deletion the deleted supplier is not selected, and
      a second deletion of it changes nothing more. */
  lemma {:induction false} DeletedIsNotSelected(p: Panel, id: int)
    ensures DeleteSupplier(p, id, Pass).selected != Some(id)
    ensures DeleteSupplier(DeleteSupplier(p, id, Pass), id, Pass) == DeleteSupplier(p, id, Pass)
  {
  }

  /** A selection id as the component holds it: `null` or a number. */
  function IdValue(id: Option<int>): (r: Json)
    ensures r.JNull? <==> id.None?
  {
    match id
    case None => JNull
    case Some(n) => JNum(n as real)
  }

  datatype AssignStep =
    | NotSent
    | Sent(productId: int, supplierId: int, error: Option<string>)

  /** `handleAssignSupplier`: nothing is sent unless both ids are truthy;
      a failed request sets the message. */
  function AssignSupplier(productId: Option<int>, supplierId: Option<int>, outcome: Outcome): (r: AssignStep)
    ensures r.NotSent? <==> productId.None? || productId == Some(0) || supplierId.None? || supplierId == Some(0)
    ensures r.Sent? ==> r.productId == productId.value && r.supplierId == supplierId.value
    ensures r.Sent? ==> (r.error.Some? <==> outcome.Fail?)
    ensures r.Sent? && outcome.Fail? ==> r.error == Some("Failed to assign supplier to product: " + outcome.error)
  {
    if !Truthy(IdValue(productId)) || !Truthy(IdValue(supplierId)) then NotSent
    else
      var error := match outcome
        case Pass => None
        case Fail(message) => Some("Failed to assign supplier to product: " + message);
      Sent(productId.value, supplierId.value, error)
  }
}
