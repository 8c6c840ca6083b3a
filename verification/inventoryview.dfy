/** The inventory screen: the low-stock and out-of-stock views it derives
    from the products the inventory client service returns, the local
    stock update it applies after saving, and the parsing of its two
    number inputs. */
module InventoryView {
  import opened Seqs
  import opened JsNumber
  import opened ProductApi
  import Entities
  import Inventory

  /** The screen's low-stock test: a positive stock up to the threshold. */
  predicate LowStockItem(p: Product, threshold: int)
  {
    0.0 < p.stock <= threshold as real
  }

  /** The screen's out-of-stock test: a stock of exactly zero. */
  predicate OutOfStockItem(p: Product)
  {
    p.stock == 0.0
  }

  /** Inventory value, `price * stock` summed over the products (money as
      reals). */
  function TotalValue(ps: seq<Product>): real
  {
    if |ps| == 0 then 0.0 else ps[0].price * ps[0].stock + TotalValue(ps[1..])
  }

  /** The three lists and the total the screen shows. */
  datatype Views = Views(products: seq<Product>, low: seq<Product>, out: seq<Product>, total: real)

  /** `fetchData` after the products arrive: both views are order-preserving
      sublists of the products, selected by their tests; no products give
      empty views and a zero total. */
  function FetchViews(data: seq<Product>, threshold: int): (r: Views)
    ensures r.products == data
    ensures IsSubsequence(r.low, data) && forall p :: p in r.low <==> p in data && LowStockItem(p, threshold)
    ensures IsSubsequence(r.out, data) && forall p :: p in r.out <==> p in data && OutOfStockItem(p)
    ensures forall p :: multiset(r.low)[p] == if LowStockItem(p, threshold) then multiset(data)[p] else 0
    ensures forall p :: multiset(r.out)[p] == if OutOfStockItem(p) then multiset(data)[p] else 0
    ensures |data| == 0 ==> r.low == [] && r.out == [] && r.total == 0.0
  {
    if |data| > 0 then
      Views(data, Filter(data, (p: Product) => LowStockItem(p, threshold)), Filter(data, OutOfStockItem), TotalValue(data))
    else Views(data, [], [], 0.0)
  }

  /** No product is in both views. */
  lemma {:induction false} ViewsAreDisjoint(data: seq<Product>, threshold: int)
    ensures var v := FetchViews(data, threshold);
      forall p :: p in v.low ==> p !in v.out
  {
  }

  // ----- The local update after saving a stock -----

  /** Every product with id `id` gets stock `newStock`; the list keeps its
      length and order, and nothing else changes. */
  function SetStock(ps: seq<Product>, id: real, newStock: real): (r: seq<Product>)
    ensures |r| == |ps|
    ensures forall i :: 0 <= i < |ps| ==> r[i].(stock := ps[i].stock) == ps[i]
    ensures forall i :: 0 <= i < |ps| ==> r[i].stock == if ps[i].id == id then newStock else ps[i].stock
  {
    seq(|ps|, i requires 0 <= i < |ps| => if ps[i].id == id then ps[i].(stock := newStock) else ps[i])
  }

  /** The update keeps the ids, hence their order and distinctness. */
  lemma {:induction false} SetStockKeepsIds(ps: seq<Product>, id: real, newStock: real)
    ensures Ids(SetStock(ps, id, newStock)) == Ids(ps)
  {
    var r := SetStock(ps, id, newStock);
    assert forall i :: 0 <= i < |ps| ==> r[i].id == ps[i].id;
  }

  /** A second update of the same id overrides the first. */
  lemma {:induction false} SetStockLastWins(ps: seq<Product>, id: real, a: real, b: real)
    ensures SetStock(SetStock(ps, id, a), id, b) == SetStock(ps, id, b)
  {
    var once := SetStock(ps, id, a);
    var twice := SetStock(once, id, b);
    var direct := SetStock(ps, id, b);
    forall i | 0 <= i < |ps| ensures twice[i] == direct[i] {
      assert once[i].id == ps[i].id;
    }
  }

  /** `updateStock` applies the same update to all three lists: in each,
      the entries with the id get the new stock and every other entry and
      field is unchanged; the total is left as it was. */
  function UpdateStock(v: Views, id: real, newStock: real): (r: Views)
    ensures |r.products| == |v.products| && |r.low| == |v.low| && |r.out| == |v.out|
    ensures forall i :: 0 <= i < |v.products| ==>
      r.products[i] == if v.products[i].id == id then v.products[i].(stock := newStock) else v.products[i]
    ensures forall i :: 0 <= i < |v.low| ==>
      r.low[i] == if v.low[i].id == id then v.low[i].(stock := newStock) else v.low[i]
    ensures forall i :: 0 <= i < |v.out| ==>
      r.out[i] == if v.out[i].id == id then v.out[i].(stock := newStock) else v.out[i]
    ensures r.total == v.total
  {
    Views(SetStock(v.products, id, newStock), SetStock(v.low, id, newStock), SetStock(v.out, id, newStock), v.total)
  }

  /** A second save of the same product overrides the first on all three
      lists. */
  lemma {:induction false} UpdateStockLastWins(v: Views, id: real, a: real, b: real)
    ensures UpdateStock(UpdateStock(v, id, a), id, b) == UpdateStock(v, id, b)
  {
    SetStockLastWins(v.products, id, a, b);
    SetStockLastWins(v.low, id, a, b);
    SetStockLastWins(v.out, id, a, b);
  }

  /** Until the next fetch the views are not recomputed: a low-stock
      product raised above the threshold stays in the low-stock list. */
  lemma StaleLowStockView()
    ensures
      var p := Product(1.0, Json.JStr("Soap"), Json.JStr(""), 5.99, 3.0, Json.JStr("Care"));
      var v := UpdateStock(FetchViews([p], 5), 1.0, 10.0);
      |v.low| == 1 && !LowStockItem(v.low[0], 5)
  {
    var p := Product(1.0, Json.JStr("Soap"), Json.JStr(""), 5.99, 3.0, Json.JStr("Care"));
    var low := FetchViews([p], 5).low;
    assert p in low;
    assert |low| <= 1;
  }

  // ----- Number inputs -----

  /** The threshold input: an empty or unparsable entry gives 5, any other
      entry its `parseInt` value raised to at least 1. */
  function ParseThreshold(input: string): (r: int)
    ensures r >= 1
    ensures input == "" || ParseInt(input, Unspecified).NaN? ==> r == 5
  {
    var parsed := if input == "" then Num(5) else ParseInt(input, Unspecified);
    match parsed
    case NaN => 5
    case Num(n) => if n < 1 then 1 else n
  }

  /** A numeral reads back as its value, raised to at least 1. */
  lemma {:induction false} ThresholdOfNumeral(n: int)
    ensures ParseThreshold(IntToDecimal(n)) == if n < 1 then 1 else n
  {
    ParseIntOfDecimal(n, Unspecified);
  }

  /** The stock input: an empty or unparsable entry gives 0, any other entry
      its `parseInt` value, negative ones included. */
  function ParseStockEdit(input: string): (r: int)
    ensures input == "" || ParseInt(input, Unspecified).NaN? ==> r == 0
  {
    var parsed := if input == "" then Num(0) else ParseInt(input, Unspecified);
    match parsed
    case NaN => 0
    case Num(n) => n
  }

  /** A numeral reads back as its value, negative or not. */
  lemma {:induction false} StockEditOfNumeral(n: int)
    ensures ParseStockEdit(IntToDecimal(n)) == n
  {
    ParseIntOfDecimal(n, Unspecified);
  }

  // ----- The two low-stock tests -----

  /** The service's low-stock test (`stock < threshold`) and the screen's
      (`0 < stock <= threshold`) differ exactly at a stock equal to the
      threshold and at stocks of zero or less; they agree everywhere in
      between. */
  lemma {:induction false} LowStockTestsDiffer(p: Entities.Product, q: Product, threshold: int)
    requires q.stock == p.stock as real && threshold >= 1
    ensures p.stock == threshold ==> LowStockItem(q, threshold) && Inventory.LowStock([p], threshold) == []
    ensures p.stock <= 0 ==> !LowStockItem(q, threshold) && Inventory.LowStock([p], threshold) == [p]
    ensures 0 < p.stock < threshold ==> LowStockItem(q, threshold) && Inventory.LowStock([p], threshold) == [p]
  {
    var low := Inventory.LowStock([p], threshold);
    assert p in low <==> p.stock < threshold;
    assert |low| <= 1;
  }
}
