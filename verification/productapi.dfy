/** The inventory client service: `getAllProducts` turns whatever the
    products endpoint answers into a validated, defaulted list of products
    with distinct ids, and `getProductById`, `updateProduct` and
    `updateProductStock` replace failures by fallback records. The HTTP
    outcomes are inputs. */
module ProductApi {
  import opened Wrappers
  import opened Seqs
  import opened JsNumber
  import opened Json

  /** A product as `getAllProducts` returns it. The text fields keep the
      value the server sent when it is truthy, whatever its type, so they
      are JSON values; the numeric fields are numbers. */
  datatype Product = Product(id: real, name: Json, description: Json, price: real, stock: real, category: Json)

  const PlaceholderName := JStr("Unknown Product")

  // ----- Extraction -----

  /** `Array.isArray(data._embedded.products)` behind its truthiness guards. */
  predicate EmbeddedProducts(data: Json)
    requires !data.JNull?
  {
    var e := Get(data, "_embedded");
    e.Some? && Truthy(e.value) && ArrayAt(e.value, "products")
  }

  /** The candidate entries of a truthy response body: the body itself if
      it is an array, else the first array among `content`, `products` and
      `_embedded.products`, else the object's values. A truthy body that
      is neither array nor object yields nothing. */
  function Candidates(data: Json): (r: seq<Json>)
    requires Truthy(data)
    ensures data.JArr? ==> r == data.items
    ensures data.JObj? && ArrayAt(data, "content") ==> r == Get(data, "content").value.items
    ensures data.JObj? && !ArrayAt(data, "content") && ArrayAt(data, "products") ==> r == Get(data, "products").value.items
    ensures data.JObj? && !ArrayAt(data, "content") && !ArrayAt(data, "products") && EmbeddedProducts(data)
            ==> r == Get(Get(data, "_embedded").value, "products").value.items
    ensures data.JObj? && !ArrayAt(data, "content") && !ArrayAt(data, "products") && !EmbeddedProducts(data)
            ==> |r| == |data.members| && forall v :: v in r <==> v in Values(data.members)
    ensures !TypeofObject(data) ==> r == []
  {
    match data
    case JArr(items) => items
    case JObj(m) =>
      if ArrayAt(data, "content") then Get(data, "content").value.items
      else if ArrayAt(data, "products") then Get(data, "products").value.items
      else if EmbeddedProducts(data) then Get(Get(data, "_embedded").value, "products").value.items
      else ObjectValues(m)
    case _ => []
  }

  /** The three products the service substitutes for an empty answer or
      a failed request. */
  const FallbackProducts: seq<Product> := [
    Product(1.0, JStr("Extra Virgin Olive Oil 1L"), JStr("Premium olive oil from Nabeul region"), 25.99, 200.0, JStr("Grocery")),
    Product(2.0, JStr("Olive Oil Soap"), JStr("Handmade soap with Nabeul olive oil"), 5.99, 300.0, JStr("Personal Care")),
    Product(3.0, JStr("Fresh Sea Bass"), JStr("Caught daily from Kelibia waters"), 18.50, 50.0, JStr("Seafood"))
  ]

  /** The fallback entries as the service writes them: the JSON of the
      three products, members in the order id, name, description, price,
      stock, category. */
  const FallbackRaw: seq<Json> := ToJsonAll(FallbackProducts)

  /** An empty candidate list is replaced by the fallback products, before
      any validation. */
  function WithFallback(candidates: seq<Json>): (r: seq<Json>)
    ensures |r| > 0
    ensures |candidates| == 0 ==> r == FallbackRaw
    ensures |candidates| > 0 ==> r == candidates
  {
    if |candidates| == 0 then FallbackRaw else candidates
  }

  // ----- Validation and defaults -----

  /** A truthy object whose `id` is a number or a string. */
  predicate ValidEntry(item: Json)
    ensures ValidEntry(item) ==> item.JObj?
  {
    && Truthy(item) && TypeofObject(item)
    && var id := Get(item, "id");
       id.Some? && (id.value.JNum? || id.value.JStr?)
  }

  /** `x || fallback` for a property read. */
  function OrElse(read: Option<Json>, fallback: Json): (r: Json)
    ensures Truthy(r) || r == fallback
    ensures read.Some? && Truthy(read.value) ==> r == read.value
  {
    if read.Some? && Truthy(read.value) then read.value else fallback
  }

  /** `typeof x === 'number' ? x : 0` for a property read. */
  function NumberOrZero(read: Option<Json>): (r: real)
    ensures read.Some? && read.value.JNum? ==> r == read.value.n
    ensures !(read.Some? && read.value.JNum?) ==> r == 0.0
  {
    if read.Some? && read.value.JNum? then read.value.n else 0.0
  }

  /** The id of a valid entry: a number as it is, a string through
      `parseInt(id, 10)`; `None` when that is NaN. */
  function EntryId(item: Json): (r: Option<real>)
    requires ValidEntry(item)
    ensures Get(item, "id").value.JNum? ==> r == Some(Get(item, "id").value.n)
    ensures Get(item, "id").value.JStr? ==>
      (r.None? <==> ParseInt(Get(item, "id").value.s, Ten).NaN?)
  {
    match Get(item, "id").value
    case JStr(s) => (match ParseInt(s, Ten) case NaN => None case Num(n) => Some(n as real))
    case JNum(n) => Some(n)
  }

  /** The shape every returned record has: a truthy name and category,
      and a truthy or empty description. */
  predicate Normal(p: Product)
  {
    Truthy(p.name) && Truthy(p.category) && (Truthy(p.description) || p.description == JStr(""))
  }

  /** The record built from a valid entry with a usable id. */
  function Normalize(item: Json): (r: Product)
    requires ValidEntry(item) && EntryId(item).Some?
    ensures r.id == EntryId(item).value
    ensures Normal(r)
  {
    Product(EntryId(item).value,
            OrElse(Get(item, "name"), PlaceholderName),
            OrElse(Get(item, "description"), JStr("")),
            NumberOrZero(Get(item, "price")),
            NumberOrZero(Get(item, "stock")),
            OrElse(Get(item, "category"), JStr("Uncategorized")))
  }

  /** Field by field: a truthy name, description or category is kept and a
      falsy or missing one becomes 'Unknown Product', '' or
      'Uncategorized'; a price or stock that is not a number becomes 0. */
  lemma {:induction false} NormalizeDefaults(item: Json)
    requires ValidEntry(item) && EntryId(item).Some?
    ensures var r := Normalize(item);
      && (Get(item, "name").Some? && Truthy(Get(item, "name").value) ==> r.name == Get(item, "name").value)
      && (!(Get(item, "name").Some? && Truthy(Get(item, "name").value)) ==> r.name == PlaceholderName)
      && (Get(item, "description").Some? && Truthy(Get(item, "description").value) ==> r.description == Get(item, "description").value)
      && (!(Get(item, "description").Some? && Truthy(Get(item, "description").value)) ==> r.description == JStr(""))
      && (Get(item, "category").Some? && Truthy(Get(item, "category").value) ==> r.category == Get(item, "category").value)
      && (!(Get(item, "category").Some? && Truthy(Get(item, "category").value)) ==> r.category == JStr("Uncategorized"))
      && (Get(item, "price").Some? && Get(item, "price").value.JNum? ==> r.price == Get(item, "price").value.n)
      && (!(Get(item, "price").Some? && Get(item, "price").value.JNum?) ==> r.price == 0.0)
      && (Get(item, "stock").Some? && Get(item, "stock").value.JNum? ==> r.stock == Get(item, "stock").value.n)
      && (!(Get(item, "stock").Some? && Get(item, "stock").value.JNum?) ==> r.stock == 0.0)
  {
  }

  /** An entry that yields a record: a valid entry whose id is not NaN. */
  predicate Survives(item: Json)
  {
    ValidEntry(item) && EntryId(item).Some?
  }

  /** The records of the valid entries whose id is not NaN, in order. */
  function NormalizeAll(items: seq<Json>): (r: seq<Product>)
    ensures |r| == |Filter(items, Survives)|
    ensures forall p :: p in r ==> Normal(p)
  {
    if |items| == 0 then []
    else
      var rest := NormalizeAll(items[1..]);
      if Survives(items[0]) then [Normalize(items[0])] + rest else rest
  }

  /** One entry yields its record exactly when it survives. */
  lemma {:induction false} NormalizeOne(item: Json)
    ensures NormalizeAll([item]) == if Survives(item) then [Normalize(item)] else []
  {
    assert [item][1..] == [];
  }

  /** Entries are normalised independently of each other: the records of
      a concatenation are the records of its parts, in order. With
      `NormalizeOne` this determines the result for every mixed list. */
  lemma {:induction false} NormalizeAllAppend(a: seq<Json>, b: seq<Json>)
    ensures NormalizeAll(a + b) == NormalizeAll(a) + NormalizeAll(b)
    decreases |a|
  {
    if |a| == 0 {
      assert a + b == b;
    } else {
      assert (a + b)[0] == a[0];
      assert (a + b)[1..] == a[1..] + b;
      NormalizeAllAppend(a[1..], b);
    }
  }

  // ----- Deduplication -----

  function Ids(ps: seq<Product>): (r: seq<real>)
    ensures |r| == |ps|
    ensures forall i :: 0 <= i < |ps| ==> r[i] == ps[i].id
  {
    if |ps| == 0 then [] else [ps[0].id] + Ids(ps[1..])
  }

  /** The position of the record with id `x`, if any. */
  function FindId(ps: seq<Product>, x: real): (r: Option<nat>)
    ensures r.Some? ==> r.value < |ps| && ps[r.value].id == x
    ensures r.None? <==> x !in Ids(ps)
  {
    if |ps| == 0 then None
    else if ps[0].id == x then Some(0)
    else
      assert Ids(ps) == [ps[0].id] + Ids(ps[1..]);
      match FindId(ps[1..], x)
      case None => None
      case Some(j) => Some(j + 1)
  }

  /** One step of the map-building loop: a new id is added at the end; a
      known id is replaced in place only when the kept record has the
      placeholder name and the new one does not. */
  function Keep(acc: seq<Product>, p: Product): (r: seq<Product>)
    ensures Ids(r) == if p.id in Ids(acc) then Ids(acc) else Ids(acc) + [p.id]
  {
    match FindId(acc, p.id)
    case None => acc + [p]
    case Some(j) =>
      if acc[j].name == PlaceholderName && p.name != PlaceholderName then
        var r := acc[j := p];
        assert Ids(r) == Ids(acc);
        r
      else acc
  }

  lemma {:induction false} IdsOfSplit(ps: seq<Product>)
    requires |ps| > 0
    ensures Ids(ps) == Ids(ps[..|ps| - 1]) + [ps[|ps| - 1].id]
  {
  }

  /** The map-building loop over all records, first to last. */
  function Dedup(ps: seq<Product>): (r: seq<Product>)
    ensures Ids(r) == FirstOccurrences(Ids(ps))
    ensures Distinct(Ids(r))
  {
    if |ps| == 0 then []
    else
      var init := ps[..|ps| - 1];
      var last := ps[|ps| - 1];
      IdsOfSplit(ps);
      FirstOccurrencesAppend(Ids(init), last.id);
      Keep(Dedup(init), last)
  }

  /** The first record with id `x`, and the first with id `x` whose name is
      not the placeholder. */
  function FirstWith(ps: seq<Product>, x: real, named: bool): (r: Option<Product>)
    ensures r.Some? ==> r.value in ps && r.value.id == x && (named ==> r.value.name != PlaceholderName)
    ensures r.None? ==> forall p :: p in ps && p.id == x ==> named && p.name == PlaceholderName
  {
    if |ps| == 0 then None
    else if ps[0].id == x && (!named || ps[0].name != PlaceholderName) then Some(ps[0])
    else FirstWith(ps[1..], x, named)
  }

  /** The record kept for id `x`: the first one with a real name, or the
      first one if none has. */
  function Chosen(ps: seq<Product>, x: real): Option<Product>
  {
    var n := FirstWith(ps, x, true);
    if n.Some? then n else FirstWith(ps, x, false)
  }

  lemma {:induction false} FirstWithAppend(ps: seq<Product>, p: Product, x: real, named: bool)
    ensures FirstWith(ps + [p], x, named)
            == if FirstWith(ps, x, named).Some? then FirstWith(ps, x, named)
               else if p.id == x && (!named || p.name != PlaceholderName) then Some(p)
               else None
  {
    if |ps| == 0 {
      assert ps + [p] == [p];
    } else {
      assert (ps + [p])[0] == ps[0];
      assert (ps + [p])[1..] == ps[1..] + [p];
      FirstWithAppend(ps[1..], p, x, named);
    }
  }

  /** Every kept record is the one `Chosen` names for its id. */
  lemma {:induction false} DedupKeepsChosen(ps: seq<Product>)
    ensures forall i :: 0 <= i < |Dedup(ps)| ==> Chosen(ps, Dedup(ps)[i].id) == Some(Dedup(ps)[i])
    decreases |ps|
  {
    if |ps| > 0 {
      var init := ps[..|ps| - 1];
      var p := ps[|ps| - 1];
      assert ps == init + [p];
      var d := Dedup(init);
      DedupKeepsChosen(init);
      assert Ids(d) == FirstOccurrences(Ids(init));
      var r := Keep(d, p);
      forall i | 0 <= i < |r| ensures Chosen(ps, r[i].id) == Some(r[i]) {
        match FindId(d, p.id)
        case None =>
          if i < |d| {
            KeepOther(init, d, p, d[i]);
          } else {
            KeepNew(init, p);
          }
        case Some(j) =>
          if i == j {
            KeepSame(init, d[j], p);
          } else {
            KeepOther(init, d, p, d[i]);
          }
      }
    }
  }

  /** Deduplication only drops records. */
  lemma {:induction false} DedupFrom(ps: seq<Product>)
    ensures forall q :: q in Dedup(ps) ==> q in ps
  {
    DedupKeepsChosen(ps);
    forall q | q in Dedup(ps) ensures q in ps {
      var i :| 0 <= i < |Dedup(ps)| && Dedup(ps)[i] == q;
    }
  }

  /** A record whose id differs from the new one keeps its choice. */
  lemma {:induction false} KeepOther(init: seq<Product>, d: seq<Product>, p: Product, q: Product)
    requires Chosen(init, q.id) == Some(q)
    requires q.id != p.id
    ensures Chosen(init + [p], q.id) == Some(q)
  {
    FirstWithAppend(init, p, q.id, true);
    FirstWithAppend(init, p, q.id, false);
  }

  /** A new id chooses the new record. */
  lemma {:induction false} KeepNew(init: seq<Product>, p: Product)
    requires p.id !in Ids(init)
    ensures Chosen(init + [p], p.id) == Some(p)
  {
    FirstWithAppend(init, p, p.id, true);
    FirstWithAppend(init, p, p.id, false);
  }

  /** For a known id, the choice moves to the new record exactly when the
      kept one has the placeholder name and the new one does not. */
  lemma {:induction false} KeepSame(init: seq<Product>, q: Product, p: Product)
    requires Chosen(init, q.id) == Some(q)
    requires q.id == p.id
    ensures Chosen(init + [p], p.id)
            == if q.name == PlaceholderName && p.name != PlaceholderName then Some(p) else Some(q)
  {
    FirstWithAppend(init, p, p.id, true);
    FirstWithAppend(init, p, p.id, false);
  }

  // ----- getAllProducts -----

  /** `getAllProducts`: a failed request yields the fallback products; a
      falsy body yields nothing; otherwise the candidates (or the fallback
      entries when there are none) are validated, defaulted and
      deduplicated by id. */
  function GetAllProducts(resp: Http): (r: seq<Product>)
    ensures resp.HttpError? ==> r == FallbackProducts
    ensures resp.HttpOk? && !Truthy(resp.data) ==> r == []
    ensures resp.HttpOk? && Truthy(resp.data) ==>
      Ids(r) == FirstOccurrences(Ids(NormalizeAll(WithFallback(Candidates(resp.data)))))
    ensures resp.HttpOk? && Truthy(resp.data) ==>
      forall p :: p in r ==> p in NormalizeAll(WithFallback(Candidates(resp.data)))
    ensures Distinct(Ids(r))
    ensures forall p :: p in r ==> Normal(p)
  {
    match resp
    case HttpError(_) =>
      FallbackProductsAreNormal();
      FallbackIdsDistinct();
      FallbackProducts
    case HttpOk(data) =>
      if !Truthy(data) then []
      else
        var ps := NormalizeAll(WithFallback(Candidates(data)));
        DedupFrom(ps);
        Dedup(ps)
  }

  lemma FallbackProductsAreNormal()
    ensures forall p :: p in FallbackProducts ==> Normal(p)
  {
  }

  lemma FallbackIdsDistinct()
    ensures Distinct(Ids(FallbackProducts))
  {
    assert Ids(FallbackProducts) == [1.0, 2.0, 3.0];
  }

  /** The JSON object of a returned record, as a later request would send
      it back. */
  function ToJson(p: Product): Json
  {
    JObj([("id", JNum(p.id)), ("name", p.name), ("description", p.description),
          ("price", JNum(p.price)), ("stock", JNum(p.stock)), ("category", p.category)])
  }

  function ToJsonAll(ps: seq<Product>): (r: seq<Json>)
    ensures |r| == |ps|
    ensures forall i :: 0 <= i < |ps| ==> r[i] == ToJson(ps[i])
  {
    if |ps| == 0 then [] else [ToJson(ps[0])] + ToJsonAll(ps[1..])
  }

  lemma {:induction false} ReadsId(p: Product)
    ensures Get(ToJson(p), "id") == Some(JNum(p.id))
  {
  }

  lemma {:induction false} ReadsName(p: Product)
    ensures Get(ToJson(p), "name") == Some(p.name)
  {
    LookupAt(ToJson(p).members, 1, "name");
  }

  lemma {:induction false} ReadsDescription(p: Product)
    ensures Get(ToJson(p), "description") == Some(p.description)
  {
    LookupAt(ToJson(p).members, 2, "description");
  }

  lemma {:induction false} ReadsPrice(p: Product)
    ensures Get(ToJson(p), "price") == Some(JNum(p.price))
  {
    LookupAt(ToJson(p).members, 3, "price");
  }

  lemma {:induction false} ReadsStock(p: Product)
    ensures Get(ToJson(p), "stock") == Some(JNum(p.stock))
  {
    LookupAt(ToJson(p).members, 4, "stock");
  }

  lemma {:induction false} ReadsCategory(p: Product)
    ensures Get(ToJson(p), "category") == Some(p.category)
  {
    LookupAt(ToJson(p).members, 5, "category");
  }

  /** An entry whose six fields read as a normal record's normalises to
      that record. */
  lemma {:induction false} NormalizeFields(j: Json, p: Product)
    requires j.JObj? && Normal(p)
    requires Get(j, "id") == Some(JNum(p.id))
    requires Get(j, "name") == Some(p.name)
    requires Get(j, "description") == Some(p.description)
    requires Get(j, "price") == Some(JNum(p.price))
    requires Get(j, "stock") == Some(JNum(p.stock))
    requires Get(j, "category") == Some(p.category)
    ensures ValidEntry(j) && EntryId(j) == Some(p.id)
    ensures Normalize(j) == p
  {
  }

  /** Normalising the JSON of a normal record gives the record back. */
  lemma {:induction false} NormalizeToJson(p: Product)
    requires Normal(p)
    ensures ValidEntry(ToJson(p)) && EntryId(ToJson(p)) == Some(p.id)
    ensures Normalize(ToJson(p)) == p
  {
    ReadsId(p);
    ReadsName(p);
    ReadsDescription(p);
    ReadsPrice(p);
    ReadsStock(p);
    ReadsCategory(p);
    NormalizeFields(ToJson(p), p);
  }

  /** Entries that each normalise to the matching record normalise, as a
      list, to the records. */
  lemma {:induction false} NormalizeAllOf(items: seq<Json>, ps: seq<Product>)
    requires |items| == |ps|
    requires forall i :: 0 <= i < |ps| ==> ValidEntry(items[i]) && EntryId(items[i]).Some? && Normalize(items[i]) == ps[i]
    ensures NormalizeAll(items) == ps
  {
    if |ps| > 0 {
      NormalizeAllOf(items[1..], ps[1..]);
      assert ps == [ps[0]] + ps[1..];
    }
  }

  lemma {:induction false} NormalizeAllToJson(ps: seq<Product>)
    requires forall p :: p in ps ==> Normal(p)
    ensures NormalizeAll(ToJsonAll(ps)) == ps
  {
    var items := ToJsonAll(ps);
    forall i | 0 <= i < |ps|
      ensures ValidEntry(items[i]) && EntryId(items[i]).Some? && Normalize(items[i]) == ps[i]
    {
      NormalizeToJson(ps[i]);
    }
    NormalizeAllOf(items, ps);
  }

  lemma {:induction false} DistinctSplit(s: seq<real>, x: real)
    requires Distinct(s + [x])
    ensures Distinct(s) && x !in s
  {
    var t := s + [x];
    forall i | 0 <= i < |s| ensures s[i] != x {
      assert t[i] == s[i] && t[|s|] == x;
    }
    forall i, j | 0 <= i < j < |s| ensures s[i] != s[j] {
      assert t[i] == s[i] && t[j] == s[j];
    }
  }

  /** Records with distinct ids pass the deduplication unchanged. */
  lemma {:induction false} DedupOfDistinct(ps: seq<Product>)
    requires Distinct(Ids(ps))
    ensures Dedup(ps) == ps
    decreases |ps|
  {
    if |ps| > 0 {
      var init := ps[..|ps| - 1];
      var last := ps[|ps| - 1];
      IdsOfSplit(ps);
      DistinctSplit(Ids(init), last.id);
      DedupOfDistinct(init);
      assert Dedup(ps) == Keep(Dedup(init), last);
      KeepAppends(init, last);
      InitLast(ps);
    }
  }

  /** A record with an unseen id is appended. */
  lemma {:induction false} KeepAppends(acc: seq<Product>, p: Product)
    requires p.id !in Ids(acc)
    ensures Keep(acc, p) == acc + [p]
  {
    assert FindId(acc, p.id) == None;
  }

  /** Normalisation is idempotent on a non-empty result: sending the
      returned records back through `getAllProducts` returns them
      unchanged. (An empty result is not a fixed point: an empty array is
      replaced by the fallback products.) */
  lemma {:induction false} GetAllProductsIdempotent(resp: Http)
    ensures var r := GetAllProducts(resp);
      |r| > 0 ==> GetAllProducts(HttpOk(JArr(ToJsonAll(r)))) == r
  {
    var r := GetAllProducts(resp);
    if |r| > 0 {
      NormalRecordsAreFixed(r);
    }
  }

  /** Non-empty normal records with distinct ids are what
      `getAllProducts` returns for their own JSON. */
  lemma {:induction false} NormalRecordsAreFixed(r: seq<Product>)
    requires |r| > 0 && Distinct(Ids(r))
    requires forall p :: p in r ==> Normal(p)
    ensures GetAllProducts(HttpOk(JArr(ToJsonAll(r)))) == r
  {
    NormalizeAllToJson(r);
    NormalizedAnswer(ToJsonAll(r), r);
  }

  /** An array whose entries normalise to records with distinct ids
      yields those records. */
  lemma {:induction false} NormalizedAnswer(items: seq<Json>, r: seq<Product>)
    requires |r| > 0 && Distinct(Ids(r))
    requires NormalizeAll(items) == r
    ensures GetAllProducts(HttpOk(JArr(items))) == r
  {
    ArrayAnswer(items);
    DedupOfDistinct(r);
  }

  /** A non-empty array is taken as the candidate list itself. */
  lemma {:induction false} ArrayAnswer(items: seq<Json>)
    requires |items| > 0
    ensures GetAllProducts(HttpOk(JArr(items))) == Dedup(NormalizeAll(items))
  {
    assert Candidates(JArr(items)) == items;
  }

  /** The fallback is substituted before validation: a non-empty answer
      whose entries are all invalid yields no products at all. */
  lemma {:induction false} AllInvalidGivesEmpty(data: Json)
    requires Truthy(data)
    requires |Candidates(data)| > 0
    requires forall x :: x in Candidates(data) ==> !ValidEntry(x)
    ensures GetAllProducts(HttpOk(data)) == []
  {
    var c := Candidates(data);
    assert NormalizeAll(c) == [] by {
      InvalidNormalizeToNothing(c);
    }
  }

  lemma {:induction false} InvalidNormalizeToNothing(items: seq<Json>)
    requires forall x :: x in items ==> !ValidEntry(x)
    ensures NormalizeAll(items) == []
  {
    if |items| > 0 {
      assert items[0] in items;
      assert forall x :: x in items[1..] ==> x in items;
      InvalidNormalizeToNothing(items[1..]);
    }
  }

  /** An array holding only a number yields [] and not the fallback. */
  lemma InvalidEntriesAreNotReplaced()
    ensures GetAllProducts(HttpOk(JArr([JNum(5.0)]))) == []
  {
    AllInvalidGivesEmpty(JArr([JNum(5.0)]));
  }

  /** Any truthy answer without candidates -- `[]`, `{}`, `{content: []}`,
      a string -- yields the fallback products. */
  lemma {:induction false} NoCandidatesGivesFallback(data: Json)
    requires Truthy(data) && |Candidates(data)| == 0
    ensures GetAllProducts(HttpOk(data)) == FallbackProducts
  {
    FallbackNormalizes();
    FallbackIdsDistinct();
    DedupOfDistinct(FallbackProducts);
  }

  /** An empty array yields the fallback products. */
  lemma EmptyAnswerGivesFallback()
    ensures GetAllProducts(HttpOk(JArr([]))) == FallbackProducts
  {
    assert Candidates(JArr([])) == [];
    assert WithFallback([]) == FallbackRaw;
    FallbackNormalizes();
    FallbackIdsDistinct();
    DedupOfDistinct(FallbackProducts);
  }

  lemma FallbackNormalizes()
    ensures NormalizeAll(FallbackRaw) == FallbackProducts
  {
    FallbackProductsAreNormal();
    NormalizeAllToJson(FallbackProducts);
  }

  // ----- Single-product requests -----

  /** The record the service invents for a product it could not read:
      named after the id, priced 0, with the given stock. */
  function FallbackMembers(productId: int, stock: real): (r: seq<(string, Json)>)
    ensures Keys(r) == ["id", "name", "description", "price", "stock", "category"]
  {
    FallbackHead(productId) + ([("stock", JNum(stock))] + [("category", JStr("Uncategorized"))])
  }

  /** The members of the fallback record before its stock. */
  function FallbackHead(productId: int): (r: seq<(string, Json)>)
    ensures Keys(r) == ["id", "name", "description", "price"]
  {
    [("id", JNum(productId as real)), ("name", JStr("Product " + IntToDecimal(productId))),
     ("description", JStr("Product description")), ("price", JNum(0.0))]
  }

  /** `getProductById`: the response body when it is truthy, the fallback
      record with stock 0 otherwise. */
  function GetProductById(productId: int, resp: Http): (r: Json)
    ensures resp.HttpOk? && Truthy(resp.data) ==> r == resp.data
    ensures !(resp.HttpOk? && Truthy(resp.data)) ==> r == JObj(FallbackMembers(productId, 0.0))
    ensures Truthy(r)
  {
    if resp.HttpOk? && Truthy(resp.data) then resp.data else JObj(FallbackMembers(productId, 0.0))
  }

  /** `updateProduct`: the response body when it is truthy, the record
      that was sent otherwise. */
  function UpdateProduct(product: Json, resp: Http): (r: Json)
    ensures resp.HttpOk? && Truthy(resp.data) ==> r == resp.data
    ensures !(resp.HttpOk? && Truthy(resp.data)) ==> r == product
  {
    if resp.HttpOk? && Truthy(resp.data) then resp.data else product
  }

  /** What `updateProductStock` returns, and the body of the PUT request
      it sends, if it sends one. */
  datatype StockUpdate = StockUpdate(result: Json, sent: Option<Json>)

  /** `updateProductStock`, given the outcomes of its GET and PUT requests.
      A failed or empty GET yields the fallback record with the new stock
      and no PUT. An object read back gets its `stock` member set and is
      sent; an array is sent as it is, since its new property is not
      serialised. The `stock` property the assignment adds to the array
      itself is not represented, because `Json` arrays carry no named
      members: where the array is returned, the model returns it without
      that property. Assigning `stock` on a truthy string, number or boolean
      throws a TypeError in strict mode, and the outer handler returns the
      fallback record. After a PUT, a truthy response body is returned,
      and otherwise the record that was sent. */
  function UpdateProductStock(productId: int, newStock: real, get: Http, put: Http): (r: StockUpdate)
    ensures !(get.HttpOk? && Truthy(get.data)) ==> r == StockUpdate(JObj(FallbackMembers(productId, newStock)), None)
    ensures get.HttpOk? && Truthy(get.data) && !get.data.JObj? && !get.data.JArr?
            ==> r == StockUpdate(JObj(FallbackMembers(productId, newStock)), None)
    ensures get.HttpOk? && get.data.JObj?
            ==> r.sent == Some(JObj(SetMember(get.data.members, "stock", JNum(newStock))))
    ensures get.HttpOk? && get.data.JArr? ==> r.sent == Some(get.data)
    ensures r.sent.Some? ==> r.result == UpdateProduct(r.sent.value, put)
  {
    var fallback := JObj(FallbackMembers(productId, newStock));
    if !(get.HttpOk? && Truthy(get.data)) then StockUpdate(fallback, None)
    else
      match get.data
      case JObj(m) =>
        var product := JObj(SetMember(m, "stock", JNum(newStock)));
        StockUpdate(UpdateProduct(product, put), Some(product))
      case JArr(_) => StockUpdate(UpdateProduct(get.data, put), Some(get.data))
      case _ => StockUpdate(fallback, None)
  }

  /** The record sent for an object carries the new stock and every other
      member the server returned. */
  lemma {:induction false} SentRecordHasNewStock(productId: int, newStock: real, get: Http, put: Http, key: string)
    requires get.HttpOk? && get.data.JObj?
    ensures var sent := UpdateProductStock(productId, newStock, get, put).sent.value;
      && Get(sent, "stock") == Some(JNum(newStock))
      && (key != "stock" ==> Get(sent, key) == Get(get.data, key))
  {
    if key != "stock" {
      SetMemberKeepsOthers(get.data.members, "stock", JNum(newStock), key);
    }
  }

  /** The record returned without a PUT is `getProductById`'s fallback
      with the new stock assigned. */
  lemma {:induction false} StockFallbackIsProductFallback(productId: int, newStock: real)
    ensures SetMember(FallbackMembers(productId, 0.0), "stock", JNum(newStock)) == FallbackMembers(productId, newStock)
  {
    var tail := [("category", JStr("Uncategorized"))];
    SetMemberReplaces(FallbackHead(productId), "stock", JNum(0.0), tail, JNum(newStock));
  }
}
