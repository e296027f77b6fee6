/**
 * Order placement (POST / of the orders router). One request either commits an
 * order, its order items and the snack inventory decrements together, or it is
 * rejected and the tables are left as they were.
 *
 * `PlaceOrderSpec` says what one request does to the tables; `PlaceOrder` is
 * the handler's step-by-step algorithm on a `Database`, proved to agree with it.
 */
module Orders {
  import opened Wrappers
  import opened Store

  /** One element of the request's `items` array; `note` is absent when the client sent none. */
  datatype Item = Item(productId: ProductId, quantity: int, note: Option<string>)

  /** A row returned by the product query: `product_id, name, price_omr, category, is_active`. */
  datatype ProductRow = ProductRow(productId: ProductId, name: string, priceMils: int, category: string, isActive: bool)

  /** An element of `snackNeeds`. */
  datatype SnackNeed = SnackNeed(productId: ProductId, name: string, need: int)

  /** An element of `insufficient`, reported back to the client. */
  datatype Shortfall = Shortfall(productId: ProductId, name: string, need: int, available: int)

  datatype OrderError =
    | ItemsRequired
    | ProductsNotFound
    | InactiveProduct(name: string)
    | InvalidQuantity
    | InsufficientInventory(insufficient: seq<Shortfall>)

  /** The `message` field of each 400 answer. */
  function Message(e: OrderError): string {
    match e
    case ItemsRequired => "Order items required"
    case ProductsNotFound => "One or more products not found"
    case InactiveProduct(name) => "Inactive product: " + name
    case InvalidQuantity => "Invalid quantity"
    case InsufficientInventory(_) => "Insufficient snack inventory"
  }

  // ---------------------------------------------------------------------------
  // Loading the products

  /** The requested product ids, one per item, in request order. */
  function Ids(items: seq<Item>): (ids: seq<ProductId>)
    ensures |ids| == |items|
    ensures forall i :: 0 <= i < |items| ==> ids[i] == items[i].productId
  {
    seq(|items|, i requires 0 <= i < |items| => items[i].productId)
  }

  predicate Distinct(ids: seq<ProductId>) {
    forall i, j :: 0 <= i < j < |ids| ==> ids[i] != ids[j]
  }

  predicate AllFound(ids: seq<ProductId>, products: map<ProductId, Product>) {
    forall i :: 0 <= i < |ids| ==> ids[i] in products
  }

  function RowOf(id: ProductId, p: Product): ProductRow {
    ProductRow(id, p.name, p.priceMils, p.category, p.isActive)
  }

  /**
   * The product query over the array of requested ids: one row per product
   * whose id occurs in `ids`, however often it occurs. The query fixes no row
   * order; the model returns the rows in order of first occurrence in `ids`.
   */
  function SelectRows(products: map<ProductId, Product>, ids: seq<ProductId>): (rows: seq<ProductRow>)
    ensures |rows| <= |ids|
    ensures forall k :: 0 <= k < |rows| ==>
      rows[k].productId in products && rows[k] == RowOf(rows[k].productId, products[rows[k].productId])
    decreases |ids|
  {
    if ids == [] then []
    else
      var pre, x := ids[..|ids| - 1], ids[|ids| - 1];
      SelectRows(products, pre) + (if x in products && x !in pre then [RowOf(x, products[x])] else [])
  }

  /**
   * The rows are exactly the requested products that exist, each once: every
   * row's id was requested, no id comes back twice, and every requested
   * existing product comes back.
   */
  lemma {:induction false} SelectRowsExact(products: map<ProductId, Product>, ids: seq<ProductId>)
    ensures var rows := SelectRows(products, ids);
      (forall k :: 0 <= k < |rows| ==> rows[k].productId in ids) &&
      (forall i, j :: 0 <= i < j < |rows| ==> rows[i].productId != rows[j].productId) &&
      (forall x :: x in ids && x in products ==> exists k :: 0 <= k < |rows| && rows[k].productId == x)
    decreases |ids|
  {
    if ids != [] {
      var pre, x := ids[..|ids| - 1], ids[|ids| - 1];
      SelectRowsExact(products, pre);
      var prior := SelectRows(products, pre);
      var rows := SelectRows(products, ids);
      assert forall y :: y in ids <==> y in pre || y == x;
      if x in products && x !in pre {
        assert rows == prior + [RowOf(x, products[x])];
        assert forall k :: 0 <= k < |prior| ==> rows[k] == prior[k];
        assert rows[|prior|].productId == x;
        forall i, j | 0 <= i < j < |rows|
          ensures rows[i].productId != rows[j].productId
        {
          if j == |prior| {
            assert prior[i].productId in pre;
          }
        }
      } else {
        assert rows == prior;
      }
    }
  }

  /** The row count equals the id count exactly when no id repeats and every id names a product. */
  lemma {:induction false} SelectRowsCount(products: map<ProductId, Product>, ids: seq<ProductId>)
    ensures |SelectRows(products, ids)| == |ids| <==> Distinct(ids) && AllFound(ids, products)
    decreases |ids|
  {
    if ids != [] {
      var pre, x := ids[..|ids| - 1], ids[|ids| - 1];
      SelectRowsCount(products, pre);
      assert forall i :: 0 <= i < |pre| ==> pre[i] == ids[i];
      if x in products && x !in pre {
        if Distinct(pre) && AllFound(pre, products) {
          assert Distinct(ids);
        }
      } else if x in pre {
        var i :| 0 <= i < |pre| && pre[i] == x;
        assert ids[i] == ids[|ids| - 1];
      } else {
        assert ids[|ids| - 1] !in products;
      }
    }
  }

  /** When every id is found once, the rows are the requested products in request order. */
  lemma {:induction false} SelectRowsAligned(products: map<ProductId, Product>, ids: seq<ProductId>)
    requires Distinct(ids) && AllFound(ids, products)
    ensures |SelectRows(products, ids)| == |ids|
    ensures forall k :: 0 <= k < |ids| ==> SelectRows(products, ids)[k] == RowOf(ids[k], products[ids[k]])
    decreases |ids|
  {
    SelectRowsCount(products, ids);
    if ids != [] {
      var pre := ids[..|ids| - 1];
      assert Distinct(pre) && AllFound(pre, products) by {
        assert forall i :: 0 <= i < |pre| ==> pre[i] == ids[i];
      }
      SelectRowsAligned(products, pre);
    }
  }

  // ---------------------------------------------------------------------------
  // Validation

  /** The row the "ensure active" loop stops at: the first inactive one. */
  function FirstInactive(rows: seq<ProductRow>): (r: Option<ProductRow>)
    ensures r.None? <==> forall j :: 0 <= j < |rows| ==> rows[j].isActive
    ensures r.Some? ==> exists j :: 0 <= j < |rows| && rows[j] == r.value && !r.value.isActive &&
                                   forall k :: 0 <= k < j ==> rows[k].isActive
  {
    if rows == [] then None
    else if !rows[0].isActive then Some(rows[0])
    else
      var r := FirstInactive(rows[1..]);
      assert r.Some? ==> exists j :: 0 <= j < |rows[1..]| && rows[1..][j] == r.value && !r.value.isActive &&
                                    forall k :: 0 <= k < j ==> rows[1..][k].isActive;
      if r.Some? then
        var j :| 0 <= j < |rows[1..]| && rows[1..][j] == r.value && !r.value.isActive &&
                 forall k :: 0 <= k < j ==> rows[1..][k].isActive;
        assert rows[j + 1] == r.value && forall k :: 0 <= k < j + 1 ==> rows[k].isActive;
        r
      else r
  }

  lemma {:induction false} FirstInactiveAt(rows: seq<ProductRow>, k: nat)
    requires k < |rows| && !rows[k].isActive
    requires forall j :: 0 <= j < k ==> rows[j].isActive
    ensures FirstInactive(rows) == Some(rows[k])
  {
    if k > 0 {
      FirstInactiveAt(rows[1..], k - 1);
    }
  }

  predicate QuantitiesPositive(items: seq<Item>) {
    forall i :: 0 <= i < |items| ==> items[i].quantity > 0
  }

  /** Every item refers to a product in the catalog (what `byId[it.product_id]` relies on). */
  predicate Priced(items: seq<Item>, products: map<ProductId, Product>) {
    forall i :: 0 <= i < |items| ==> items[i].productId in products
  }

  // ---------------------------------------------------------------------------
  // Total, snack needs, shortfalls, order items, decrements

  /** The order total in thousandths: the sum of price times quantity over the items. */
  function Total(items: seq<Item>, products: map<ProductId, Product>): int
    requires Priced(items, products)
  {
    if items == [] then 0
    else
      var last := items[|items| - 1];
      Total(items[..|items| - 1], products) + products[last.productId].priceMils * last.quantity
  }

  function NeedOf(it: Item, products: map<ProductId, Product>): SnackNeed
    requires it.productId in products
  {
    SnackNeed(it.productId, products[it.productId].name, it.quantity)
  }

  predicate IsSnack(it: Item, products: map<ProductId, Product>)
    requires it.productId in products
  {
    products[it.productId].category == Snack
  }

  /** `snackNeeds`: one entry per snack item, in request order. */
  function SnackNeeds(items: seq<Item>, products: map<ProductId, Product>): seq<SnackNeed>
    requires Priced(items, products)
  {
    if items == [] then []
    else
      var last := items[|items| - 1];
      SnackNeeds(items[..|items| - 1], products) + (if IsSnack(last, products) then [NeedOf(last, products)] else [])
  }

  function ShortfallOf(s: SnackNeed, inventory: map<ProductId, int>): Shortfall {
    Shortfall(s.productId, s.name, s.need, Available(inventory, s.productId))
  }

  predicate IsShort(s: SnackNeed, inventory: map<ProductId, int>) {
    Available(inventory, s.productId) < s.need
  }

  /** `insufficient`: the needs the available quantity does not cover, in order. */
  function Shortfalls(needs: seq<SnackNeed>, inventory: map<ProductId, int>): seq<Shortfall> {
    if needs == [] then []
    else
      var last := needs[|needs| - 1];
      Shortfalls(needs[..|needs| - 1], inventory) + (if IsShort(last, inventory) then [ShortfallOf(last, inventory)] else [])
  }

  /** An item's note, or the empty text when it has none. */
  function NoteOrEmpty(note: Option<string>): string {
    if note.Some? then note.value else ""
  }

  function LineOf(it: Item, products: map<ProductId, Product>): OrderItem
    requires it.productId in products
  {
    OrderItem(it.productId, it.quantity, products[it.productId].priceMils, NoteOrEmpty(it.note))
  }

  /** The `order_items` rows: one per request item, in request order. */
  function OrderItems(items: seq<Item>, products: map<ProductId, Product>): (lines: seq<OrderItem>)
    requires Priced(items, products)
  {
    seq(|items|, i requires 0 <= i < |items| => LineOf(items[i], products))
  }

  /** The inventory updates, one per need, each lowering the product's row by the need (no row: no change). */
  function Decrement(inventory: map<ProductId, int>, needs: seq<SnackNeed>): map<ProductId, int> {
    if needs == [] then inventory
    else
      var last := needs[|needs| - 1];
      var inv := Decrement(inventory, needs[..|needs| - 1]);
      if last.productId in inv then inv[last.productId := inv[last.productId] - last.need] else inv
  }

  /** The sum of `price_at_sale * quantity` over committed order items. */
  function LinesTotal(lines: seq<OrderItem>): int {
    if lines == [] then 0
    else LinesTotal(lines[..|lines| - 1]) + lines[|lines| - 1].priceAtSaleMils * lines[|lines| - 1].quantity
  }

  // ---------------------------------------------------------------------------
  // The transition

  /**
   * What one request does. Every rejection returns the tables unchanged
   * (ROLLBACK, or nothing written yet); a commit appends one order and applies
   * the snack decrements.
   */
  function PlaceOrderSpec(t: Tables, cashierId: int, paymentMethod: string, items: Option<seq<Item>>)
    : (Result<Order, OrderError>, Tables)
  {
    if items.None? || items.value == [] then (Failure(ItemsRequired), t)
    else
      var its := items.value;
      var rows := SelectRows(t.products, Ids(its));
      if |rows| != |its| then (Failure(ProductsNotFound), t)
      else
        SelectRowsCount(t.products, Ids(its));
        var inactive := FirstInactive(rows);
        if inactive.Some? then (Failure(InactiveProduct(inactive.value.name)), t)
        else if !QuantitiesPositive(its) then (Failure(InvalidQuantity), t)
        else
          var needs := SnackNeeds(its, t.products);
          var insufficient := Shortfalls(needs, t.inventory);
          if insufficient != [] then (Failure(InsufficientInventory(insufficient)), t)
          else
            var order := Order(cashierId, paymentMethod, Total(its, t.products), OrderItems(its, t.products));
            (Success(order), Tables(t.products, Decrement(t.inventory, needs), t.orders + [order]))
  }

  // ---------------------------------------------------------------------------
  // Properties of the transition

  /** The product lookup succeeds: no id repeats and every id names a product. */
  predicate Resolves(items: seq<Item>, products: map<ProductId, Product>) {
    Distinct(Ids(items)) && Priced(items, products)
  }

  predicate AllActive(items: seq<Item>, products: map<ProductId, Product>)
    requires Priced(items, products)
  {
    forall i :: 0 <= i < |items| ==> products[items[i].productId].isActive
  }

  /** Some snack item needs more than the inventory holds for it. */
  predicate HasShortfall(items: seq<Item>, t: Tables)
    requires Priced(items, t.products)
  {
    exists i :: 0 <= i < |items| && IsSnack(items[i], t.products) && IsShort(NeedOf(items[i], t.products), t.inventory)
  }

  lemma PricedIds(items: seq<Item>, products: map<ProductId, Product>)
    ensures Priced(items, products) <==> AllFound(Ids(items), products)
  {
  }

  lemma {:induction false} SnackNeedsMembers(items: seq<Item>, products: map<ProductId, Product>)
    requires Priced(items, products)
    ensures forall n :: n in SnackNeeds(items, products) <==>
      exists i :: 0 <= i < |items| && IsSnack(items[i], products) && n == NeedOf(items[i], products)
    decreases |items|
  {
    if items != [] {
      var pre := items[..|items| - 1];
      assert forall i :: 0 <= i < |pre| ==> pre[i] == items[i];
      SnackNeedsMembers(pre, products);
    }
  }

  predicate DistinctNeeds(needs: seq<SnackNeed>) {
    forall i, j :: 0 <= i < j < |needs| ==> needs[i].productId != needs[j].productId
  }

  /** Once the lookup has rejected repeated ids, no product is needed twice. */
  lemma {:induction false} SnackNeedsDistinct(items: seq<Item>, products: map<ProductId, Product>)
    requires Resolves(items, products)
    ensures DistinctNeeds(SnackNeeds(items, products))
    decreases |items|
  {
    if items != [] {
      var pre, last := items[..|items| - 1], items[|items| - 1];
      assert forall i :: 0 <= i < |pre| ==> pre[i] == items[i];
      assert Resolves(pre, products) by {
        assert forall i :: 0 <= i < |pre| ==> Ids(pre)[i] == Ids(items)[i];
      }
      SnackNeedsDistinct(pre, products);
      SnackNeedsMembers(pre, products);
      var needs := SnackNeeds(pre, products);
      forall k | 0 <= k < |needs|
        ensures needs[k].productId != last.productId
      {
        assert needs[k] in needs;
        var i :| 0 <= i < |pre| && IsSnack(pre[i], products) && needs[k] == NeedOf(pre[i], products);
        assert Ids(items)[i] != Ids(items)[|items| - 1];
      }
    }
  }

  lemma {:induction false} ShortfallsMembers(needs: seq<SnackNeed>, inventory: map<ProductId, int>)
    ensures forall f :: f in Shortfalls(needs, inventory) <==>
      exists k :: 0 <= k < |needs| && IsShort(needs[k], inventory) && f == ShortfallOf(needs[k], inventory)
    decreases |needs|
  {
    if needs != [] {
      var pre := needs[..|needs| - 1];
      assert forall k :: 0 <= k < |pre| ==> pre[k] == needs[k];
      ShortfallsMembers(pre, inventory);
    }
  }

  /** With distinct needs, each needed row drops by its need and no other row changes; rows are never created. */
  lemma {:induction false} DecrementEffect(inventory: map<ProductId, int>, needs: seq<SnackNeed>)
    requires DistinctNeeds(needs)
    ensures Decrement(inventory, needs).Keys == inventory.Keys
    ensures forall k :: 0 <= k < |needs| && needs[k].productId in inventory ==>
      Decrement(inventory, needs)[needs[k].productId] == inventory[needs[k].productId] - needs[k].need
    ensures forall x :: x in inventory && (forall k :: 0 <= k < |needs| ==> needs[k].productId != x) ==>
      Decrement(inventory, needs)[x] == inventory[x]
    decreases |needs|
  {
    if needs != [] {
      var pre := needs[..|needs| - 1];
      assert forall k :: 0 <= k < |pre| ==> pre[k] == needs[k];
      DecrementEffect(inventory, pre);
    }
  }

  /** The committed total is the sum of `price_at_sale * quantity` over the committed order items. */
  lemma {:induction false} TotalMatchesLines(items: seq<Item>, products: map<ProductId, Product>)
    requires Priced(items, products)
    ensures Total(items, products) == LinesTotal(OrderItems(items, products))
    decreases |items|
  {
    if items != [] {
      var pre := items[..|items| - 1];
      TotalMatchesLines(pre, products);
      assert OrderItems(items, products)[..|items| - 1] == OrderItems(pre, products);
    }
  }

  /** A missing or empty item list is rejected before anything else and changes nothing. */
  lemma PlaceOrderRejectsEmptyItems(t: Tables, cashierId: int, paymentMethod: string, items: Option<seq<Item>>)
    requires items.None? || items.value == []
    ensures PlaceOrderSpec(t, cashierId, paymentMethod, items) == (Failure(ItemsRequired), t)
  {
  }

  /** Non-empty items are rejected as "not found" exactly when an id repeats or names no product. */
  lemma PlaceOrderRejectsUnresolved(t: Tables, cashierId: int, paymentMethod: string, items: seq<Item>)
    requires items != []
    ensures PlaceOrderSpec(t, cashierId, paymentMethod, Some(items)).0 == Failure(ProductsNotFound)
      <==> !Resolves(items, t.products)
    ensures PlaceOrderSpec(t, cashierId, paymentMethod, Some(items)).0 == Failure(ProductsNotFound)
      ==> PlaceOrderSpec(t, cashierId, paymentMethod, Some(items)).1 == t
  {
    SelectRowsCount(t.products, Ids(items));
    PricedIds(items, t.products);
  }

  /**
   * With the lookup passed, the order is rejected as inactive exactly when some
   * item's product is inactive; the name reported is that of the first such item.
   */
  lemma PlaceOrderRejectsInactive(t: Tables, cashierId: int, paymentMethod: string, items: seq<Item>)
    requires items != [] && Resolves(items, t.products)
    ensures PlaceOrderSpec(t, cashierId, paymentMethod, Some(items)).0.Failure? &&
            PlaceOrderSpec(t, cashierId, paymentMethod, Some(items)).0.error.InactiveProduct?
      <==> !AllActive(items, t.products)
    ensures forall name :: PlaceOrderSpec(t, cashierId, paymentMethod, Some(items)).0 == Failure(InactiveProduct(name)) ==>
      PlaceOrderSpec(t, cashierId, paymentMethod, Some(items)).1 == t &&
      exists i :: 0 <= i < |items| && !t.products[items[i].productId].isActive && t.products[items[i].productId].name == name &&
                  forall j :: 0 <= j < i ==> t.products[items[j].productId].isActive
  {
    PricedIds(items, t.products);
    SelectRowsAligned(t.products, Ids(items));
  }

  /** With the lookup and the active check passed, a non-positive quantity anywhere rejects the whole order. */
  lemma PlaceOrderRejectsBadQuantity(t: Tables, cashierId: int, paymentMethod: string, items: seq<Item>)
    requires items != [] && Resolves(items, t.products) && AllActive(items, t.products)
    ensures PlaceOrderSpec(t, cashierId, paymentMethod, Some(items)).0 == Failure(InvalidQuantity)
      <==> !QuantitiesPositive(items)
    ensures PlaceOrderSpec(t, cashierId, paymentMethod, Some(items)).0 == Failure(InvalidQuantity)
      ==> PlaceOrderSpec(t, cashierId, paymentMethod, Some(items)).1 == t
  {
    PricedIds(items, t.products);
    SelectRowsAligned(t.products, Ids(items));
  }

  /**
   * With every earlier check passed, the order is rolled back exactly when some
   * snack is short; the report lists every short snack item (a missing row
   * counting as 0 available) and nothing else, and no table changes.
   */
  lemma PlaceOrderRejectsShortfall(t: Tables, cashierId: int, paymentMethod: string, items: seq<Item>)
    requires items != [] && Resolves(items, t.products) && AllActive(items, t.products) && QuantitiesPositive(items)
    ensures PlaceOrderSpec(t, cashierId, paymentMethod, Some(items)).0.Failure? <==> HasShortfall(items, t)
    ensures PlaceOrderSpec(t, cashierId, paymentMethod, Some(items)).0.Failure? ==>
      PlaceOrderSpec(t, cashierId, paymentMethod, Some(items)).1 == t &&
      PlaceOrderSpec(t, cashierId, paymentMethod, Some(items)).0.error.InsufficientInventory? &&
      forall f :: f in PlaceOrderSpec(t, cashierId, paymentMethod, Some(items)).0.error.insufficient <==>
        exists i :: 0 <= i < |items| && IsSnack(items[i], t.products) && IsShort(NeedOf(items[i], t.products), t.inventory) &&
                    f == ShortfallOf(NeedOf(items[i], t.products), t.inventory)
  {
    PricedIds(items, t.products);
    SelectRowsAligned(t.products, Ids(items));
    var needs := SnackNeeds(items, t.products);
    SnackNeedsMembers(items, t.products);
    ShortfallsMembers(needs, t.inventory);
    var sf := Shortfalls(needs, t.inventory);
    var rows := SelectRows(t.products, Ids(items));
    assert FirstInactive(rows).None? by {
      assert forall j :: 0 <= j < |rows| ==> rows[j] == RowOf(items[j].productId, t.products[items[j].productId]);
    }
    assert PlaceOrderSpec(t, cashierId, paymentMethod, Some(items)).0.Failure? <==> sf != [];
    assert PlaceOrderSpec(t, cashierId, paymentMethod, Some(items)).0.Failure? ==>
      PlaceOrderSpec(t, cashierId, paymentMethod, Some(items)) == (Failure(InsufficientInventory(sf)), t);
    forall f
      ensures f in sf <==>
        exists i :: 0 <= i < |items| && IsSnack(items[i], t.products) && IsShort(NeedOf(items[i], t.products), t.inventory) &&
                    f == ShortfallOf(NeedOf(items[i], t.products), t.inventory)
    {
      if f in sf {
        var k :| 0 <= k < |needs| && IsShort(needs[k], t.inventory) && f == ShortfallOf(needs[k], t.inventory);
        assert needs[k] in needs;
        var i :| 0 <= i < |items| && IsSnack(items[i], t.products) && needs[k] == NeedOf(items[i], t.products);
      }
      if exists i :: 0 <= i < |items| && IsSnack(items[i], t.products) && IsShort(NeedOf(items[i], t.products), t.inventory) &&
                     f == ShortfallOf(NeedOf(items[i], t.products), t.inventory) {
        var i :| 0 <= i < |items| && IsSnack(items[i], t.products) && IsShort(NeedOf(items[i], t.products), t.inventory) &&
                 f == ShortfallOf(NeedOf(items[i], t.products), t.inventory);
        assert NeedOf(items[i], t.products) in needs;
        var k :| 0 <= k < |needs| && needs[k] == NeedOf(items[i], t.products);
      }
    }
    assert sf != [] ==> sf[0] in sf;
    if HasShortfall(items, t) {
      var i :| 0 <= i < |items| && IsSnack(items[i], t.products) && IsShort(NeedOf(items[i], t.products), t.inventory);
      assert ShortfallOf(NeedOf(items[i], t.products), t.inventory) in sf;
    }
  }

  predicate DistinctShortfalls(sf: seq<Shortfall>) {
    forall i, j :: 0 <= i < j < |sf| ==> sf[i].productId != sf[j].productId
  }

  /** With distinct needs, no product is reported short twice. */
  lemma {:induction false} ShortfallsDistinct(needs: seq<SnackNeed>, inventory: map<ProductId, int>)
    requires DistinctNeeds(needs)
    ensures DistinctShortfalls(Shortfalls(needs, inventory))
    decreases |needs|
  {
    if needs != [] {
      var pre, last := needs[..|needs| - 1], needs[|needs| - 1];
      assert forall k :: 0 <= k < |pre| ==> pre[k] == needs[k];
      ShortfallsDistinct(pre, inventory);
      ShortfallsMembers(pre, inventory);
      var sf := Shortfalls(pre, inventory);
      forall k | 0 <= k < |sf|
        ensures sf[k].productId != last.productId
      {
        assert sf[k] in sf;
        var m :| 0 <= m < |pre| && IsShort(pre[m], inventory) && sf[k] == ShortfallOf(pre[m], inventory);
        assert needs[m].productId != needs[|needs| - 1].productId;
      }
      var all := Shortfalls(needs, inventory);
      assert all == sf + (if IsShort(last, inventory) then [ShortfallOf(last, inventory)] else []);
      forall i, j | 0 <= i < j < |all|
        ensures all[i].productId != all[j].productId
      {
        assert all[i] == sf[i];
        if j < |sf| {
          assert all[j] == sf[j];
          assert sf[i].productId != sf[j].productId;
        } else {
          assert all[j] == ShortfallOf(last, inventory);
          assert sf[i].productId != last.productId;
        }
      }
    }
  }

  /**
   * The shortfall report is the availability pass over the snack needs: the
   * short snack items in request order, each product at most once.
   */
  lemma PlaceOrderShortfallReport(t: Tables, cashierId: int, paymentMethod: string, items: seq<Item>)
    requires items != [] && Resolves(items, t.products) && AllActive(items, t.products) && QuantitiesPositive(items)
    requires PlaceOrderSpec(t, cashierId, paymentMethod, Some(items)).0.Failure?
    ensures PlaceOrderSpec(t, cashierId, paymentMethod, Some(items)) ==
      (Failure(InsufficientInventory(Shortfalls(SnackNeeds(items, t.products), t.inventory))), t)
    ensures DistinctShortfalls(Shortfalls(SnackNeeds(items, t.products), t.inventory))
  {
    PricedIds(items, t.products);
    SelectRowsAligned(t.products, Ids(items));
    var rows := SelectRows(t.products, Ids(items));
    assert FirstInactive(rows).None? by {
      assert forall j :: 0 <= j < |rows| ==> rows[j] == RowOf(items[j].productId, t.products[items[j].productId]);
    }
    SnackNeedsDistinct(items, t.products);
    ShortfallsDistinct(SnackNeeds(items, t.products), t.inventory);
  }

  /** All checks passed: the request is committed as exactly one new order. */
  predicate Acceptable(t: Tables, items: seq<Item>) {
    items != [] && Resolves(items, t.products) && AllActive(items, t.products) &&
    QuantitiesPositive(items) && !HasShortfall(items, t)
  }

  /**
   * A request commits exactly when it passes every check. The commit appends one
   * order carrying the cashier, the payment method and the exact total, with one
   * item per request item in request order, each priced at the product's
   * current price and with the note defaulting to "".
   */
  lemma PlaceOrderCommits(t: Tables, cashierId: int, paymentMethod: string, items: seq<Item>)
    ensures PlaceOrderSpec(t, cashierId, paymentMethod, Some(items)).0.Success? <==> Acceptable(t, items)
    ensures Acceptable(t, items) ==>
      var (r, t') := PlaceOrderSpec(t, cashierId, paymentMethod, Some(items));
      var order := r.value;
      t'.products == t.products && t'.orders == t.orders + [order] &&
      order.cashierId == cashierId && order.paymentMethod == paymentMethod &&
      order.totalMils == Total(items, t.products) == LinesTotal(order.items) &&
      |order.items| == |items| &&
      forall i :: 0 <= i < |items| ==>
        order.items[i] == OrderItem(items[i].productId, items[i].quantity,
                                    t.products[items[i].productId].priceMils, NoteOrEmpty(items[i].note))
  {
    if items != [] {
      PlaceOrderRejectsUnresolved(t, cashierId, paymentMethod, items);
      if Resolves(items, t.products) {
        PlaceOrderRejectsInactive(t, cashierId, paymentMethod, items);
        if AllActive(items, t.products) {
          PlaceOrderRejectsBadQuantity(t, cashierId, paymentMethod, items);
          if QuantitiesPositive(items) {
            PlaceOrderRejectsShortfall(t, cashierId, paymentMethod, items);
            TotalMatchesLines(items, t.products);
          }
        }
      }
    }
  }

  /**
   * On commit each snack item's product row drops by exactly its quantity and
   * stays non-negative; every other row is unchanged and no row is created.
   */
  lemma PlaceOrderInventory(t: Tables, cashierId: int, paymentMethod: string, items: seq<Item>)
    requires PlaceOrderSpec(t, cashierId, paymentMethod, Some(items)).0.Success?
    ensures Priced(items, t.products)
    ensures PlaceOrderSpec(t, cashierId, paymentMethod, Some(items)).1.inventory.Keys == t.inventory.Keys
    ensures forall i :: 0 <= i < |items| && IsSnack(items[i], t.products) ==>
      var x := items[i].productId;
      x in t.inventory &&
      PlaceOrderSpec(t, cashierId, paymentMethod, Some(items)).1.inventory[x] == t.inventory[x] - items[i].quantity >= 0
    ensures forall x :: x in t.inventory && (forall i :: 0 <= i < |items| && items[i].productId == x ==> !IsSnack(items[i], t.products)) ==>
      PlaceOrderSpec(t, cashierId, paymentMethod, Some(items)).1.inventory[x] == t.inventory[x]
    ensures NonNegative(t.inventory) ==> NonNegative(PlaceOrderSpec(t, cashierId, paymentMethod, Some(items)).1.inventory)
  {
    PlaceOrderCommits(t, cashierId, paymentMethod, items);
    PricedIds(items, t.products);
    var needs := SnackNeeds(items, t.products);
    SnackNeedsDistinct(items, t.products);
    SnackNeedsMembers(items, t.products);
    DecrementEffect(t.inventory, needs);
    var inv' := Decrement(t.inventory, needs);
    assert PlaceOrderSpec(t, cashierId, paymentMethod, Some(items)).1.inventory == inv';
    forall i | 0 <= i < |items| && IsSnack(items[i], t.products)
      ensures items[i].productId in t.inventory && inv'[items[i].productId] == t.inventory[items[i].productId] - items[i].quantity >= 0
    {
      var n := NeedOf(items[i], t.products);
      assert n in needs;
      var k :| 0 <= k < |needs| && needs[k] == n;
      assert !IsShort(n, t.inventory);
    }
    forall x | x in t.inventory && (forall i :: 0 <= i < |items| && items[i].productId == x ==> !IsSnack(items[i], t.products))
      ensures inv'[x] == t.inventory[x]
    {
      forall k | 0 <= k < |needs| ensures needs[k].productId != x {
        assert needs[k] in needs;
      }
    }
  }

  /** A rejected request leaves nothing behind, so repeating it gives the same answer. */
  lemma PlaceOrderFailureRepeats(t: Tables, cashierId: int, paymentMethod: string, items: Option<seq<Item>>)
    requires PlaceOrderSpec(t, cashierId, paymentMethod, items).0.Failure?
    ensures PlaceOrderSpec(t, cashierId, paymentMethod, items).1 == t
    ensures PlaceOrderSpec(PlaceOrderSpec(t, cashierId, paymentMethod, items).1, cashierId, paymentMethod, items)
      == PlaceOrderSpec(t, cashierId, paymentMethod, items)
  {
  }

  function ExampleProducts(): map<ProductId, Product> {
    map[1 := Product("Chips", 500, Snack, true), 2 := Product("Latte", 1250, "coffee", true)]
  }

  function ExampleItems(): seq<Item> {
    [Item(1, 3, None), Item(2, 2, Some("oat milk"))]
  }

  lemma ExampleLookup()
    ensures SelectRows(ExampleProducts(), Ids(ExampleItems())) == [RowOf(1, ExampleProducts()[1]), RowOf(2, ExampleProducts()[2])]
  {
    var ids := Ids(ExampleItems());
    assert ids == [1, 2] && ids[..1] == [1] && ids[..1][..0] == [];
    assert SelectRows(ExampleProducts(), ids[..1]) == [RowOf(1, ExampleProducts()[1])];
  }

  lemma ExamplePricing()
    ensures SnackNeeds(ExampleItems(), ExampleProducts()) == [SnackNeed(1, "Chips", 3)]
    ensures Total(ExampleItems(), ExampleProducts()) == 4000
  {
    var items, products := ExampleItems(), ExampleProducts();
    assert items[..1] == [Item(1, 3, None)] && items[..1][..0] == [];
    assert SnackNeeds(items[..1], products) == [SnackNeed(1, "Chips", 3)];
    assert Total(items[..1], products) == 1500;
  }

  /**
   * A worked case: three snacks at 0.500 from a stock of 5 and two drinks at
   * 1.250 commit one order of 4.000 with two lines and leave 2 snacks.
   */
  lemma PlaceOrderExample()
    ensures var t := Tables(ExampleProducts(), map[1 := 5], []);
      var (r, t') := PlaceOrderSpec(t, 7, "Cash", Some(ExampleItems()));
      r == Success(Order(7, "Cash", 4000, [OrderItem(1, 3, 500, ""), OrderItem(2, 2, 1250, "oat milk")])) &&
      t'.inventory == map[1 := 2] && t'.orders == [r.value] && t'.products == t.products
  {
    var items, products := ExampleItems(), ExampleProducts();
    var t := Tables(products, map[1 := 5], []);
    ExampleLookup();
    ExamplePricing();
    var rows := SelectRows(products, Ids(items));
    assert FirstInactive(rows) == None;
    var needs := SnackNeeds(items, products);
    assert needs[..0] == [];
    assert Shortfalls(needs, t.inventory) == [];
    assert Decrement(t.inventory, needs) == map[1 := 2];
    assert OrderItems(items, products) == [OrderItem(1, 3, 500, ""), OrderItem(2, 2, 1250, "oat milk")];
  }

  /** Naming the same product on two lines makes the lookup come back one row short. */
  lemma PlaceOrderDuplicateExample()
    ensures var t := Tables(map[1 := Product("Chips", 500, Snack, true)], map[1 := 5], []);
      PlaceOrderSpec(t, 7, "Cash", Some([Item(1, 1, None), Item(1, 2, None)])) == (Failure(ProductsNotFound), t)
  {
    var items := [Item(1, 1, None), Item(1, 2, None)];
    assert Ids(items) == [1, 1];
    assert Ids(items)[..1] == [1];
  }

  // ---------------------------------------------------------------------------
  // The handler's loops, each on values

  /** The "ensure active" loop: the first inactive row, if any. */
  method FindInactive(rows: seq<ProductRow>) returns (inactive: Option<ProductRow>)
    ensures inactive == FirstInactive(rows)
  {
    for k := 0 to |rows|
      invariant forall j :: 0 <= j < k ==> rows[j].isActive
    {
      if !rows[k].isActive {
        FirstInactiveAt(rows, k);
        return Some(rows[k]);
      }
    }
    return None;
  }

  /** The `byId` map: each fetched row under its product id. */
  method BuildById(products: map<ProductId, Product>, rows: seq<ProductRow>) returns (byId: map<ProductId, ProductRow>)
    requires forall k :: 0 <= k < |rows| ==> rows[k].productId in products && rows[k] == RowOf(rows[k].productId, products[rows[k].productId])
    ensures byId.Keys == set k | 0 <= k < |rows| :: rows[k].productId
    ensures forall x :: x in byId ==> x in products && byId[x] == RowOf(x, products[x])
  {
    byId := map[];
    for k := 0 to |rows|
      invariant byId.Keys == set j | 0 <= j < k :: rows[j].productId
      invariant forall x :: x in byId ==> x in products && byId[x] == RowOf(x, products[x])
    {
      byId := byId[rows[k].productId := rows[k]];
    }
  }

  /**
   * The pricing loop: stops at the first item whose quantity is not positive,
   * otherwise accumulates the total and collects the snack needs.
   */
  method PriceItems(items: seq<Item>, products: map<ProductId, Product>, byId: map<ProductId, ProductRow>)
    returns (r: Result<(int, seq<SnackNeed>), OrderError>)
    requires Priced(items, products)
    requires forall i :: 0 <= i < |items| ==> items[i].productId in byId
    requires forall x :: x in byId ==> x in products && byId[x] == RowOf(x, products[x])
    ensures QuantitiesPositive(items) ==> r == Success((Total(items, products), SnackNeeds(items, products)))
    ensures !QuantitiesPositive(items) ==> r == Failure(InvalidQuantity)
  {
    var total := 0;
    var snackNeeds: seq<SnackNeed> := [];
    for i := 0 to |items|
      invariant Priced(items[..i], products)
      invariant total == Total(items[..i], products)
      invariant snackNeeds == SnackNeeds(items[..i], products)
      invariant QuantitiesPositive(items[..i])
    {
      var p := byId[items[i].productId];
      var qty := items[i].quantity;
      if qty <= 0 {
        return Failure(InvalidQuantity);
      }
      assert items[..i + 1][..i] == items[..i];
      total := total + p.priceMils * qty;
      if p.category == Snack {
        snackNeeds := snackNeeds + [SnackNeed(p.productId, p.name, qty)];
      }
    }
    assert items[..|items|] == items;
    return Success((total, snackNeeds));
  }

  /** The availability loop: a missing inventory row reads as 0. */
  method FindShortfalls(needs: seq<SnackNeed>, inventory: map<ProductId, int>) returns (insufficient: seq<Shortfall>)
    ensures insufficient == Shortfalls(needs, inventory)
  {
    insufficient := [];
    for k := 0 to |needs|
      invariant insufficient == Shortfalls(needs[..k], inventory)
    {
      assert needs[..k + 1][..k] == needs[..k];
      var s := needs[k];
      var available := if s.productId in inventory then inventory[s.productId] else 0;
      if available < s.need {
        insufficient := insufficient + [Shortfall(s.productId, s.name, s.need, available)];
      }
    }
    assert needs[..|needs|] == needs;
  }

  /** The loop that records one order line per item, at the product's current price. */
  method BuildLines(items: seq<Item>, products: map<ProductId, Product>, byId: map<ProductId, ProductRow>)
    returns (lines: seq<OrderItem>)
    requires Priced(items, products)
    requires forall i :: 0 <= i < |items| ==> items[i].productId in byId
    requires forall x :: x in byId ==> x in products && byId[x] == RowOf(x, products[x])
    ensures lines == OrderItems(items, products)
  {
    lines := [];
    for i := 0 to |items|
      invariant |lines| == i
      invariant forall j :: 0 <= j < i ==> lines[j] == LineOf(items[j], products)
    {
      var p := byId[items[i].productId];
      var note := NoteOrEmpty(items[i].note);
      lines := lines + [OrderItem(p.productId, items[i].quantity, p.priceMils, note)];
    }
  }

  /** The loop that lowers each needed snack's stock by its need, in need order. */
  method ApplyDecrements(inventory: map<ProductId, int>, needs: seq<SnackNeed>) returns (inv: map<ProductId, int>)
    ensures inv == Decrement(inventory, needs)
  {
    inv := inventory;
    for k := 0 to |needs|
      invariant inv == Decrement(inventory, needs[..k])
    {
      assert needs[..k + 1][..k] == needs[..k];
      var s := needs[k];
      if s.productId in inv {
        inv := inv[s.productId := inv[s.productId] - s.need];
      }
    }
    assert needs[..|needs|] == needs;
  }

  // ---------------------------------------------------------------------------
  // The handler

  method PlaceOrder(db: Database, cashierId: int, paymentMethod: string, items: Option<seq<Item>>)
    returns (r: Result<Order, OrderError>)
    modifies db
    ensures (r, db.State()) == PlaceOrderSpec(old(db.State()), cashierId, paymentMethod, items)
  {
    if items.None? || |items.value| == 0 {
      return Failure(ItemsRequired);
    }
    var its := items.value;

    // BEGIN: reads see the committed tables, writes are staged until COMMIT
    var products := db.products;
    var ids := Ids(its);
    var rows := SelectRows(products, ids);
    if |rows| != |ids| {
      return Failure(ProductsNotFound);
    }
    SelectRowsCount(products, ids);
    SelectRowsAligned(products, ids);

    var inactive := FindInactive(rows);
    if inactive.Some? {
      return Failure(InactiveProduct(inactive.value.name));
    }

    var byId := BuildById(products, rows);
    assert forall i :: 0 <= i < |its| ==> its[i].productId == rows[i].productId;

    var priced := PriceItems(its, products, byId);
    if priced.Failure? {
      return Failure(priced.error);
    }
    var (total, snackNeeds) := priced.value;

    var insufficient := FindShortfalls(snackNeeds, db.inventory);
    if |insufficient| > 0 {
      return Failure(InsufficientInventory(insufficient));
    }

    var lines := BuildLines(its, products, byId);
    var order := Order(cashierId, paymentMethod, total, lines);
    var inventory := ApplyDecrements(db.inventory, snackNeeds);

    // COMMIT
    db.orders := db.orders + [order];
    db.inventory := inventory;
    r := Success(order);
  }
}
