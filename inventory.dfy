/**
 * Stock correction (POST /adjust of the inventory router). It runs without a
 * transaction: an inventory row that is created for the product stays even
 * when the adjustment is then refused.
 */
module Inventory {
  import opened Wrappers
  import opened Text
  import opened Store

  /** The updated `inventory` row returned on success. */
  datatype InventoryRow = InventoryRow(productId: ProductId, quantity: int)

  datatype AdjustError =
    | ProductNotFound
    | NotSnack
    | InsufficientStock(current: int)

  /** The `message` field of each 400 answer. */
  function Message(e: AdjustError): string {
    match e
    case ProductNotFound => "Product not found"
    case NotSnack => "Only snacks have inventory"
    case InsufficientStock(current) => "Insufficient stock. Current=" + IntToString(current)
  }

  /** What one adjustment does to the tables. */
  function AdjustSpec(t: Tables, productId: ProductId, delta: int): (Result<InventoryRow, AdjustError>, Tables) {
    if productId !in t.products then (Failure(ProductNotFound), t)
    else if t.products[productId].category != Snack then (Failure(NotSnack), t)
    else
      var current := Available(t.inventory, productId);
      if current + delta < 0 then
        (Failure(InsufficientStock(current)), t.(inventory := t.inventory[productId := current]))
      else
        (Success(InventoryRow(productId, current + delta)), t.(inventory := t.inventory[productId := current + delta]))
  }

  method Adjust(db: Database, productId: ProductId, delta: int) returns (r: Result<InventoryRow, AdjustError>)
    modifies db
    ensures (r, db.State()) == AdjustSpec(old(db.State()), productId, delta)
  {
    // Look the product up.
    if productId !in db.products {
      return Failure(ProductNotFound);
    }
    if db.products[productId].category != Snack {
      return Failure(NotSnack);
    }

    // Create a zero row when the product has none.
    if productId !in db.inventory {
      db.inventory := db.inventory[productId := 0];
    }

    var current := db.inventory[productId];
    assert current == Available(old(db.inventory), productId);
    assert db.inventory == old(db.inventory)[productId := current];
    var next := current + delta;
    if next < 0 {
      return Failure(InsufficientStock(current));
    }

    // Overwrite the quantity and answer with the new row.
    db.inventory := db.inventory[productId := next];
    assert db.inventory == old(db.inventory)[productId := next];
    r := Success(InventoryRow(productId, next));
  }

  /** An unknown product is refused and nothing changes. */
  lemma AdjustRejectsUnknownProduct(t: Tables, productId: ProductId, delta: int)
    ensures AdjustSpec(t, productId, delta).0 == Failure(ProductNotFound) <==> productId !in t.products
    ensures productId !in t.products ==> AdjustSpec(t, productId, delta).1 == t
  {
  }

  /** A product that is not a snack is refused and no inventory row is created for it. */
  lemma AdjustRejectsNonSnack(t: Tables, productId: ProductId, delta: int)
    ensures AdjustSpec(t, productId, delta).0 == Failure(NotSnack) <==>
      productId in t.products && t.products[productId].category != Snack
    ensures AdjustSpec(t, productId, delta).0 == Failure(NotSnack) ==> AdjustSpec(t, productId, delta).1 == t
  {
  }

  /**
   * For a snack, the product's row exists afterwards whatever the outcome: a
   * missing row holds 0 and keeps it if the adjustment is refused, which happens
   * exactly when the result would be negative and reports the current quantity.
   */
  lemma AdjustSnack(t: Tables, productId: ProductId, delta: int)
    requires productId in t.products && t.products[productId].category == Snack
    ensures var (r, t') := AdjustSpec(t, productId, delta);
      var current := if productId in t.inventory then t.inventory[productId] else 0;
      productId in t'.inventory &&
      (r.Failure? <==> current + delta < 0) &&
      (r.Failure? ==> r.error == InsufficientStock(current) && t'.inventory[productId] == current) &&
      (r.Success? ==> r.value == InventoryRow(productId, current + delta) && t'.inventory[productId] == current + delta >= 0)
  {
  }

  /**
   * Only the targeted row is touched, products and orders are untouched, and
   * non-negativity of every quantity is preserved.
   */
  lemma AdjustFrame(t: Tables, productId: ProductId, delta: int)
    ensures var t' := AdjustSpec(t, productId, delta).1;
      t'.products == t.products && t'.orders == t.orders &&
      t'.inventory.Keys <= t.inventory.Keys + {productId} &&
      (forall x :: x in t.inventory && x != productId ==> x in t'.inventory && t'.inventory[x] == t.inventory[x]) &&
      (NonNegative(t.inventory) ==> NonNegative(t'.inventory))
  {
  }

  /** On a non-negative inventory, adjusting by `delta` and then by `-delta` restores the quantity. */
  lemma AdjustUndo(t: Tables, productId: ProductId, delta: int)
    requires NonNegative(t.inventory) && AdjustSpec(t, productId, delta).0.Success?
    ensures var t' := AdjustSpec(t, productId, delta).1;
      var (r, t'') := AdjustSpec(t', productId, -delta);
      r == Success(InventoryRow(productId, Available(t.inventory, productId))) &&
      t''.inventory == t.inventory[productId := Available(t.inventory, productId)]
  {
  }

  /** A snack without an inventory row cannot go to -1: the refusal reports 0 and leaves a row holding 0. */
  lemma AdjustExample()
    ensures var t := Tables(map[1 := Product("Chips", 500, Snack, true)], map[], []);
      var (r, t') := AdjustSpec(t, 1, -1);
      r == Failure(InsufficientStock(0)) && Message(r.error) == "Insufficient stock. Current=0" &&
      t'.inventory == map[1 := 0]
  {
    assert IntToString(0) == "0";
  }
}
