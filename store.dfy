/**
 * The three tables the order and inventory handlers work on: products, snack
 * inventory and committed orders (with their order items). `Tables` is the value
 * of the store; `Database` is the mutable store the handlers receive.
 */
module Store {

  type ProductId = int

  /** The one category that has inventory rows. */
  const Snack: string := "snack"

  /** A row of `products`; prices are integer thousandths (the 3-decimal `price_omr`). */
  datatype Product = Product(name: string, priceMils: int, category: string, isActive: bool)

  /** A row of `order_items`; `priceAtSaleMils` is the product's price when the order was placed. */
  datatype OrderItem = OrderItem(productId: ProductId, quantity: int, priceAtSaleMils: int, note: string)

  /** A row of `orders` together with the `order_items` rows that reference it. */
  datatype Order = Order(cashierId: int, paymentMethod: string, totalMils: int, items: seq<OrderItem>)

  datatype Tables = Tables(
    products: map<ProductId, Product>,
    inventory: map<ProductId, int>,
    orders: seq<Order>)

  /** The quantity a handler reads for a product: a missing inventory row reads as 0. */
  function Available(inventory: map<ProductId, int>, id: ProductId): (q: int)
    ensures NonNegative(inventory) ==> q >= 0
  {
    if id in inventory then inventory[id] else 0
  }

  /** The inventory invariant: no quantity is negative. */
  predicate NonNegative(inventory: map<ProductId, int>) {
    forall id :: id in inventory ==> inventory[id] >= 0
  }

  class Database {
    var products: map<ProductId, Product>
    var inventory: map<ProductId, int>
    var orders: seq<Order>

    function State(): Tables
      reads this
    {
      Tables(products, inventory, orders)
    }

    constructor (t: Tables)
      ensures State() == t
    {
      products := t.products;
      inventory := t.inventory;
      orders := t.orders;
    }
  }
}
