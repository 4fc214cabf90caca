/** The shapes that the order-creation use case reads and builds: the request,
    the catalog entries fetched from the product store, the line items handed to
    the order store, the stock updates handed back to the product store, and the
    four ways the use case can refuse a request. */
module Entities {

  datatype Option<T> = None | Some(value: T)

  /** A unit price. The use case only copies it from the catalog into the
      order, so it is kept as an opaque integer (for instance cents). */
  type Price = int

  /** One requested line: a product id and the quantity wanted (IProduct). */
  datatype RequestedProduct = RequestedProduct(id: string, quantity: int)

  /** A product as the product store returns it. */
  datatype CatalogProduct = CatalogProduct(id: string, quantity: int, price: Price)

  /** A line item of an order: the product, the quantity ordered and the price
      at the time of the order. */
  datatype LineItem = LineItem(productId: string, quantity: int, price: Price)

  /** A new stock level for one product, as passed to updateQuantity. */
  datatype StockUpdate = StockUpdate(id: string, quantity: int)

  /** A customer as the customer store returns it. */
  datatype Customer = Customer(id: string)

  /** An order as the order store creates it. */
  datatype Order = Order(id: nat, customer: Customer, orderProducts: seq<LineItem>)

  /** The four refusals of the use case, in the order they are checked. */
  datatype Error = CustomerNotFound | NoProductsFound | ProductNotFound | InsufficientStock

  datatype Result<T> = Ok(value: T) | Err(error: Error)
}
