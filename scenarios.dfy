/** Concrete runs of the use case on a one-product catalog. */
module OrderScenarios {
  import opened Entities
  import opened OrderSteps
  import opened Repositories
  import opened OrderService

  /** Stores holding one customer and one product in stock 10 at price 500. */
  function OneProductStores(): StoreState
  {
    StoreState(map["c1" := Customer("c1")], [CatalogProduct("p1", 10, 500)], [], [])
  }

  /** Ordering 3 of the product creates order 0 with one line item at the
      catalog price and leaves 7 in stock. */
  lemma OrderThree()
    ensures var (s', r) := ExecuteSpec(OneProductStores(), "c1", [RequestedProduct("p1", 3)]);
      && r == Ok(Order(0, Customer("c1"), [LineItem("p1", 3, 500)]))
      && s'.catalog == [CatalogProduct("p1", 7, 500)]
  {
    var s := OneProductStores();
    var products := [RequestedProduct("p1", 3)];
    assert RequestIds(products) == ["p1"];
    var fetched := ProductsWithIds(s.catalog, products);
    assert fetched == s.catalog;
    assert Ids(fetched) == ["p1"];
    assert FirstMatch(fetched, "p1") == CatalogProduct("p1", 10, 500);
    assert Inexistent(products, fetched) == [];
    assert Unavailable(products, fetched) == [];
    assert Serialize(products, fetched) == [LineItem("p1", 3, 500)];
    assert NewQuantities([LineItem("p1", 3, 500)], fetched) == [StockUpdate("p1", 7)];
    assert SetQuantity(s.catalog, StockUpdate("p1", 7)) == [CatalogProduct("p1", 7, 500)];
    assert ApplyUpdates(s.catalog, [StockUpdate("p1", 7)]) == [CatalogProduct("p1", 7, 500)];
  }

  /** Ordering 11 of the product is refused for lack of stock. */
  lemma OrderEleven()
    ensures ExecuteSpec(OneProductStores(), "c1", [RequestedProduct("p1", 11)]).1 == Err(InsufficientStock)
  {
    var s := OneProductStores();
    var products := [RequestedProduct("p1", 11)];
    assert RequestIds(products) == ["p1"];
    var fetched := ProductsWithIds(s.catalog, products);
    assert fetched == s.catalog;
    assert Ids(fetched) == ["p1"];
    assert Inexistent(products, fetched) == [];
    assert Unavailable(products, fetched) == products;
  }

  /** Two lines of 6 for the same product are each checked against the stock
      of 10 as fetched, so the order of 12 is accepted; every line's update is
      10 - 6, and the stock ends at 4 rather than at -2. */
  lemma DuplicateLinesOversell()
    ensures var products := [RequestedProduct("p1", 6), RequestedProduct("p1", 6)];
      var (s', r) := ExecuteSpec(OneProductStores(), "c1", products);
      && r.Ok?
      && r.value.orderProducts == [LineItem("p1", 6, 500), LineItem("p1", 6, 500)]
      && s'.catalog == [CatalogProduct("p1", 4, 500)]
  {
    var s := OneProductStores();
    var products := [RequestedProduct("p1", 6), RequestedProduct("p1", 6)];
    var fetched := ProductsWithIds(s.catalog, products);
    DuplicateLinesChecks();
    assert AllFound(products, fetched) by { ChecksMeaning(products, fetched); }
    DuplicateLinesWrites();
  }

  /** The duplicated request passes every check on what is fetched. */
  lemma DuplicateLinesChecks()
    ensures var products := [RequestedProduct("p1", 6), RequestedProduct("p1", 6)];
      && ProductsWithIds(OneProductStores().catalog, products) == OneProductStores().catalog
      && Checks(products, OneProductStores().catalog) == None
  {
    var s := OneProductStores();
    var products := [RequestedProduct("p1", 6), RequestedProduct("p1", 6)];
    assert RequestIds(products) == ["p1", "p1"];
    assert Ids(s.catalog) == ["p1"];
    assert FirstMatch(s.catalog, "p1") == CatalogProduct("p1", 10, 500);
    assert Inexistent(products, s.catalog) == [];
    assert Unavailable(products, s.catalog) == [];
  }

  /** The line items and stock write built for the duplicated request. */
  lemma DuplicateLinesWrites()
    ensures var products := [RequestedProduct("p1", 6), RequestedProduct("p1", 6)];
      var catalog := OneProductStores().catalog;
      && AllFound(products, catalog)
      && var items := Serialize(products, catalog);
      && items == [LineItem("p1", 6, 500), LineItem("p1", 6, 500)]
      && AllItemsFound(items, catalog)
      && var updates := NewQuantities(items, catalog);
      && updates == [StockUpdate("p1", 4), StockUpdate("p1", 4)]
      && ApplyUpdates(catalog, updates) == [CatalogProduct("p1", 4, 500)]
  {
    var catalog := OneProductStores().catalog;
    var products := [RequestedProduct("p1", 6), RequestedProduct("p1", 6)];
    assert Ids(catalog) == ["p1"];
    assert FirstMatch(catalog, "p1") == CatalogProduct("p1", 10, 500);
    var items := Serialize(products, catalog);
    assert items == [LineItem("p1", 6, 500), LineItem("p1", 6, 500)];
    var updates := NewQuantities(items, catalog);
    assert updates == [StockUpdate("p1", 4), StockUpdate("p1", 4)];
    assert SetQuantity(catalog, StockUpdate("p1", 4)) == [CatalogProduct("p1", 4, 500)];
    assert SetQuantity([CatalogProduct("p1", 4, 500)], StockUpdate("p1", 4)) == [CatalogProduct("p1", 4, 500)];
    assert ApplyUpdates([CatalogProduct("p1", 4, 500)], [StockUpdate("p1", 4)]) == [CatalogProduct("p1", 4, 500)];
  }

  /** A request naming only unknown products finds nothing. */
  lemma UnknownProductsOnly()
    ensures ExecuteSpec(OneProductStores(), "c1", [RequestedProduct("p2", 1)]).1 == Err(NoProductsFound)
  {
    var products := [RequestedProduct("p2", 1)];
    assert RequestIds(products) == ["p2"];
    assert ProductsWithIds(OneProductStores().catalog, products) == [];
  }

  /** A request mixing a known and an unknown product is refused by the
      existence check. */
  lemma OneUnknownProduct()
    ensures ExecuteSpec(OneProductStores(), "c1", [RequestedProduct("p1", 1), RequestedProduct("p2", 1)]).1
      == Err(ProductNotFound)
  {
    var s := OneProductStores();
    var products := [RequestedProduct("p1", 1), RequestedProduct("p2", 1)];
    assert RequestIds(products) == ["p1", "p2"];
    var fetched := ProductsWithIds(s.catalog, products);
    assert fetched == s.catalog;
    assert Ids(fetched) == ["p1"];
    assert Inexistent(products, fetched) == [RequestedProduct("p2", 1)];
  }
}
