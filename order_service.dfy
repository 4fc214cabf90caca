/** The order-creation use case: look up the customer, fetch the requested
    products, refuse the request if a customer, a product or enough stock is
    missing, otherwise create the order and write the decremented stock. */
module OrderService {
  import opened Entities
  import opened OrderSteps
  import opened Repositories

  /** The checks on the fetched products, in the order they run: something was
      fetched, every requested id was fetched, every requested quantity is in
      stock. */
  function Checks(products: seq<RequestedProduct>, fetched: seq<CatalogProduct>): Option<Error>
  {
    if |fetched| == 0 then Some(NoProductsFound)
    else if |Inexistent(products, fetched)| > 0 then Some(ProductNotFound)
    else if |Unavailable(products, fetched)| > 0 then Some(InsufficientStock)
    else None
  }

  /** What each outcome of the checks means. */
  lemma ChecksMeaning(products: seq<RequestedProduct>, fetched: seq<CatalogProduct>)
    ensures Checks(products, fetched) == None <==>
      fetched != [] && AllFound(products, fetched) && AllAvailable(products, fetched)
    ensures Checks(products, fetched) == Some(NoProductsFound) <==> fetched == []
    ensures Checks(products, fetched) == Some(ProductNotFound) <==>
      fetched != [] && !AllFound(products, fetched)
    ensures Checks(products, fetched) == Some(InsufficientStock) <==>
      fetched != [] && AllFound(products, fetched) && !AllAvailable(products, fetched)
    ensures Checks(products, fetched) != Some(CustomerNotFound)
  {
  }

  /** What one execution does to the stores and what it returns. */
  function ExecuteSpec(s: StoreState, customerId: string, products: seq<RequestedProduct>): (out: (StoreState, Result<Order>))
    ensures out.0.customers == s.customers
    ensures |out.0.log| > |s.log| && out.0.log[..|s.log|] == s.log
    ensures out.1.Err? ==> out.0.catalog == s.catalog && out.0.orders == s.orders
    ensures out.1.Ok? ==> out.0.orders == s.orders + [out.1.value] && customerId in s.customers
  {
    var afterCustomer := s.(log := s.log + [FindCustomerById(customerId)]);
    if customerId !in s.customers then (afterCustomer, Err(CustomerNotFound))
    else
      var fetched := ProductsWithIds(s.catalog, products);
      var afterFetch := afterCustomer.(log := afterCustomer.log + [FindAllProductsById(products)]);
      match Checks(products, fetched)
      case Some(e) => (afterFetch, Err(e))
      case None =>
        var items := Serialize(products, fetched);
        var order := Order(|s.orders|, s.customers[customerId], items);
        var updates := NewQuantities(order.orderProducts, fetched);
        var log := afterFetch.log + [CreateOrder(order.customer, items), UpdateQuantity(updates)];
        (StoreState(s.customers, ApplyUpdates(s.catalog, updates), s.orders + [order], log), Ok(order))
  }

  /** The use case, holding the stores it was given. */
  class CreateOrderService {
    const stores: Stores

    constructor (stores: Stores)
      ensures this.stores == stores
    {
      this.stores := stores;
    }

    /** execute: refuses the request with the first failing check, or creates
        the order and writes the new stock levels. */
    method Execute(customerId: string, products: seq<RequestedProduct>) returns (r: Result<Order>)
      modifies stores
      ensures (stores.State(), r) == ExecuteSpec(old(stores.State()), customerId, products)
      ensures r.Err? ==> stores.catalog == old(stores.catalog) && stores.orders == old(stores.orders)
    {
      ghost var s := stores.State();
      var customer := stores.FindById(customerId);
      if customer.None? {
        return Err(CustomerNotFound);
      }
      var fetched := stores.FindAllById(products);
      assert stores.State() == s.(log := s.log + [FindCustomerById(customerId), FindAllProductsById(products)]);
      if |fetched| == 0 {
        return Err(NoProductsFound);
      }
      var inexistent := Inexistent(products, fetched);
      if |inexistent| > 0 {
        return Err(ProductNotFound);
      }
      var unavailable := Unavailable(products, fetched);
      if |unavailable| > 0 {
        return Err(InsufficientStock);
      }
      assert Checks(products, fetched) == None;
      var items := Serialize(products, fetched);
      var order := stores.Create(customer.value, items);
      var updates := NewQuantities(order.orderProducts, fetched);
      stores.UpdateQuantities(updates);
      r := Ok(order);
      assert order == Order(|s.orders|, s.customers[customerId], items);
      assert stores.State() == StoreState(s.customers, ApplyUpdates(s.catalog, updates), s.orders + [order],
        s.log + [FindCustomerById(customerId), FindAllProductsById(products),
                 CreateOrder(order.customer, items), UpdateQuantity(updates)]);
      assert ExecuteSpec(s, customerId, products).1 == r;
      assert ExecuteSpec(s, customerId, products).0 == stores.State();
    }
  }

  /** A successful execution, spelled out: what was fetched passed the
      emptiness and existence checks, and the stores end with the new order and
      the new stock levels. */
  lemma SuccessUnfolds(s: StoreState, customerId: string, products: seq<RequestedProduct>)
    requires ExecuteSpec(s, customerId, products).1.Ok?
    ensures customerId in s.customers
    ensures var fetched := ProductsWithIds(s.catalog, products);
      && fetched != [] && AllFound(products, fetched)
      && var items := Serialize(products, fetched);
      && var updates := NewQuantities(items, fetched);
      && var order := Order(|s.orders|, s.customers[customerId], items);
      && var (s', r) := ExecuteSpec(s, customerId, products);
      && r == Ok(order)
      && s'.catalog == ApplyUpdates(s.catalog, updates)
      && s'.orders == s.orders + [order]
      && s'.log == s.log + [FindCustomerById(customerId), FindAllProductsById(products),
                            CreateOrder(order.customer, items), UpdateQuantity(updates)]
  {
    var fetched := ProductsWithIds(s.catalog, products);
    assert Checks(products, fetched) == None;
    assert fetched != [] && AllFound(products, fetched) by {
      ChecksMeaning(products, fetched);
    }
    var items := Serialize(products, fetched);
    var updates := NewQuantities(items, fetched);
    var order := Order(|s.orders|, s.customers[customerId], items);
    assert s.log + [FindCustomerById(customerId)] + [FindAllProductsById(products)]
             + [CreateOrder(order.customer, items), UpdateQuantity(updates)]
        == s.log + [FindCustomerById(customerId), FindAllProductsById(products),
                    CreateOrder(order.customer, items), UpdateQuantity(updates)];
  }

  /** A successful execution passed the stock check on what it fetched. */
  lemma SuccessAvailable(s: StoreState, customerId: string, products: seq<RequestedProduct>)
    requires ExecuteSpec(s, customerId, products).1.Ok?
    ensures AllAvailable(products, ProductsWithIds(s.catalog, products))
  {
    ChecksMeaning(products, ProductsWithIds(s.catalog, products));
  }

  /** An absent customer is refused after the customer lookup alone: no
      product lookup, no order, no stock update. */
  lemma CustomerAbsentStopsFirst(s: StoreState, customerId: string, products: seq<RequestedProduct>)
    requires customerId !in s.customers
    ensures ExecuteSpec(s, customerId, products) ==
      (s.(log := s.log + [FindCustomerById(customerId)]), Err(CustomerNotFound))
  {
  }

  /** For every requested line: it was fetched exactly when its id is in the
      catalog, and then its first fetched match is its first catalog entry. */
  lemma FetchedLines(catalog: seq<CatalogProduct>, products: seq<RequestedProduct>)
    ensures var fetched := ProductsWithIds(catalog, products);
      forall i :: 0 <= i < |products| ==>
        && (products[i].id in Ids(fetched) <==> products[i].id in Ids(catalog))
        && (products[i].id in Ids(catalog) ==>
              FirstMatch(fetched, products[i].id) == FirstMatch(catalog, products[i].id))
  {
    forall i | 0 <= i < |products|
      ensures var fetched := ProductsWithIds(catalog, products);
        && (products[i].id in Ids(fetched) <==> products[i].id in Ids(catalog))
        && (products[i].id in Ids(catalog) ==>
              FirstMatch(fetched, products[i].id) == FirstMatch(catalog, products[i].id))
    {
      assert RequestIds(products)[i] == products[i].id;
      FetchedFirstMatch(catalog, products, products[i].id);
    }
  }

  /** Each refusal, stated on the stores as they were before the call. */
  lemma ErrorKinds(s: StoreState, customerId: string, products: seq<RequestedProduct>)
    ensures ExecuteSpec(s, customerId, products).1 == Err(CustomerNotFound) <==>
      customerId !in s.customers
    ensures ExecuteSpec(s, customerId, products).1 == Err(NoProductsFound) <==>
      (customerId in s.customers &&
       forall i :: 0 <= i < |products| ==> products[i].id !in Ids(s.catalog))
    ensures ExecuteSpec(s, customerId, products).1 == Err(ProductNotFound) <==>
      (customerId in s.customers &&
       (exists i :: 0 <= i < |products| && products[i].id in Ids(s.catalog)) &&
       (exists i :: 0 <= i < |products| && products[i].id !in Ids(s.catalog)))
    ensures ExecuteSpec(s, customerId, products).1 == Err(InsufficientStock) <==>
      (customerId in s.customers && |products| > 0 &&
       (forall i :: 0 <= i < |products| ==> products[i].id in Ids(s.catalog)) &&
       (exists i :: 0 <= i < |products| && products[i].id in Ids(s.catalog) &&
          FirstMatch(s.catalog, products[i].id).quantity < products[i].quantity))
    ensures ExecuteSpec(s, customerId, products).1.Ok? <==>
      (customerId in s.customers && |products| > 0 &&
       (forall i :: 0 <= i < |products| ==> products[i].id in Ids(s.catalog)) &&
       (forall i :: 0 <= i < |products| && products[i].id in Ids(s.catalog) ==>
          products[i].quantity <= FirstMatch(s.catalog, products[i].id).quantity))
  {
    var fetched := ProductsWithIds(s.catalog, products);
    FetchedEmpty(s.catalog, products);
    FetchedLines(s.catalog, products);
    ChecksMeaning(products, fetched);
    AvailableInCatalog(s.catalog, products);
    if customerId in s.customers && |products| > 0 &&
       (forall i :: 0 <= i < |products| ==> products[i].id in Ids(s.catalog)) {
      assert products[0].id in Ids(s.catalog);
    }
  }

  /** The stock check on the fetched products, stated on the catalog. */
  lemma AvailableInCatalog(catalog: seq<CatalogProduct>, products: seq<RequestedProduct>)
    ensures AllAvailable(products, ProductsWithIds(catalog, products)) <==>
      forall i :: 0 <= i < |products| && products[i].id in Ids(catalog) ==>
        products[i].quantity <= FirstMatch(catalog, products[i].id).quantity
  {
    var fetched := ProductsWithIds(catalog, products);
    FetchedLines(catalog, products);
    forall i | 0 <= i < |products|
      ensures FirstIndex(fetched, products[i].id) < |fetched| <==> products[i].id in Ids(catalog)
    {
      FirstIndexFound(fetched, products[i].id);
    }
    if AllAvailable(products, fetched) {
      forall i | 0 <= i < |products| && products[i].id in Ids(catalog)
        ensures products[i].quantity <= FirstMatch(catalog, products[i].id).quantity
      {
        assert FirstMatch(fetched, products[i].id) == FirstMatch(catalog, products[i].id);
      }
    }
    if forall i :: 0 <= i < |products| && products[i].id in Ids(catalog) ==>
         products[i].quantity <= FirstMatch(catalog, products[i].id).quantity {
      forall i | 0 <= i < |products| && FirstIndex(fetched, products[i].id) < |fetched|
        ensures products[i].quantity <= fetched[FirstIndex(fetched, products[i].id)].quantity
      {
        assert FirstMatch(fetched, products[i].id) == FirstMatch(catalog, products[i].id);
      }
    }
  }

  /** A successful execution makes exactly four calls: the customer lookup,
      the product lookup, one order write and then one stock write. A refused
      one writes nothing. */
  lemma CallOrder(s: StoreState, customerId: string, products: seq<RequestedProduct>)
    ensures var (s', r) := ExecuteSpec(s, customerId, products);
      && (r.Ok? ==> exists updates ::
            s'.log == s.log + [FindCustomerById(customerId), FindAllProductsById(products),
                               CreateOrder(r.value.customer, r.value.orderProducts), UpdateQuantity(updates)])
      && (r.Err? ==> forall c :: c in s'.log[|s.log|..] ==> !c.IsWrite())
  {
    var (s', r) := ExecuteSpec(s, customerId, products);
    if r.Ok? {
      SuccessUnfolds(s, customerId, products);
      var fetched := ProductsWithIds(s.catalog, products);
      var updates := NewQuantities(Serialize(products, fetched), fetched);
      assert s'.log == s.log + [FindCustomerById(customerId), FindAllProductsById(products),
                                CreateOrder(r.value.customer, r.value.orderProducts), UpdateQuantity(updates)];
    } else if customerId in s.customers {
      assert s'.log[|s.log|..] == [FindCustomerById(customerId), FindAllProductsById(products)];
    } else {
      assert s'.log[|s.log|..] == [FindCustomerById(customerId)];
    }
  }

  /** On success the order belongs to the customer looked up and has one line
      item per requested line, in the requested order, copying the id and the
      quantity and taking the price of the first catalog entry with that id. */
  lemma LineItemsFollowRequest(s: StoreState, customerId: string, products: seq<RequestedProduct>)
    requires ExecuteSpec(s, customerId, products).1.Ok?
    ensures var order := ExecuteSpec(s, customerId, products).1.value;
      && order.id == |s.orders|
      && customerId in s.customers && order.customer == s.customers[customerId]
      && |order.orderProducts| == |products|
      && forall i :: 0 <= i < |products| ==>
           && products[i].id in Ids(s.catalog)
           && order.orderProducts[i] ==
                LineItem(products[i].id, products[i].quantity, FirstMatch(s.catalog, products[i].id).price)
  {
    SuccessUnfolds(s, customerId, products);
    FetchedLines(s.catalog, products);
  }

  /** The stock write built from a catalog passing the existence check holds,
      for request line `i`, the stock of the first catalog entry with that id
      minus the line's quantity. */
  lemma UpdateAt(catalog: seq<CatalogProduct>, products: seq<RequestedProduct>, i: int)
    requires AllFound(products, ProductsWithIds(catalog, products)) && 0 <= i < |products|
    ensures var fetched := ProductsWithIds(catalog, products);
      && var updates := NewQuantities(Serialize(products, fetched), fetched);
      && |updates| == |products|
      && products[i].id in Ids(catalog)
      && updates[i] == StockUpdate(products[i].id, FirstMatch(catalog, products[i].id).quantity - products[i].quantity)
  {
    assert RequestIds(products)[i] == products[i].id;
    FetchedFirstMatch(catalog, products, products[i].id);
  }

  /** When the stock check also passed, that stock write is not negative. */
  lemma UpdateNonNegative(catalog: seq<CatalogProduct>, products: seq<RequestedProduct>, i: int)
    requires AllFound(products, ProductsWithIds(catalog, products)) && 0 <= i < |products|
    requires AllAvailable(products, ProductsWithIds(catalog, products))
    ensures var fetched := ProductsWithIds(catalog, products);
      NewQuantities(Serialize(products, fetched), fetched)[i].quantity >= 0
  {
  }

  /** On success the stock write holds, for each line, the stock fetched before
      the order minus that line's quantity, never negative. Each value comes
      from the original fetch, so duplicate lines are not subtracted
      cumulatively. */
  lemma StockUpdatesFromFetch(s: StoreState, customerId: string, products: seq<RequestedProduct>)
    requires ExecuteSpec(s, customerId, products).1.Ok?
    ensures var log := ExecuteSpec(s, customerId, products).0.log;
      && |log| == |s.log| + 4
      && log[|log| - 1].UpdateQuantity?
      && var updates := log[|log| - 1].updates;
      && |updates| == |products|
      && forall i :: 0 <= i < |products| ==>
           && products[i].id in Ids(s.catalog)
           && updates[i] == StockUpdate(products[i].id,
                FirstMatch(s.catalog, products[i].id).quantity - products[i].quantity)
           && updates[i].quantity >= 0
  {
    SuccessUnfolds(s, customerId, products);
    SuccessAvailable(s, customerId, products);
    var fetched := ProductsWithIds(s.catalog, products);
    var updates := NewQuantities(Serialize(products, fetched), fetched);
    forall i | 0 <= i < |products|
      ensures products[i].id in Ids(s.catalog)
      ensures updates[i] == StockUpdate(products[i].id,
                FirstMatch(s.catalog, products[i].id).quantity - products[i].quantity)
      ensures updates[i].quantity >= 0
    {
      UpdateAt(s.catalog, products, i);
      UpdateNonNegative(s.catalog, products, i);
    }
  }

  /** `products[i]` is the last requested line for `id`. */
  predicate IsLastLine(products: seq<RequestedProduct>, id: string, i: int)
  {
    && 0 <= i < |products|
    && products[i].id == id
    && forall l :: i < l < |products| ==> products[l].id != id
  }

  /** With product ids unique in the catalog, applying the stock write of a
      request that passed the checks leaves the product named last by line `i`
      with its old stock minus that line's quantity, which is not negative. */
  lemma DecrementAt(catalog: seq<CatalogProduct>, products: seq<RequestedProduct>, k: int, i: int)
    requires UniqueIds(catalog) && 0 <= k < |catalog|
    requires AllFound(products, ProductsWithIds(catalog, products))
    requires AllAvailable(products, ProductsWithIds(catalog, products))
    requires IsLastLine(products, catalog[k].id, i)
    ensures var fetched := ProductsWithIds(catalog, products);
      && var catalog' := ApplyUpdates(catalog, NewQuantities(Serialize(products, fetched), fetched));
      && catalog'[k] == catalog[k].(quantity := catalog[k].quantity - products[i].quantity)
      && catalog'[k].quantity >= 0
  {
    var fetched := ProductsWithIds(catalog, products);
    var updates := NewQuantities(Serialize(products, fetched), fetched);
    UpdateAt(catalog, products, i);
    UpdateNonNegative(catalog, products, i);
    assert FirstIndex(catalog, catalog[k].id) == k;
    assert IsLastUpdate(updates, catalog[k].id, i);
    ApplyUpdatesLast(catalog, updates, k, i);
  }

  /** On success, with product ids unique in the catalog, a product named by
      the request ends with its old stock minus the quantity of the LAST line
      naming it, which is not negative; its id and price do not change. */
  lemma StockAfterOrder(s: StoreState, customerId: string, products: seq<RequestedProduct>, k: int, i: int)
    requires UniqueIds(s.catalog) && 0 <= k < |s.catalog|
    requires ExecuteSpec(s, customerId, products).1.Ok?
    requires IsLastLine(products, s.catalog[k].id, i)
    ensures var catalog' := ExecuteSpec(s, customerId, products).0.catalog;
      && |catalog'| == |s.catalog|
      && catalog'[k] == s.catalog[k].(quantity := s.catalog[k].quantity - products[i].quantity)
      && catalog'[k].quantity >= 0
  {
    SuccessUnfolds(s, customerId, products);
    SuccessAvailable(s, customerId, products);
    DecrementAt(s.catalog, products, k, i);
  }

  /** On success, a product that no requested line names keeps its stock. */
  lemma StockUntouched(s: StoreState, customerId: string, products: seq<RequestedProduct>, k: int)
    requires 0 <= k < |s.catalog|
    requires ExecuteSpec(s, customerId, products).1.Ok?
    requires forall i :: 0 <= i < |products| ==> products[i].id != s.catalog[k].id
    ensures var catalog' := ExecuteSpec(s, customerId, products).0.catalog;
      |catalog'| == |s.catalog| && catalog'[k] == s.catalog[k]
  {
    SuccessUnfolds(s, customerId, products);
    var fetched := ProductsWithIds(s.catalog, products);
    ApplyUpdatesUntouched(s.catalog, NewQuantities(Serialize(products, fetched), fetched), k);
  }

  /** An execution never adds, removes or renames catalog entries, so product
      ids stay unique, and it never changes a price. */
  lemma CatalogShapeKept(s: StoreState, customerId: string, products: seq<RequestedProduct>)
    requires UniqueIds(s.catalog)
    ensures var catalog' := ExecuteSpec(s, customerId, products).0.catalog;
      && |catalog'| == |s.catalog|
      && (forall k :: 0 <= k < |s.catalog| ==> catalog'[k].id == s.catalog[k].id && catalog'[k].price == s.catalog[k].price)
      && UniqueIds(catalog')
  {
    var catalog' := ExecuteSpec(s, customerId, products).0.catalog;
    if ExecuteSpec(s, customerId, products).1.Ok? {
      SuccessUnfolds(s, customerId, products);
    }
    assert forall k :: 0 <= k < |s.catalog| ==> catalog'[k].id == s.catalog[k].id;
  }
}
