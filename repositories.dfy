/** The three stores the use case talks to: customers, products and orders.
    Their implementations are not part of this model; each operation is given
    the behaviour the use case relies on, and every call is recorded in a log so
    that the order of lookups and writes can be stated. */
module Repositories {
  import opened Entities
  import opened OrderSteps

  /** One call into a store, as recorded in the log. */
  datatype Call =
    | FindCustomerById(customerId: string)
    | FindAllProductsById(products: seq<RequestedProduct>)
    | CreateOrder(customer: Customer, items: seq<LineItem>)
    | UpdateQuantity(updates: seq<StockUpdate>)
  {
    /** Whether the call changes a store. */
    predicate IsWrite() { CreateOrder? || UpdateQuantity? }
  }

  /** The contents of the three stores and the log of calls made to them. */
  datatype StoreState = StoreState(
    customers: map<string, Customer>,
    catalog: seq<CatalogProduct>,
    orders: seq<Order>,
    log: seq<Call>)

  /** No two catalog entries share an id (the product id is a primary key). */
  predicate UniqueIds(catalog: seq<CatalogProduct>)
  {
    forall k, l :: 0 <= k < l < |catalog| ==> catalog[k].id != catalog[l].id
  }

  /** findAllById: the catalog entries whose id is among the requested ids, in
      catalog order. */
  function ProductsWithIds(catalog: seq<CatalogProduct>, products: seq<RequestedProduct>): seq<CatalogProduct>
  {
    if catalog == [] then []
    else
      var rest := ProductsWithIds(catalog[1..], products);
      if catalog[0].id in RequestIds(products) then [catalog[0]] + rest else rest
  }

  /** The fetched products are exactly the catalog entries with a requested id. */
  lemma {:induction false} FetchedMembers(catalog: seq<CatalogProduct>, products: seq<RequestedProduct>)
    ensures forall x :: x in ProductsWithIds(catalog, products) <==> x in catalog && x.id in RequestIds(products)
  {
    if catalog != [] {
      FetchedMembers(catalog[1..], products);
      assert catalog == [catalog[0]] + catalog[1..];
    }
  }

  /** For a requested id, filtering the fetched list by that id gives what
      filtering the whole catalog gives. */
  lemma {:induction false} FetchedMatching(catalog: seq<CatalogProduct>, products: seq<RequestedProduct>, id: string)
    requires id in RequestIds(products)
    ensures Matching(ProductsWithIds(catalog, products), id) == Matching(catalog, id)
  {
    if catalog != [] {
      FetchedMatching(catalog[1..], products, id);
    }
  }

  /** A requested id is among the fetched ids exactly when it is in the catalog,
      and then its first fetched match is its first catalog entry. */
  lemma FetchedFirstMatch(catalog: seq<CatalogProduct>, products: seq<RequestedProduct>, id: string)
    requires id in RequestIds(products)
    ensures id in Ids(ProductsWithIds(catalog, products)) <==> id in Ids(catalog)
    ensures id in Ids(catalog) ==> FirstMatch(ProductsWithIds(catalog, products), id) == FirstMatch(catalog, id)
  {
    FetchedMatching(catalog, products, id);
    MatchingNonEmpty(catalog, id);
    MatchingNonEmpty(ProductsWithIds(catalog, products), id);
  }

  /** The fetch comes back empty exactly when no requested id is in the catalog
      (in particular when nothing is requested). */
  lemma FetchedEmpty(catalog: seq<CatalogProduct>, products: seq<RequestedProduct>)
    ensures ProductsWithIds(catalog, products) == [] <==>
      forall i :: 0 <= i < |products| ==> products[i].id !in Ids(catalog)
  {
    var fetched := ProductsWithIds(catalog, products);
    FetchedMembers(catalog, products);
    if fetched != [] {
      var x := fetched[0];
      var k :| 0 <= k < |catalog| && catalog[k] == x;
      var i :| 0 <= i < |products| && products[i].id == x.id;
      assert Ids(catalog)[k] == products[i].id;
    }
    if exists i :: 0 <= i < |products| && products[i].id in Ids(catalog) {
      var i :| 0 <= i < |products| && products[i].id in Ids(catalog);
      assert RequestIds(products)[i] == products[i].id;
      FetchedFirstMatch(catalog, products, products[i].id);
    }
  }

  /** Sets the quantity of every catalog entry with the update's id. */
  function SetQuantity(catalog: seq<CatalogProduct>, u: StockUpdate): (r: seq<CatalogProduct>)
    ensures |r| == |catalog|
  {
    seq(|catalog|, k requires 0 <= k < |catalog| =>
      if catalog[k].id == u.id then catalog[k].(quantity := u.quantity) else catalog[k])
  }

  /** updateQuantity: applies the updates in order, so for an id that occurs
      more than once the last update wins. Ids and prices are never touched. */
  function ApplyUpdates(catalog: seq<CatalogProduct>, updates: seq<StockUpdate>): (r: seq<CatalogProduct>)
    ensures |r| == |catalog|
    ensures forall k :: 0 <= k < |catalog| ==> r[k].id == catalog[k].id && r[k].price == catalog[k].price
    decreases updates
  {
    if updates == [] then catalog
    else ApplyUpdates(SetQuantity(catalog, updates[0]), updates[1..])
  }

  /** `updates[j]` is the last update for `id`. */
  predicate IsLastUpdate(updates: seq<StockUpdate>, id: string, j: int)
  {
    && 0 <= j < |updates|
    && updates[j].id == id
    && forall l :: j < l < |updates| ==> updates[l].id != id
  }

  /** An entry that no update names is left as it was. */
  lemma {:induction false} ApplyUpdatesUntouched(catalog: seq<CatalogProduct>, updates: seq<StockUpdate>, k: int)
    requires 0 <= k < |catalog|
    requires forall l :: 0 <= l < |updates| ==> updates[l].id != catalog[k].id
    ensures ApplyUpdates(catalog, updates)[k] == catalog[k]
    decreases updates
  {
    if updates != [] {
      var next := SetQuantity(catalog, updates[0]);
      assert next[k] == catalog[k];
      ApplyUpdatesUntouched(next, updates[1..], k);
    }
  }

  /** An entry named by some update ends with the quantity of the last such
      update and keeps its id and price. */
  lemma {:induction false} ApplyUpdatesLast(catalog: seq<CatalogProduct>, updates: seq<StockUpdate>, k: int, j: int)
    requires 0 <= k < |catalog|
    requires IsLastUpdate(updates, catalog[k].id, j)
    ensures ApplyUpdates(catalog, updates)[k] == catalog[k].(quantity := updates[j].quantity)
    decreases updates
  {
    var next := SetQuantity(catalog, updates[0]);
    if j == 0 {
      assert next[k] == catalog[k].(quantity := updates[0].quantity);
      ApplyUpdatesUntouched(next, updates[1..], k);
    } else {
      assert IsLastUpdate(updates[1..], next[k].id, j - 1);
      ApplyUpdatesLast(next, updates[1..], k, j - 1);
    }
  }

  /** The state of the three stores. Each method below is one store operation
      used by the use case; each records itself in `log`. */
  class Stores {
    var customers: map<string, Customer>
    var catalog: seq<CatalogProduct>
    var orders: seq<Order>
    var log: seq<Call>

    constructor (customers: map<string, Customer>, catalog: seq<CatalogProduct>)
      ensures State() == StoreState(customers, catalog, [], [])
    {
      this.customers := customers;
      this.catalog := catalog;
      this.orders := [];
      this.log := [];
    }

    /** The contents of the stores as a value. */
    function State(): StoreState
      reads this
    {
      StoreState(customers, catalog, orders, log)
    }

    /** customersRepository.findById: the customer with that id, if any. */
    method FindById(customerId: string) returns (c: Option<Customer>)
      modifies this`log
      ensures c == if customerId in customers then Some(customers[customerId]) else None
      ensures log == old(log) + [FindCustomerById(customerId)]
    {
      c := if customerId in customers then Some(customers[customerId]) else None;
      log := log + [FindCustomerById(customerId)];
    }

    /** productsRepository.findAllById: the catalog entries with a requested id. */
    method FindAllById(products: seq<RequestedProduct>) returns (fetched: seq<CatalogProduct>)
      modifies this`log
      ensures fetched == ProductsWithIds(catalog, products)
      ensures log == old(log) + [FindAllProductsById(products)]
    {
      fetched := ProductsWithIds(catalog, products);
      log := log + [FindAllProductsById(products)];
    }

    /** ordersRepository.create: stores a new order, numbered after the orders
        already stored, whose `orderProducts` are the submitted line items. */
    method Create(customer: Customer, items: seq<LineItem>) returns (order: Order)
      modifies this`orders, this`log
      ensures order == Order(|old(orders)|, customer, items)
      ensures orders == old(orders) + [order]
      ensures log == old(log) + [CreateOrder(customer, items)]
    {
      order := Order(|orders|, customer, items);
      orders := orders + [order];
      log := log + [CreateOrder(customer, items)];
    }

    /** productsRepository.updateQuantity: writes the new stock levels. */
    method UpdateQuantities(updates: seq<StockUpdate>)
      modifies this`catalog, this`log
      ensures catalog == ApplyUpdates(old(catalog), updates)
      ensures log == old(log) + [UpdateQuantity(updates)]
    {
      catalog := ApplyUpdates(catalog, updates);
      log := log + [UpdateQuantity(updates)];
    }
  }
}
