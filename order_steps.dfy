/** The pure steps of order creation: the list comprehensions that validate the
    request against the fetched products, build the line items and compute the
    new stock levels. */
module OrderSteps {
  import opened Entities

  /** The ids of the fetched products, in order (`map(product => product.id)`). */
  function Ids(fetched: seq<CatalogProduct>): seq<string>
  {
    seq(|fetched|, j requires 0 <= j < |fetched| => fetched[j].id)
  }

  /** The ids of the requested lines, in order. */
  function RequestIds(products: seq<RequestedProduct>): seq<string>
  {
    seq(|products|, i requires 0 <= i < |products| => products[i].id)
  }

  /** The position of the first fetched product whose id is `id`, or
      `|fetched|` when there is none: a plain left-to-right search. */
  function FirstIndex(fetched: seq<CatalogProduct>, id: string): (j: nat)
    ensures j <= |fetched|
    ensures j < |fetched| ==> fetched[j].id == id
    ensures forall k :: 0 <= k < j ==> fetched[k].id != id
  {
    if fetched == [] then 0
    else if fetched[0].id == id then 0
    else 1 + FirstIndex(fetched[1..], id)
  }

  /** The search succeeds exactly for the fetched ids. */
  lemma FirstIndexFound(fetched: seq<CatalogProduct>, id: string)
    ensures FirstIndex(fetched, id) < |fetched| <==> id in Ids(fetched)
  {
    if id in Ids(fetched) {
      var j :| 0 <= j < |fetched| && Ids(fetched)[j] == id;
      assert fetched[j].id == id;
    }
    if FirstIndex(fetched, id) < |fetched| {
      assert Ids(fetched)[FirstIndex(fetched, id)] == id;
    }
  }

  /** Every requested id is among the fetched ids. */
  predicate AllFound(products: seq<RequestedProduct>, fetched: seq<CatalogProduct>)
  {
    forall i :: 0 <= i < |products| ==> products[i].id in Ids(fetched)
  }

  /** Every requested quantity is at most the stock of the first fetched
      product with the requested id. */
  predicate AllAvailable(products: seq<RequestedProduct>, fetched: seq<CatalogProduct>)
  {
    forall i :: 0 <= i < |products| && FirstIndex(fetched, products[i].id) < |fetched| ==>
      products[i].quantity <= fetched[FirstIndex(fetched, products[i].id)].quantity
  }

  /** The requested lines whose id was not fetched (`checkInexistentProducts`). */
  function Inexistent(products: seq<RequestedProduct>, fetched: seq<CatalogProduct>): (r: seq<RequestedProduct>)
    ensures |r| == 0 <==> AllFound(products, fetched)
  {
    if products == [] then []
    else
      var rest := Inexistent(products[1..], fetched);
      assert AllFound(products, fetched) <==>
        products[0].id in Ids(fetched) && AllFound(products[1..], fetched) by {
        if products[0].id in Ids(fetched) && AllFound(products[1..], fetched) {
          forall i | 0 <= i < |products| ensures products[i].id in Ids(fetched) {
            if i > 0 { assert products[i] == products[1..][i - 1]; }
          }
        }
      }
      if products[0].id in Ids(fetched) then rest else [products[0]] + rest
  }

  /** The lines the existence check reports are exactly the requested lines
      whose id was not fetched. */
  lemma {:induction false} InexistentMembers(products: seq<RequestedProduct>, fetched: seq<CatalogProduct>)
    ensures forall x :: x in Inexistent(products, fetched) <==> x in products && x.id !in Ids(fetched)
  {
    if products != [] {
      InexistentMembers(products[1..], fetched);
      assert products == [products[0]] + products[1..];
    }
  }

  /** The fetched products whose id is `id` (`filter(p => p.id === id)`). */
  function Matching(fetched: seq<CatalogProduct>, id: string): seq<CatalogProduct>
  {
    if fetched == [] then []
    else
      var rest := Matching(fetched[1..], id);
      if fetched[0].id == id then [fetched[0]] + rest else rest
  }

  /** The filtered list is non-empty exactly when the search succeeds, and its
      head is the product the search finds. */
  lemma {:induction false} MatchingHead(fetched: seq<CatalogProduct>, id: string)
    ensures |Matching(fetched, id)| > 0 <==> FirstIndex(fetched, id) < |fetched|
    ensures |Matching(fetched, id)| > 0 ==> Matching(fetched, id)[0] == fetched[FirstIndex(fetched, id)]
  {
    if fetched != [] && fetched[0].id != id {
      MatchingHead(fetched[1..], id);
    }
  }

  /** `filter(p => p.id === id)[0]` is in bounds exactly when `id` is among the
      fetched ids. */
  lemma MatchingNonEmpty(fetched: seq<CatalogProduct>, id: string)
    ensures |Matching(fetched, id)| > 0 <==> id in Ids(fetched)
  {
    MatchingHead(fetched, id);
    FirstIndexFound(fetched, id);
  }

  /** `filter(p => p.id === id)[0]`: the first fetched product with that id. */
  function FirstMatch(fetched: seq<CatalogProduct>, id: string): (r: CatalogProduct)
    requires id in Ids(fetched)
    ensures FirstIndex(fetched, id) < |fetched| && r == fetched[FirstIndex(fetched, id)]
    ensures r.id == id
  {
    MatchingHead(fetched, id);
    FirstIndexFound(fetched, id);
    Matching(fetched, id)[0]
  }

  /** Once the existence check has passed, each of the lookups
      `filter(p => p.id === product.id)[0]` over a requested id is in bounds. */
  lemma ExistenceCheckGuardsLookups(products: seq<RequestedProduct>, fetched: seq<CatalogProduct>)
    requires |Inexistent(products, fetched)| == 0
    ensures forall i :: 0 <= i < |products| ==> |Matching(fetched, products[i].id)| > 0
  {
    forall i | 0 <= i < |products| ensures |Matching(fetched, products[i].id)| > 0 {
      MatchingNonEmpty(fetched, products[i].id);
    }
  }

  /** AllAvailable splits into the first requested line and the rest. */
  lemma AvailableStep(products: seq<RequestedProduct>, fetched: seq<CatalogProduct>)
    requires |products| > 0
    ensures AllAvailable(products, fetched) <==>
      && (FirstIndex(fetched, products[0].id) < |fetched| ==>
            products[0].quantity <= fetched[FirstIndex(fetched, products[0].id)].quantity)
      && AllAvailable(products[1..], fetched)
  {
    var rest := products[1..];
    if AllAvailable(products, fetched) {
      forall i | 0 <= i < |rest| && FirstIndex(fetched, rest[i].id) < |fetched|
        ensures rest[i].quantity <= fetched[FirstIndex(fetched, rest[i].id)].quantity
      {
        assert rest[i] == products[i + 1];
      }
    }
  }

  /** The requested lines asking for more than the stock of their first fetched
      match (`findProductsWithUnavailableQuantity`). */
  function Unavailable(products: seq<RequestedProduct>, fetched: seq<CatalogProduct>): (r: seq<RequestedProduct>)
    requires AllFound(products, fetched)
    ensures |r| == 0 <==> AllAvailable(products, fetched)
  {
    if products == [] then []
    else
      assert AllFound(products[1..], fetched) by {
        forall i | 0 <= i < |products| - 1 ensures products[1..][i].id in Ids(fetched) {
          assert products[1..][i] == products[i + 1];
        }
      }
      var rest := Unavailable(products[1..], fetched);
      AvailableStep(products, fetched);
      if FirstMatch(fetched, products[0].id).quantity < products[0].quantity then [products[0]] + rest else rest
  }

  /** The line items (`serializedProducts`): one per requested line, in the
      requested order, with the price of the first fetched match. */
  function Serialize(products: seq<RequestedProduct>, fetched: seq<CatalogProduct>): (r: seq<LineItem>)
    requires AllFound(products, fetched)
    ensures |r| == |products|
    ensures forall i :: 0 <= i < |products| ==>
      && r[i].productId == products[i].id
      && r[i].quantity == products[i].quantity
      && FirstIndex(fetched, products[i].id) < |fetched|
      && r[i].price == fetched[FirstIndex(fetched, products[i].id)].price
  {
    seq(|products|, i requires 0 <= i < |products| =>
      LineItem(products[i].id, products[i].quantity, FirstMatch(fetched, products[i].id).price))
  }

  /** Every line item names a fetched product. */
  predicate AllItemsFound(items: seq<LineItem>, fetched: seq<CatalogProduct>)
  {
    forall i :: 0 <= i < |items| ==> items[i].productId in Ids(fetched)
  }

  /** The new stock levels (`productsQuantity`): for each line item, the stock of
      its first fetched match minus the quantity of that line. */
  function NewQuantities(items: seq<LineItem>, fetched: seq<CatalogProduct>): (r: seq<StockUpdate>)
    requires AllItemsFound(items, fetched)
    ensures |r| == |items|
    ensures forall i :: 0 <= i < |items| ==>
      && FirstIndex(fetched, items[i].productId) < |fetched|
      && r[i] == StockUpdate(items[i].productId,
                   fetched[FirstIndex(fetched, items[i].productId)].quantity - items[i].quantity)
  {
    seq(|items|, i requires 0 <= i < |items| =>
      StockUpdate(items[i].productId, FirstMatch(fetched, items[i].productId).quantity - items[i].quantity))
  }
}
