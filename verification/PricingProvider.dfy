/** The pricing provider: an object that updates its price table and its set of unknown products. */
module PricingProvider {
  import opened Base
  import opened Ordering
  import opened Pricing

  class Provider {
    var onDemandPrices: map<string, real>
    var unsupportedProducts: set<string>

    ghost function Value(): State
      reads this
    {
      State(onDemandPrices, unsupportedProducts)
    }

    constructor ()
      ensures Value() == State(map[], {})
    {
      onDemandPrices, unsupportedProducts := map[], {};
    }

    method OnDemandPage(ratings: seq<Rating>) returns (page: map<string, real>)
      ensures page == PageOf(ratings)
    {
      page := map[];
      for i := 0 to |ratings|
        invariant page == PageOf(ratings[..i])
      {
        assert ratings[..i + 1][..i] == ratings[..i];
        var price := PriceOf(ratings[i]);
        if ratings[i].id.None? || price <= 0.0 {
          continue;
        }
        page := page[ratings[i].id.value := price];
      }
      assert ratings[..|ratings|] == ratings;
    }

    method FilterOut(products: seq<Product>, spec: string) returns (filtered: seq<Product>, removed: seq<Product>)
      ensures filtered == Keep(products, spec) && removed == Drop(products, spec)
    {
      filtered, removed := [], [];
      for i := 0 to |products|
        invariant filtered == Keep(products[..i], spec) && removed == Drop(products[..i], spec)
      {
        assert products[..i + 1][..i] == products[..i];
        if products[i].resourceSpec == spec {
          removed := removed + [products[i]];
          continue;
        }
        filtered := filtered + [products[i]];
      }
      assert products[..|products|] == products;
    }

    method MarkUnsupported(products: seq<Product>)
      modifies this`unsupportedProducts
      ensures unsupportedProducts == old(unsupportedProducts) + Names(products)
    {
      for i := 0 to |products|
        invariant unsupportedProducts == old(unsupportedProducts) + Names(products[..i])
      {
        assert products[..i + 1] == products[..i] + [products[i]];
        assert Names(products[..i + 1]) == Names(products[..i]) + {products[i].instanceType};
        if products[i].instanceType in unsupportedProducts {
          continue;
        }
        unsupportedProducts := unsupportedProducts + {products[i].instanceType};
      }
      assert products[..|products|] == products;
    }

    /** One request for `remaining`, the `n`-th of the update: its outcome, or the products to ask for next. */
    method AskOnce(remaining: seq<Product>, sent: seq<Request>, replies: nat -> Reply, n: nat, ghost goal: Fetched)
      returns (end: Option<Result<map<string, real>, string>>, rest: seq<Product>)
      requires remaining != []
      requires goal == Prepend(sent, FetchBatch(remaining, unsupportedProducts, replies, n))
      modifies this`unsupportedProducts
      ensures end.Some? ==>
                goal == Fetched(sent + [Request(remaining, old(unsupportedProducts))], unsupportedProducts, end.value)
      ensures end.None? ==> |rest| < |remaining|
      ensures end.None? ==>
                goal == Prepend(sent + [Request(remaining, old(unsupportedProducts))],
                                FetchBatch(rest, unsupportedProducts, replies, n + 1))
    {
      BatchTurn(sent, remaining, unsupportedProducts, replies, n, goal);
      match replies(n)
      case Rated(ratings) =>
        var page := OnDemandPage(ratings);
        return Some(Ok(page)), [];
      case Failed(message) =>
        return Some(Err(message)), [];
      case NotFound(spec) =>
        var filtered, removed := FilterOut(remaining, spec);
        if removed == [] {
          return Some(Err(spec)), [];
        }
        KeepDropMeaning(remaining, spec);
        MarkUnsupported(removed);
        return None, filtered;
    }

    /** Asks again without the product the cloud could not find, until it answers. */
    method FetchOnDemandPricingBatch(products: seq<Product>, replies: nat -> Reply, k: nat)
      returns (outcome: Result<map<string, real>, string>, requests: seq<Request>)
      modifies this`unsupportedProducts
      ensures Fetched(requests, unsupportedProducts, outcome)
           == FetchBatch(products, old(unsupportedProducts), replies, k)
    {
      var remaining := products;
      requests := [];
      var n := k;
      ghost var goal := FetchBatch(products, unsupportedProducts, replies, k);
      assert Prepend([], goal) == goal;
      while remaining != []
        invariant n == k + |requests|
        invariant goal == Prepend(requests, FetchBatch(remaining, unsupportedProducts, replies, n))
        decreases |remaining|
      {
        var known := unsupportedProducts;
        var end, rest := AskOnce(remaining, requests, replies, n, goal);
        requests, n := requests + [Request(remaining, known)], n + 1;
        if end.Some? {
          return end.value, requests;
        }
        remaining := rest;
      }
      return Ok(map[]), requests;
    }

    /** One turn of the loop over batches; `goal` is what the whole loop comes to. */
    method FetchNext(rest: seq<Product>, sent: seq<Request>, prices: map<string, real>, replies: nat -> Reply,
                     ghost goal: Fetched)
      returns (page: Result<map<string, real>, string>, asked: seq<Request>)
      requires rest != []
      requires Prepend(sent, FetchAll(rest, unsupportedProducts, replies, |sent|, prices)) == goal
      modifies this`unsupportedProducts
      ensures page.Err? ==> goal == Fetched(sent + asked, unsupportedProducts, page)
      ensures page.Ok? ==>
                goal == Prepend(sent + asked, FetchAll(rest[|FirstBatch(rest)|..], unsupportedProducts, replies,
                                                       |sent + asked|, prices + page.value))
    {
      ghost var before := unsupportedProducts;
      page, asked := FetchOnDemandPricingBatch(FirstBatch(rest), replies, |sent|);
      FetchTurn(sent, rest, before, replies, prices, goal, asked, unsupportedProducts, page);
    }

    method FetchOnDemandPricing(products: seq<Product>, replies: nat -> Reply)
      returns (outcome: Result<map<string, real>, string>, requests: seq<Request>)
      modifies this`unsupportedProducts
      ensures Fetched(requests, unsupportedProducts, outcome)
           == FetchAll(products, old(unsupportedProducts), replies, 0, map[])
    {
      var prices: map<string, real> := map[];
      requests := [];
      ghost var goal := FetchAll(products, unsupportedProducts, replies, 0, prices);
      assert Prepend([], goal) == goal;
      var rest := products;
      while rest != []
        invariant Prepend(requests, FetchAll(rest, unsupportedProducts, replies, |requests|, prices)) == goal
        decreases |rest|
      {
        var page, asked := FetchNext(rest, requests, prices, replies, goal);
        requests := requests + asked;
        if page.Err? {
          return page, requests;
        }
        prices := prices + page.value;
        rest := rest[|FirstBatch(rest)|..];
      }
      return Ok(prices), requests;
    }

    method BuildDemandProductInfos(infos: map<string, FlavorRef>) returns (products: seq<Product>)
      ensures products == ProductsOf(infos, unsupportedProducts)
    {
      var names := SortedStrings(infos.Keys - unsupportedProducts);
      InOrderMeaning(infos.Keys - unsupportedProducts);
      products := [];
      for i := 0 to |names|
        invariant |products| == i
        invariant forall j :: 0 <= j < i ==>
                    names[j] in infos && products[j] == Product(names[j], ResourceSpec(infos[names[j]]))
      {
        assert names[i] in names;
        products := products + [Product(names[i], ResourceSpec(infos[names[i]]))];
      }
    }

    /** Replaces the price table; on failure the table stays and only the unknown products are kept. */
    method UpdateOnDemandPricing(projectID: string, infos: map<string, FlavorRef>, replies: nat -> Reply)
      returns (failed: bool, requests: seq<Request>)
      modifies this
      ensures (Value(), requests, failed) == Update(old(Value()), projectID, infos, replies)
    {
      if projectID == "" {
        return true, [];
      }
      if infos == map[] {
        return true, [];
      }
      var products := BuildDemandProductInfos(infos);
      var outcome, asked := FetchOnDemandPricing(products, replies);
      if outcome.Err? {
        return true, asked;
      }
      onDemandPrices := outcome.value;
      return false, asked;
    }
  }
}
