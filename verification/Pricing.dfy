/** On-demand prices, asked for in batches that shrink when the cloud does not know a product:
    the computation as functions of the cloud's replies, and what every update guarantees. */
module Pricing {
  import opened Base
  import opened Ordering

  const MAX_PRODUCTS_PER_BATCH: nat := 100

  datatype Product = Product(instanceType: string, resourceSpec: string)

  datatype FlavorRef = FlavorRef(id: string, name: string)

  /** One rated product; `amount` and `website` are its two optional prices. */
  datatype Rating = Rating(id: Option<string>, amount: Option<real>, website: Option<real>)

  /** The answer to one request: ratings, a product the cloud cannot find, or another error. */
  datatype Reply = Rated(ratings: seq<Rating>) | NotFound(resourceSpec: string) | Failed(message: string)

  /** One request, with the products known to be unsupported when it was sent. */
  datatype Request = Request(products: seq<Product>, known: set<string>)

  /** How a batch or an update went. */
  datatype Fetched = Fetched(requests: seq<Request>, unsupported: set<string>,
                             outcome: Result<map<string, real>, string>)

  function Prepend(requests: seq<Request>, f: Fetched): Fetched {
    Fetched(requests + f.requests, f.unsupported, f.outcome)
  }

  /** What two fetches, one after the other, come to. */
  function Join(first: Fetched, second: Fetched): Fetched {
    Prepend(first.requests, second)
  }

  function ResourceSpec(f: FlavorRef): string {
    (if f.id != "" then f.id else f.name) + ".linux"
  }

  function PriceOf(r: Rating): real {
    if r.amount.Some? then r.amount.value else if r.website.Some? then r.website.value else 0.0
  }

  /** Positive prices of identified products; the last rating of a product wins. */
  function PageOf(ratings: seq<Rating>): map<string, real> {
    if ratings == [] then map[] else
    var r := ratings[|ratings| - 1];
    var before := PageOf(ratings[..|ratings| - 1]);
    if r.id.Some? && 0.0 < PriceOf(r) then before[r.id.value := PriceOf(r)] else before
  }

  /** The rating gives the product this positive price: the amount, or without one the website's price. */
  predicate Rates(r: Rating, x: string, price: real) {
    && r.id == Some(x) && 0.0 < price
    && (r.amount == Some(price) || (r.amount == None && r.website == Some(price)))
  }

  /** A product is priced when some rating of it is positive; the last such rating gives the price. */
  lemma {:induction false} PageMeaning(ratings: seq<Rating>, x: string)
    ensures x in PageOf(ratings) <==> exists i, price :: 0 <= i < |ratings| && Rates(ratings[i], x, price)
    ensures forall i, price ::
              0 <= i < |ratings| && Rates(ratings[i], x, price)
              && (forall j, other :: i < j < |ratings| ==> !Rates(ratings[j], x, other)) ==>
              x in PageOf(ratings) && PageOf(ratings)[x] == price
  {
    if ratings != [] {
      var n := |ratings| - 1;
      PageMeaning(ratings[..n], x);
      forall i | 0 <= i < |ratings|
        ensures ratings[i].id == Some(x) && 0.0 < PriceOf(ratings[i]) <==> Rates(ratings[i], x, PriceOf(ratings[i]))
        ensures forall price :: Rates(ratings[i], x, price) ==> price == PriceOf(ratings[i])
      {
      }
      forall i | 0 <= i < n ensures ratings[..n][i] == ratings[i] {
      }
      if i, price :| 0 <= i < n && Rates(ratings[i], x, price) {
        assert Rates(ratings[..n][i], x, price);
      }
    }
  }

  function Keep(products: seq<Product>, spec: string): seq<Product> {
    if products == [] then [] else
    var n := |products| - 1;
    Keep(products[..n], spec) + if products[n].resourceSpec == spec then [] else [products[n]]
  }

  function Drop(products: seq<Product>, spec: string): seq<Product> {
    if products == [] then [] else
    var n := |products| - 1;
    Drop(products[..n], spec) + if products[n].resourceSpec == spec then [products[n]] else []
  }

  function Names(products: seq<Product>): set<string> {
    set p | p in products :: p.instanceType
  }

  lemma {:induction false} KeepMeaning(products: seq<Product>, spec: string)
    ensures forall p :: p in Keep(products, spec) <==> p in products && p.resourceSpec != spec
  {
    if products != [] {
      var n := |products| - 1;
      KeepMeaning(products[..n], spec);
      assert products == products[..n] + [products[n]];
    }
  }

  lemma {:induction false} DropMeaning(products: seq<Product>, spec: string)
    ensures forall p :: p in Drop(products, spec) <==> p in products && p.resourceSpec == spec
    ensures |Keep(products, spec)| + |Drop(products, spec)| == |products|
  {
    if products != [] {
      var n := |products| - 1;
      DropMeaning(products[..n], spec);
      assert products == products[..n] + [products[n]];
    }
  }

  lemma {:induction false} KeepDropMeaning(products: seq<Product>, spec: string)
    ensures forall p :: p in Keep(products, spec) <==> p in products && p.resourceSpec != spec
    ensures forall p :: p in Drop(products, spec) <==> p in products && p.resourceSpec == spec
    ensures |Keep(products, spec)| + |Drop(products, spec)| == |products|
  {
    KeepMeaning(products, spec);
    DropMeaning(products, spec);
  }

  /** The batch loop from its current `remaining`; `k` numbers the requests of the whole update. */
  function FetchBatch(remaining: seq<Product>, unsupported: set<string>, replies: nat -> Reply, k: nat): Fetched
    decreases |remaining|
  {
    if remaining == [] then Fetched([], unsupported, Ok(map[])) else
    var request := Request(remaining, unsupported);
    match replies(k)
    case Rated(ratings) => Fetched([request], unsupported, Ok(PageOf(ratings)))
    case Failed(message) => Fetched([request], unsupported, Err(message))
    case NotFound(spec) =>
      if Drop(remaining, spec) == [] then Fetched([request], unsupported, Err(spec)) else
      KeepDropMeaning(remaining, spec);
      Join(Fetched([request], unsupported, Err(spec)),
           FetchBatch(Keep(remaining, spec), unsupported + Names(Drop(remaining, spec)), replies, k + 1))
  }

  function FirstBatch(products: seq<Product>): seq<Product> {
    if |products| <= MAX_PRODUCTS_PER_BATCH then products else products[..MAX_PRODUCTS_PER_BATCH]
  }

  /** The loop over batches; later pages overwrite earlier ones. */
  function FetchAll(products: seq<Product>, unsupported: set<string>, replies: nat -> Reply, k: nat,
                    prices: map<string, real>): Fetched
    decreases |products|
  {
    if products == [] then Fetched([], unsupported, Ok(prices)) else
    var batch := FirstBatch(products);
    var b := FetchBatch(batch, unsupported, replies, k);
    if b.outcome.Err? then b else
    Join(b, FetchAll(products[|batch|..], b.unsupported, replies, k + |b.requests|, prices + b.outcome.value))
  }

  /** The products of the flavors not known to be unsupported, by name. */
  ghost function ProductsOf(infos: map<string, FlavorRef>, unsupported: set<string>): seq<Product> {
    var names := InOrder(infos.Keys - unsupported);
    InOrderMeaning(infos.Keys - unsupported);
    seq(|names|, i requires 0 <= i < |names| =>
      assert names[i] in names; Product(names[i], ResourceSpec(infos[names[i]])))
  }

  /** The provider between updates. */
  datatype State = State(prices: map<string, real>, unsupported: set<string>)

  /** One update: the new state, the requests sent and whether it failed. */
  ghost function Update(s: State, projectID: string, infos: map<string, FlavorRef>, replies: nat -> Reply)
    : (State, seq<Request>, bool)
  {
    if projectID == "" || infos == map[] then (s, [], true) else
    var f := FetchAll(ProductsOf(infos, s.unsupported), s.unsupported, replies, 0, map[]);
    if f.outcome.Ok? then (State(f.outcome.value, f.unsupported), f.requests, false)
    else (s.(unsupported := f.unsupported), f.requests, true)
  }

  /** One turn of the batch loop, of which `goal` is the outcome: it ends, or goes on with fewer products. */
  lemma BatchTurn(sent: seq<Request>, remaining: seq<Product>, unsupported: set<string>, replies: nat -> Reply, k: nat,
                  goal: Fetched)
    requires remaining != []
    requires goal == Prepend(sent, FetchBatch(remaining, unsupported, replies, k))
    ensures replies(k).Rated? ==>
              goal == Fetched(sent + [Request(remaining, unsupported)], unsupported, Ok(PageOf(replies(k).ratings)))
    ensures replies(k).Failed? ==>
              goal == Fetched(sent + [Request(remaining, unsupported)], unsupported, Err(replies(k).message))
    ensures replies(k).NotFound? && Drop(remaining, replies(k).resourceSpec) == [] ==>
              goal == Fetched(sent + [Request(remaining, unsupported)], unsupported, Err(replies(k).resourceSpec))
    ensures replies(k).NotFound? && Drop(remaining, replies(k).resourceSpec) != [] ==>
              goal == Prepend(sent + [Request(remaining, unsupported)],
                              FetchBatch(Keep(remaining, replies(k).resourceSpec),
                                         unsupported + Names(Drop(remaining, replies(k).resourceSpec)), replies, k + 1))
  {
    if replies(k).NotFound? && Drop(remaining, replies(k).resourceSpec) != [] {
      var spec := replies(k).resourceSpec;
      KeepDropMeaning(remaining, spec);
      PrependJoin(sent, Fetched([Request(remaining, unsupported)], unsupported, Err(spec)),
                  FetchBatch(Keep(remaining, spec), unsupported + Names(Drop(remaining, spec)), replies, k + 1));
    }
  }

  /** One turn of the loop over batches: `goal` is what the loop comes to from here, and the first
      batch ended in `asked`, `after` and `page`. */
  lemma FetchTurn(sent: seq<Request>, products: seq<Product>, unsupported: set<string>, replies: nat -> Reply,
                  prices: map<string, real>, goal: Fetched,
                  asked: seq<Request>, after: set<string>, page: Result<map<string, real>, string>)
    requires products != []
    requires goal == Prepend(sent, FetchAll(products, unsupported, replies, |sent|, prices))
    requires Fetched(asked, after, page) == FetchBatch(FirstBatch(products), unsupported, replies, |sent|)
    ensures page.Err? ==> goal == Fetched(sent + asked, after, page)
    ensures page.Ok? ==> goal == Prepend(sent + asked, FetchAll(products[|FirstBatch(products)|..], after, replies,
                                                                |sent + asked|, prices + page.value))
  {
    var b := Fetched(asked, after, page);
    if page.Ok? {
      assert |sent + asked| == |sent| + |asked|;
      var rest := FetchAll(products[|FirstBatch(products)|..], after, replies, |sent + asked|, prices + page.value);
      assert FetchAll(products, unsupported, replies, |sent|, prices) == Join(b, rest);
      PrependJoin(sent, b, rest);
    } else {
      assert FetchAll(products, unsupported, replies, |sent|, prices) == b;
    }
  }

  lemma PrependJoin(sent: seq<Request>, first: Fetched, second: Fetched)
    ensures Prepend(sent, Join(first, second)) == Prepend(sent + first.requests, second)
  {
    assert sent + (first.requests + second.requests) == sent + first.requests + second.requests;
  }

  // ---------- one batch ----------

  ghost predicate DistinctProducts(products: seq<Product>) {
    forall i, j :: 0 <= i < j < |products| ==> products[i].instanceType != products[j].instanceType
  }

  lemma {:induction false} KeepIsDistinct(products: seq<Product>, spec: string)
    requires DistinctProducts(products)
    ensures DistinctProducts(Keep(products, spec))
    ensures Names(Keep(products, spec)) !! Names(Drop(products, spec))
  {
    if products != [] {
      var n := |products| - 1;
      KeepIsDistinct(products[..n], spec);
      KeepDropMeaning(products[..n], spec);
      assert products[n] !in products[..n];
    }
  }

  /** Requests are non-empty, ask only for what is left of `products`, and never for a product
      known to be unsupported at that moment; what is known only grows. */
  ghost predicate SoundRequests(requests: seq<Request>, products: seq<Product>, before: set<string>,
                                after: set<string>) {
    && (forall i :: 0 <= i < |requests| ==>
          && 1 <= |requests[i].products| <= MAX_PRODUCTS_PER_BATCH
          && (forall p :: p in requests[i].products ==> p in products && p.instanceType !in requests[i].known)
          && before <= requests[i].known <= after)
    && (forall i, j :: 0 <= i < j < |requests| ==> requests[i].known <= requests[j].known)
  }

  /** At most one request per product, all sound, and only these products become unsupported. */
  ghost predicate SoundFetch(f: Fetched, products: seq<Product>, before: set<string>) {
    && |f.requests| <= |products|
    && before <= f.unsupported <= before + Names(products)
    && SoundRequests(f.requests, products, before, f.unsupported)
  }

  /** The batch loop ends after at most as many requests as products, each sound. */
  lemma {:induction false} BatchIsSound(remaining: seq<Product>, unsupported: set<string>, replies: nat -> Reply,
                                        k: nat)
    requires DistinctProducts(remaining) && |remaining| <= MAX_PRODUCTS_PER_BATCH
    requires Names(remaining) !! unsupported
    ensures SoundFetch(FetchBatch(remaining, unsupported, replies, k), remaining, unsupported)
    decreases |remaining|
  {
    if remaining != [] && replies(k).NotFound? && Drop(remaining, replies(k).resourceSpec) != [] {
      var spec := replies(k).resourceSpec;
      var unsupported' := unsupported + Names(Drop(remaining, spec));
      KeepDropMeaning(remaining, spec);
      KeepIsDistinct(remaining, spec);
      BatchIsSound(Keep(remaining, spec), unsupported', replies, k + 1);
      var rest := FetchBatch(Keep(remaining, spec), unsupported', replies, k + 1);
      RetryIsSound(remaining, spec, unsupported, rest);
      assert FetchBatch(remaining, unsupported, replies, k)
          == Join(Fetched([Request(remaining, unsupported)], unsupported, Err(spec)), rest);
    }
  }

  lemma SoundConcat(a: seq<Request>, b: seq<Request>, left: seq<Product>, right: seq<Product>,
                    before: set<string>, middle: set<string>, after: set<string>)
    requires SoundRequests(a, left, before, middle) && SoundRequests(b, right, middle, after)
    requires before <= middle <= after
    ensures SoundRequests(a + b, left + right, before, after)
  {
    var all := a + b;
    forall i | 0 <= i < |all|
      ensures 1 <= |all[i].products| <= MAX_PRODUCTS_PER_BATCH
      ensures forall p :: p in all[i].products ==> p in left + right && p.instanceType !in all[i].known
      ensures before <= all[i].known <= after
    {
      assert all[i] == if i < |a| then a[i] else b[i - |a|];
    }
    forall i, j | 0 <= i < j < |all| ensures all[i].known <= all[j].known {
      assert all[i] == if i < |a| then a[i] else b[i - |a|];
      assert all[j] == if j < |a| then a[j] else b[j - |a|];
    }
  }

  lemma RetryIsSound(remaining: seq<Product>, spec: string, unsupported: set<string>, rest: Fetched)
    requires 1 <= |remaining| <= MAX_PRODUCTS_PER_BATCH && Names(remaining) !! unsupported
    requires Drop(remaining, spec) != []
    requires SoundFetch(rest, Keep(remaining, spec), unsupported + Names(Drop(remaining, spec)))
    ensures SoundFetch(Join(Fetched([Request(remaining, unsupported)], unsupported, Err(spec)), rest),
                       remaining, unsupported)
  {
    var kept, dropped := Keep(remaining, spec), Drop(remaining, spec);
    KeepDropMeaning(remaining, spec);
    assert Names(kept) <= Names(remaining) && Names(dropped) <= Names(remaining);
    assert SoundRequests([Request(remaining, unsupported)], remaining, unsupported, unsupported + Names(dropped)) by {
      forall p | p in remaining ensures p.instanceType !in unsupported {
        assert p.instanceType in Names(remaining);
      }
    }
    SoundConcat([Request(remaining, unsupported)], rest.requests, remaining, kept,
                unsupported, unsupported + Names(dropped), rest.unsupported);
    SoundNarrow([Request(remaining, unsupported)] + rest.requests, remaining, kept, unsupported, rest.unsupported);
  }

  lemma SoundNarrow(a: seq<Request>, products: seq<Product>, some: seq<Product>, before: set<string>,
                    after: set<string>)
    requires SoundRequests(a, products + some, before, after)
    requires forall p :: p in some ==> p in products
    ensures SoundRequests(a, products, before, after)
  {
  }

  predicate Answered(f: Fetched, replies: nat -> Reply, k: nat) {
    f.requests != [] && replies(k + |f.requests| - 1).Rated?
  }

  /** Every product was in the request that was answered, or is unsupported; the prices are those of
      that answer; all earlier requests named an unknown product. */
  ghost predicate AccountsForAll(f: Fetched, products: seq<Product>, replies: nat -> Reply, k: nat) {
    && f.outcome.Ok?
    && (forall p :: p in products ==>
          || p.instanceType in f.unsupported
          || (Answered(f, replies, k) && p in f.requests[|f.requests| - 1].products))
    && f.outcome.value == (if Answered(f, replies, k) then PageOf(replies(k + |f.requests| - 1).ratings) else map[])
    && (forall i :: k <= i < k + |f.requests| - 1 ==> replies(i).NotFound?)
  }

  lemma {:induction false} BatchAccountsForAll(remaining: seq<Product>, unsupported: set<string>,
                                               replies: nat -> Reply, k: nat)
    requires FetchBatch(remaining, unsupported, replies, k).outcome.Ok?
    ensures AccountsForAll(FetchBatch(remaining, unsupported, replies, k), remaining, replies, k)
    decreases |remaining|
  {
    if remaining != [] && replies(k).NotFound? {
      var spec := replies(k).resourceSpec;
      var unsupported' := unsupported + Names(Drop(remaining, spec));
      var rest := FetchBatch(Keep(remaining, spec), unsupported', replies, k + 1);
      var first := Fetched([Request(remaining, unsupported)], unsupported, Err(spec));
      KeepDropMeaning(remaining, spec);
      assert FetchBatch(remaining, unsupported, replies, k) == Join(first, rest);
      BatchAccountsForAll(Keep(remaining, spec), unsupported', replies, k + 1);
      BatchKeepsKnown(Keep(remaining, spec), unsupported', replies, k + 1);
      RetryAccounts(remaining, spec, unsupported, rest, replies, k);
    }
  }

  lemma RetryAccounts(remaining: seq<Product>, spec: string, unsupported: set<string>, rest: Fetched,
                      replies: nat -> Reply, k: nat)
    requires AccountsForAll(rest, Keep(remaining, spec), replies, k + 1)
    requires Names(Drop(remaining, spec)) <= rest.unsupported && replies(k).NotFound?
    ensures AccountsForAll(Join(Fetched([Request(remaining, unsupported)], unsupported, Err(spec)), rest),
                           remaining, replies, k)
  {
    var f := Join(Fetched([Request(remaining, unsupported)], unsupported, Err(spec)), rest);
    KeepDropMeaning(remaining, spec);
    assert rest.requests != [] ==> f.requests[|f.requests| - 1] == rest.requests[|rest.requests| - 1];
    assert k + |f.requests| - 1 == k + 1 + |rest.requests| - 1;
    assert Answered(f, replies, k) == Answered(rest, replies, k + 1);
    forall p | p in remaining
      ensures || p.instanceType in f.unsupported
              || (Answered(f, replies, k) && p in f.requests[|f.requests| - 1].products)
    {
      if p.resourceSpec == spec {
        assert p in Drop(remaining, spec) && p.instanceType in Names(Drop(remaining, spec));
      } else {
        assert p in Keep(remaining, spec);
      }
    }
  }

  lemma {:induction false} BatchKeepsKnown(remaining: seq<Product>, unsupported: set<string>, replies: nat -> Reply,
                                           k: nat)
    ensures unsupported <= FetchBatch(remaining, unsupported, replies, k).unsupported
    decreases |remaining|
  {
    if remaining != [] && replies(k).NotFound? && Drop(remaining, replies(k).resourceSpec) != [] {
      KeepDropMeaning(remaining, replies(k).resourceSpec);
      BatchKeepsKnown(Keep(remaining, replies(k).resourceSpec),
                      unsupported + Names(Drop(remaining, replies(k).resourceSpec)), replies, k + 1);
    }
  }

  // ---------- one update ----------

  lemma SplitNames(left: seq<Product>, right: seq<Product>)
    requires DistinctProducts(left + right)
    ensures DistinctProducts(left) && DistinctProducts(right)
    ensures Names(left) !! Names(right) && Names(left + right) == Names(left) + Names(right)
  {
    var all := left + right;
    forall i, j | 0 <= i < j < |left| ensures left[i].instanceType != left[j].instanceType {
      assert all[i] == left[i] && all[j] == left[j];
    }
    forall i, j | 0 <= i < j < |right| ensures right[i].instanceType != right[j].instanceType {
      assert all[|left| + i] == right[i] && all[|left| + j] == right[j];
    }
    forall p, q | p in left && q in right ensures p.instanceType != q.instanceType {
      var i :| 0 <= i < |left| && left[i] == p;
      var j :| 0 <= j < |right| && right[j] == q;
      assert all[i] == p && all[|left| + j] == q;
    }
    assert forall p :: p in left + right <==> p in left || p in right;
  }

  lemma JoinIsSound(first: Fetched, second: Fetched, left: seq<Product>, right: seq<Product>, before: set<string>,
                    f: Fetched, products: seq<Product>)
    requires SoundFetch(first, left, before) && SoundFetch(second, right, first.unsupported)
    requires f == Join(first, second) && products == left + right
    ensures SoundFetch(f, products, before)
  {
    SoundConcat(first.requests, second.requests, left, right, before, first.unsupported, second.unsupported);
    assert forall p :: p in left + right <==> p in left || p in right;
    assert Names(left) <= Names(left + right) && Names(right) <= Names(left + right);
  }

  lemma WidenIsSound(first: Fetched, left: seq<Product>, right: seq<Product>, before: set<string>,
                     products: seq<Product>)
    requires SoundFetch(first, left, before) && products == left + right
    ensures SoundFetch(first, products, before)
  {
    assert forall p :: p in left ==> p in left + right;
    assert Names(left) <= Names(left + right);
  }

  lemma FirstBatchIsSound(products: seq<Product>, unsupported: set<string>, replies: nat -> Reply, k: nat)
    requires DistinctProducts(products) && Names(products) !! unsupported
    ensures var batch := FirstBatch(products);
            var b := FetchBatch(batch, unsupported, replies, k);
            && SoundFetch(b, batch, unsupported)
            && DistinctProducts(products[|batch|..]) && Names(products[|batch|..]) !! b.unsupported
  {
    var batch := FirstBatch(products);
    assert products == batch + products[|batch|..];
    SplitNames(batch, products[|batch|..]);
    BatchIsSound(batch, unsupported, replies, k);
  }

  /** All batches together: at most one request per product, all sound. */
  lemma {:induction false} FetchIsSound(products: seq<Product>, unsupported: set<string>, replies: nat -> Reply, k: nat,
                                        prices: map<string, real>)
    requires DistinctProducts(products) && Names(products) !! unsupported
    ensures SoundFetch(FetchAll(products, unsupported, replies, k, prices), products, unsupported)
    decreases |products|
  {
    if products != [] {
      var batch := FirstBatch(products);
      var tail := products[|batch|..];
      assert products == batch + tail;
      FirstBatchIsSound(products, unsupported, replies, k);
      var b := FetchBatch(batch, unsupported, replies, k);
      if b.outcome.Ok? {
        var rest := FetchAll(tail, b.unsupported, replies, k + |b.requests|, prices + b.outcome.value);
        FetchIsSound(tail, b.unsupported, replies, k + |b.requests|, prices + b.outcome.value);
        JoinIsSound(b, rest, batch, tail, unsupported, FetchAll(products, unsupported, replies, k, prices), products);
      } else {
        WidenIsSound(b, batch, tail, unsupported, products);
      }
    }
  }

  /** The page of an answered request; empty for any other. */
  function PageAt(replies: nat -> Reply, i: nat): map<string, real> {
    if replies(i).Rated? then PageOf(replies(i).ratings) else map[]
  }

  /** All pages from request `k` on, later ones overwriting earlier ones. */
  function Pages(replies: nat -> Reply, k: nat, n: nat, prices: map<string, real>): map<string, real> {
    if n == 0 then prices else Pages(replies, k, n - 1, prices) + PageAt(replies, k + n - 1)
  }

  lemma {:induction false} PagesConcat(replies: nat -> Reply, k: nat, m: nat, n: nat, prices: map<string, real>)
    ensures Pages(replies, k, m + n, prices) == Pages(replies, k + m, n, Pages(replies, k, m, prices))
  {
    if 0 < n {
      PagesConcat(replies, k, m, n - 1, prices);
    }
  }

  lemma {:induction false} NoPages(replies: nat -> Reply, k: nat, n: nat, prices: map<string, real>)
    requires forall i :: k <= i < k + n ==> !replies(i).Rated?
    ensures Pages(replies, k, n, prices) == prices
  {
    if 0 < n {
      NoPages(replies, k, n - 1, prices);
    }
  }

  /** The product was in a request, numbered from `k`, that was answered with ratings. */
  ghost predicate WasRated(requests: seq<Request>, replies: nat -> Reply, k: nat, p: Product) {
    exists i :: k <= i < k + |requests| && replies(i).Rated? && p in requests[i - k].products
  }

  lemma RatedConcat(a: seq<Request>, b: seq<Request>, replies: nat -> Reply, k: nat, p: Product)
    requires WasRated(a, replies, k, p) || WasRated(b, replies, k + |a|, p)
    ensures WasRated(a + b, replies, k, p)
  {
    if WasRated(a, replies, k, p) {
      var i :| k <= i < k + |a| && replies(i).Rated? && p in a[i - k].products;
      assert (a + b)[i - k] == a[i - k];
    } else {
      var i :| k + |a| <= i < k + |a| + |b| && replies(i).Rated? && p in b[i - (k + |a|)].products;
      assert (a + b)[i - k] == b[i - (k + |a|)];
    }
  }

  ghost predicate AllRated(f: Fetched, products: seq<Product>, replies: nat -> Reply, k: nat) {
    forall p :: p in products ==> p.instanceType in f.unsupported || WasRated(f.requests, replies, k, p)
  }

  lemma BatchRates(batch: seq<Product>, unsupported: set<string>, replies: nat -> Reply, k: nat)
    requires FetchBatch(batch, unsupported, replies, k).outcome.Ok?
    ensures AllRated(FetchBatch(batch, unsupported, replies, k), batch, replies, k)
  {
    BatchAccountsForAll(batch, unsupported, replies, k);
    var f := FetchBatch(batch, unsupported, replies, k);
    forall p | p in batch && p.instanceType !in f.unsupported ensures WasRated(f.requests, replies, k, p) {
      var i := k + |f.requests| - 1;
      assert replies(i).Rated? && p in f.requests[i - k].products;
    }
  }

  lemma JoinRates(first: Fetched, second: Fetched, left: seq<Product>, right: seq<Product>, replies: nat -> Reply,
                  k: nat)
    requires AllRated(first, left, replies, k) && AllRated(second, right, replies, k + |first.requests|)
    requires first.unsupported <= second.unsupported
    ensures AllRated(Join(first, second), left + right, replies, k)
  {
    forall p | p in left + right && p.instanceType !in second.unsupported
      ensures WasRated(first.requests + second.requests, replies, k, p)
    {
      assert p in left || p in right;
      RatedConcat(first.requests, second.requests, replies, k, p);
    }
  }

  /** On success every product was in an answered request or is unsupported. */
  lemma {:induction false} FetchRatesAll(products: seq<Product>, unsupported: set<string>, replies: nat -> Reply,
                                         k: nat, prices: map<string, real>)
    ensures var f := FetchAll(products, unsupported, replies, k, prices);
            && unsupported <= f.unsupported
            && (f.outcome.Ok? ==> AllRated(f, products, replies, k))
    decreases |products|
  {
    if products != [] {
      var batch := FirstBatch(products);
      var tail := products[|batch|..];
      assert products == batch + tail;
      var b := FetchBatch(batch, unsupported, replies, k);
      BatchKeepsKnown(batch, unsupported, replies, k);
      if b.outcome.Ok? {
        var rest := FetchAll(tail, b.unsupported, replies, k + |b.requests|, prices + b.outcome.value);
        FetchRatesAll(tail, b.unsupported, replies, k + |b.requests|, prices + b.outcome.value);
        assert FetchAll(products, unsupported, replies, k, prices) == Join(b, rest);
        if rest.outcome.Ok? {
          BatchRates(batch, unsupported, replies, k);
          JoinRates(b, rest, batch, tail, replies, k);
        }
      }
    }
  }

  ghost predicate HoldsPages(f: Fetched, replies: nat -> Reply, k: nat, prices: map<string, real>) {
    f.outcome.Ok? ==> f.outcome.value == Pages(replies, k, |f.requests|, prices)
  }

  lemma JoinPages(first: Fetched, second: Fetched, replies: nat -> Reply, k: nat, prices: map<string, real>,
                  middle: map<string, real>, f: Fetched)
    requires middle == Pages(replies, k, |first.requests|, prices)
    requires HoldsPages(second, replies, k + |first.requests|, middle)
    requires f == Join(first, second)
    ensures HoldsPages(f, replies, k, prices)
  {
    PagesConcat(replies, k, |first.requests|, |second.requests|, prices);
  }

  /** On success the table holds exactly the prices of the answers, later ones overwriting earlier. */
  lemma {:induction false} FetchPages(products: seq<Product>, unsupported: set<string>, replies: nat -> Reply, k: nat,
                                      prices: map<string, real>)
    ensures HoldsPages(FetchAll(products, unsupported, replies, k, prices), replies, k, prices)
    decreases |products|
  {
    if products != [] {
      var batch := FirstBatch(products);
      var tail := products[|batch|..];
      var b := FetchBatch(batch, unsupported, replies, k);
      if b.outcome.Ok? {
        var middle := prices + b.outcome.value;
        var rest := FetchAll(tail, b.unsupported, replies, k + |b.requests|, middle);
        FetchPages(tail, b.unsupported, replies, k + |b.requests|, middle);
        BatchPages(batch, unsupported, replies, k, prices);
        JoinPages(b, rest, replies, k, prices, middle, FetchAll(products, unsupported, replies, k, prices));
      }
    }
  }

  lemma BatchPages(batch: seq<Product>, unsupported: set<string>, replies: nat -> Reply, k: nat,
                   prices: map<string, real>)
    requires FetchBatch(batch, unsupported, replies, k).outcome.Ok?
    ensures var b := FetchBatch(batch, unsupported, replies, k);
            Pages(replies, k, |b.requests|, prices) == prices + b.outcome.value
  {
    BatchAccountsForAll(batch, unsupported, replies, k);
    PagesOfOneAnswer(FetchBatch(batch, unsupported, replies, k), batch, replies, k, prices);
  }

  lemma PagesOfOneAnswer(f: Fetched, products: seq<Product>, replies: nat -> Reply, k: nat, prices: map<string, real>)
    requires AccountsForAll(f, products, replies, k)
    ensures Pages(replies, k, |f.requests|, prices) == prices + f.outcome.value
  {
    if f.requests != [] {
      NoPages(replies, k, |f.requests| - 1, prices);
    } else {
      assert prices + map[] == prices;
    }
  }

  /** What the pages hold: the price of the last answer that rates the product. */
  lemma {:induction false} PagesMeaning(replies: nat -> Reply, k: nat, n: nat, x: string)
    ensures x in Pages(replies, k, n, map[]) <==> exists i :: k <= i < k + n && x in PageAt(replies, i)
    ensures forall i ::
              k <= i < k + n && x in PageAt(replies, i) && (forall j :: i < j < k + n ==> x !in PageAt(replies, j)) ==>
              Pages(replies, k, n, map[])[x] == PageAt(replies, i)[x]
  {
    if 0 < n {
      PagesMeaning(replies, k, n - 1, x);
    }
  }

  // ---------- who becomes unsupported ----------

  /** Some request, numbered from `k`, held the product when the cloud could not find its specification. */
  ghost predicate Blamed(requests: seq<Request>, replies: nat -> Reply, k: nat, x: string) {
    exists i, p :: k <= i < k + |requests| && p in requests[i - k].products
                && replies(i) == NotFound(p.resourceSpec) && p.instanceType == x
  }

  lemma BlamedConcat(a: seq<Request>, b: seq<Request>, replies: nat -> Reply, k: nat, x: string)
    ensures Blamed(a + b, replies, k, x) <==> Blamed(a, replies, k, x) || Blamed(b, replies, k + |a|, x)
  {
    if Blamed(a, replies, k, x) {
      var i, p :| k <= i < k + |a| && p in a[i - k].products && replies(i) == NotFound(p.resourceSpec)
               && p.instanceType == x;
      assert (a + b)[i - k] == a[i - k];
    }
    if Blamed(b, replies, k + |a|, x) {
      var i, p :| k + |a| <= i < k + |a| + |b| && p in b[i - (k + |a|)].products
               && replies(i) == NotFound(p.resourceSpec) && p.instanceType == x;
      assert (a + b)[i - k] == b[i - (k + |a|)];
    }
  }

  /** What is known to be unsupported before request `j`, or at the end. */
  function KnownAt(f: Fetched, j: nat): set<string>
    requires j <= |f.requests|
  {
    if j < |f.requests| then f.requests[j].known else f.unsupported
  }

  ghost predicate KnownIsBlamed(f: Fetched, replies: nat -> Reply, k: nat, before: set<string>, j: nat) {
    j <= |f.requests| ==> forall x :: x in KnownAt(f, j) <==> x in before || Blamed(f.requests[..j], replies, k, x)
  }

  /** At every moment exactly the products blamed so far are newly unsupported. */
  ghost predicate MarksBlamed(f: Fetched, replies: nat -> Reply, k: nat, before: set<string>) {
    forall j: nat :: KnownIsBlamed(f, replies, k, before, j)
  }

  lemma JoinMarks(first: Fetched, second: Fetched, replies: nat -> Reply, k: nat, before: set<string>)
    requires MarksBlamed(first, replies, k, before)
    requires MarksBlamed(second, replies, k + |first.requests|, first.unsupported)
    ensures MarksBlamed(Join(first, second), replies, k, before)
  {
    var f, n := Join(first, second), |first.requests|;
    forall j: nat ensures KnownIsBlamed(f, replies, k, before, j) {
      assert KnownIsBlamed(first, replies, k, before, if j < n then j else n);
      if j < n {
        assert f.requests[..j] == first.requests[..j];
      } else if j <= |f.requests| {
        assert KnownIsBlamed(second, replies, k + n, first.unsupported, j - n);
        assert first.requests[..n] == first.requests;
        assert f.requests[..j] == first.requests + second.requests[..j - n];
        forall x: string {
          BlamedConcat(first.requests, second.requests[..j - n], replies, k, x);
        }
      }
    }
  }

  lemma MarksAtEnd(f: Fetched, replies: nat -> Reply, k: nat, before: set<string>)
    requires MarksBlamed(f, replies, k, before)
    ensures forall x :: x in f.unsupported <==> x in before || Blamed(f.requests, replies, k, x)
  {
    assert KnownIsBlamed(f, replies, k, before, |f.requests|);
    assert f.requests[..|f.requests|] == f.requests;
  }

  lemma OneRequestMarks(remaining: seq<Product>, unsupported: set<string>, replies: nat -> Reply, k: nat,
                        outcome: Result<map<string, real>, string>)
    ensures var marked := if replies(k).NotFound? then Names(Drop(remaining, replies(k).resourceSpec)) else {};
            MarksBlamed(Fetched([Request(remaining, unsupported)], unsupported + marked, outcome),
                        replies, k, unsupported)
  {
    var requests := [Request(remaining, unsupported)];
    assert requests[..1] == requests;
    if replies(k).NotFound? {
      var spec := replies(k).resourceSpec;
      KeepDropMeaning(remaining, spec);
      forall x ensures x in Names(Drop(remaining, spec)) <==> Blamed(requests, replies, k, x) {
        if x in Names(Drop(remaining, spec)) {
          var p :| p in Drop(remaining, spec) && p.instanceType == x;
          assert p in requests[k - k].products && replies(k) == NotFound(p.resourceSpec);
        }
      }
    }
  }

  lemma {:induction false} BatchMarks(remaining: seq<Product>, unsupported: set<string>, replies: nat -> Reply, k: nat)
    ensures MarksBlamed(FetchBatch(remaining, unsupported, replies, k), replies, k, unsupported)
    decreases |remaining|
  {
    if remaining != [] {
      var f := FetchBatch(remaining, unsupported, replies, k);
      OneRequestMarks(remaining, unsupported, replies, k, f.outcome);
      if replies(k).NotFound? && Drop(remaining, replies(k).resourceSpec) != [] {
        var spec := replies(k).resourceSpec;
        var unsupported' := unsupported + Names(Drop(remaining, spec));
        KeepDropMeaning(remaining, spec);
        BatchMarks(Keep(remaining, spec), unsupported', replies, k + 1);
        var rest := FetchBatch(Keep(remaining, spec), unsupported', replies, k + 1);
        JoinMarks(Fetched([Request(remaining, unsupported)], unsupported', f.outcome), rest, replies, k, unsupported);
        assert f == Join(Fetched([Request(remaining, unsupported)], unsupported', f.outcome), rest);
      } else {
        assert Names([]) == {} && unsupported + {} == unsupported;
        assert f == Fetched([Request(remaining, unsupported)], unsupported, f.outcome);
      }
    }
  }

  lemma {:induction false} FetchMarks(products: seq<Product>, unsupported: set<string>, replies: nat -> Reply, k: nat,
                                      prices: map<string, real>)
    ensures MarksBlamed(FetchAll(products, unsupported, replies, k, prices), replies, k, unsupported)
    decreases |products|
  {
    if products != [] {
      var batch := FirstBatch(products);
      var b := FetchBatch(batch, unsupported, replies, k);
      BatchMarks(batch, unsupported, replies, k);
      if b.outcome.Ok? {
        var tail := products[|batch|..];
        var rest := FetchAll(tail, b.unsupported, replies, k + |b.requests|, prices + b.outcome.value);
        FetchMarks(tail, b.unsupported, replies, k + |b.requests|, prices + b.outcome.value);
        JoinMarks(b, rest, replies, k, unsupported);
        assert FetchAll(products, unsupported, replies, k, prices) == Join(b, rest);
      }
    }
  }

  lemma ProductsAreDistinct(infos: map<string, FlavorRef>, unsupported: set<string>)
    ensures DistinctProducts(ProductsOf(infos, unsupported))
    ensures Names(ProductsOf(infos, unsupported)) == infos.Keys - unsupported
    ensures |ProductsOf(infos, unsupported)| == |infos.Keys - unsupported|
  {
    var names := InOrder(infos.Keys - unsupported);
    var products := ProductsOf(infos, unsupported);
    InOrderMeaning(infos.Keys - unsupported);
    forall x | x in names ensures x in Names(products) {
      var i :| 0 <= i < |names| && names[i] == x;
      assert products[i] in products && products[i].instanceType == x;
    }
    forall x | x in Names(products) ensures x in names {
      var p :| p in products && p.instanceType == x;
    }
    DistinctLength(names, infos.Keys - unsupported);
  }

  lemma {:induction false} DistinctLength(s: seq<string>, names: set<string>)
    requires forall i, j :: 0 <= i < j < |s| ==> s[i] != s[j]
    requires forall x :: x in s <==> x in names
    ensures |s| == |names|
  {
    if s == [] {
      assert names == {};
    } else {
      var n := |s| - 1;
      forall x ensures x in s[..n] <==> x in names - {s[n]} {
        if x in names - {s[n]} {
          assert x in s;
        }
        if x in s[..n] {
          assert x in s;
        }
      }
      DistinctLength(s[..n], names - {s[n]});
      assert s[n] in names;
    }
  }

  // ---------- when an update fails ----------

  /** The cloud failed, or could not find a specification that the request does not hold. */
  ghost predicate Unanswerable(request: Request, reply: Reply) {
    || reply.Failed?
    || (reply.NotFound? && forall p :: p in request.products ==> p.resourceSpec != reply.resourceSpec)
  }

  ghost predicate SomeUnanswerable(requests: seq<Request>, replies: nat -> Reply, k: nat) {
    exists i :: k <= i < k + |requests| && Unanswerable(requests[i - k], replies(i))
  }

  ghost predicate FailsRightly(f: Fetched, replies: nat -> Reply, k: nat) {
    f.outcome.Err? <==> SomeUnanswerable(f.requests, replies, k)
  }

  lemma UnanswerableConcat(a: seq<Request>, b: seq<Request>, replies: nat -> Reply, k: nat)
    ensures SomeUnanswerable(a + b, replies, k) <==>
              SomeUnanswerable(a, replies, k) || SomeUnanswerable(b, replies, k + |a|)
  {
    if i :| k <= i < k + |a| && Unanswerable(a[i - k], replies(i)) {
      assert (a + b)[i - k] == a[i - k];
    }
    if i :| k + |a| <= i < k + |a| + |b| && Unanswerable(b[i - (k + |a|)], replies(i)) {
      assert (a + b)[i - k] == b[i - (k + |a|)];
    }
    if i :| k <= i < k + |a + b| && Unanswerable((a + b)[i - k], replies(i)) {
      assert (a + b)[i - k] == if i - k < |a| then a[i - k] else b[i - (k + |a|)];
    }
  }

  lemma OneFailsRightly(remaining: seq<Product>, unsupported: set<string>, replies: nat -> Reply, k: nat)
    ensures SomeUnanswerable([Request(remaining, unsupported)], replies, k) <==>
              replies(k).Failed? || (replies(k).NotFound? && Drop(remaining, replies(k).resourceSpec) == [])
  {
    var first := [Request(remaining, unsupported)];
    assert SomeUnanswerable(first, replies, k) <==> Unanswerable(first[0], replies(k)) by {
      assert first[k - k] == first[0];
    }
    if replies(k).NotFound? {
      NothingDropped(remaining, replies(k).resourceSpec);
    }
  }

  lemma NothingDropped(products: seq<Product>, spec: string)
    ensures Drop(products, spec) == [] <==> forall p :: p in products ==> p.resourceSpec != spec
  {
    DropMeaning(products, spec);
    if Drop(products, spec) != [] {
      assert Drop(products, spec)[0] in Drop(products, spec);
    }
  }

  lemma {:induction false} BatchFailsRightly(remaining: seq<Product>, unsupported: set<string>, replies: nat -> Reply,
                                             k: nat)
    ensures FailsRightly(FetchBatch(remaining, unsupported, replies, k), replies, k)
    decreases |remaining|
  {
    if remaining != [] {
      var f := FetchBatch(remaining, unsupported, replies, k);
      OneFailsRightly(remaining, unsupported, replies, k);
      if replies(k).NotFound? && Drop(remaining, replies(k).resourceSpec) != [] {
        var spec := replies(k).resourceSpec;
        var kept, known := Keep(remaining, spec), unsupported + Names(Drop(remaining, spec));
        DropMeaning(remaining, spec);
        BatchFailsRightly(kept, known, replies, k + 1);
        var rest := FetchBatch(kept, known, replies, k + 1);
        assert f == Prepend([Request(remaining, unsupported)], rest);
        JoinFailsRightly([Request(remaining, unsupported)], rest, replies, k, f);
      } else {
        assert f.requests == [Request(remaining, unsupported)];
        assert f.outcome.Err? <==> !replies(k).Rated?;
      }
    }
  }

  lemma JoinFailsRightly(first: seq<Request>, rest: Fetched, replies: nat -> Reply, k: nat, f: Fetched)
    requires !SomeUnanswerable(first, replies, k) && FailsRightly(rest, replies, k + |first|)
    requires f == Prepend(first, rest)
    ensures FailsRightly(f, replies, k)
  {
    UnanswerableConcat(first, rest.requests, replies, k);
  }

  lemma {:induction false} FetchFailsRightly(products: seq<Product>, unsupported: set<string>, replies: nat -> Reply,
                                             k: nat, prices: map<string, real>)
    ensures FailsRightly(FetchAll(products, unsupported, replies, k, prices), replies, k)
    decreases |products|
  {
    if products != [] {
      var batch := FirstBatch(products);
      var b := FetchBatch(batch, unsupported, replies, k);
      BatchFailsRightly(batch, unsupported, replies, k);
      if b.outcome.Ok? {
        var tail, middle := products[|batch|..], prices + b.outcome.value;
        var rest := FetchAll(tail, b.unsupported, replies, k + |b.requests|, middle);
        FetchFailsRightly(tail, b.unsupported, replies, k + |b.requests|, middle);
        JoinFailsRightly(b.requests, rest, replies, k, FetchAll(products, unsupported, replies, k, prices));
      }
    }
  }

  // ---------- what an undisturbed update asks ----------

  function AllAsked(requests: seq<Request>): seq<Product> {
    if requests == [] then [] else requests[0].products + AllAsked(requests[1..])
  }

  /** With ratings for every request the products are asked for in order, in batches of 100. */
  lemma {:induction false} CalmFetch(products: seq<Product>, unsupported: set<string>, replies: nat -> Reply, k: nat,
                                     prices: map<string, real>)
    requires forall i :: k <= i ==> replies(i).Rated?
    ensures var f := FetchAll(products, unsupported, replies, k, prices);
            && AllAsked(f.requests) == products
            && forall i :: 0 <= i < |f.requests| - 1 ==> |f.requests[i].products| == 100
    decreases |products|
  {
    if products != [] {
      var batch := FirstBatch(products);
      var tail := products[|batch|..];
      var request := Request(batch, unsupported);
      var middle := prices + PageOf(replies(k).ratings);
      var rest := FetchAll(tail, unsupported, replies, k + 1, middle);
      CalmFetch(tail, unsupported, replies, k + 1, middle);
      var f := FetchAll(products, unsupported, replies, k, prices);
      assert f.requests == [request] + rest.requests;
      assert AllAsked(f.requests) == batch + AllAsked(rest.requests);
      assert tail == [] ==> rest.requests == [];
    }
  }

  /** The specification asked for: the flavor's ID, or without one its name, for Linux. */
  predicate SpecIs(p: Product, infos: map<string, FlavorRef>) {
    && p.instanceType in infos
    && p.resourceSpec == (if |infos[p.instanceType].id| != 0 then infos[p.instanceType].id
                          else infos[p.instanceType].name) + ".linux"
  }

  lemma ProductsAreSorted(infos: map<string, FlavorRef>, unsupported: set<string>)
    ensures var products := ProductsOf(infos, unsupported);
            && (forall p :: p in products ==> SpecIs(p, infos) && p.instanceType !in unsupported)
            && (forall i, j :: 0 <= i < j < |products| ==>
                  StringLess(products[i].instanceType, products[j].instanceType))
  {
    var names, products := InOrder(infos.Keys - unsupported), ProductsOf(infos, unsupported);
    InOrderMeaning(infos.Keys - unsupported);
    forall i | 0 <= i < |products|
      ensures products[i].instanceType == names[i] && names[i] in infos.Keys - unsupported
    {
      assert names[i] in names;
    }
    forall i, j | 0 <= i < j < |names| ensures StringLess(names[i], names[j]) {
      StringLessTotal(names[i], names[j]);
    }
  }

  /** What an update asks for, and exactly when it fails: without a project or flavors, or when some
      request could not be answered. Undisturbed, it asks for every product not known to be unsupported,
      in order of name, 100 at a time. */
  lemma UpdateAsks(s: State, projectID: string, infos: map<string, FlavorRef>, replies: nat -> Reply)
    ensures var (_, requests, failed) := Update(s, projectID, infos, replies);
            && (forall i, p :: 0 <= i < |requests| && p in requests[i].products ==>
                  SpecIs(p, infos) && p.instanceType !in s.unsupported)
            && (forall i :: 0 <= i < |requests| ==> 1 <= |requests[i].products| <= 100)
            && (failed <==> projectID == "" || |infos| == 0 || SomeUnanswerable(requests, replies, 0))
    ensures var (_, requests, _) := Update(s, projectID, infos, replies);
            var all := AllAsked(requests);
            projectID != "" && |infos| != 0 && (forall i :: replies(i).Rated?) ==>
              && Names(all) == infos.Keys - s.unsupported
              && (forall i, j :: 0 <= i < j < |all| ==> StringLess(all[i].instanceType, all[j].instanceType))
              && (forall i :: 0 <= i < |requests| - 1 ==> |requests[i].products| == 100)
  {
    if projectID != "" && infos != map[] {
      var products := ProductsOf(infos, s.unsupported);
      ProductsAreDistinct(infos, s.unsupported);
      ProductsAreSorted(infos, s.unsupported);
      FetchIsSound(products, s.unsupported, replies, 0, map[]);
      FetchFailsRightly(products, s.unsupported, replies, 0, map[]);
      if forall i :: replies(i).Rated? {
        CalmFetch(products, s.unsupported, replies, 0, map[]);
      }
    }
  }

  // ---------- results ----------

  /** One update sends at most one request per flavor, each of 1 to 100 products, none known to be
      unsupported; on success every flavor was in an answered request or is unsupported and the
      table is replaced by the prices answered; on failure the table stays. */
  lemma UpdateMeaning(s: State, projectID: string, infos: map<string, FlavorRef>, replies: nat -> Reply)
    ensures var (s', requests, failed) := Update(s, projectID, infos, replies);
            && |requests| <= |infos|
            && s.unsupported <= s'.unsupported <= s.unsupported + infos.Keys
            && (forall i :: 0 <= i < |requests| ==>
                  && 1 <= |requests[i].products| <= MAX_PRODUCTS_PER_BATCH
                  && Names(requests[i].products) !! requests[i].known
                  && s.unsupported <= requests[i].known <= s'.unsupported)
            && (forall x :: x in s'.unsupported <==> x in s.unsupported || Blamed(requests, replies, 0, x))
            && (failed ==> s'.prices == s.prices)
            && (!failed ==>
                  && s'.prices == Pages(replies, 0, |requests|, map[])
                  && forall x :: x in infos ==>
                       || x in s'.unsupported
                       || exists p: Product :: p.instanceType == x && WasRated(requests, replies, 0, p))
  {
    if projectID != "" && infos != map[] {
      var products := ProductsOf(infos, s.unsupported);
      ProductsAreDistinct(infos, s.unsupported);
      FetchIsSound(products, s.unsupported, replies, 0, map[]);
      FetchRatesAll(products, s.unsupported, replies, 0, map[]);
      FetchMarks(products, s.unsupported, replies, 0, map[]);
      var f := FetchAll(products, s.unsupported, replies, 0, map[]);
      MarksAtEnd(f, replies, 0, s.unsupported);
      SmallerSet(infos.Keys - s.unsupported, infos.Keys);
      if f.outcome.Ok? {
        FetchPages(products, s.unsupported, replies, 0, map[]);
        forall x | x in infos && x !in f.unsupported
          ensures exists p: Product :: p.instanceType == x && WasRated(f.requests, replies, 0, p)
        {
          assert x in Names(products);
          var p :| p in products && p.instanceType == x;
          assert WasRated(f.requests, replies, 0, p);
        }
      }
    }
  }

  lemma {:induction false} SmallerSet(a: set<string>, b: set<string>)
    requires a <= b
    ensures |a| <= |b|
  {
    if a != {} {
      var x :| x in a;
      SmallerSet(a - {x}, b - {x});
    }
  }

  datatype Input = Input(projectID: string, infos: map<string, FlavorRef>, replies: nat -> Reply)

  /** A request and what the cloud answered. */
  datatype Exchange = Exchange(request: Request, reply: Reply)

  function Exchanges(requests: seq<Request>, replies: nat -> Reply): seq<Exchange> {
    seq(|requests|, i requires 0 <= i < |requests| => Exchange(requests[i], replies(i)))
  }

  /** The state and all exchanges after a sequence of updates. */
  ghost function Updates(s: State, inputs: seq<Input>): (State, seq<Exchange>) {
    if inputs == [] then (s, []) else
    var (t, sent) := Updates(s, inputs[..|inputs| - 1]);
    var last := inputs[|inputs| - 1];
    var (t', more, _) := Update(t, last.projectID, last.infos, last.replies);
    (t', sent + Exchanges(more, last.replies))
  }

  /** The product was asked for and the cloud could not find its specification. */
  predicate Unfound(e: Exchange, p: Product) {
    p in e.request.products && e.reply == NotFound(p.resourceSpec)
  }

  /** Products not found are known from the next request on, and no request names a known one. */
  ghost predicate Remembered(sent: seq<Exchange>, before: set<string>, after: set<string>) {
    && before <= after
    && (forall j :: 0 <= j < |sent| ==>
          Names(sent[j].request.products) !! sent[j].request.known && before <= sent[j].request.known <= after)
    && (forall i, p :: 0 <= i < |sent| && Unfound(sent[i], p) ==> p.instanceType in after)
    && (forall i, j, p :: 0 <= i < j < |sent| && Unfound(sent[i], p) ==> p.instanceType in sent[j].request.known)
  }

  lemma UpdateRemembers(s: State, input: Input)
    ensures var (s', requests, _) := Update(s, input.projectID, input.infos, input.replies);
            Remembered(Exchanges(requests, input.replies), s.unsupported, s'.unsupported)
  {
    if input.projectID != "" && input.infos != map[] {
      var products := ProductsOf(input.infos, s.unsupported);
      ProductsAreDistinct(input.infos, s.unsupported);
      FetchIsSound(products, s.unsupported, input.replies, 0, map[]);
      FetchMarks(products, s.unsupported, input.replies, 0, map[]);
      var f := FetchAll(products, s.unsupported, input.replies, 0, map[]);
      FetchRemembers(f, products, s.unsupported, input.replies);
    }
  }

  lemma FetchRemembers(f: Fetched, products: seq<Product>, before: set<string>, replies: nat -> Reply)
    requires SoundFetch(f, products, before) && MarksBlamed(f, replies, 0, before)
    ensures Remembered(Exchanges(f.requests, replies), before, f.unsupported)
  {
    var sent := Exchanges(f.requests, replies);
    forall i, j, p | 0 <= i < j <= |sent| && Unfound(sent[i], p) ensures p.instanceType in KnownAt(f, j) {
      assert KnownIsBlamed(f, replies, 0, before, j);
      assert p in f.requests[..j][i - 0].products;
    }
    forall i, p | 0 <= i < |sent| && Unfound(sent[i], p) ensures p.instanceType in f.unsupported {
      assert p.instanceType in KnownAt(f, |sent|);
    }
    forall i, j, p | 0 <= i < j < |sent| && Unfound(sent[i], p) ensures p.instanceType in sent[j].request.known {
      assert p.instanceType in KnownAt(f, j);
    }
  }

  lemma RememberedJoin(a: seq<Exchange>, b: seq<Exchange>, before: set<string>, middle: set<string>, after: set<string>)
    requires Remembered(a, before, middle) && Remembered(b, middle, after)
    ensures Remembered(a + b, before, after)
  {
    var all := a + b;
    forall j | 0 <= j < |all| ensures all[j] == if j < |a| then a[j] else b[j - |a|] {
    }
  }

  lemma {:induction false} UpdatesRemember(s: State, inputs: seq<Input>)
    ensures Remembered(Updates(s, inputs).1, s.unsupported, Updates(s, inputs).0.unsupported)
  {
    if inputs != [] {
      var front, last := inputs[..|inputs| - 1], inputs[|inputs| - 1];
      UpdatesRemember(s, front);
      var (t, sent) := Updates(s, front);
      UpdateRemembers(t, last);
      var (t', more, _) := Update(t, last.projectID, last.infos, last.replies);
      RememberedJoin(sent, Exchanges(more, last.replies), s.unsupported, t.unsupported, t'.unsupported);
    }
  }

  /** Over any sequence of updates, successful or not: a product whose specification the cloud could
      not find is in no later request, nor is one that was unsupported to begin with in any. */
  lemma {:induction false} UnsupportedIsNeverAskedAgain(s: State, inputs: seq<Input>)
    ensures var (_, sent) := Updates(s, inputs);
            && (forall i, j, p ::
                  0 <= i < j < |sent| && p in sent[i].request.products && sent[i].reply == NotFound(p.resourceSpec) ==>
                  p.instanceType !in Names(sent[j].request.products))
            && (forall j :: 0 <= j < |sent| ==> Names(sent[j].request.products) !! s.unsupported)
  {
    UpdatesRemember(s, inputs);
    var (_, sent) := Updates(s, inputs);
    forall i, j, p | 0 <= i < j < |sent| && p in sent[i].request.products && sent[i].reply == NotFound(p.resourceSpec)
      ensures p.instanceType !in Names(sent[j].request.products)
    {
      assert Unfound(sent[i], p);
    }
  }
}
