/** What an Instamart search returns, and what of it can be bought
    (app/instamart/schemas.py, app/matching/substitution.py). */
module Candidates {
  import opened Collections

  datatype Variant = Variant(spinId: string, packSize: Option<string>, price: Option<real>, inStock: bool)

  datatype Product = Product(productId: Option<string>, name: Option<string>, brand: Option<string>,
                             variants: seq<Variant>)

  /** A product, the variant of it that is orderable, and that variant's price. */
  datatype Candidate = Candidate(product: Product, variant: Variant, price: real)

  function PurchasableVariants(product: Product, variants: seq<Variant>): seq<Candidate> {
    if variants == [] then [] else
      var n := |variants| - 1;
      PurchasableVariants(product, variants[..n]) +
      if variants[n].inStock && variants[n].price.Some?
      then [Candidate(product, variants[n], variants[n].price.value)] else []
  }

  /** Everything in stock and priced, in the order it was returned. */
  function Purchasable(products: seq<Product>): seq<Candidate> {
    if products == [] then [] else
      var n := |products| - 1;
      Purchasable(products[..n]) + PurchasableVariants(products[n], products[n].variants)
  }

  ghost predicate Buyable(c: Candidate, products: seq<Product>) {
    c.product in products && c.variant in c.product.variants && c.variant.inStock && c.variant.price == Some(c.price)
  }

  lemma {:induction false} PurchasableVariantsMembers(product: Product, variants: seq<Variant>, c: Candidate)
    ensures c in PurchasableVariants(product, variants) <==>
      c.product == product && c.variant in variants && c.variant.inStock && c.variant.price == Some(c.price)
  {
    if variants != [] {
      PurchasableVariantsMembers(product, variants[..|variants| - 1], c);
      assert variants == variants[..|variants| - 1] + [variants[|variants| - 1]];
    }
  }

  /** A candidate is collected exactly when it can be bought. */
  lemma {:induction false} PurchasableMembers(products: seq<Product>, c: Candidate)
    ensures c in Purchasable(products) <==> Buyable(c, products)
  {
    if products != [] {
      var n := |products| - 1;
      PurchasableMembers(products[..n], c);
      PurchasableVariantsMembers(products[n], products[n].variants, c);
      assert products == products[..n] + [products[n]];
    }
  }

  // The order of a search: product by product, and of each product variant by variant.

  datatype Place = Place(product: nat, variant: nat) {
    predicate Ahead(other: Place) {
      product < other.product || (product == other.product && variant < other.variant)
    }
  }

  ghost predicate InSearchOrder(places: seq<Place>) {
    forall i, j | 0 <= i < j < |places| :: places[i].Ahead(places[j])
  }

  /** The place of a variant that is in stock and priced. */
  predicate IsOnSale(products: seq<Product>, place: Place) {
    && place.product < |products| && place.variant < |products[place.product].variants|
    && products[place.product].variants[place.variant].inStock
    && products[place.product].variants[place.variant].price.Some?
  }

  ghost predicate CollectedAt(product: Product, variants: seq<Variant>, at: seq<nat>, collected: seq<Candidate>) {
    && |at| == |collected|
    && (forall k | 0 <= k < |at| ::
          at[k] < |variants| && variants[at[k]].price.Some?
          && collected[k] == Candidate(product, variants[at[k]], variants[at[k]].price.value))
    && (forall k | 0 <= k < |at| :: variants[at[k]].inStock)
    && (forall i, j | 0 <= i < j < |at| :: at[i] < at[j])
    && (forall v | 0 <= v < |variants| && variants[v].inStock && variants[v].price.Some? :: v in at)
  }

  lemma {:induction false} VariantsInOrder(product: Product, variants: seq<Variant>) returns (at: seq<nat>)
    ensures CollectedAt(product, variants, at, PurchasableVariants(product, variants))
  {
    at := [];
    if variants != [] {
      var n := |variants| - 1;
      at := VariantsInOrder(product, variants[..n]);
      if variants[n].inStock && variants[n].price.Some? {
        at := at + [n];
      }
    }
  }

  ghost predicate Collects(products: seq<Product>, places: seq<Place>, candidates: seq<Candidate>) {
    && |places| == |candidates| && InSearchOrder(places)
    && (forall place :: place in places <==> IsOnSale(products, place))
    && (forall k | 0 <= k < |places| ::
          IsOnSale(products, places[k])
          && var product, v := products[places[k].product], places[k].variant;
             candidates[k] == Candidate(product, product.variants[v], product.variants[v].price.value))
  }

  lemma {:induction false} CollectMore(products: seq<Product>, before: seq<Place>, candidates: seq<Candidate>,
                                       at: seq<nat>, more: seq<Candidate>)
    returns (places: seq<Place>)
    requires products != []
    requires var n := |products| - 1;
      Collects(products[..n], before, candidates) && CollectedAt(products[n], products[n].variants, at, more)
    ensures Collects(products, places, candidates + more)
  {
    var n := |products| - 1;
    var its := seq(|at|, k requires 0 <= k < |at| => Place(n, at[k]));
    places := before + its;
    forall place ensures place in places <==> IsOnSale(products, place) {
      assert place in before <==> IsOnSale(products[..n], place);
      if IsOnSale(products, place) && place.product == n {
        var k :| 0 <= k < |at| && at[k] == place.variant;
        assert its[k] == place;
      }
    }
    forall k | 0 <= k < |before| ensures places[k].product < n && places[k] == before[k] {
      assert IsOnSale(products[..n], before[k]);
    }
  }

  /** Everything that can be bought is collected once, in the order in which the search returned it. */
  lemma {:induction false} PurchasableInOrder(products: seq<Product>) returns (places: seq<Place>)
    ensures Collects(products, places, Purchasable(products))
  {
    places := [];
    if products != [] {
      var n := |products| - 1;
      var before := PurchasableInOrder(products[..n]);
      var at := VariantsInOrder(products[n], products[n].variants);
      places := CollectMore(products, before, Purchasable(products[..n]), at,
                            PurchasableVariants(products[n], products[n].variants));
    }
  }

  function Branded(c: Candidate, brands: set<string>): bool {
    c.product.brand.Some? && c.product.brand.value != "" && c.product.brand.value in brands
  }

  /** The first candidate of a brand the household buys, or else simply the first. */
  function Preferred(candidates: seq<Candidate>, brands: set<string>): Option<Candidate> {
    if candidates == [] then None
    else if i :| 0 <= i < |candidates| && Branded(candidates[i], brands)
                 && forall j | 0 <= j < i :: !Branded(candidates[j], brands)
    then Some(candidates[i])
    else Some(candidates[0])
  }
}
