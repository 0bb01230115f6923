/** `select_variant` of app/cart/service.py: ceiling arithmetic on packs feeding a lexicographic
    minimum, proved to buy the least that covers the need. */
module VariantSelection {
  import opened Collections
  import opened Units
  import opened Candidates

  datatype Ingredient = Ingredient(name: string, quantity: Option<real>, unit: Option<string>,
                                   preferredBrand: Option<string>)

  datatype Pair = Pair(product: Product, variant: Variant)

  datatype Pack = Pack(count: int, size: real, overage: real) {
    /** What goes into the cart altogether. */
    function Total(): real {
      count as real * size
    }
  }

  datatype Status = Matched | Substituted | Unavailable

  datatype Selected = Selected(status: Status, spinId: Option<string>, unitPrice: Option<real>,
                               quantity: Option<int>, overage: Option<real>)

  /** A `Decimal` that may be infinite. */
  datatype Extended = Finite(value: real) | Infinite {
    predicate Below(other: Extended) {
      Finite? && (other.Finite? ==> value < other.value)
    }
  }

  datatype Rank = Rank(sanity: int, ratio: Extended, preference: int, price: Extended) {
    /** Python's order on tuples. */
    predicate Below(other: Rank) {
      if sanity != other.sanity then sanity < other.sanity
      else if ratio != other.ratio then ratio.Below(other.ratio)
      else if preference != other.preference then preference < other.preference
      else price.Below(other.price)
    }
  }

  // ---------------------------------------------------------------- pack counts

  function Ceiling(x: real): int {
    -(-x).Floor
  }

  /** How many packs of one size, and what they leave over. */
  function Packs(need: real, size: real): Pack
    requires size > 0.0
  {
    var packs := Ceiling(need / size);
    var count := if packs > 1 then packs else 1;
    Pack(count, size, count as real * size - need)
  }

  /** The need in a base unit, if it can be told. */
  function Need(i: Ingredient): Option<Amount> {
    if i.quantity.None? || i.unit.None? then None else NormalizeQuantity(i.quantity.value, i.unit.value)
  }

  function PackSize(v: Variant): Option<Amount> {
    if v.packSize.None? || v.packSize.value == "" then None else ParsePackSize(v.packSize.value)
  }

  /** `_pack_math`. */
  function PackMath(need: Option<Amount>, size: Option<Amount>): Option<Pack> {
    if need.None? || size.None? || need.value.base != size.value.base || size.value.quantity <= 0.0 then None
    else Some(Packs(need.value.quantity, size.value.quantity))
  }

  predicate IsPreferred(i: Ingredient, p: Product) {
    i.preferredBrand.Some? && p.brand.Some? && Lower(Strip(p.brand.value)) == Lower(Strip(i.preferredBrand.value))
  }

  /** What a variant amounts to for one ingredient. */
  datatype Offer = Offer(pack: Option<Pack>, preferred: bool, price: Option<real>) {
    function Price(): Extended {
      if price.Some? then Finite(price.value) else Infinite
    }

    /** `_rank_key`. */
    function Key(): Rank {
      var preference := if preferred then 0 else 1;
      match pack
      case None => Rank(1, Infinite, preference, Price())
      case Some(p) =>
        var needed := p.Total() - p.overage;
        Rank(0, Finite(if needed > 0.0 then p.overage / needed else 0.0), preference, Price())
    }
  }

  function OfferOf(i: Ingredient, pair: Pair): Offer {
    Offer(PackMath(Need(i), PackSize(pair.variant)), IsPreferred(i, pair.product), pair.variant.price)
  }

  function Offers(i: Ingredient, pairs: seq<Pair>): seq<Offer> {
    seq(|pairs|, k requires 0 <= k < |pairs| => OfferOf(i, pairs[k]))
  }

  function InStockOf(product: Product, variants: seq<Variant>): seq<Pair> {
    if variants == [] then [] else
      var n := |variants| - 1;
      InStockOf(product, variants[..n]) + if variants[n].inStock then [Pair(product, variants[n])] else []
  }

  function InStock(products: seq<Product>): seq<Pair> {
    if products == [] then [] else
      var n := |products| - 1;
      InStock(products[..n]) + InStockOf(products[n], products[n].variants)
  }

  lemma {:induction false} InStockOfMembers(product: Product, variants: seq<Variant>, pair: Pair)
    ensures pair in InStockOf(product, variants) <==>
      pair.product == product && pair.variant in variants && pair.variant.inStock
  {
    if variants != [] {
      InStockOfMembers(product, variants[..|variants| - 1], pair);
      assert variants == variants[..|variants| - 1] + [variants[|variants| - 1]];
    }
  }

  lemma {:induction false} InStockMembers(products: seq<Product>, pair: Pair)
    ensures pair in InStock(products) <==>
      pair.product in products && pair.variant in pair.product.variants && pair.variant.inStock
  {
    if products != [] {
      var n := |products| - 1;
      InStockMembers(products[..n], pair);
      InStockOfMembers(products[n], products[n].variants, pair);
      assert products == products[..n] + [products[n]];
    }
  }

  /** The place of a variant that is in stock. */
  predicate IsStocked(products: seq<Product>, place: Place) {
    && place.product < |products| && place.variant < |products[place.product].variants|
    && products[place.product].variants[place.variant].inStock
  }

  ghost predicate StockedAt(product: Product, variants: seq<Variant>, at: seq<nat>, pairs: seq<Pair>) {
    && |at| == |pairs|
    && (forall k | 0 <= k < |at| ::
          at[k] < |variants| && variants[at[k]].inStock && pairs[k] == Pair(product, variants[at[k]]))
    && (forall i, j | 0 <= i < j < |at| :: at[i] < at[j])
    && (forall v | 0 <= v < |variants| && variants[v].inStock :: v in at)
  }

  lemma {:induction false} StockOfOneInOrder(product: Product, variants: seq<Variant>) returns (at: seq<nat>)
    ensures StockedAt(product, variants, at, InStockOf(product, variants))
  {
    at := [];
    if variants != [] {
      var n := |variants| - 1;
      at := StockOfOneInOrder(product, variants[..n]);
      if variants[n].inStock {
        at := at + [n];
      }
    }
  }

  ghost predicate Gathers(products: seq<Product>, places: seq<Place>, pairs: seq<Pair>) {
    && |places| == |pairs| && InSearchOrder(places)
    && (forall place :: place in places <==> IsStocked(products, place))
    && (forall k | 0 <= k < |places| ::
          IsStocked(products, places[k])
          && pairs[k] == Pair(products[places[k].product],
                              products[places[k].product].variants[places[k].variant]))
  }

  lemma {:induction false} GatherMore(products: seq<Product>, before: seq<Place>, pairs: seq<Pair>, at: seq<nat>,
                                      more: seq<Pair>)
    returns (places: seq<Place>)
    requires products != []
    requires var n := |products| - 1;
      Gathers(products[..n], before, pairs) && StockedAt(products[n], products[n].variants, at, more)
    ensures Gathers(products, places, pairs + more)
  {
    var n := |products| - 1;
    var its := seq(|at|, k requires 0 <= k < |at| => Place(n, at[k]));
    places := before + its;
    forall place ensures place in places <==> IsStocked(products, place) {
      assert place in before <==> IsStocked(products[..n], place);
      if IsStocked(products, place) && place.product == n {
        var k :| 0 <= k < |at| && at[k] == place.variant;
        assert its[k] == place;
      }
    }
    forall k | 0 <= k < |before| ensures places[k].product < n && places[k] == before[k] {
      assert IsStocked(products[..n], before[k]);
    }
  }

  /** The stock is gathered once, in the order in which the search returned it. */
  lemma {:induction false} StockInOrder(products: seq<Product>) returns (places: seq<Place>)
    ensures Gathers(products, places, InStock(products))
  {
    places := [];
    if products != [] {
      var n := |products| - 1;
      var before := StockInOrder(products[..n]);
      var at := StockOfOneInOrder(products[n], products[n].variants);
      places := GatherMore(products, before, InStock(products[..n]), at, InStockOf(products[n], products[n].variants));
    }
  }

  // --------------------------------------------------------------- the minimum

  /** The place of the first of the least offers. */
  ghost predicate FirstLeast(offers: seq<Offer>, best: nat) {
    && best < |offers|
    && (forall j | 0 <= j < |offers| :: !offers[j].Key().Below(offers[best].Key()))
    && (forall j | 0 <= j < best :: offers[best].Key().Below(offers[j].Key()))
  }

  lemma {:induction false} RanksAreTotallyOrdered(a: Rank, b: Rank, c: Rank)
    ensures !a.Below(a)
    ensures a.Below(b) && b.Below(c) ==> a.Below(c)
    ensures a == b || a.Below(b) || b.Below(a)
  {
  }

  /** What undercuts the least so far undercuts everything seen so far. */
  lemma {:induction false} Undercut(a: Rank, b: Rank, c: Rank)
    requires a.Below(b) && !c.Below(b)
    ensures a.Below(c) && !c.Below(a)
  {
    RanksAreTotallyOrdered(c, a, b);
    RanksAreTotallyOrdered(a, b, c);
    RanksAreTotallyOrdered(a, c, a);
  }

  lemma {:induction false} NewLeast(offers: seq<Offer>, best: nat, k: nat)
    requires k < |offers| && FirstLeast(offers[..k], best) && offers[k].Key().Below(offers[best].Key())
    ensures FirstLeast(offers[..k + 1], k)
  {
    var a, b := offers[k].Key(), offers[best].Key();
    assert offers[..k][best] == offers[best];
    RanksAreTotallyOrdered(a, a, a);
    forall j | 0 <= j < k ensures a.Below(offers[j].Key()) && !offers[j].Key().Below(a) {
      assert offers[..k][j] == offers[j];
      Undercut(a, b, offers[j].Key());
    }
  }

  /** Python's `min`, which keeps the first of equals. */
  method Least(offers: seq<Offer>) returns (best: nat)
    requires offers != []
    ensures FirstLeast(offers, best)
  {
    best := 0;
    RanksAreTotallyOrdered(offers[0].Key(), offers[0].Key(), offers[0].Key());
    for k := 1 to |offers|
      invariant FirstLeast(offers[..k], best)
    {
      if offers[k].Key().Below(offers[best].Key()) {
        NewLeast(offers, best, k);
        best := k;
      } else {
        assert offers[..k + 1] == offers[..k] + [offers[k]];
      }
    }
    assert offers[..|offers|] == offers;
  }

  function SelectedOf(i: Ingredient, pair: Pair): Selected {
    var offer := OfferOf(i, pair);
    Selected(if i.preferredBrand.Some? && !offer.preferred then Substituted else Matched,
             Some(pair.variant.spinId), pair.variant.price,
             Some(if offer.pack.None? then 1 else offer.pack.value.count),
             if offer.pack.None? then None else Some(offer.pack.value.overage))
  }

  // -------------------------------------------------------------- what it buys

  predicate Covers(count: int, size: real, need: real) {
    1 <= count && need <= count as real * size
  }

  lemma {:induction false} ScaleUp(a: real, b: real, size: real)
    requires size > 0.0
    ensures a <= b <==> a * size <= b * size
  {
    if a <= b {
      assert (b - a) * size >= 0.0;
    } else {
      assert (a - b) * size > 0.0;
    }
  }

  lemma {:induction false} CeilingLeast(x: real, k: int)
    ensures x <= k as real <==> Ceiling(x) <= k
  {
  }

  /** So many packs cover the need exactly if they are at least the quotient, rounded up. */
  lemma {:induction false} CeilingCovers(need: real, size: real, k: int)
    requires size > 0.0
    ensures need <= k as real * size <==> Ceiling(need / size) <= k
  {
    var x := need / size;
    assert x * size == need;
    ScaleUp(x, k as real, size);
    CeilingLeast(x, k);
  }

  /** The count is the smallest that covers, so less than a pack is left over. */
  lemma {:induction false} PacksAreLeast(need: real, size: real, k: int)
    requires size > 0.0 && need > 0.0
    ensures var pack := Packs(need, size);
      && Covers(pack.count, size, need)
      && (Covers(k, size, need) <==> pack.count <= k)
      && 0.0 <= pack.overage < size
  {
    var count := Packs(need, size).count;
    CeilingCovers(need, size, 0);
    assert 0 as real * size == 0.0;
    CeilingCovers(need, size, k);
    CeilingCovers(need, size, count);
    CeilingCovers(need, size, count - 1);
    assert (count - 1) as real * size == count as real * size - size;
  }

  /** Every offer that has a pack count has it from this need. */
  ghost predicate MadeFor(offers: seq<Offer>, need: real) {
    forall j | 0 <= j < |offers| && offers[j].pack.Some? ::
      offers[j].pack.value.size > 0.0 && offers[j].pack.value == Packs(need, offers[j].pack.value.size)
  }

  /** With a positive need the ratio orders packs by the amount they put in the cart. */
  lemma {:induction false} RatioOrdersByTotal(need: real, x: Pack, y: Pack)
    requires x.Total() - x.overage == need && y.Total() - y.overage == need && need > 0.0
    ensures x.overage / need < y.overage / need <==> x.Total() < y.Total()
    ensures x.overage / need == y.overage / need <==> x.Total() == y.Total()
  {
    var p, q := x.overage / need, y.overage / need;
    assert p * need == x.overage && q * need == y.overage;
    ScaleUp(p, q, need);
    ScaleUp(q, p, need);
  }

  lemma {:induction false} LeastTotal(offers: seq<Offer>, best: nat, j: nat, need: real)
    requires FirstLeast(offers, best) && MadeFor(offers, need) && need > 0.0
    requires j < |offers| && offers[j].pack.Some?
    ensures offers[best].pack.Some? && offers[best].pack.value.Total() <= offers[j].pack.value.Total()
  {
    assert !offers[j].Key().Below(offers[best].Key());
    if offers[best].pack.Some? {
      RatioOrdersByTotal(need, offers[j].pack.value, offers[best].pack.value);
    }
  }

  lemma {:induction false} MorePacksHoldMore(a: Pack, b: Pack)
    requires a.size == b.size > 0.0 && a.count <= b.count
    ensures a.Total() <= b.Total()
  {
    ScaleUp(a.count as real, b.count as real, a.size);
  }

  lemma {:induction false} NoCountHoldsLess(need: real, size: real, k: int)
    requires size > 0.0 && need > 0.0
    ensures Covers(k, size, need) ==> Packs(need, size).Total() <= Pack(k, size, 0.0).Total()
  {
    PacksAreLeast(need, size, k);
    if Covers(k, size, need) {
      MorePacksHoldMore(Packs(need, size), Pack(k, size, 0.0));
    }
  }

  lemma {:induction false} ChosenCovers(need: real, pack: Pack)
    requires need > 0.0 && pack.size > 0.0 && pack == Packs(need, pack.size)
    ensures Covers(pack.count, pack.size, need)
    ensures 0.0 <= pack.overage < pack.size && pack.overage == pack.Total() - need
  {
    PacksAreLeast(need, pack.size, 1);
  }

  /** The main law. If some in-stock variant can be counted out against a positive need, the chosen
      one covers it with less than a pack to spare, and no count of any variant covers it with less. */
  lemma {:induction false} BuysTheLeastThatCovers(offers: seq<Offer>, best: nat, j: nat, need: real, k: int)
    requires FirstLeast(offers, best) && MadeFor(offers, need) && need > 0.0
    requires j < |offers| && offers[j].pack.Some?
    ensures offers[best].pack.Some?
    ensures var chosen := offers[best].pack.value;
      && Covers(chosen.count, chosen.size, need)
      && 0.0 <= chosen.overage < chosen.size
      && chosen.overage == chosen.Total() - need
    ensures var other := Pack(k, offers[j].pack.value.size, 0.0);
      Covers(k, other.size, need) ==> offers[best].pack.value.Total() <= other.Total()
  {
    LeastTotal(offers, best, j, need);
    ChosenCovers(need, offers[best].pack.value);
    NoCountHoldsLess(need, offers[j].pack.value.size, k);
  }

  /** Ties in amount go to the preferred brand, then to the cheaper variant (one without a price
      last), then to the one the search returned first. */
  lemma {:induction false} TiesBrokenInOrder(offers: seq<Offer>, best: nat, j: nat, need: real)
    requires FirstLeast(offers, best) && MadeFor(offers, need) && need > 0.0
    requires j < |offers| && offers[j].pack.Some? && offers[best].pack.Some?
    requires offers[best].pack.value.Total() == offers[j].pack.value.Total()
    ensures offers[j].preferred ==> offers[best].preferred
    ensures offers[j].preferred == offers[best].preferred ==>
      && !offers[j].Price().Below(offers[best].Price())
      && (offers[j].price == offers[best].price ==> best <= j)
  {
    RatioOrdersByTotal(need, offers[best].pack.value, offers[j].pack.value);
    RanksAreTotallyOrdered(offers[j].Key(), offers[best].Key(), offers[j].Key());
  }

  /** Nothing can be counted out: the preferred brand if there is one, then the cheapest, then the first found. */
  lemma {:induction false} BrandAndPriceDecideWhenNothingComputes(offers: seq<Offer>, best: nat, j: nat)
    requires FirstLeast(offers, best) && j < |offers|
    requires forall k | 0 <= k < |offers| :: offers[k].pack.None?
    ensures offers[j].preferred ==> offers[best].preferred
    ensures offers[j].preferred == offers[best].preferred ==>
      && !offers[j].Price().Below(offers[best].Price())
      && (offers[j].price == offers[best].price ==> best <= j)
  {
    assert !offers[j].Key().Below(offers[best].Key());
    RanksAreTotallyOrdered(offers[j].Key(), offers[best].Key(), offers[j].Key());
  }

  // ------------------------------------------------------------- one purchase

  /** How much is needed and how much one pack holds, in one base unit. */
  datatype Measure = Measure(need: real, size: real)

  /** Told only if the need and the pack are both told, in the same base unit, and the pack holds something. */
  function Measured(i: Ingredient, v: Variant): (m: Option<Measure>)
    ensures m.Some? ==> m.value.size > 0.0
  {
    if i.quantity.None? || i.unit.None? || v.packSize.None? || v.packSize.value == "" then None else
      var need, size := NormalizeQuantity(i.quantity.value, i.unit.value), ParsePackSize(v.packSize.value);
      if need.Some? && size.Some? && need.value.base == size.value.base && size.value.quantity > 0.0
      then Some(Measure(need.value.quantity, size.value.quantity)) else None
  }

  /** The product is of the brand that was asked for, up to case and surrounding space. */
  predicate IsAsked(i: Ingredient, p: Product) {
    i.preferredBrand.Some? && p.brand.Some? && Lower(Strip(p.brand.value)) == Lower(Strip(i.preferredBrand.value))
  }

  /** What so many packs of a size hold. */
  function Altogether(count: int, size: real): real {
    count as real * size
  }

  /** The least number of packs that covers the need, or one pack, of unknown overage, if that cannot be told. */
  ghost predicate BuysPacks(m: Option<Measure>, quantity: Option<int>, overage: Option<real>) {
    match m
    case None => quantity == Some(1) && overage == None
    case Some(Measure(need, size)) =>
      && quantity.Some? && 1 <= quantity.value
      && need <= Altogether(quantity.value, size)
      && (quantity.value == 1 || Altogether(quantity.value - 1, size) < need)
      && overage == Some(Altogether(quantity.value, size) - need)
  }

  /** What is bought of a variant; it is a substitute exactly if another brand was asked for. */
  ghost predicate Buys(i: Ingredient, r: Selected, p: Product, v: Variant) {
    && r.spinId == Some(v.spinId) && r.unitPrice == v.price
    && r.status == (if i.preferredBrand.Some? && !IsAsked(i, p) then Substituted else Matched)
    && BuysPacks(Measured(i, v), r.quantity, r.overage)
  }

  /** What matters of an offer. */
  datatype Deal = Deal(measure: Option<Measure>, asked: bool, price: Option<real>)

  function DealOf(i: Ingredient, pair: Pair): Deal {
    Deal(Measured(i, pair.variant), IsAsked(i, pair.product), pair.variant.price)
  }

  /** `k` packs of the second cover the need and hold what `count` packs of the first do. */
  ghost predicate SameAmount(a: Measure, count: int, b: Measure, k: int) {
    Covers(k, b.size, b.need) && count as real * a.size == k as real * b.size
  }

  /** Nothing but brand, price and place tells the two apart: neither can be counted out, or both can and the need
      is nothing, or so many packs of the second cover it with the `count` packs of the first. */
  ghost predicate AsMuch(a: Option<Measure>, count: int, b: Option<Measure>) {
    if a.None? || b.None? then a.None? && b.None?
    else a.value.need <= 0.0 || exists k :: SameAmount(a.value, count, b.value, k)
  }

  /** `count` packs of the first cover with no more than any number of packs of the second. */
  ghost predicate NoMore(a: Option<Measure>, count: int, b: Option<Measure>) {
    b.Some? ==>
      && a.Some?
      && (a.value.need > 0.0 ==>
            forall k | Covers(k, b.value.size, b.value.need) :: count as real * a.value.size <= k as real * b.value.size)
  }

  /** The second deal, in place `j`, is no better than the first, in place `best`, of which `count` packs are bought:
      what can be counted out goes before what cannot, then the least amount, the brand asked for, the lower price
      (none is the highest), and the place. */
  ghost predicate NoBetter(a: Deal, count: int, best: nat, b: Deal, j: nat) {
    && NoMore(a.measure, count, b.measure)
    && (AsMuch(a.measure, count, b.measure) ==>
          && (b.asked ==> a.asked)
          && (a.asked == b.asked ==>
                && (b.price.Some? ==> a.price.Some? && a.price.value <= b.price.value)
                && (a.price == b.price ==> best <= j)))
  }

  // How the offers that are ranked come from the deals.

  function PackOf(m: Option<Measure>): Option<Pack>
    requires m.Some? ==> m.value.size > 0.0
  {
    if m.None? then None else Some(Packs(m.value.need, m.value.size))
  }

  lemma {:induction false} OfferOfDeal(i: Ingredient, pair: Pair)
    ensures OfferOf(i, pair) == Offer(PackOf(DealOf(i, pair).measure), DealOf(i, pair).asked, DealOf(i, pair).price)
  {
  }

  lemma {:induction false} OneNeed(i: Ingredient, v: Variant, u: Variant)
    ensures Measured(i, v).Some? && Measured(i, u).Some? ==> Measured(i, v).value.need == Measured(i, u).value.need
  {
  }

  /** These offers are of these deals, which are for one need. */
  ghost predicate Dealt(offers: seq<Offer>, deals: seq<Deal>) {
    && |offers| == |deals|
    && (forall j | 0 <= j < |deals| ::
          (deals[j].measure.Some? ==> deals[j].measure.value.size > 0.0)
          && offers[j] == Offer(PackOf(deals[j].measure), deals[j].asked, deals[j].price))
    && (forall j, k | 0 <= j < |deals| && 0 <= k < |deals| && deals[j].measure.Some? && deals[k].measure.Some? ::
          deals[j].measure.value.need == deals[k].measure.value.need)
  }

  function Deals(i: Ingredient, pairs: seq<Pair>): seq<Deal> {
    seq(|pairs|, k requires 0 <= k < |pairs| => DealOf(i, pairs[k]))
  }

  lemma {:induction false} OffersOfDeals(i: Ingredient, pairs: seq<Pair>)
    ensures Dealt(Offers(i, pairs), Deals(i, pairs))
  {
    forall j | 0 <= j < |pairs| {
      OfferOfDeal(i, pairs[j]);
    }
    forall j, k | 0 <= j < |pairs| && 0 <= k < |pairs| {
      OneNeed(i, pairs[j].variant, pairs[k].variant);
    }
  }

  lemma {:induction false} LeastCount(need: real, size: real)
    requires size > 0.0
    ensures var count := Packs(need, size).count;
      1 <= count && need <= Altogether(count, size) && (count == 1 || Altogether(count - 1, size) < need)
  {
    var count := Packs(need, size).count;
    CeilingCovers(need, size, count);
    CeilingCovers(need, size, count - 1);
  }

  lemma {:induction false} CountBuys(m: Option<Measure>)
    requires m.Some? ==> m.value.size > 0.0
    ensures var pack := PackOf(m);
      BuysPacks(m, Some(if pack.None? then 1 else pack.value.count), if pack.None? then None else Some(pack.value.overage))
  {
    if m.Some? {
      var Measure(need, size) := m.value;
      var count := Packs(need, size).count;
      LeastCount(need, size);
      assert Packs(need, size).overage == Altogether(count, size) - need;
    }
  }

  lemma {:induction false} SelectedBuys(i: Ingredient, pair: Pair)
    ensures Buys(i, SelectedOf(i, pair), pair.product, pair.variant)
  {
    OfferOfDeal(i, pair);
    CountBuys(Measured(i, pair.variant));
  }

  // ----------------------------------------------------------- the whole choice

  /** Equal rank but for brand and price. */
  lemma {:induction false} TieBreak(offers: seq<Offer>, best: nat, j: nat)
    requires FirstLeast(offers, best) && j < |offers|
    requires offers[best].Key().sanity == offers[j].Key().sanity && offers[best].Key().ratio == offers[j].Key().ratio
    ensures offers[j].preferred ==> offers[best].preferred
    ensures offers[j].preferred == offers[best].preferred ==>
      && (offers[j].price.Some? ==> offers[best].price.Some? && offers[best].price.value <= offers[j].price.value)
      && (offers[j].price == offers[best].price ==> best <= j)
  {
    assert !offers[j].Key().Below(offers[best].Key());
    RanksAreTotallyOrdered(offers[j].Key(), offers[best].Key(), offers[j].Key());
  }

  /** A count that covers with as little as the chosen one holds is the least one of its variant. */
  lemma {:induction false} SameAmountSameRatio(need: real, a: real, b: real, k: int)
    requires need > 0.0 && a > 0.0 && b > 0.0 && Covers(k, b, need)
    requires Packs(need, a).Total() == k as real * b && Packs(need, a).Total() <= Packs(need, b).Total()
    ensures Packs(need, a).overage / need == Packs(need, b).overage / need
  {
    NoCountHoldsLess(need, b, k);
    RatioOrdersByTotal(need, Packs(need, a), Packs(need, b));
  }

  lemma {:induction false} RatioOf(offer: Offer, need: real, size: real)
    requires need > 0.0 && size > 0.0 && offer.pack == Some(Packs(need, size))
    ensures offer.Key().sanity == 0 && offer.Key().ratio == Finite(Packs(need, size).overage / need)
  {
  }

  lemma {:induction false} DealtMadeFor(offers: seq<Offer>, deals: seq<Deal>, need: real)
    requires Dealt(offers, deals)
    requires forall j | 0 <= j < |deals| && deals[j].measure.Some? :: deals[j].measure.value.need == need
    ensures MadeFor(offers, need)
  {
  }

  function PackCount(m: Option<Measure>): int
    requires m.Some? ==> m.value.size > 0.0
  {
    if m.None? then 1 else Packs(m.value.need, m.value.size).count
  }

  lemma {:induction false} NeedlessRank(offer: Offer, need: real, size: real)
    requires need <= 0.0 && size > 0.0 && offer.pack == Some(Packs(need, size))
    ensures offer.Key().sanity == 0 && offer.Key().ratio == Finite(0.0)
  {
  }

  lemma {:induction false} SameAmountSameRank(a: Offer, b: Offer, need: real, size: real, other: real, k: int)
    requires need > 0.0 && size > 0.0 && other > 0.0
    requires a.pack == Some(Packs(need, size)) && b.pack == Some(Packs(need, other))
    requires SameAmount(Measure(need, size), Packs(need, size).count, Measure(need, other), k)
    requires Packs(need, size).Total() <= Packs(need, other).Total()
    ensures a.Key().sanity == b.Key().sanity && a.Key().ratio == b.Key().ratio
  {
    SameAmountSameRatio(need, size, other, k);
    RatioOf(a, need, size);
    RatioOf(b, need, other);
  }

  lemma {:induction false} AsMuchSameRank(offers: seq<Offer>, deals: seq<Deal>, best: nat, j: nat)
    requires Dealt(offers, deals) && FirstLeast(offers, best) && j < |deals|
    requires AsMuch(deals[best].measure, PackCount(deals[best].measure), deals[j].measure)
    ensures offers[best].Key().sanity == offers[j].Key().sanity && offers[best].Key().ratio == offers[j].Key().ratio
  {
    if deals[best].measure.Some? {
      var a, b := deals[best].measure.value, deals[j].measure.value;
      assert a.need == b.need;
      if a.need > 0.0 {
        var k :| SameAmount(a, Packs(a.need, a.size).count, b, k);
        DealtMadeFor(offers, deals, a.need);
        LeastTotal(offers, best, j, a.need);
        SameAmountSameRank(offers[best], offers[j], a.need, a.size, b.size, k);
      } else {
        NeedlessRank(offers[best], a.need, a.size);
        NeedlessRank(offers[j], a.need, b.size);
      }
    }
  }

  lemma {:induction false} LeastAmount(offers: seq<Offer>, deals: seq<Deal>, best: nat, j: nat, k: int)
    requires Dealt(offers, deals) && FirstLeast(offers, best) && j < |deals| && deals[j].measure.Some?
    ensures deals[best].measure.Some?
    ensures var a, b := deals[best].measure.value, deals[j].measure.value;
      a.need > 0.0 && Covers(k, b.size, b.need) ==> Packs(a.need, a.size).count as real * a.size <= k as real * b.size
  {
    assert !offers[j].Key().Below(offers[best].Key());
    var a := deals[best].measure.value;
    if a.need > 0.0 {
      DealtMadeFor(offers, deals, a.need);
      BuysTheLeastThatCovers(offers, best, j, a.need, k);
    }
  }

  lemma {:induction false} FirstLeastIsLeast(offers: seq<Offer>, deals: seq<Deal>, best: nat, j: nat)
    requires Dealt(offers, deals) && FirstLeast(offers, best) && j < |deals|
    ensures NoMore(deals[best].measure, PackCount(deals[best].measure), deals[j].measure)
  {
    var a, b := deals[best].measure, deals[j].measure;
    if b.Some? {
      LeastAmount(offers, deals, best, j, 0);
      forall k | a.value.need > 0.0 && Covers(k, b.value.size, b.value.need)
        ensures PackCount(a) as real * a.value.size <= k as real * b.value.size
      {
        LeastAmount(offers, deals, best, j, k);
      }
    }
  }

  lemma {:induction false} FirstLeastIsBest(offers: seq<Offer>, deals: seq<Deal>, best: nat, j: nat)
    requires Dealt(offers, deals) && FirstLeast(offers, best) && j < |deals|
    ensures NoBetter(deals[best], PackCount(deals[best].measure), best, deals[j], j)
  {
    FirstLeastIsLeast(offers, deals, best, j);
    if AsMuch(deals[best].measure, PackCount(deals[best].measure), deals[j].measure) {
      AsMuchSameRank(offers, deals, best, j);
      TieBreak(offers, best, j);
    }
  }

  lemma {:induction false} SelectionIsBest(i: Ingredient, pairs: seq<Pair>, best: nat, j: nat)
    requires FirstLeast(Offers(i, pairs), best) && j < |pairs|
    ensures SelectedOf(i, pairs[best]).quantity.Some?
    ensures NoBetter(DealOf(i, pairs[best]), SelectedOf(i, pairs[best]).quantity.value, best, DealOf(i, pairs[j]), j)
  {
    OffersOfDeals(i, pairs);
    OfferOfDeal(i, pairs[best]);
    FirstLeastIsBest(Offers(i, pairs), Deals(i, pairs), best, j);
  }

  /** A variant that is in stock and can be counted out against the need. */
  ghost predicate Countable(i: Ingredient, candidates: seq<Product>, product: Product, variant: Variant) {
    product in candidates && variant in product.variants && variant.inStock && Measured(i, variant).Some?
  }

  /** There is something to buy a positive need of by count. */
  ghost predicate CanBeCountedOut(i: Ingredient, candidates: seq<Product>) {
    exists product, variant :: Countable(i, candidates, product, variant) && Measured(i, variant).value.need > 0.0
  }

  /** The selection covers the need with less than a pack to spare, from a variant that is in stock and
      countable, and no number of packs of any such variant covers it with less. */
  ghost predicate LeastPurchase(i: Ingredient, candidates: seq<Product>, r: Selected, product: Product, variant: Variant) {
    && Countable(i, candidates, product, variant)
    && r.spinId == Some(variant.spinId) && r.unitPrice == variant.price && r.quantity.Some? && r.overage.Some?
    && var Measure(need, size) := Measured(i, variant).value;
    && Covers(r.quantity.value, size, need)
    && 0.0 <= r.overage.value < size
    && r.overage.value == Pack(r.quantity.value, size, 0.0).Total() - need
    && forall p, v, k | Countable(i, candidates, p, v) ::
         NoLess(Pack(r.quantity.value, size, 0.0), Measured(i, v).value.size, need, k)
  }

  ghost predicate NoLess(chosen: Pack, size: real, need: real, k: int) {
    Covers(k, size, need) ==> chosen.Total() <= Pack(k, size, 0.0).Total()
  }

  lemma {:induction false} ChosenDealIsLeast(offers: seq<Offer>, deals: seq<Deal>, best: nat, j: nat, k: int)
    requires Dealt(offers, deals) && FirstLeast(offers, best) && j < |deals|
    requires deals[j].measure.Some? && deals[j].measure.value.need > 0.0
    ensures deals[best].measure.Some?
    ensures var Measure(need, size) := deals[best].measure.value;
      && need == deals[j].measure.value.need
      && var chosen := Packs(need, size);
      && chosen.size == size
      && Covers(chosen.count, size, need) && 0.0 <= chosen.overage < size
      && chosen.overage == chosen.Total() - need
      && NoLess(chosen, deals[j].measure.value.size, need, k)
  {
    var need := deals[j].measure.value.need;
    DealtMadeFor(offers, deals, need);
    BuysTheLeastThatCovers(offers, best, j, need, k);
  }

  lemma {:induction false} ChosenIsLeast(i: Ingredient, candidates: seq<Product>, best: nat, product: Product, variant: Variant, k: int)
    requires FirstLeast(Offers(i, InStock(candidates)), best) && Countable(i, candidates, product, variant)
    requires Measured(i, variant).value.need > 0.0
    ensures var pair := InStock(candidates)[best];
      && Countable(i, candidates, pair.product, pair.variant)
      && var Measure(need, size) := Measured(i, pair.variant).value;
      && need == Measured(i, variant).value.need
      && var chosen := Packs(need, size);
      && chosen.size == size
      && Covers(chosen.count, size, need) && 0.0 <= chosen.overage < size
      && chosen.overage == chosen.Total() - need
      && NoLess(chosen, Measured(i, variant).value.size, need, k)
  {
    var pairs := InStock(candidates);
    InStockMembers(candidates, Pair(product, variant));
    InStockMembers(candidates, pairs[best]);
    var j :| 0 <= j < |pairs| && pairs[j] == Pair(product, variant);
    OffersOfDeals(i, pairs);
    ChosenDealIsLeast(Offers(i, pairs), Deals(i, pairs), best, j, k);
  }

  lemma {:induction false} SamePackTotal(a: Pack, b: Pack)
    requires a.count == b.count && a.size == b.size
    ensures a.Total() == b.Total()
  {
  }

  lemma {:induction false} SelectionIsLeast(i: Ingredient, candidates: seq<Product>, best: nat)
    requires CanBeCountedOut(i, candidates) && FirstLeast(Offers(i, InStock(candidates)), best)
    ensures var pair := InStock(candidates)[best];
      LeastPurchase(i, candidates, SelectedOf(i, pair), pair.product, pair.variant)
  {
    var pair := InStock(candidates)[best];
    var product, variant :| Countable(i, candidates, product, variant) && Measured(i, variant).value.need > 0.0;
    ChosenIsLeast(i, candidates, best, product, variant, 1);
    OfferOfDeal(i, pair);
    var Measure(need, size) := Measured(i, pair.variant).value;
    var chosen := Packs(need, size);
    var bought := Pack(chosen.count, chosen.size, 0.0);
    SamePackTotal(chosen, bought);
    forall p, v, k | Countable(i, candidates, p, v) ensures NoLess(bought, Measured(i, v).value.size, need, k) {
      ChosenIsLeast(i, candidates, best, p, v, k);
    }
  }

  /** For every need and every search result: nothing in stock is reported unavailable; otherwise an offer is selected
      that no offer in stock is better than, and bought as it should be; and a positive need that can be counted out
      is covered with the least. */
  method SelectVariant(i: Ingredient, candidates: seq<Product>) returns (r: Selected, ghost best: nat)
    ensures r.status.Unavailable? <==> forall p, v | p in candidates && v in p.variants :: !v.inStock
    ensures r.status.Unavailable? ==> r == Selected(Unavailable, None, None, None, None) && InStock(candidates) == []
    ensures !r.status.Unavailable? ==>
      var pairs := InStock(candidates);
      && best < |pairs|
      && pairs[best].product in candidates && pairs[best].variant in pairs[best].product.variants
      && pairs[best].variant.inStock
      && Buys(i, r, pairs[best].product, pairs[best].variant)
      && r.quantity.Some?
      && (forall j: nat | j < |pairs| ::
            NoBetter(DealOf(i, pairs[best]), r.quantity.value, best, DealOf(i, pairs[j]), j))
      && FirstLeast(Offers(i, pairs), best) && r == SelectedOf(i, pairs[best])
    ensures CanBeCountedOut(i, candidates) ==>
      exists product, variant :: LeastPurchase(i, candidates, r, product, variant)
  {
    var pairs := InStock(candidates);
    StockExactly(candidates);
    if pairs == [] {
      best := 0;
      return Selected(Unavailable, None, None, None, None), 0;
    }
    var least := Least(Offers(i, pairs));
    r, best := SelectedOf(i, pairs[least]), least;
    SelectLeast(i, candidates, least);
    SelectedBuys(i, pairs[least]);
    InStockMembers(candidates, pairs[least]);
    forall j: nat | j < |pairs|
      ensures NoBetter(DealOf(i, pairs[least]), r.quantity.value, least, DealOf(i, pairs[j]), j)
    {
      SelectionIsBest(i, pairs, least, j);
    }
  }

  lemma {:induction false} StockExactly(candidates: seq<Product>)
    ensures InStock(candidates) == [] <==> forall p, v | p in candidates && v in p.variants :: !v.inStock
  {
    forall p, v | p in candidates && v in p.variants && v.inStock ensures InStock(candidates) != [] {
      InStockMembers(candidates, Pair(p, v));
    }
    if InStock(candidates) != [] {
      InStockMembers(candidates, InStock(candidates)[0]);
    }
  }

  lemma {:induction false} NothingCountable(i: Ingredient, candidates: seq<Product>)
    requires InStock(candidates) == []
    ensures forall product, variant :: !Countable(i, candidates, product, variant)
  {
    forall product, variant ensures !Countable(i, candidates, product, variant) {
      InStockMembers(candidates, Pair(product, variant));
    }
  }

  lemma {:induction false} SelectLeast(i: Ingredient, candidates: seq<Product>, best: nat)
    requires FirstLeast(Offers(i, InStock(candidates)), best)
    ensures CanBeCountedOut(i, candidates) ==>
      exists product, variant :: LeastPurchase(i, candidates, SelectedOf(i, InStock(candidates)[best]), product, variant)
  {
    if CanBeCountedOut(i, candidates) {
      SelectionIsLeast(i, candidates, best);
    }
  }

  // ------------------------------------------------------- a choice without a price

  /** How an offer ranks once prices are set aside. */
  function Unpriced(offer: Offer): Rank {
    offer.Key().(price := Infinite)
  }

  /** Some priced offer is undercut by none on anything but price. */
  predicate PricedOnTop(offers: seq<Offer>) {
    exists j :: 0 <= j < |offers| && offers[j].price.Some? && OnTop(offers, j)
  }

  predicate OnTop(offers: seq<Offer>, j: nat)
    requires j < |offers|
  {
    forall k | 0 <= k < |offers| :: !Unpriced(offers[k]).Below(Unpriced(offers[j]))
  }

  lemma {:induction false} BelowWithoutPrice(a: Offer, b: Offer)
    ensures Unpriced(a).Below(Unpriced(b)) ==> a.Key().Below(b.Key())
    ensures Unpriced(a) == Unpriced(b) && a.price.Some? && b.price.None? ==> a.Key().Below(b.Key())
    ensures !Unpriced(a).Below(Unpriced(b)) && !Unpriced(b).Below(Unpriced(a)) ==> Unpriced(a) == Unpriced(b)
  {
    RanksAreTotallyOrdered(Unpriced(a), Unpriced(b), Unpriced(a));
  }

  /** The chosen offer has a price exactly when some priced offer is on top once prices are set aside. */
  lemma {:induction false} PricedOnTopIsChosen(offers: seq<Offer>, best: nat)
    requires FirstLeast(offers, best)
    ensures offers[best].price.Some? <==> PricedOnTop(offers)
  {
    forall k | 0 <= k < |offers| {
      BelowWithoutPrice(offers[k], offers[best]);
    }
    assert OnTop(offers, best);
    if j :| 0 <= j < |offers| && offers[j].price.Some? && OnTop(offers, j) {
      BelowWithoutPrice(offers[j], offers[best]);
    }
  }

  // -------------------------------------------------- where the law stops holding

  /** No countable offer would put less in the cart. */
  ghost predicate Thrifty(offers: seq<Offer>, best: nat)
    requires best < |offers|
  {
    forall j | 0 <= j < |offers| && offers[j].pack.Some? ::
      offers[best].pack.Some? && offers[best].pack.value.Total() <= offers[j].pack.value.Total()
  }

  /** A need of nothing or less takes one pack of anything. */
  lemma {:induction false} OnePackOfNothing(need: real, size: real)
    requires size > 0.0 && need <= 0.0
    ensures Packs(need, size) == Pack(1, size, size - need)
  {
    CeilingCovers(need, size, 1);
    assert 1 as real * size == size;
  }

  /** Then every ratio counts as zero, and of two sizes the one found first is bought. */
  lemma {:induction false} LargePackWins(need: real)
    requires need <= 0.0
    ensures var offers := [Offer(Some(Packs(need, 2.0)), false, None), Offer(Some(Packs(need, 1.0)), false, None)];
      MadeFor(offers, need) && FirstLeast(offers, 0) && !Thrifty(offers, 0)
  {
    OnePackOfNothing(need, 2.0);
    OnePackOfNothing(need, 1.0);
    var offers := [Offer(Some(Packs(need, 2.0)), false, None), Offer(Some(Packs(need, 1.0)), false, None)];
    assert offers[0].Key() == offers[1].Key();
    assert offers[1].pack.value.Total() == 1.0 && offers[0].pack.value.Total() == 2.0;
  }

  /** Whatever is on offer the least is bought exactly for a positive need. */
  lemma {:induction false} ThriftyExactlyForPositiveNeed(need: real)
    ensures need > 0.0 <==>
      forall offers: seq<Offer>, best: nat | MadeFor(offers, need) && FirstLeast(offers, best) :: Thrifty(offers, best)
  {
    if need > 0.0 {
      forall offers: seq<Offer>, best: nat | MadeFor(offers, need) && FirstLeast(offers, best)
        ensures Thrifty(offers, best)
      {
        forall j: nat | j < |offers| && offers[j].pack.Some?
          ensures offers[best].pack.Some? && offers[best].pack.value.Total() <= offers[j].pack.value.Total()
        {
          LeastTotal(offers, best, j, need);
        }
      }
    } else {
      LargePackWins(need);
    }
  }
}
