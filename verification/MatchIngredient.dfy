/** One ingredient worker: `_resolve` and `match_ingredient` of app/agent/nodes/match_ingredient.py. */
module MatchIngredient {
  import opened Collections
  import opened CartMerge
  import opened Candidates
  import opened Units
  import opened VariantSelection
  import Checklist
  import Ranking
  import CartOps
  import CartAnswers
  import Turn
  import TurnLaws

  /** A search is answered, refused by Swiggy, or fails for the user as a whole. */
  datatype Search = Found(products: seq<Product>) | Rejected | Down

  function AsIngredient(row: Checklist.Row): Ingredient {
    Ingredient(row.name, row.quantity, row.unit, None)
  }

  function UnavailableMatch(row: Checklist.Row): Turn.Match {
    Turn.Match(row.name, Unavailable, None, None, None)
  }

  /** `_from_selected`. A selected variant always comes with a count of at least one. */
  function FromSelected(row: Checklist.Row, selected: Selected): Turn.Match
    requires selected.quantity.Some? ==> selected.quantity.value > 0
  {
    Turn.Match(row.name, selected.status, selected.spinId,
               if selected.quantity.Some? then Some(selected.quantity.value) else None, selected.unitPrice)
  }

  function FromSubstitute(row: Checklist.Row, c: Candidate): Turn.Match {
    Turn.Match(row.name, Substituted, Some(c.variant.spinId), Some(1), Some(c.price))
  }

  /** What stands in for a row nothing was in stock for. */
  function Instead(row: Checklist.Row, second: Search): Turn.Match {
    if second.Found? && Ranking.Substitute(second.products, None).Some?
    then FromSubstitute(row, Ranking.Substitute(second.products, None).value)
    else UnavailableMatch(row)
  }

  /** Nothing in stock: the same term is searched again for a substitute. */
  method TrySubstitute(row: Checklist.Row, second: Search) returns (r: Option<Turn.Match>)
    ensures r.None? <==> second.Down?
    ensures r.Some? ==> r.value == Instead(row, second)
  {
    match second
    case Down => r := None;
    case Rejected => r := Some(UnavailableMatch(row));
    case Found(products) =>
      var best := Ranking.Substitute(products, None);
      r := Some(if best.Some? then FromSubstitute(row, best.value) else UnavailableMatch(row));
  }

  /** The worker: its row's match as the searches resolve it, unless one fails for the whole turn. */
  method Resolve(row: Checklist.Row, first: Search, second: Search) returns (r: Option<Turn.Match>)
    ensures r.None? <==> first.Down? || (first.Found? && InStock(first.products) == [] && second.Down?)
    ensures r.Some? ==> r.value.name == row.name && Resolves(row, first, second, r.value)
    ensures r.Some? ==> MatchedAs(row, first, second, r.value)
    ensures r.Some? ==> (Turn.PlanAccepted([r.value]) <==> Plannable(row, first))
  {
    match first
    case Down => r := None;
    case Rejected => r := Some(UnavailableMatch(row));
    case Found(products) =>
      var selected, _ := SelectVariant(AsIngredient(row), products);
      if selected.status.Unavailable? {
        r := TrySubstitute(row, second);
      } else {
        r := Some(FromSelected(row, selected));
      }
    if r.Some? {
      PlannedExactlyWhenPriced(row, first, second, r.value);
      ResolvedAsMatched(row, first, second, r.value);
    }
  }

  /** What can be bought is in stock, so asking the same search again never finds a substitute. */
  lemma {:induction false} SecondSearchOnlyHelpsIfItDiffers(products: seq<Product>, preferredPack: Option<string>)
    requires InStock(products) == []
    ensures Ranking.Substitute(products, preferredPack) == None
  {
    Ranking.SubstituteIsTheClosest(products, preferredPack);
    if c :| Buyable(c, products) {
      InStockMembers(products, Pair(c.product, c.variant));
      assert false;
    }
  }

  // ---------------------------------------------------------------- the plan

  /** A searched row can go into the plan: its results put a priced offer on top, or offer nothing. */
  predicate Plannable(row: Checklist.Row, first: Search) {
    first.Found? && InStock(first.products) != [] ==>
      PricedOnTop(Offers(AsIngredient(row), InStock(first.products)))
  }

  lemma {:induction false} PlanOfOne(m: Turn.Match)
    ensures Turn.PlanAccepted([m]) <==> m.status.Unavailable? || m.Purchasable()
  {
    assert m in [m];
  }

  /** The match of a chosen variant is accepted exactly when the search put a priced offer on top. */
  lemma {:induction false} ChosenIsPlannedExactlyWhenPriced(row: Checklist.Row, products: seq<Product>, best: nat)
    requires FirstLeast(Offers(AsIngredient(row), InStock(products)), best)
    ensures var selected := SelectedOf(AsIngredient(row), InStock(products)[best]);
      && selected.quantity.Some? && selected.quantity.value > 0
      && (Turn.PlanAccepted([FromSelected(row, selected)]) <==> Plannable(row, Found(products)))
  {
    var i, pairs := AsIngredient(row), InStock(products);
    PricedOnTopIsChosen(Offers(i, pairs), best);
    PlanOfOne(FromSelected(row, SelectedOf(i, pairs[best])));
    assert Offers(i, pairs)[best].price == pairs[best].variant.price;
  }

  lemma {:induction false} PlanAcceptedEach(matches: seq<Turn.Match>)
    ensures Turn.PlanAccepted(matches) <==> forall i | 0 <= i < |matches| :: Turn.PlanAccepted([matches[i]])
  {
    forall i | 0 <= i < |matches| {
      PlanOfOne(matches[i]);
    }
  }

  /** A match is what a row's two searches resolve it to. */
  ghost predicate Resolves(row: Checklist.Row, first: Search, second: Search, m: Turn.Match) {
    match first
    case Down => false
    case Rejected => m == UnavailableMatch(row)
    case Found(products) =>
      var i, pairs := AsIngredient(row), InStock(products);
      if pairs != [] then
        exists best: nat :: FirstLeast(Offers(i, pairs), best) && m == FromSelected(row, SelectedOf(i, pairs[best]))
      else
        !second.Down? && m == Instead(row, second)
  }

  /** This stocked offer is no worse than any other, and is bought as it should be. */
  ghost predicate Picked(row: Checklist.Row, products: seq<Product>, m: Turn.Match, best: nat, r: Selected) {
    var i, pairs := Ingredient(row.name, row.quantity, row.unit, None), InStock(products);
    && best < |pairs| && r.quantity.Some? && r.quantity.value > 0
    && Buys(i, r, pairs[best].product, pairs[best].variant)
    && (forall j: nat | j < |pairs| ::
          NoBetter(DealOf(i, pairs[best]), r.quantity.value, best, DealOf(i, pairs[j]), j))
    && m == Turn.Match(row.name, Matched, Some(pairs[best].variant.spinId), Some(r.quantity.value),
                       pairs[best].variant.price)
  }

  /** One pack of the cheapest of what can be bought, and of the cheapest the least by variant. */
  ghost predicate StandsIn(row: Checklist.Row, products: seq<Product>, m: Turn.Match, c: Candidate) {
    && Buyable(c, products)
    && (forall d | Buyable(d, products) ::
          c.price < d.price || (c.price == d.price && !Ranking.Before(d.variant.spinId, c.variant.spinId)))
    && m == Turn.Match(row.name, Substituted, Some(c.variant.spinId), Some(1), Some(c.price))
  }

  /** What the searches make of a row: an offer that was in stock, else a substitute the second search has for sale,
      else nothing. */
  ghost predicate MatchedAs(row: Checklist.Row, first: Search, second: Search, m: Turn.Match) {
    if first.Found? && exists p, v :: p in first.products && v in p.variants && v.inStock then
      exists best: nat, r :: Picked(row, first.products, m, best, r)
    else if first.Found? && second.Found? && exists c :: Buyable(c, second.products) then
      exists c :: StandsIn(row, second.products, m, c)
    else m == Turn.Match(row.name, Unavailable, None, None, None)
  }

  lemma {:induction false} ChosenIsPicked(row: Checklist.Row, products: seq<Product>, best: nat)
    requires FirstLeast(Offers(AsIngredient(row), InStock(products)), best)
    ensures var r := SelectedOf(AsIngredient(row), InStock(products)[best]);
      && r.quantity.Some? && r.quantity.value > 0
      && Picked(row, products, FromSelected(row, r), best, r)
  {
    var i, pairs := AsIngredient(row), InStock(products);
    var r := SelectedOf(i, pairs[best]);
    SelectedBuys(i, pairs[best]);
    forall j: nat | j < |pairs|
      ensures NoBetter(DealOf(i, pairs[best]), r.quantity.value, best, DealOf(i, pairs[j]), j)
    {
      SelectionIsBest(i, pairs, best, j);
    }
  }

  lemma {:induction false} SubstituteStandsIn(row: Checklist.Row, products: seq<Product>)
    ensures Ranking.Substitute(products, None).None? <==> forall c :: !Buyable(c, products)
    ensures Ranking.Substitute(products, None).Some? ==>
      var c := Ranking.Substitute(products, None).value; StandsIn(row, products, FromSubstitute(row, c), c)
  {
    Ranking.SubstituteIsTheClosest(products, None);
    forall d | Buyable(d, products) {
      Ranking.SubstituteIsTheCheapest(products, d);
    }
  }

  lemma {:induction false} ResolvedAsMatched(row: Checklist.Row, first: Search, second: Search, m: Turn.Match)
    requires Resolves(row, first, second, m)
    ensures MatchedAs(row, first, second, m)
  {
    if first.Found? {
      StockExactly(first.products);
      if InStock(first.products) != [] {
        var i, pairs := AsIngredient(row), InStock(first.products);
        var best: nat :| FirstLeast(Offers(i, pairs), best) && m == FromSelected(row, SelectedOf(i, pairs[best]));
        ChosenIsPicked(row, first.products, best);
      } else if second.Found? {
        SubstituteStandsIn(row, second.products);
      }
    }
  }

  lemma {:induction false} PlannedExactlyWhenPriced(row: Checklist.Row, first: Search, second: Search, m: Turn.Match)
    requires Resolves(row, first, second, m)
    ensures Turn.PlanAccepted([m]) <==> Plannable(row, first)
  {
    PlanOfOne(m);
    if first.Found? && InStock(first.products) != [] {
      var i, pairs := AsIngredient(row), InStock(first.products);
      var best: nat :| FirstLeast(Offers(i, pairs), best) && m == FromSelected(row, SelectedOf(i, pairs[best]));
      ChosenIsPlannedExactlyWhenPriced(row, first.products, best);
    }
  }

  /** The workers of a turn resolved their rows from these searches. */
  ghost predicate Searched(arrived: seq<Turn.Arrival>, firsts: seq<Search>, seconds: seq<Search>) {
    && |firsts| == |seconds| == |arrived|
    && forall i | 0 <= i < |arrived| :: Resolves(arrived[i].row, firsts[i], seconds[i], arrived[i].found)
  }

  lemma {:induction false} SearchedPlan(arrived: seq<Turn.Arrival>, firsts: seq<Search>, seconds: seq<Search>)
    requires Searched(arrived, firsts, seconds)
    ensures Turn.PlanAccepted(Turn.FoundBy(arrived)) <==>
      forall i | 0 <= i < |arrived| :: Plannable(arrived[i].row, firsts[i])
  {
    var found := Turn.FoundBy(arrived);
    PlanAcceptedEach(found);
    forall i | 0 <= i < |arrived| ensures Turn.PlanAccepted([found[i]]) <==> Plannable(arrived[i].row, firsts[i]) {
      assert Resolves(arrived[i].row, firsts[i], seconds[i], arrived[i].found);
      PlannedExactlyWhenPriced(arrived[i].row, firsts[i], seconds[i], found[i]);
    }
  }

  lemma {:induction false} MatchesOfComposing(k: Turn.Kitchen, s: Turn.State, w: Turn.World)
    requires Turn.Reaches(k, s, w) && w.phase.Composing?
    ensures w.state.matches == s.matches + Turn.FoundBy(w.given.arrived) && w.written == []
  {
    var run :| Turn.Via(k, s, run, w);
    TurnLaws.RunsStayOnTrack(k, s, run, w);
  }

  /** A turn fails as its plan is stored, and writes no cart, exactly when an earlier match was unpriced or
      some search that found stock puts no priced offer on top. */
  lemma {:induction false} UnpricedSearchStopsTheTurn(k: Turn.Kitchen, s: Turn.State, w: Turn.World, held: seq<Line>,
                                   firsts: seq<Search>, seconds: seq<Search>)
    requires Turn.Reaches(k, s, w) && w.phase.Composing? && Searched(w.given.arrived, firsts, seconds)
    ensures var w' := Turn.Next(k, w, Turn.Compose(held));
      && (w'.phase.Failed? <==>
            !Turn.PlanAccepted(s.matches)
            || exists i :: 0 <= i < |firsts| && !Plannable(w.given.arrived[i].row, firsts[i]))
      && (w'.phase.Failed? ==> w'.written == [])
  {
    var found := Turn.FoundBy(w.given.arrived);
    MatchesOfComposing(k, s, w);
    SearchedPlan(w.given.arrived, firsts, seconds);
    assert forall m :: m in s.matches + found <==> m in s.matches || m in found;
  }

  // --------------------------------------------------- needs that cannot be counted

  /** Nothing can be counted out against a need that is not told in a known unit. */
  lemma {:induction false} Unmeasured(i: Ingredient, v: Variant)
    requires i.quantity.None? || i.unit.None? || NormalizeQuantity(i.quantity.value, i.unit.value).None?
    ensures Measured(i, v).None?
  {
  }

  /** A row of an ended turn whose amount is not told in a known unit, and for which something was in stock, adds
      exactly one pack to the cart. */
  lemma {:induction false} OnePackOfTheUnmeasured(k: Turn.Kitchen, s: Turn.State, w: Turn.World, firsts: seq<Search>,
                                                  seconds: seq<Search>, j: nat)
    requires Turn.Reaches(k, s, w) && w.phase.Ended? && Searched(w.given.arrived, firsts, seconds)
    requires j < |w.given.arrived| && firsts[j].Found? && InStock(firsts[j].products) != []
    requires var row := w.given.arrived[j].row;
      row.quantity.None? || row.unit.None? || NormalizeQuantity(row.quantity.value, row.unit.value).None?
    ensures |s.matches| + j < |w.state.matches|
    ensures var m := w.state.matches[|s.matches| + j];
      m.name == w.given.arrived[j].row.name && m.spinId.Some? && Turn.Additions([m]) == [Line(m.spinId.value, 1)]
  {
    EndedMatches(k, s, w, j);
    ResolvedBySearch(w.given.arrived, firsts, seconds, j);
    UnmeasuredAddsOne(w.given.arrived[j].row, firsts[j], seconds[j], w.state.matches[|s.matches| + j]);
  }

  lemma {:induction false} UnmeasuredAddsOne(row: Checklist.Row, first: Search, second: Search, m: Turn.Match)
    requires Resolves(row, first, second, m) && first.Found? && InStock(first.products) != []
    requires row.quantity.None? || row.unit.None? || NormalizeQuantity(row.quantity.value, row.unit.value).None?
    requires m.status.Unavailable? || m.Purchasable()
    ensures m.name == row.name && m.spinId.Some? && Turn.Additions([m]) == [Line(m.spinId.value, 1)]
  {
    ResolvedAsMatched(row, first, second, m);
    StockExactly(first.products);
    var best: nat, r :| Picked(row, first.products, m, best, r);
    Unmeasured(Ingredient(row.name, row.quantity, row.unit, None), InStock(first.products)[best].variant);
    assert [m][..0] == [] && Turn.Additions([]) == [];
  }

  // ------------------------------------------------------------ from need to cart

  /** The match of a row that can be counted out is the least purchase of what its search found. */
  lemma {:induction false} ResolvedIsLeast(row: Checklist.Row, first: Search, second: Search, m: Turn.Match)
    returns (r: Selected, product: Product, variant: Variant)
    requires Resolves(row, first, second, m) && first.Found?
    requires CanBeCountedOut(AsIngredient(row), first.products)
    ensures LeastPurchase(AsIngredient(row), first.products, r, product, variant)
    ensures r.quantity.value > 0 && m == FromSelected(row, r)
    ensures !m.status.Unavailable? && m.spinId == Some(variant.spinId) && m.quantity.Some?
    ensures m.quantity.value == r.quantity.value
  {
    var i, pairs := AsIngredient(row), InStock(first.products);
    if pairs == [] {
      NothingCountable(i, first.products);
    }
    var best: nat :| FirstLeast(Offers(i, pairs), best) && m == FromSelected(row, SelectedOf(i, pairs[best]));
    SelectionIsLeast(i, first.products, best);
    r, product, variant := SelectedOf(i, pairs[best]), pairs[best].product, pairs[best].variant;
  }

  /** A purchasable match's quantity is among the additions. */
  lemma {:induction false} AdditionsHold(matches: seq<Turn.Match>, i: nat)
    requires i < |matches| && matches[i].Purchasable()
    ensures Total(Turn.Additions(matches), matches[i].spinId.value) >= matches[i].quantity.value
  {
    var n := |matches| - 1;
    var before, m := Turn.Additions(matches[..n]), matches[n];
    if i < n {
      AdditionsHold(matches[..n], i);
    }
    if m.Purchasable() {
      TotalSnoc(before, Line(m.spinId.value, m.quantity.value), matches[i].spinId.value);
    } else {
      assert before + [] == before;
    }
  }

  /** More packs cover what fewer do. */
  lemma {:induction false} MoreCovers(count: int, more: int, size: real, need: real)
    requires Covers(count, size, need) && count <= more && size > 0.0
    ensures Covers(more, size, need)
  {
    ScaleUp(count as real, more as real, size);
  }

  lemma {:induction false} PurchaseCovers(i: Ingredient, products: seq<Product>, r: Selected, product: Product,
                                          variant: Variant, held: int)
    requires LeastPurchase(i, products, r, product, variant) && r.quantity.value <= held
    ensures Covers(held, Measured(i, variant).value.size, Measured(i, variant).value.need)
  {
    MoreCovers(r.quantity.value, held, Measured(i, variant).value.size, Measured(i, variant).value.need);
  }

  lemma {:induction false} EndedMatches(k: Turn.Kitchen, s: Turn.State, w: Turn.World, j: nat)
    requires Turn.Reaches(k, s, w) && w.phase.Ended? && j < |w.given.arrived|
    ensures |s.matches| + j < |w.state.matches| && w.state.matches[|s.matches| + j] == w.given.arrived[j].found
    ensures var m := w.given.arrived[j].found; m.status.Unavailable? || m.Purchasable()
  {
    TurnLaws.OneMatchPerNeededRow(k, s, w);
    TurnLaws.EndedPlanIsAccepted(k, s, w);
    FoundBehind(s.matches, w.given.arrived, j);
    AcceptedAt(w.state.matches, |s.matches| + j);
  }

  lemma {:induction false} FoundBehind(prior: seq<Turn.Match>, arrived: seq<Turn.Arrival>, j: nat)
    requires j < |arrived|
    ensures |prior + Turn.FoundBy(arrived)| == |prior| + |arrived|
    ensures (prior + Turn.FoundBy(arrived))[|prior| + j] == arrived[j].found
  {
  }

  lemma {:induction false} AcceptedAt(matches: seq<Turn.Match>, i: nat)
    requires i < |matches| && Turn.PlanAccepted(matches)
    ensures matches[i].status.Unavailable? || matches[i].Purchasable()
  {
    assert matches[i] in matches;
  }

  /** What a compose without a review leaves of a line it added: all of it, unless Swiggy dropped the line. */
  lemma {:induction false} ComposeKeeps(matches: seq<Turn.Match>, before: seq<Line>, outs: seq<CartOps.Outcome>,
                                        i: nat)
    requires TurnLaws.Composed(matches, before, outs) && i < |matches| && matches[i].Purchasable()
    ensures |outs| >= 2 && outs[1].Accept?
    ensures var id := matches[i].spinId.value;
      id !in outs[1].drops ==> Total(TurnLaws.ComposedCart(matches, before, outs), id) >= matches[i].quantity.value
  {
    var additions, id := Turn.Additions(matches), matches[i].spinId.value;
    AdditionsHold(matches, i);
    CartAnswers.EveryAnswerIsHonest(CartOps.Compose(additions), before, outs);
    CartAnswers.KeptTotal(Merged(before, additions), outs[1].drops, id);
    MergedTotal(before, additions, id);
  }

  lemma {:induction false} ResolvedBySearch(arrived: seq<Turn.Arrival>, firsts: seq<Search>, seconds: seq<Search>,
                                            j: nat)
    requires Searched(arrived, firsts, seconds) && j < |arrived|
    ensures |firsts| == |seconds| == |arrived|
    ensures Resolves(arrived[j].row, firsts[j], seconds[j], arrived[j].found)
  {
  }

  /** A compose of these matches was accepted, and unless it dropped the variant's line the cart it left holds
      enough of the variant to cover the need. */
  ghost predicate Supplied(matches: seq<Turn.Match>, before: seq<Line>, outs: seq<CartOps.Outcome>, i: Ingredient,
                           variant: Variant)
    requires TurnLaws.Composed(matches, before, outs)
  {
    && |outs| >= 2
    && outs[1].Accept?
    && Measured(i, variant).Some?
    && (variant.spinId !in outs[1].drops ==>
          Covers(Total(TurnLaws.ComposedCart(matches, before, outs), variant.spinId),
                 Measured(i, variant).value.size, Measured(i, variant).value.need))
  }

  lemma {:induction false} MatchSupplies(matches: seq<Turn.Match>, at: nat, before: seq<Line>,
                                         outs: seq<CartOps.Outcome>, i: Ingredient, products: seq<Product>,
                                         r: Selected, product: Product, variant: Variant)
    requires TurnLaws.Composed(matches, before, outs)
    requires at < |matches| && matches[at].Purchasable()
    requires LeastPurchase(i, products, r, product, variant)
    requires matches[at].spinId.value == variant.spinId && matches[at].quantity.value == r.quantity.value
    ensures Supplied(matches, before, outs, i, variant)
  {
    ComposeKeeps(matches, before, outs, at);
    if variant.spinId !in outs[1].drops {
      PurchaseCovers(i, products, r, product, variant,
                     Total(TurnLaws.ComposedCart(matches, before, outs), variant.spinId));
    }
  }

  /** If the need can be counted out against what was found, some least purchase of it is supplied. */
  ghost predicate Covered(matches: seq<Turn.Match>, before: seq<Line>, outs: seq<CartOps.Outcome>, i: Ingredient,
                          first: Search)
    requires TurnLaws.Composed(matches, before, outs)
  {
    first.Found? && CanBeCountedOut(i, first.products) ==>
      exists r, product, variant ::
        LeastPurchase(i, first.products, r, product, variant) && Supplied(matches, before, outs, i, variant)
  }

  lemma {:induction false} MatchCovers(row: Checklist.Row, first: Search, second: Search, matches: seq<Turn.Match>,
                                       at: nat, before: seq<Line>, outs: seq<CartOps.Outcome>)
    requires at < |matches| && Resolves(row, first, second, matches[at])
    requires matches[at].status.Unavailable? || matches[at].Purchasable()
    requires TurnLaws.Composed(matches, before, outs)
    ensures Covered(matches, before, outs, Ingredient(row.name, row.quantity, row.unit, None), first)
  {
    if first.Found? && CanBeCountedOut(AsIngredient(row), first.products) {
      var r, product, variant := ResolvedIsLeast(row, first, second, matches[at]);
      MatchSupplies(matches, at, before, outs, AsIngredient(row), first.products, r, product, variant);
    }
  }

  /** From the checklist to the cart. Whatever Swiggy found for the rows of an ended turn, and whatever cart a
      compose of it without a review was made on: a row whose need can be counted out has a least purchase, and
      the cart left holds enough of its variant to cover the need, unless Swiggy dropped the line. */
  lemma {:induction false} EveryCountedNeedIsCovered(k: Turn.Kitchen, s: Turn.State, w: Turn.World,
                                                     firsts: seq<Search>, seconds: seq<Search>, j: nat,
                                                     before: seq<Line>, outs: seq<CartOps.Outcome>)
    requires Turn.Reaches(k, s, w) && w.phase.Ended? && Searched(w.given.arrived, firsts, seconds)
    requires j < |w.given.arrived| && TurnLaws.Composed(w.state.matches, before, outs)
    ensures var row := w.given.arrived[j].row;
      Covered(w.state.matches, before, outs, Ingredient(row.name, row.quantity, row.unit, None), firsts[j])
  {
    EndedMatches(k, s, w, j);
    ResolvedBySearch(w.given.arrived, firsts, seconds, j);
    MatchCovers(w.given.arrived[j].row, firsts[j], seconds[j], w.state.matches, |s.matches| + j, before, outs);
  }
}
