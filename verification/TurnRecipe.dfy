/** A turn told from the recipe it began with and from what happened in it: the choice, the checklist, the
    amounts, and what was written to the cart. */
module TurnRecipe {
  import opened Collections
  import opened CartMerge
  import opened Checklist
  import opened ChecklistLaws
  import opened ScratchChoice
  import opened Turn
  import opened TurnLaws

  // ------------------------------------------------------------- what happened

  /** What the workers of a run found, in the order they finished. */
  function Founds(run: seq<Event>): seq<Match> {
    if run == [] then [] else
      var last := run[|run| - 1];
      Founds(run[..|run| - 1]) + if last.Finish? then [last.found] else []
  }

  lemma {:induction false} GivenNext(k: Kitchen, w: World, e: Event)
    requires Enabled(w, e)
    ensures var g, g' := w.given, Next(k, w, e).given;
      && (g'.choice.Some? ==> g'.choice == g.choice || e == Run(Some(Choose(g'.choice.value))))
      && (g'.have.Some? ==> g'.have == g.have || e == Run(Some(Have(g'.have.value))))
      && g'.arrived == g.arrived + (if e.Finish? then [Arrival(w.pending[e.i], e.found)] else [])
      && (!e.Compose? ==> g'.held == g.held)
    ensures Next(k, w, e).phase.Reporting? ==> e == Compose(Next(k, w, e).given.held)
    ensures Next(k, w, e).phase.Ended? ==> w.phase.Reporting?
  {
  }

  lemma {:induction false} FoundsSnoc(arrived: seq<Arrival>, a: Arrival)
    ensures FoundBy(arrived + [a]) == FoundBy(arrived) + [a.found]
  {
  }

  /** What a world goes by was given in the run: the answers, the matches in order, and the cart that was read. */
  ghost predicate GoesBy(run: seq<Event>, w: World) {
    && (w.given.choice.Some? ==> Run(Some(Choose(w.given.choice.value))) in run)
    && (w.given.have.Some? ==> Run(Some(Have(w.given.have.value))) in run)
    && FoundBy(w.given.arrived) == Founds(run)
    && (w.phase.Reporting? || w.phase.Ended? ==> Compose(w.given.held) in run)
  }

  lemma {:induction false} StillGoesBy(k: Kitchen, run: seq<Event>, w: World, e: Event)
    requires Enabled(w, e) && GoesBy(run, w)
    ensures GoesBy(run + [e], Next(k, w, e))
  {
    GivenNext(k, w, e);
    assert (run + [e])[..|run|] == run;
    assert forall x :: x in run + [e] <==> x in run || x == e;
    if e.Finish? {
      FoundsSnoc(w.given.arrived, Arrival(w.pending[e.i], e.found));
    } else {
      assert w.given.arrived + [] == w.given.arrived;
    }
  }

  /** A turn goes by answers that were given, by matches that were found and by the cart that was read. */
  lemma {:induction false} GoesByWhatHappened(k: Kitchen, s: State, run: seq<Event>, w: World)
    requires Via(k, s, run, w)
    ensures GoesBy(run, w)
  {
    if run != [] {
      var init, last := run[..|run| - 1], run[|run| - 1];
      var w0 :| Via(k, s, init, w0) && Enabled(w0, last) && w == Next(k, w0, last);
      GoesByWhatHappened(k, s, init, w0);
      StillGoesBy(k, init, w0, last);
      assert run == init + [last];
    }
  }

  // ---------------------------------------------------------------- the choice

  /** The choice that counts: one recorded before the turn, or else the one made in it. */
  function Taken(s: State, w: World): Option<Choice> {
    if s.choice.Some? then s.choice else w.given.choice
  }

  /** The constituents make way in this turn. */
  ghost predicate Replaces(k: Kitchen, s: State, w: World) {
    s.component.Some? && Taken(s, w) == Some(ReadyMade)
    && !Lists(k.u, s.recipe.ingredients, s.component.value.readyMade)
  }

  ghost predicate MakesWay(k: Kitchen, s: State, w: World, i: Ingredient) {
    Replaces(k, s, w) && IsConstituent(k.u, s.component.value, i)
  }

  lemma {:induction false} ChosenRecipe(k: Kitchen, s: State, run: seq<Event>, w: World)
    requires Via(k, s, run, w) && !w.phase.Choosing? && !w.phase.Failed?
    ensures Settled(s, w.given.choice)
    ensures w.state.recipe == Chosen(k, s, w.given.choice).recipe && w.state.choice == Chosen(k, s, w.given.choice).choice
    ensures w.state.shown == Chosen(k, s, w.given.choice).shown
  {
    RunsStayOnTrack(k, s, run, w);
  }

  /** The recipe of a turn that is past its choice. Made from scratch, without a component, or with the ready-made
      item listed already, it is the recipe the turn began with. Otherwise exactly the constituents are gone and
      exactly the ready-made item is new. It is shown once, when it is settled in this turn. */
  lemma {:induction false} RecipeIsAsChosen(k: Kitchen, s: State, run: seq<Event>, w: World)
    requires Via(k, s, run, w) && !w.phase.Choosing? && !w.phase.Failed?
    ensures s.component.None? || Taken(s, w) == Some(FromScratch) ==> w.state.recipe == s.recipe
    ensures s.component.Some? ==> Taken(s, w).Some? && w.state.choice == Taken(s, w)
    ensures s.component.Some? && Taken(s, w) == Some(ReadyMade) ==>
      var ready := s.component.value.readyMade;
      if Lists(k.u, s.recipe.ingredients, ready) then w.state.recipe == s.recipe
      else forall i :: i in w.state.recipe.ingredients <==>
        (i in s.recipe.ingredients && !IsConstituent(k.u, s.component.value, i))
        || i == Ingredient(ready, None, None, false, false)
    ensures w.state.shown ==
      if s.component.None? || s.choice.None? then s.shown + [w.state.recipe] else s.shown
  {
    ChosenRecipe(k, s, run, w);
    if s.component.Some? {
      ChoiceDecidesTheList(k.u, s.recipe, s.component.value, Taken(s, w).value);
    }
  }

  // ------------------------------------------------------------- the checklist

  lemma {:induction false} RowsOfTheRecipe(k: Kitchen, s: State, run: seq<Event>, w: World)
    requires Via(k, s, run, w) && w.phase in {Confirming, Matching, Composing, Reporting, Ended}
    ensures var listed := Filter(w.state.recipe.ingredients, Shown(k.u));
      var marks := if s.marks != {} then s.marks else SeedHaveMarks(k.u, listed, k.stocked);
      w.state.rows == Grouped(listed, marks) && (w.phase.Confirming? ==> w.state.marks == marks)
  {
    RunsStayOnTrack(k, s, run, w);
    var chosen := Chosen(k, s, w.given.choice);
    assert chosen.marks == s.marks;
  }

  /** The checklist: a row for each name and unit the recipe lists, ticked as the user marked it before or, failing
      that, as the pantry has it in stock. */
  lemma {:induction false} ChecklistIsOfTheRecipe(k: Kitchen, s: State, run: seq<Event>, w: World, name: string,
                                                  unit: Option<string>)
    requires Via(k, s, run, w) && w.phase in {Confirming, Matching, Composing, Reporting, Ended}
    ensures var recipe := w.state.recipe.ingredients;
      && ((exists r :: r in w.state.rows && r.name == name && r.unit == unit) <==>
            exists i :: i in recipe && i.name == name && i.unit == unit
              && !i.userSupplied && (IsStaple(k.u, i) ==> IsHalfAKilo(k.u, i)))
      && (w.phase.Confirming? ==>
            && (forall r | r in w.state.rows :: r.have == (r.name in w.state.marks))
            && (s.marks != {} ==> w.state.marks == s.marks)
            && (s.marks == {} ==>
                  (name in w.state.marks <==>
                     && k.u.NormalizeName(name) in k.stocked
                     && exists i :: i in recipe && i.name == name && !i.userSupplied
                                    && (IsStaple(k.u, i) ==> IsHalfAKilo(k.u, i)))))
  {
    RowsOfTheRecipe(k, s, run, w);
    var recipe := w.state.recipe.ingredients;
    var listed := Filter(recipe, Shown(k.u));
    var marks := if s.marks != {} then s.marks else SeedHaveMarks(k.u, listed, k.stocked);
    RowExactlyWhenListed(k.u, recipe, marks, name, unit);
    SeededExactly(k.u, recipe, k.stocked, name);
    forall r | r in w.state.rows ensures r.have == (r.name in marks) {
      RowsAreMarked(FirstSeen(NamesOf(listed)), listed, marks, r);
    }
  }

  /** What is needed at the end is decided by the answer alone: the rows whose names it does not tick, and a worker
      found a match for each. */
  lemma {:induction false} AnswerDecidesWhatIsNeeded(k: Kitchen, s: State, run: seq<Event>, w: World)
    requires Via(k, s, run, w) && w.phase.Ended?
    ensures Run(Some(Have(w.state.marks))) in run
    ensures forall r :: r in RowsOf(w.given.arrived) <==> r in w.state.rows && r.name !in w.state.marks
    ensures w.state.matches == s.matches + Founds(run)
  {
    GoesByWhatHappened(k, s, run, w);
    RunsStayOnTrack(k, s, run, w);
    NeededRowsArrived(k, s, w);
    OneMatchPerNeededRow(k, s, w);
    var rows := RowsOf(w.given.arrived);
    forall r ensures r in rows <==> r in Needed(w.state) {
      if i :| 0 <= i < |w.given.arrived| && w.given.arrived[i].row == r {
        assert rows[i] == r;
      }
    }
  }

  // --------------------------------------------------------------- the amounts

  /** What of the recipe a turn does not list: what makes way, what the user brings, and staples. */
  ghost predicate LeftOut(k: Kitchen, s: State, w: World, i: Ingredient) {
    MakesWay(k, s, w, i) || i.userSupplied || (IsStaple(k.u, i) && !IsHalfAKilo(k.u, i))
  }

  ghost function OnTheList(k: Kitchen, s: State, w: World): Ingredient -> bool {
    (i: Ingredient) => !LeftOut(k, s, w, i)
  }

  ghost function Unlisted(k: Kitchen, s: State, w: World): Ingredient -> bool {
    (i: Ingredient) => LeftOut(k, s, w, i)
  }

  function Ready(c: Component): Ingredient {
    Ingredient(c.readyMade, None, None, false, false)
  }

  /** A weight that counts only what is listed. */
  function Masked(p: Ingredient -> bool, weight: Ingredient -> real): Ingredient -> real {
    (i: Ingredient) => if p(i) then weight(i) else 0.0
  }

  lemma {:induction false} MaskedTally(s: seq<Ingredient>, p: Ingredient -> bool, weight: Ingredient -> real)
    ensures Tally(Filter(s, p), weight) == Tally(s, Masked(p, weight))
  {
    if s != [] {
      var init, x := s[..|s| - 1], s[|s| - 1];
      MaskedTally(init, p, weight);
      if p(x) {
        TallySnoc(Filter(init, p), x, weight);
      }
    }
  }

  ghost function Staying(k: Kitchen, s: State, w: World): Ingredient -> bool {
    (i: Ingredient) => !MakesWay(k, s, w, i)
  }

  /** What the chosen recipe lists is what the first one lists, and the ready-made item. */
  lemma {:induction false} ListedTally(k: Kitchen, s: State, run: seq<Event>, w: World, weight: Ingredient -> real)
    requires Via(k, s, run, w) && !w.phase.Choosing? && !w.phase.Failed?
    ensures Tally(Filter(w.state.recipe.ingredients, Shown(k.u)), weight)
      == Tally(Filter(s.recipe.ingredients, OnTheList(k, s, w)), weight)
         + if Replaces(k, s, w) && Shown(k.u)(Ready(s.component.value)) then weight(Ready(s.component.value)) else 0.0
  {
    ChosenRecipe(k, s, run, w);
    var shown, staying := Masked(Shown(k.u), weight), Staying(k, s, w);
    MaskedTally(w.state.recipe.ingredients, Shown(k.u), weight);
    if s.component.Some? {
      ChoiceTally(k.u, s.recipe, s.component.value, Taken(s, w).value, shown, staying);
    } else {
      FilterAll(s.recipe.ingredients, staying);
    }
    MaskedTally(Filter(s.recipe.ingredients, staying), Shown(k.u), weight);
    forall i: Ingredient ensures OnTheList(k, s, w)(i) == (staying(i) && Shown(k.u)(i)) {
      ListedExactlyWhen(k.u, i);
    }
    FilterTwice(s.recipe.ingredients, staying, Shown(k.u), OnTheList(k, s, w));
  }

  lemma {:induction false} RowsAreListed(k: Kitchen, s: State, run: seq<Event>, w: World)
    requires Via(k, s, run, w) && w.phase.Ended?
    ensures Reaches(k, s, w)
    ensures exists marks: set<string> :: w.state.rows == Grouped(Filter(w.state.recipe.ingredients, Shown(k.u)), marks)
  {
    RowsOfTheRecipe(k, s, run, w);
    var listed := Filter(w.state.recipe.ingredients, Shown(k.u));
    var marks := if s.marks != {} then s.marks else SeedHaveMarks(k.u, listed, k.stocked);
    assert w.state.rows == Grouped(listed, marks);
  }

  /** Every amount the recipe called for at the beginning of the turn is left out for one of the named reasons,
      ticked off, or on a row some worker resolved: name by name and unit by unit. */
  lemma {:induction false} EveryAmountOfTheRecipe(k: Kitchen, s: State, run: seq<Event>, w: World, name: string,
                                                  unit: Option<string>)
    requires Via(k, s, run, w) && w.phase.Ended?
    ensures Tally(s.recipe.ingredients, AmountOf(name, unit)) ==
      Tally(Filter(s.recipe.ingredients, Unlisted(k, s, w)), AmountOf(name, unit))
      + Tally(Filter(w.state.rows, Ticked(w.state.marks)), RowAmount(name, unit))
      + Tally(RowsOf(w.given.arrived), RowAmount(name, unit))
  {
    RowsAreListed(k, s, run, w);
    var listed := Filter(w.state.recipe.ingredients, Shown(k.u));
    var marks :| w.state.rows == Grouped(listed, marks);
    SplitTally(s.recipe.ingredients, Unlisted(k, s, w), OnTheList(k, s, w), AmountOf(name, unit));
    ListedTally(k, s, run, w, AmountOf(name, unit));
    AmountsConserved(listed, marks, name, unit);
    RowsAreTickedOrMatched(k, s, w, RowAmount(name, unit));
  }

  /** Every ingredient without a unit that is not left out, and the ready-made item if constituents made way for it,
      is ticked off or has a match of its own, and there are no others. */
  lemma {:induction false} EveryUnitlessIngredientOfTheRecipe(k: Kitchen, s: State, run: seq<Event>, w: World,
                                                              name: string)
    requires Via(k, s, run, w) && w.phase.Ended?
    ensures Tally(Filter(s.recipe.ingredients, OnTheList(k, s, w)), Matches(name, None))
      + (if Replaces(k, s, w) && Shown(k.u)(Ready(s.component.value)) && s.component.value.readyMade == name
         then 1.0 else 0.0)
      == Tally(Filter(w.state.rows, Ticked(w.state.marks)), RowMatches(name, None))
         + Tally(RowsOf(w.given.arrived), RowMatches(name, None))
  {
    RowsAreListed(k, s, run, w);
    var listed := Filter(w.state.recipe.ingredients, Shown(k.u));
    var marks :| w.state.rows == Grouped(listed, marks);
    ListedTally(k, s, run, w, Matches(name, None));
    OneRowPerNameAndUnit(listed, marks, name, None);
    RowsAreTickedOrMatched(k, s, w, RowMatches(name, None));
  }

  // ------------------------------------------------------------ what is written

  /** How much of a variant a match puts into the cart: nothing unless it has a variant, a count and a price. */
  function Bought(id: string): Match -> real {
    (m: Match) =>
      if m.spinId == Some(id) && m.quantity.Some? && m.unitPrice.Some? then m.quantity.value as real else 0.0
  }

  lemma {:induction false} AdditionsTally(matches: seq<Match>, id: string)
    ensures Total(Additions(matches), id) as real == Tally(matches, Bought(id))
  {
    if matches != [] {
      var init, m := matches[..|matches| - 1], matches[|matches| - 1];
      AdditionsTally(init, id);
      if m.Purchasable() {
        TotalSnoc(Additions(init), Line(m.spinId.value, m.quantity.value), id);
      } else {
        assert Additions(init) + [] == Additions(init);
      }
    }
  }

  /** A turn writes the cart at most once, and of every variant exactly what earlier matches and this turn's workers
      found of it. */
  lemma {:induction false} WritesWhatWasFound(k: Kitchen, s: State, run: seq<Event>, w: World, id: string)
    requires Via(k, s, run, w) && w.written != []
    ensures |w.written| == 1
    ensures Total(w.written[0], id) as real == Tally(s.matches, Bought(id)) + Tally(Founds(run), Bought(id))
  {
    GoesByWhatHappened(k, s, run, w);
    NothingIsWrittenWithoutConsent(k, s, w);
    AdditionsTally(w.state.matches, id);
    TallyConcat(s.matches, Founds(run), Bought(id));
  }

  /** A turn that has ended wrote the cart, once, if it had anything to buy. */
  lemma {:induction false} EndedTurnsHaveWritten(k: Kitchen, s: State, run: seq<Event>, w: World)
    requires Via(k, s, run, w) && w.phase.Ended?
    ensures (exists m :: m in s.matches + Founds(run) && m.spinId.Some? && m.quantity.Some? && m.unitPrice.Some?)
      <==> |w.written| == 1
    ensures |w.written| <= 1
  {
    RunsStayOnTrack(k, s, run, w);
    AnswerDecidesWhatIsNeeded(k, s, run, w);
    AdditionsThere(w.state.matches);
  }

  lemma {:induction false} AdditionsThere(matches: seq<Match>)
    ensures Additions(matches) != [] <==>
      exists m :: m in matches && m.spinId.Some? && m.quantity.Some? && m.unitPrice.Some?
  {
    if matches != [] {
      AdditionsThere(matches[..|matches| - 1]);
      assert matches == matches[..|matches| - 1] + [matches[|matches| - 1]];
    }
  }

  // ------------------------------------------------------------------ the plan

  /** The stored plan: of every match, in order, the match itself and what the last row of its name asks for. */
  lemma {:induction false} PlanTakesTheLastRow(k: Kitchen, s: State, run: seq<Event>, w: World, i: nat, r: nat)
    requires Via(k, s, run, w) && w.phase.Ended? && i < |w.state.matches|
    requires r < |w.state.rows| && w.state.rows[r].name == w.state.matches[i].name
    requires forall q | r < q < |w.state.rows| :: w.state.rows[q].name != w.state.matches[i].name
    ensures |w.plan| == |w.state.matches|
    ensures w.plan[i] == PlanItem(w.state.rows[r].quantity, w.state.rows[r].unit, w.state.matches[i])
  {
    PlanOfEnded(k, s, w);
    LastRowFound(w.state.rows, r, w.state.matches[i].name);
  }

  lemma {:induction false} LastRowFound(rows: seq<Row>, r: nat, name: string)
    requires r < |rows| && rows[r].name == name && forall q | r < q < |rows| :: rows[q].name != name
    ensures PlanRow(rows, name) == Some(rows[r])
  {
    if r < |rows| - 1 {
      LastRowFound(rows[..|rows| - 1], r, name);
    }
  }
}
