/** The ready-made choice of app/agent/nodes/scratch_choice.py: one component of a dish bought
    instead of made. */
module ScratchChoice {
  import opened Collections
  import opened Names
  import opened Checklist

  datatype Component = Component(name: string, readyMade: string, constituents: seq<string>)

  datatype Recipe = Recipe(ingredients: seq<Ingredient>, components: seq<Component>)

  datatype Choice = ReadyMade | FromScratch

  function NormalizedNames(u: Script, names: seq<string>): set<string> {
    set i | 0 <= i < |names| :: u.NormalizeName(names[i])
  }

  function IngredientNames(u: Script, ingredients: seq<Ingredient>): set<string> {
    set i | i in ingredients :: u.NormalizeName(i.name)
  }

  function Supplied(u: Script, ingredients: seq<Ingredient>): set<string> {
    set i | i in ingredients && i.userSupplied :: u.NormalizeName(i.name)
  }

  /** `_candidate_components`: made of two or more ingredients of the recipe, none of them the user's own. */
  predicate IsCandidate(u: Script, recipe: Recipe, c: Component) {
    var made := NormalizedNames(u, c.constituents);
    var own := Supplied(u, recipe.ingredients);
    && c in recipe.components
    && |made| >= 2
    && made <= IngredientNames(u, recipe.ingredients)
    && u.NormalizeName(c.readyMade) !in own
    && u.NormalizeName(c.name) !in own
    && made !! own
  }

  function NotMadeOf(u: Script, c: Component): Ingredient -> bool {
    (i: Ingredient) => u.NormalizeName(i.name) !in NormalizedNames(u, c.constituents)
  }

  /** `_recipe_for_choice`. */
  function RecipeForChoice(u: Script, recipe: Recipe, c: Component, choice: Choice): Recipe {
    if choice.FromScratch? || u.NormalizeName(c.readyMade) in IngredientNames(u, recipe.ingredients) then recipe
    else Recipe(Filter(recipe.ingredients, NotMadeOf(u, c)) + [Ingredient(c.readyMade, None, None, false, false)], [])
  }

  /** A recorded choice can be replayed: it changes the recipe once. */
  lemma {:induction false} ReplayChangesNothing(u: Script, recipe: Recipe, c: Component, choice: Choice)
    ensures var once := RecipeForChoice(u, recipe, c, choice); RecipeForChoice(u, once, c, choice) == once
  {
    var once := RecipeForChoice(u, recipe, c, choice);
    if once != recipe {
      var added := once.ingredients[|once.ingredients| - 1];
      assert added in once.ingredients && u.NormalizeName(added.name) == u.NormalizeName(c.readyMade);
    }
  }

  /** Taking the ready-made item spares its constituents exactly when the recipe did not list it
      already: if it did, the recipe is left as it was, constituents and all. */
  lemma {:induction false} ReadyMadeReplacesExactlyWhenNew(u: Script, recipe: Recipe, c: Component)
    requires IsCandidate(u, recipe, c)
    ensures var chosen := RecipeForChoice(u, recipe, c, ReadyMade);
      NormalizedNames(u, c.constituents) !! IngredientNames(u, chosen.ingredients)
      <==> u.NormalizeName(c.readyMade) !in IngredientNames(u, recipe.ingredients)
  {
    var made, ready := NormalizedNames(u, c.constituents), u.NormalizeName(c.readyMade);
    var chosen := RecipeForChoice(u, recipe, c, ReadyMade);
    if ready in IngredientNames(u, recipe.ingredients) {
      assert made != {};
      var name :| name in made;
      assert name in IngredientNames(u, chosen.ingredients);
    } else {
      FilterMembers(recipe.ingredients, NotMadeOf(u, c));
      forall i | i in chosen.ingredients ensures u.NormalizeName(i.name) !in made {
        assert i in Filter(recipe.ingredients, NotMadeOf(u, c)) || i.name == c.readyMade;
      }
    }
  }

  /** Nothing else is lost, and the ready-made item is on the list either way. */
  lemma {:induction false} OtherIngredientsStay(u: Script, recipe: Recipe, c: Component, i: Ingredient)
    requires i in recipe.ingredients && u.NormalizeName(i.name) !in NormalizedNames(u, c.constituents)
    ensures i in RecipeForChoice(u, recipe, c, ReadyMade).ingredients
    ensures u.NormalizeName(c.readyMade) in
      IngredientNames(u, RecipeForChoice(u, recipe, c, ReadyMade).ingredients)
  {
    FilterMembers(recipe.ingredients, NotMadeOf(u, c));
    var chosen := RecipeForChoice(u, recipe, c, ReadyMade);
    if chosen != recipe {
      assert chosen.ingredients[|chosen.ingredients| - 1] in chosen.ingredients;
    }
  }

  /** An ingredient of this name. */
  ghost predicate Lists(u: Script, ingredients: seq<Ingredient>, name: string) {
    exists i :: i in ingredients && u.NormalizeName(i.name) == u.NormalizeName(name)
  }

  ghost predicate IsConstituent(u: Script, c: Component, i: Ingredient) {
    exists k :: 0 <= k < |c.constituents| && u.NormalizeName(c.constituents[k]) == u.NormalizeName(i.name)
  }

  /** Made from scratch, the recipe is as it was; so it is if the ready-made item was on it. Otherwise the
      constituents make way for the ready-made item, of no stated amount, and for nothing else. */
  lemma {:induction false} ChoiceDecidesTheList(u: Script, recipe: Recipe, c: Component, choice: Choice)
    ensures var chosen := RecipeForChoice(u, recipe, c, choice);
      if choice == FromScratch || Lists(u, recipe.ingredients, c.readyMade) then chosen == recipe
      else
        && chosen.components == []
        && forall i :: i in chosen.ingredients <==>
             (i in recipe.ingredients && !IsConstituent(u, c, i)) || i == Ingredient(c.readyMade, None, None, false, false)
  {
    var chosen := RecipeForChoice(u, recipe, c, choice);
    FilterMembers(recipe.ingredients, NotMadeOf(u, c));
    forall i: Ingredient ensures NotMadeOf(u, c)(i) <==> !IsConstituent(u, c, i) {
    }
    assert Lists(u, recipe.ingredients, c.readyMade)
      <==> u.NormalizeName(c.readyMade) in IngredientNames(u, recipe.ingredients);
  }

  /** What each ingredient counts for under a choice: what it did, nothing if it makes way. */
  lemma {:induction false} ChoiceTally(u: Script, recipe: Recipe, c: Component, choice: Choice, w: Ingredient -> real,
                                       stays: Ingredient -> bool)
    requires forall i: Ingredient :: stays(i) <==>
      choice == FromScratch || Lists(u, recipe.ingredients, c.readyMade) || !IsConstituent(u, c, i)
    ensures var replaced := choice == ReadyMade && !Lists(u, recipe.ingredients, c.readyMade);
      Tally(RecipeForChoice(u, recipe, c, choice).ingredients, w)
      == Tally(Filter(recipe.ingredients, stays), w)
         + if replaced then w(Ingredient(c.readyMade, None, None, false, false)) else 0.0
  {
    assert Lists(u, recipe.ingredients, c.readyMade)
      <==> u.NormalizeName(c.readyMade) in IngredientNames(u, recipe.ingredients);
    if choice == FromScratch || Lists(u, recipe.ingredients, c.readyMade) {
      FilterAll(recipe.ingredients, stays);
    } else {
      FilterAlike(recipe.ingredients, stays, NotMadeOf(u, c));
      TallySnoc(Filter(recipe.ingredients, stays), Ingredient(c.readyMade, None, None, false, false), w);
    }
  }

  /** A component that may be offered takes at least two names off the list, none of them what the user brings. */
  lemma {:induction false} NothingOfTheUsersMakesWay(u: Script, recipe: Recipe, c: Component, choice: Choice, i: Ingredient)
    requires IsCandidate(u, recipe, c) && i in recipe.ingredients && i.userSupplied
    ensures i in RecipeForChoice(u, recipe, c, choice).ingredients
    ensures u.NormalizeName(c.readyMade) != u.NormalizeName(i.name) && u.NormalizeName(c.name) != u.NormalizeName(i.name)
  {
    var own := Supplied(u, recipe.ingredients);
    assert u.NormalizeName(i.name) in own;
    ChoiceDecidesTheList(u, recipe, c, choice);
    assert IsConstituent(u, c, i) ==> u.NormalizeName(i.name) in NormalizedNames(u, c.constituents) * own;
  }

  /** Two listed ingredients of different names are constituents of a component that may be offered. */
  lemma {:induction false} CandidateHasTwo(u: Script, recipe: Recipe, c: Component) returns (i: Ingredient, j: Ingredient)
    requires IsCandidate(u, recipe, c)
    ensures i in recipe.ingredients && j in recipe.ingredients && u.NormalizeName(i.name) != u.NormalizeName(j.name)
    ensures IsConstituent(u, c, i) && IsConstituent(u, c, j)
  {
    var made := NormalizedNames(u, c.constituents);
    var a :| a in made;
    assert |made - {a}| >= 1;
    var b :| b in made - {a};
    assert a in IngredientNames(u, recipe.ingredients) && b in IngredientNames(u, recipe.ingredients);
    i :| i in recipe.ingredients && u.NormalizeName(i.name) == a;
    j :| j in recipe.ingredients && u.NormalizeName(j.name) == b;
  }
}
