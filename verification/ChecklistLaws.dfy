/** What the ingredient merge keeps: every quantity and every row it must, and its own output. */
module ChecklistLaws {
  import opened Collections
  import opened Names
  import opened Checklist

  function RowAmount(name: string, unit: Option<string>): Row -> real {
    (r: Row) => if r.name == name && r.unit == unit then r.quantity.GetOr(0.0) else 0.0
  }

  function AmountOf(name: string, unit: Option<string>): Ingredient -> real {
    (i: Ingredient) => if i.name == name && i.unit == unit then i.quantity.GetOr(0.0) else 0.0
  }

  function RowMatches(name: string, unit: Option<string>): Row -> real {
    (r: Row) => if r.name == name && r.unit == unit then 1.0 else 0.0
  }

  function Matches(name: string, unit: Option<string>): Ingredient -> real {
    (i: Ingredient) => if i.name == name && i.unit == unit then 1.0 else 0.0
  }

  lemma {:induction false} SumSnoc(quantities: seq<Option<real>>, q: Option<real>)
    ensures Sum(quantities + [q]) == if q.None? then Sum(quantities) else Some(Sum(quantities).GetOr(0.0) + q.value)
  {
    assert (quantities + [q])[..|quantities|] == quantities;
  }

  /** A merged quantity is unknown exactly when every contributing one is. */
  lemma {:induction false} UnknownOnlyIfAllAre(quantities: seq<Option<real>>)
    ensures Sum(quantities) == None <==> forall i | 0 <= i < |quantities| :: quantities[i] == None
  {
    if quantities != [] {
      UnknownOnlyIfAllAre(quantities[..|quantities| - 1]);
    }
  }

  /** The quantities under a key are all unknown exactly when those of its ingredients are. */
  lemma {:induction false} CollectUnknown(g: seq<Ingredient>, key: Key)
    ensures (forall i | 0 <= i < |Collect(g, key)| :: Collect(g, key)[i] == None)
      <==> forall i | 0 <= i < |g| && KeyAt(g, i) == key :: g[i].quantity == None
  {
    if g != [] {
      var n := |g| - 1;
      CollectUnknown(g[..n], key);
      forall i | 0 <= i < n ensures KeyAt(g[..n], i) == KeyAt(g, i) {
      }
      var before, last := Collect(g[..n], key), g[n].quantity;
      if KeyAt(g, n) == key {
        assert Collect(g, key) == before + [last];
        assert forall i | 0 <= i < |before| :: (before + [last])[i] == before[i];
        assert (before + [last])[|before|] == last;
      } else {
        assert Collect(g, key) == before;
      }
    }
  }

  /** The row of one bucket: what its key's quantities sum to. */
  lemma {:induction false} RenderedRow(name: string, g: seq<Ingredient>, marks: set<string>, r: Row) returns (i: nat)
    requires r in Render(name, Buckets(g), marks)
    ensures i < |g| && r.name == name && r.unit == g[i].unit && r.quantity == Sum(Collect(g, KeyAt(g, i)))
  {
    var keys := FirstSeen(Keys(g));
    FirstSeenMembers(Keys(g));
    var j :| 0 <= j < |keys| && Render(name, Buckets(g), marks)[j] == r;
    assert keys[j] in Keys(g);
    i :| 0 <= i < |g| && Keys(g)[i] == keys[j];
  }

  lemma {:induction false} RowOfName(ks: seq<string>, xs: seq<Ingredient>, marks: set<string>, r: Row)
    requires r in RowsFor(ks, xs, marks)
    ensures r in Render(r.name, Buckets(Group(xs, r.name)), marks)
  {
    var n := |ks| - 1;
    if r in RowsFor(ks[..n], xs, marks) {
      RowOfName(ks[..n], xs, marks, r);
    }
  }

  lemma {:induction false} GroupHas(xs: seq<Ingredient>, name: string)
    ensures forall x :: x in Group(xs, name) <==> x in xs && x.name == name
  {
    FilterMembers(xs, Called(name));
  }

  /** A row with a unit has no known quantity exactly when no listed ingredient of its name and unit has one. */
  lemma {:induction false} RowUnknownExactlyWhenAllAre(xs: seq<Ingredient>, marks: set<string>, r: Row)
    requires r in Grouped(xs, marks) && r.unit.Some?
    ensures r.quantity.None? <==> forall x | x in xs && x.name == r.name && x.unit == r.unit :: x.quantity == None
  {
    RowOfName(FirstSeen(NamesOf(xs)), xs, marks, r);
    var g := Group(xs, r.name);
    GroupHas(xs, r.name);
    var i := RenderedRow(r.name, g, marks, r);
    UnknownOnlyIfAllAre(Collect(g, KeyAt(g, i)));
    CollectUnknown(g, KeyAt(g, i));
    forall j | 0 <= j < |g| ensures KeyAt(g, j) == KeyAt(g, i) <==> g[j].unit == r.unit {
    }
    if r.quantity.None? {
      forall x | x in xs && x.name == r.name && x.unit == r.unit ensures x.quantity == None {
        var j :| 0 <= j < |g| && g[j] == x;
      }
    } else {
      var j :| 0 <= j < |g| && KeyAt(g, j) == KeyAt(g, i) && g[j].quantity != None;
      assert g[j] in g;
    }
  }

  lemma {:induction false} CollectAlone(g: seq<Ingredient>, i: nat)
    requires i < |g| && g[i].unit.None?
    ensures Collect(g, KeyAt(g, i)) == [g[i].quantity]
  {
    var n := |g| - 1;
    if i == n {
      CollectNone(g[..n], KeyAt(g, n));
    } else {
      CollectAlone(g[..n], i);
      assert KeyAt(g[..n], i) == KeyAt(g, i) && KeyAt(g, n) != KeyAt(g, i);
    }
  }

  lemma {:induction false} CollectNone(g: seq<Ingredient>, key: Key)
    requires key.Lone? && key.index >= |g|
    ensures Collect(g, key) == []
  {
    if g != [] {
      CollectNone(g[..|g| - 1], key);
    }
  }

  /** A row without a unit is one listed ingredient's own, known or not. */
  lemma {:induction false} RowWithoutUnitIsOnesOwn(xs: seq<Ingredient>, marks: set<string>, r: Row) returns (x: Ingredient)
    requires r in Grouped(xs, marks) && r.unit.None?
    ensures x in xs && x.name == r.name && x.unit.None? && x.quantity == r.quantity
  {
    RowOfName(FirstSeen(NamesOf(xs)), xs, marks, r);
    var g := Group(xs, r.name);
    GroupHas(xs, r.name);
    var i := RenderedRow(r.name, g, marks, r);
    x := g[i];
    CollectAlone(g, i);
    SumSnoc([], x.quantity);
    assert [] + [x.quantity] == [x.quantity] && x in g;
  }

  /** How the rows of one name change with one more ingredient. */
  lemma {:induction false} RenderSnoc(g: seq<Ingredient>, x: Ingredient, marks: set<string>) returns (j: nat)
    ensures |Buckets(g)| == |FirstSeen(Keys(g))|
    ensures KeyAt(g + [x], |g|) in Keys(g) ==> j < |Buckets(g)| && x.unit.Some? && Buckets(g)[j].unit == x.unit
    ensures Render(x.name, Buckets(g + [x]), marks) ==
      if KeyAt(g + [x], |g|) in Keys(g)
      then Render(x.name, Buckets(g), marks)[j :=
             Row(x.name, Sum(Buckets(g)[j].quantities + [x.quantity]), x.unit, x.name in marks)]
      else Render(x.name, Buckets(g), marks) + [Row(x.name, Sum([x.quantity]), x.unit, x.name in marks)]
  {
    j := 0;
    var key := KeyAt(g + [x], |g|);
    FirstSeenMembers(Keys(g));
    if key in Keys(g) {
      j :| 0 <= j < |FirstSeen(Keys(g))| && FirstSeen(Keys(g))[j] == key;
      if x.unit.None? {
        LoneIsNew(g, x);
      }
      KnownBucket(g, x, j);
    } else {
      NewBucket(g, x);
    }
  }

  /** What one more quantity adds to a row. */
  lemma {:induction false} RowGains(name: string, before: seq<Option<real>>, x: Ingredient, marks: set<string>, unit: Option<string>)
    requires x.name == name
    ensures var w := RowAmount(name, unit);
      w(Row(name, Sum(before + [x.quantity]), x.unit, name in marks))
        == w(Row(name, Sum(before), x.unit, name in marks)) + AmountOf(name, unit)(x)
  {
    SumSnoc(before, x.quantity);
  }

  lemma {:induction false} AmountStep(g: seq<Ingredient>, x: Ingredient, unit: Option<string>, marks: set<string>)
    ensures Tally(Render(x.name, Buckets(g + [x]), marks), RowAmount(x.name, unit))
      == Tally(Render(x.name, Buckets(g), marks), RowAmount(x.name, unit)) + AmountOf(x.name, unit)(x)
  {
    var rows, w := Render(x.name, Buckets(g), marks), RowAmount(x.name, unit);
    var j := RenderSnoc(g, x, marks);
    if KeyAt(g + [x], |g|) in Keys(g) {
      RowGains(x.name, Buckets(g)[j].quantities, x, marks, unit);
      TallyUpdate(rows, j, Row(x.name, Sum(Buckets(g)[j].quantities + [x.quantity]), x.unit, x.name in marks), w);
    } else {
      RowGains(x.name, [], x, marks, unit);
      assert [] + [x.quantity] == [x.quantity] && Sum([]) == None;
      TallySnoc(rows, Row(x.name, Sum([x.quantity]), x.unit, x.name in marks), w);
    }
  }

  lemma {:induction false} GroupAmount(g: seq<Ingredient>, name: string, unit: Option<string>, marks: set<string>)
    requires forall i | 0 <= i < |g| :: g[i].name == name
    ensures Tally(Render(name, Buckets(g), marks), RowAmount(name, unit)) == Tally(g, AmountOf(name, unit))
  {
    if g != [] {
      var init, x := g[..|g| - 1], g[|g| - 1];
      assert g == init + [x];
      GroupAmount(init, name, unit, marks);
      AmountStep(init, x, unit, marks);
    }
  }

  lemma {:induction false} CountStep(g: seq<Ingredient>, x: Ingredient, unit: Option<string>, marks: set<string>)
    ensures Tally(Render(x.name, Buckets(g + [x]), marks), RowMatches(x.name, unit))
      == Tally(Render(x.name, Buckets(g), marks), RowMatches(x.name, unit))
         + if x.unit == unit && KeyAt(g + [x], |g|) !in Keys(g) then 1.0 else 0.0
  {
    var rows, w := Render(x.name, Buckets(g), marks), RowMatches(x.name, unit);
    var j := RenderSnoc(g, x, marks);
    if KeyAt(g + [x], |g|) in Keys(g) {
      TallyUpdate(rows, j, Row(x.name, Sum(Buckets(g)[j].quantities + [x.quantity]), x.unit, x.name in marks), w);
    } else {
      TallySnoc(rows, Row(x.name, Sum([x.quantity]), x.unit, x.name in marks), w);
    }
  }

  lemma {:induction false} GroupCount(g: seq<Ingredient>, name: string, unit: Option<string>, marks: set<string>)
    requires forall i | 0 <= i < |g| :: g[i].name == name
    ensures Tally(Render(name, Buckets(g), marks), RowMatches(name, unit)) ==
      if unit.None? then Tally(g, Matches(name, unit)) else if Unit(unit.value) in Keys(g) then 1.0 else 0.0
  {
    if g != [] {
      var init, x := g[..|g| - 1], g[|g| - 1];
      assert g == init + [x];
      GroupCount(init, name, unit, marks);
      CountStep(init, x, unit, marks);
      KeysSnoc(init, x);
      if x.unit.None? {
        LoneIsNew(init, x);
      }
    }
  }

  lemma {:induction false} GroupNames(xs: seq<Ingredient>, name: string)
    ensures forall i | 0 <= i < |Group(xs, name)| :: Group(xs, name)[i].name == name
  {
    FilterMembers(xs, Called(name));
    forall i | 0 <= i < |Group(xs, name)| ensures Group(xs, name)[i].name == name {
      assert Group(xs, name)[i] in Group(xs, name);
    }
  }

  lemma {:induction false} GroupTally(xs: seq<Ingredient>, name: string, w: Ingredient -> real)
    requires forall i: Ingredient | i.name != name :: w(i) == 0.0
    ensures Tally(Group(xs, name), w) == Tally(xs, w)
  {
    if xs != [] {
      var init, x := xs[..|xs| - 1], xs[|xs| - 1];
      assert xs == init + [x];
      GroupTally(init, name, w);
      GroupSnoc(init, x, name);
      if x.name == name {
        TallySnoc(Group(init, name), x, w);
      }
    }
  }

  lemma {:induction false} RowsForTally(ks: seq<string>, xs: seq<Ingredient>, marks: set<string>, name: string,
                                        w: Row -> real)
    requires NoDup(ks) && forall r: Row | r.name != name :: w(r) == 0.0
    ensures Tally(RowsFor(ks, xs, marks), w)
      == if name in ks then Tally(Render(name, Buckets(Group(xs, name)), marks), w) else 0.0
  {
    if ks != [] {
      var n := |ks| - 1;
      assert ks == ks[..n] + [ks[n]];
      RowsForTally(ks[..n], xs, marks, name, w);
      var rows := Render(ks[n], Buckets(Group(xs, ks[n])), marks);
      TallyConcat(RowsFor(ks[..n], xs, marks), rows, w);
      if ks[n] != name {
        TallyZero(rows, w);
      } else {
        assert name !in ks[..n];
      }
    }
  }

  lemma {:induction false} NameAbsent(xs: seq<Ingredient>, name: string)
    requires name !in NamesOf(xs)
    ensures Group(xs, name) == []
  {
    forall x | x in xs ensures x.name != name {
      var i :| 0 <= i < |xs| && xs[i] == x;
      assert NamesOf(xs)[i] == x.name;
    }
    FilterNone(xs, Called(name));
  }

  /** The merge conserves what is known of every amount, name by name and unit by unit. */
  lemma {:induction false} AmountsConserved(xs: seq<Ingredient>, marks: set<string>, name: string, unit: Option<string>)
    ensures Tally(Grouped(xs, marks), RowAmount(name, unit)) == Tally(xs, AmountOf(name, unit))
  {
    var ks := FirstSeen(NamesOf(xs));
    FirstSeenMembers(NamesOf(xs));
    RowsForTally(ks, xs, marks, name, RowAmount(name, unit));
    GroupNames(xs, name);
    GroupAmount(Group(xs, name), name, unit, marks);
    GroupTally(xs, name, AmountOf(name, unit));
    if name !in ks {
      NameAbsent(xs, name);
    }
  }

  lemma {:induction false} KeyPresent(xs: seq<Ingredient>, name: string, unit: string)
    ensures Unit(unit) in Keys(Group(xs, name)) <==> exists x :: x in xs && x.name == name && x.unit == Some(unit)
  {
    var g := Group(xs, name);
    FilterMembers(xs, Called(name));
    if Unit(unit) in Keys(g) {
      var i :| 0 <= i < |g| && Keys(g)[i] == Unit(unit);
      assert g[i] in g;
    }
    if x :| x in xs && x.name == name && x.unit == Some(unit) {
      assert x in g;
      var i :| 0 <= i < |g| && g[i] == x;
      assert Keys(g)[i] == Unit(unit);
    }
  }

  /** One row for each name and unit that occurs; every ingredient without a unit keeps its own. */
  lemma {:induction false} OneRowPerNameAndUnit(xs: seq<Ingredient>, marks: set<string>, name: string, unit: Option<string>)
    ensures Tally(Grouped(xs, marks), RowMatches(name, unit)) ==
      if unit.None? then Tally(xs, Matches(name, None))
      else if exists x :: x in xs && x.name == name && x.unit == unit then 1.0 else 0.0
  {
    var ks := FirstSeen(NamesOf(xs));
    FirstSeenMembers(NamesOf(xs));
    RowsForTally(ks, xs, marks, name, RowMatches(name, unit));
    GroupNames(xs, name);
    GroupCount(Group(xs, name), name, unit, marks);
    GroupTally(xs, name, Matches(name, None));
    if name !in ks {
      NameAbsent(xs, name);
    }
    if unit.Some? {
      KeyPresent(xs, name, unit.value);
    }
  }

  /** A row is ticked exactly when its name is marked, and every row is of an ingredient that was listed. */
  lemma {:induction false} RowsAreMarked(ks: seq<string>, xs: seq<Ingredient>, marks: set<string>, r: Row)
    requires r in RowsFor(ks, xs, marks)
    ensures r.have == (r.name in marks) && r.name in ks
  {
    var n := |ks| - 1;
    if r in RowsFor(ks[..n], xs, marks) {
      RowsAreMarked(ks[..n], xs, marks, r);
    }
  }

  // ------------------------------------------------------- what reaches the list

  /** Salt, water, and what the recipe flags as a staple. */
  predicate IsStaple(u: Script, i: Ingredient) {
    u.NormalizeName(i.name) == "salt" || u.NormalizeName(i.name) == "water" || i.pantryStaple
  }

  /** Half a kilogram or more, in grams or in kilograms. */
  predicate IsHalfAKilo(u: Script, i: Ingredient) {
    i.quantity.Some? && i.unit.Some? &&
    var unit, q := u.NormalizeName(i.unit.value), i.quantity.value;
    || ((unit == "g" || unit == "gram" || unit == "grams") && 500.0 <= q)
    || ((unit == "kg" || unit == "kilogram" || unit == "kilograms") && 0.5 <= q)
  }

  /** What the user brings is never listed, and a staple only from half a kilogram up; everything else is. */
  lemma {:induction false} ListedExactlyWhen(u: Script, i: Ingredient)
    ensures Shown(u)(i) <==> !i.userSupplied && (IsStaple(u, i) ==> IsHalfAKilo(u, i))
  {
    if i.unit.Some? {
      GramsAreNotKilos(u.NormalizeName(i.unit.value));
    }
  }

  lemma {:induction false} GramsAreNotKilos(unit: string)
    ensures !(unit in {"g", "gram", "grams"} && unit in {"kg", "kilogram", "kilograms"})
  {
    assert unit in {"g", "gram", "grams"} ==> unit[0] == 'g';
    assert unit in {"kg", "kilogram", "kilograms"} ==> unit[0] == 'k';
  }

  /** There is a row of a name and unit exactly when the recipe has an ingredient of that name and unit which the
      user does not bring and which is no staple, or half a kilogram or more of one. */
  lemma {:induction false} RowExactlyWhenListed(u: Script, recipe: seq<Ingredient>, marks: set<string>, name: string,
                                                unit: Option<string>)
    ensures (exists r :: r in Grouped(Filter(recipe, Shown(u)), marks) && r.name == name && r.unit == unit) <==>
      exists i :: i in recipe && i.name == name && i.unit == unit
        && !i.userSupplied && (IsStaple(u, i) ==> IsHalfAKilo(u, i))
  {
    var xs := Filter(recipe, Shown(u));
    FilterMembers(recipe, Shown(u));
    forall i {
      ListedExactlyWhen(u, i);
    }
    RowExactlyWhenThere(xs, marks, name, unit);
  }

  lemma {:induction false} RowExactlyWhenThere(xs: seq<Ingredient>, marks: set<string>, name: string, unit: Option<string>)
    ensures (exists r :: r in Grouped(xs, marks) && r.name == name && r.unit == unit)
      <==> exists i :: i in xs && i.name == name && i.unit == unit
  {
    OneRowPerNameAndUnit(xs, marks, name, unit);
    var rows, w := Grouped(xs, marks), RowMatches(name, unit);
    TallyOfMatches(rows, w, (r: Row) => r.name == name && r.unit == unit);
    TallyOfMatches(xs, Matches(name, unit), (i: Ingredient) => i.name == name && i.unit == unit);
  }

  lemma {:induction false} TallyOfMatches<T(!new)>(s: seq<T>, w: T -> real, p: T -> bool)
    requires forall x :: w(x) == if p(x) then 1.0 else 0.0
    ensures Tally(s, w) >= 0.0 && (Tally(s, w) > 0.0 <==> exists x :: x in s && p(x))
  {
    if s != [] {
      var init, last := s[..|s| - 1], s[|s| - 1];
      assert s == init + [last];
      TallyOfMatches(init, w, p);
    }
  }

  /** Without marks of the user's own the ticked names are the listed ones the pantry has in stock. */
  lemma {:induction false} SeededExactly(u: Script, recipe: seq<Ingredient>, stocked: set<string>, name: string)
    ensures name in SeedHaveMarks(u, Filter(recipe, Shown(u)), stocked) <==>
      && u.NormalizeName(name) in stocked
      && exists i :: i in recipe && i.name == name && !i.userSupplied && (IsStaple(u, i) ==> IsHalfAKilo(u, i))
  {
    FilterMembers(recipe, Shown(u));
    forall i {
      ListedExactlyWhen(u, i);
    }
  }

  // ---------------------------------------------------------- the order of the rows

  lemma {:induction false} RowPlace(ks: seq<string>, xs: seq<Ingredient>, marks: set<string>, i: nat)
    returns (a: nat, x: nat)
    requires i < |RowsFor(ks, xs, marks)|
    ensures a < |ks| && x < |Buckets(Group(xs, ks[a]))|
    ensures RowsFor(ks, xs, marks)[i] == Render(ks[a], Buckets(Group(xs, ks[a])), marks)[x]
  {
    var n := |ks| - 1;
    var before := RowsFor(ks[..n], xs, marks);
    if i < |before| {
      a, x := RowPlace(ks[..n], xs, marks, i);
    } else {
      a, x := n, i - |before|;
    }
  }

  lemma {:induction false} RowPlaces(ks: seq<string>, xs: seq<Ingredient>, marks: set<string>, i: nat, j: nat)
    returns (a: nat, x: nat, b: nat, y: nat)
    requires i < j < |RowsFor(ks, xs, marks)|
    ensures a < |ks| && x < |Buckets(Group(xs, ks[a]))| && b < |ks| && y < |Buckets(Group(xs, ks[b]))|
    ensures RowsFor(ks, xs, marks)[i] == Render(ks[a], Buckets(Group(xs, ks[a])), marks)[x]
    ensures RowsFor(ks, xs, marks)[j] == Render(ks[b], Buckets(Group(xs, ks[b])), marks)[y]
    ensures a < b || (a == b && x < y)
  {
    var n := |ks| - 1;
    var before := RowsFor(ks[..n], xs, marks);
    if j < |before| {
      a, x, b, y := RowPlaces(ks[..n], xs, marks, i, j);
    } else {
      b, y := n, j - |before|;
      if i < |before| {
        a, x := RowPlace(ks[..n], xs, marks, i);
      } else {
        a, x := n, i - |before|;
      }
    }
  }

  /** Rows of two names stand in the order in which the names were first listed. */
  lemma {:induction false} NamesInOrder(xs: seq<Ingredient>, marks: set<string>, i: nat, j: nat) returns (p: nat)
    requires i < j < |Grouped(xs, marks)| && Grouped(xs, marks)[i].name != Grouped(xs, marks)[j].name
    ensures p < |xs| && xs[p].name == Grouped(xs, marks)[i].name
    ensures forall q | 0 <= q <= p :: xs[q].name != Grouped(xs, marks)[j].name
  {
    var names := NamesOf(xs);
    var a, x, b, y := RowPlaces(FirstSeen(names), xs, marks, i, j);
    p := FirstSeenInOrder(names, a, b);
    forall q | 0 <= q <= p ensures xs[q].name != FirstSeen(names)[b] {
      assert names[..p + 1][q] == xs[q].name;
    }
  }

  /** Rows of one name stand in the order in which their units were first listed for it. */
  lemma {:induction false} UnitsInOrder(xs: seq<Ingredient>, marks: set<string>, i: nat, j: nat) returns (p: nat)
    requires i < j < |Grouped(xs, marks)| && Grouped(xs, marks)[i].name == Grouped(xs, marks)[j].name
    requires Grouped(xs, marks)[j].unit.Some?
    ensures var g, r, later := Group(xs, Grouped(xs, marks)[i].name), Grouped(xs, marks)[i], Grouped(xs, marks)[j];
      && p < |g| && g[p].unit == r.unit && forall q | 0 <= q <= p :: g[q].unit != later.unit
  {
    var a, x, b, y := RowPlaces(FirstSeen(NamesOf(xs)), xs, marks, i, j);
    FirstSeenMembers(NamesOf(xs));
    var g := Group(xs, FirstSeen(NamesOf(xs))[a]);
    p := FirstSeenInOrder(Keys(g), x, y);
    forall q | 0 <= q <= p ensures g[q].unit != Grouped(xs, marks)[j].unit {
      assert Keys(g)[..p + 1][q] == KeyAt(g, q);
    }
  }

  // ------------------------------------------------------------ merging it again

  function Again(rows: seq<Row>): seq<Ingredient> {
    seq(|rows|, i requires 0 <= i < |rows| => Ingredient(rows[i].name, rows[i].quantity, rows[i].unit, false, false))
  }

  lemma {:induction false} CollectOnce(g: seq<Ingredient>, i: nat)
    requires NoDup(Keys(g)) && i < |g|
    ensures Collect(g, KeyAt(g, i)) == [g[i].quantity]
  {
    var n := |g| - 1;
    assert Keys(g[..n]) == Keys(g)[..n];
    if i == n {
      assert Keys(g)[n] == KeyAt(g, n);
      CollectAbsent(g[..n], KeyAt(g, n));
    } else {
      CollectOnce(g[..n], i);
      assert Keys(g)[i] == KeyAt(g, i) && Keys(g)[n] == KeyAt(g, n);
    }
  }

  /** The rows of one name have distinct keys of their own. */
  lemma {:induction false} KeysAgain(name: string, g: seq<Ingredient>, marks: set<string>)
    ensures var again := Again(Render(name, Buckets(g), marks));
      |again| == |Buckets(g)| && NoDup(Keys(again)) && FirstSeen(Keys(again)) == Keys(again)
  {
    var again, keys := Again(Render(name, Buckets(g), marks)), FirstSeen(Keys(g));
    FirstSeenMembers(Keys(g));
    forall i, j | 0 <= i < j < |again| ensures Keys(again)[i] != Keys(again)[j] {
      assert keys[i] != keys[j];
    }
    FirstSeenFixed(Keys(again));
  }

  lemma {:induction false} BucketAgain(rows: seq<Row>, i: nat)
    requires i < |rows| && NoDup(Keys(Again(rows)))
    ensures BucketOf(Again(rows), KeyAt(Again(rows), i)) == Bucket(rows[i].unit, [rows[i].quantity])
    ensures Sum([rows[i].quantity]) == rows[i].quantity
  {
    CollectOnce(Again(rows), i);
    SumSnoc([], rows[i].quantity);
    assert [] + [rows[i].quantity] == [rows[i].quantity];
  }

  lemma {:induction false} RenderAgain(name: string, g: seq<Ingredient>, marks: set<string>)
    ensures Render(name, Buckets(Again(Render(name, Buckets(g), marks))), marks) == Render(name, Buckets(g), marks)
  {
    var rows := Render(name, Buckets(g), marks);
    KeysAgain(name, g, marks);
    forall i | 0 <= i < |rows|
      ensures Buckets(Again(rows))[i] == Bucket(rows[i].unit, [rows[i].quantity])
      ensures Sum([rows[i].quantity]) == rows[i].quantity
    {
      BucketAgain(rows, i);
    }
  }

  lemma {:induction false} AgainConcat(a: seq<Row>, b: seq<Row>)
    ensures Again(a + b) == Again(a) + Again(b)
  {
  }

  lemma {:induction false} GroupOfRendered(before: seq<Row>, other: string, buckets: seq<Bucket>, marks: set<string>,
                                           name: string)
    ensures Group(Again(before + Render(other, buckets, marks)), name)
      == Group(Again(before), name) + if other == name then Again(Render(other, buckets, marks)) else []
  {
    var rows := Render(other, buckets, marks);
    AgainConcat(before, rows);
    FilterConcat(Again(before), Again(rows), Called(name));
    if other == name {
      FilterAll(Again(rows), Called(name));
    } else {
      FilterNone(Again(rows), Called(name));
    }
  }

  lemma {:induction false} GroupOfRows(ks: seq<string>, xs: seq<Ingredient>, marks: set<string>, name: string)
    requires NoDup(ks)
    ensures Group(Again(RowsFor(ks, xs, marks)), name)
      == if name in ks then Again(Render(name, Buckets(Group(xs, name)), marks)) else []
  {
    if ks != [] {
      var init, k := ks[..|ks| - 1], ks[|ks| - 1];
      assert ks == init + [k];
      FreshName(init, k);
      GroupOfRows(init, xs, marks, name);
      GroupOfRendered(RowsFor(init, xs, marks), k, Buckets(Group(xs, k)), marks, name);
    }
  }

  lemma {:induction false} NamesOfRendered(before: seq<Row>, name: string, buckets: seq<Bucket>, marks: set<string>)
    ensures NamesOf(Again(before + Render(name, buckets, marks)))
      == NamesOf(Again(before)) + seq(|buckets|, _ => name)
  {
  }

  lemma {:induction false} NamesWithOneMore(before: seq<Row>, name: string, buckets: seq<Bucket>, marks: set<string>)
    requires buckets != [] && name !in FirstSeen(NamesOf(Again(before)))
    ensures FirstSeen(NamesOf(Again(before + Render(name, buckets, marks))))
      == FirstSeen(NamesOf(Again(before))) + [name]
  {
    NamesOfRendered(before, name, buckets, marks);
    FirstSeenRun(NamesOf(Again(before)), name, |buckets|);
    FirstSeenMembers(NamesOf(Again(before)));
  }

  lemma {:induction false} RowsForSnoc(ks: seq<string>, k: string, xs: seq<Ingredient>, marks: set<string>)
    ensures RowsFor(ks + [k], xs, marks) == RowsFor(ks, xs, marks) + Render(k, Buckets(Group(xs, k)), marks)
  {
    assert (ks + [k])[..|ks|] == ks;
  }

  lemma {:induction false} FreshName(ks: seq<string>, k: string)
    requires NoDup(ks + [k])
    ensures NoDup(ks) && k !in ks
  {
    assert (ks + [k])[|ks|] == k;
    assert forall i | 0 <= i < |ks| :: (ks + [k])[i] == ks[i];
  }

  lemma {:induction false} NamesStep(ks: seq<string>, k: string, xs: seq<Ingredient>, marks: set<string>)
    requires FirstSeen(NamesOf(Again(RowsFor(ks, xs, marks)))) == ks && k !in ks && k in NamesOf(xs)
    ensures FirstSeen(NamesOf(Again(RowsFor(ks + [k], xs, marks)))) == ks + [k]
  {
    RowsForSnoc(ks, k, xs, marks);
    NameHasRows(xs, k);
    NamesWithOneMore(RowsFor(ks, xs, marks), k, Buckets(Group(xs, k)), marks);
  }

  /** The names of the rows: one run of equal names per key. */
  lemma {:induction false} NamesOfRows(ks: seq<string>, xs: seq<Ingredient>, marks: set<string>)
    requires NoDup(ks) && forall i | 0 <= i < |ks| :: ks[i] in NamesOf(xs)
    ensures FirstSeen(NamesOf(Again(RowsFor(ks, xs, marks)))) == ks
  {
    if ks != [] {
      var init, k := ks[..|ks| - 1], ks[|ks| - 1];
      assert ks == init + [k];
      FreshName(init, k);
      NamesOfRows(init, xs, marks);
      NamesStep(init, k, xs, marks);
    }
  }

  lemma {:induction false} NameHasRows(xs: seq<Ingredient>, name: string)
    requires name in NamesOf(xs)
    ensures Buckets(Group(xs, name)) != []
  {
    var i :| 0 <= i < |xs| && NamesOf(xs)[i] == name;
    FilterMembers(xs, Called(name));
    assert xs[i] in Group(xs, name);
    FirstSeenMembers(Keys(Group(xs, name)));
    assert Keys(Group(xs, name))[0] in FirstSeen(Keys(Group(xs, name)));
  }

  lemma {:induction false} FirstSeenRun(a: seq<string>, x: string, n: nat)
    ensures FirstSeen(a + seq(n, _ => x)) == if n == 0 || x in a then FirstSeen(a) else FirstSeen(a) + [x]
  {
    if n == 0 {
      assert a + seq(n, _ => x) == a;
    } else {
      FirstSeenRun(a, x, n - 1);
      assert a + seq(n, _ => x) == (a + seq(n - 1, _ => x)) + [x];
      FirstSeenSnoc(a + seq(n - 1, _ => x), x);
      assert n > 1 ==> (a + seq(n - 1, _ => x))[|a|] == x;
    }
  }

  lemma {:induction false} RowsForSame(ks: seq<string>, xs: seq<Ingredient>, ys: seq<Ingredient>, marks: set<string>)
    requires forall k | k in ks ::
      Render(k, Buckets(Group(xs, k)), marks) == Render(k, Buckets(Group(ys, k)), marks)
    ensures RowsFor(ks, xs, marks) == RowsFor(ks, ys, marks)
  {
    if ks != [] {
      RowsForSame(ks[..|ks| - 1], xs, ys, marks);
    }
  }

  /** Merging the checklist again changes nothing. */
  lemma {:induction false} MergeIdempotent(xs: seq<Ingredient>, marks: set<string>)
    ensures Grouped(Again(Grouped(xs, marks)), marks) == Grouped(xs, marks)
  {
    var ks := FirstSeen(NamesOf(xs));
    FirstSeenMembers(NamesOf(xs));
    var again := Again(Grouped(xs, marks));
    NamesOfRows(ks, xs, marks);
    forall k | k in ks ensures Render(k, Buckets(Group(again, k)), marks) == Render(k, Buckets(Group(xs, k)), marks) {
      GroupOfRows(ks, xs, marks, k);
      RenderAgain(k, Group(xs, k), marks);
    }
    RowsForSame(ks, again, xs, marks);
  }
}
