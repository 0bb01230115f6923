/** `normalize_ingredients_node` of app/agent/nodes/normalize.py: a recipe's ingredients merged
    into checklist rows through two dictionaries, proved equal to a plain group-by. */
module Checklist {
  import opened Collections
  import opened Names

  datatype Ingredient = Ingredient(name: string, quantity: Option<real>, unit: Option<string>,
                                   pantryStaple: bool, userSupplied: bool)

  /** A `NormalizedIngredient`; `have` is its status. */
  datatype Row = Row(name: string, quantity: Option<real>, unit: Option<string>, have: bool)

  // ------------------------------------------------------------------ omissions

  predicate IsBulkStaple(u: Script, quantity: Option<real>, unit: Option<string>) {
    quantity.Some? && unit.Some? &&
    var normalized := u.NormalizeName(unit.value);
    if normalized in {"g", "gram", "grams"} then quantity.value >= 500.0
    else normalized in {"kg", "kilogram", "kilograms"} && quantity.value * 1000.0 >= 500.0
  }

  predicate IsAssumedStaple(u: Script, i: Ingredient) {
    (u.NormalizeName(i.name) in {"salt", "water"} || i.pantryStaple) && !IsBulkStaple(u, i.quantity, i.unit)
  }

  predicate IsOmitted(u: Script, i: Ingredient) {
    i.userSupplied || IsAssumedStaple(u, i)
  }

  function Shown(u: Script): Ingredient -> bool {
    (i: Ingredient) => !IsOmitted(u, i)
  }

  // ------------------------------------------------------------- the reference

  /** What makes two rows of one name the same row: a common unit. A row without one is alone. */
  datatype Key = Unit(unit: string) | Lone(index: nat)

  datatype Bucket = Bucket(unit: Option<string>, quantities: seq<Option<real>>)

  function KeyAt(group: seq<Ingredient>, i: nat): Key
    requires i < |group|
  {
    match group[i].unit
    case Some(u) => Unit(u)
    case None => Lone(i)
  }

  function Keys(group: seq<Ingredient>): seq<Key> {
    seq(|group|, i requires 0 <= i < |group| => KeyAt(group, i))
  }

  /** The quantities of the ingredients under one key, in order. */
  function Collect(group: seq<Ingredient>, key: Key): seq<Option<real>> {
    if group == [] then [] else
      var n := |group| - 1;
      Collect(group[..n], key) + (if KeyAt(group, n) == key then [group[n].quantity] else [])
  }

  function BucketOf(group: seq<Ingredient>, key: Key): Bucket {
    Bucket(if key.Unit? then Some(key.unit) else None, Collect(group, key))
  }

  /** One bucket per key, in order of first appearance. */
  function Buckets(group: seq<Ingredient>): seq<Bucket> {
    var keys := FirstSeen(Keys(group));
    seq(|keys|, i requires 0 <= i < |keys| => BucketOf(group, keys[i]))
  }

  /** The sum of the quantities that are known; unknown only if none is. */
  function Sum(quantities: seq<Option<real>>): Option<real> {
    if quantities == [] then None else
      var q := quantities[|quantities| - 1];
      var rest := Sum(quantities[..|quantities| - 1]);
      if q.None? then rest else Some(rest.GetOr(0.0) + q.value)
  }

  function Called(name: string): Ingredient -> bool {
    (i: Ingredient) => i.name == name
  }

  /** The ingredients of one name, in order. */
  function Group(xs: seq<Ingredient>, name: string): seq<Ingredient> {
    Filter(xs, Called(name))
  }

  function NamesOf(xs: seq<Ingredient>): seq<string> {
    seq(|xs|, i requires 0 <= i < |xs| => xs[i].name)
  }

  function Render(name: string, buckets: seq<Bucket>, marks: set<string>): seq<Row> {
    seq(|buckets|, i requires 0 <= i < |buckets| =>
      Row(name, Sum(buckets[i].quantities), buckets[i].unit, name in marks))
  }

  function RowsFor(names: seq<string>, xs: seq<Ingredient>, marks: set<string>): seq<Row> {
    if names == [] then [] else
      var n := |names| - 1;
      RowsFor(names[..n], xs, marks) + Render(names[n], Buckets(Group(xs, names[n])), marks)
  }

  /** The group-by: names in order of first appearance, and each name's rows by unit. */
  function Grouped(xs: seq<Ingredient>, marks: set<string>): seq<Row> {
    RowsFor(FirstSeen(NamesOf(xs)), xs, marks)
  }

  // -------------------------------------------------------------------- the node

  lemma {:induction false} CollectAbsent(group: seq<Ingredient>, key: Key)
    requires key !in Keys(group)
    ensures Collect(group, key) == []
  {
    if group != [] {
      var n := |group| - 1;
      assert Keys(group)[n] == KeyAt(group, n);
      forall i | 0 <= i < n ensures Keys(group[..n])[i] != key {
        assert Keys(group)[i] == Keys(group[..n])[i];
      }
      CollectAbsent(group[..n], key);
    }
  }

  lemma {:induction false} KeysSnoc(group: seq<Ingredient>, x: Ingredient)
    ensures Keys(group + [x]) == Keys(group) + [KeyAt(group + [x], |group|)]
  {
  }

  lemma {:induction false} CollectSnoc(group: seq<Ingredient>, x: Ingredient, key: Key)
    ensures Collect(group + [x], key)
      == Collect(group, key) + (if KeyAt(group + [x], |group|) == key then [x.quantity] else [])
  {
    assert (group + [x])[..|group|] == group;
  }

  lemma {:induction false} LoneIsNew(group: seq<Ingredient>, x: Ingredient)
    requires x.unit.None?
    ensures KeyAt(group + [x], |group|) !in Keys(group)
  {
  }

  lemma {:induction false} BucketElsewhere(group: seq<Ingredient>, x: Ingredient, key: Key)
    requires key != KeyAt(group + [x], |group|)
    ensures BucketOf(group + [x], key) == BucketOf(group, key)
  {
    CollectSnoc(group, x, key);
  }

  lemma {:induction false} FirstBucket(group: seq<Ingredient>, x: Ingredient)
    requires KeyAt(group + [x], |group|) !in Keys(group)
    ensures BucketOf(group + [x], KeyAt(group + [x], |group|)) == Bucket(x.unit, [x.quantity])
  {
    var key := KeyAt(group + [x], |group|);
    CollectSnoc(group, x, key);
    CollectAbsent(group, key);
  }

  /** A new key opens a bucket at the end. */
  lemma {:induction false} NewBucket(group: seq<Ingredient>, x: Ingredient)
    requires KeyAt(group + [x], |group|) !in Keys(group)
    ensures Buckets(group + [x]) == Buckets(group) + [Bucket(x.unit, [x.quantity])]
  {
    var key, keys := KeyAt(group + [x], |group|), FirstSeen(Keys(group));
    KeysSnoc(group, x);
    FirstSeenSnoc(Keys(group), key);
    FirstSeenMembers(Keys(group));
    FirstBucket(group, x);
    forall i | 0 <= i < |keys| ensures BucketOf(group + [x], keys[i]) == BucketOf(group, keys[i]) {
      assert keys[i] in keys;
      BucketElsewhere(group, x, keys[i]);
    }
  }

  /** A known key adds to its bucket. */
  lemma {:induction false} KnownBucket(group: seq<Ingredient>, x: Ingredient, j: nat)
    requires j < |FirstSeen(Keys(group))| && FirstSeen(Keys(group))[j] == KeyAt(group + [x], |group|)
    requires KeyAt(group + [x], |group|) in Keys(group)
    ensures |Buckets(group)| == |FirstSeen(Keys(group))|
    ensures Buckets(group + [x])
      == Buckets(group)[j := Bucket(x.unit, Buckets(group)[j].quantities + [x.quantity])]
  {
    var key, keys := KeyAt(group + [x], |group|), FirstSeen(Keys(group));
    KeysSnoc(group, x);
    FirstSeenSnoc(Keys(group), key);
    FirstSeenMembers(Keys(group));
    assert key.Unit? by {
      if x.unit.None? {
        LoneIsNew(group, x);
      }
    }
    forall i | 0 <= i < |keys|
      ensures BucketOf(group + [x], keys[i])
        == if i == j then Bucket(x.unit, BucketOf(group, key).quantities + [x.quantity]) else BucketOf(group, keys[i])
    {
      CollectSnoc(group, x, keys[i]);
    }
  }

  /** The two dictionaries after `xs`: the buckets of every name, and where each unit's is. */
  ghost predicate BucketsBuilt(xs: seq<Ingredient>, buckets: Dict<string, seq<Bucket>>) {
    && buckets.Valid()
    && buckets.keys == FirstSeen(NamesOf(xs))
    && (forall n | n in buckets.at :: buckets.at[n] == Buckets(Group(xs, n)))
  }

  function UnitsOf(index: map<string, map<string, nat>>, name: string): map<string, nat> {
    if name in index then index[name] else map[]
  }

  ghost predicate IndexBuilt(xs: seq<Ingredient>, index: map<string, map<string, nat>>) {
    forall n :: Indexed(Group(xs, n), UnitsOf(index, n))
  }

  ghost predicate Indexed(group: seq<Ingredient>, units: map<string, nat>) {
    && (forall u :: u in units <==> Unit(u) in Keys(group))
    && (forall u | u in units ::
          units[u] < |FirstSeen(Keys(group))| && FirstSeen(Keys(group))[units[u]] == Unit(u))
  }

  lemma {:induction false} BuiltKeys(xs: seq<Ingredient>, x: Ingredient, buckets: Dict<string, seq<Bucket>>, mine: seq<Bucket>)
    requires buckets.Valid() && buckets.keys == FirstSeen(NamesOf(xs))
    ensures buckets.Put(x.name, mine).Valid()
    ensures buckets.Put(x.name, mine).keys == FirstSeen(NamesOf(xs + [x]))
    ensures x.name !in buckets.at ==> Group(xs, x.name) == []
  {
    FirstSeenMembers(NamesOf(xs));
    FirstSeenSnoc(NamesOf(xs), x.name);
    assert NamesOf(xs + [x]) == NamesOf(xs) + [x.name];
    buckets.PutValid(x.name, mine);
    if x.name !in buckets.at {
      forall y | y in xs ensures y.name != x.name {
        var i :| 0 <= i < |xs| && xs[i] == y;
        assert NamesOf(xs)[i] == y.name;
      }
      FilterNone(xs, Called(x.name));
    }
  }

  lemma {:induction false} IndexedNew(group: seq<Ingredient>, x: Ingredient, units: map<string, nat>)
    requires Indexed(group, units) && (x.unit.Some? ==> x.unit.value !in units)
    ensures KeyAt(group + [x], |group|) !in Keys(group)
    ensures |Buckets(group)| == |FirstSeen(Keys(group))|
    ensures Indexed(group + [x], if x.unit.Some? then units[x.unit.value := |Buckets(group)|] else units)
  {
    if x.unit.None? {
      LoneIsNew(group, x);
    }
    IndexedAppended(group, x);
  }

  lemma {:induction false} IndexedAppended(group: seq<Ingredient>, x: Ingredient)
    requires KeyAt(group + [x], |group|) !in Keys(group)
    ensures Keys(group + [x]) == Keys(group) + [KeyAt(group + [x], |group|)]
    ensures FirstSeen(Keys(group + [x])) == FirstSeen(Keys(group)) + [KeyAt(group + [x], |group|)]
  {
    KeysSnoc(group, x);
    FirstSeenSnoc(Keys(group), KeyAt(group + [x], |group|));
  }

  lemma {:induction false} IndexedKnown(group: seq<Ingredient>, x: Ingredient, units: map<string, nat>)
    requires Indexed(group, units) && x.unit.Some? && x.unit.value in units
    ensures KeyAt(group + [x], |group|) in Keys(group)
    ensures units[x.unit.value] < |FirstSeen(Keys(group))|
    ensures FirstSeen(Keys(group))[units[x.unit.value]] == KeyAt(group + [x], |group|)
    ensures Indexed(group + [x], units)
  {
    KeysSnoc(group, x);
    FirstSeenSnoc(Keys(group), Unit(x.unit.value));
  }

  lemma {:induction false} GroupSnoc(xs: seq<Ingredient>, x: Ingredient, n: string)
    ensures Group(xs + [x], n) == if n == x.name then Group(xs, n) + [x] else Group(xs, n)
  {
    FilterSnoc(xs, x, Called(n));
  }

  lemma {:induction false} BucketsPut(xs: seq<Ingredient>, x: Ingredient, buckets: Dict<string, seq<Bucket>>, mine: seq<Bucket>)
    requires BucketsBuilt(xs, buckets) && mine == Buckets(Group(xs, x.name) + [x])
    ensures BucketsBuilt(xs + [x], buckets.Put(x.name, mine))
  {
    var buckets' := buckets.Put(x.name, mine);
    BuiltKeys(xs, x, buckets, mine);
    forall n | n in buckets'.at ensures buckets'.at[n] == Buckets(Group(xs + [x], n)) {
      GroupSnoc(xs, x, n);
    }
  }

  lemma {:induction false} IndexPut(xs: seq<Ingredient>, x: Ingredient, index: map<string, map<string, nat>>,
                 index': map<string, map<string, nat>>)
    requires IndexBuilt(xs, index)
    requires forall n | n != x.name :: UnitsOf(index', n) == UnitsOf(index, n)
    requires Indexed(Group(xs, x.name) + [x], UnitsOf(index', x.name))
    ensures IndexBuilt(xs + [x], index')
  {
    forall n ensures Indexed(Group(xs + [x], n), UnitsOf(index', n)) {
      GroupSnoc(xs, x, n);
      assert Indexed(Group(xs, n), UnitsOf(index, n));
    }
  }

  function BucketsAt(buckets: Dict<string, seq<Bucket>>, name: string): seq<Bucket> {
    if name in buckets.at then buckets.at[name] else []
  }

  lemma {:induction false} BucketsAtName(xs: seq<Ingredient>, x: Ingredient, buckets: Dict<string, seq<Bucket>>)
    requires BucketsBuilt(xs, buckets)
    ensures BucketsAt(buckets, x.name) == Buckets(Group(xs, x.name))
  {
    BuiltKeys(xs, x, buckets, []);
  }

  /** The buckets of one name and its unit index, with one more ingredient. */
  method AddToGroup(mine: seq<Bucket>, units: map<string, nat>, x: Ingredient, ghost group: seq<Ingredient>)
    returns (grown: seq<Bucket>, units': map<string, nat>)
    requires mine == Buckets(group) && Indexed(group, units)
    ensures grown == Buckets(group + [x]) && Indexed(group + [x], units')
    ensures x.unit.None? ==> units' == units
  {
    units' := units;
    if x.unit.None? {
      IndexedNew(group, x, units);
      NewBucket(group, x);
      grown := mine + [Bucket(None, [x.quantity])];
    } else if x.unit.value !in units {
      IndexedNew(group, x, units);
      NewBucket(group, x);
      var last: nat := |mine|;
      units' := units[x.unit.value := last];
      grown := mine + [Bucket(x.unit, [x.quantity])];
    } else {
      IndexedKnown(group, x, units);
      var j := units[x.unit.value];
      KnownBucket(group, x, j);
      grown := mine[j := Bucket(x.unit, mine[j].quantities + [x.quantity])];
    }
  }

  function WithUnits(index: map<string, map<string, nat>>, x: Ingredient, units: map<string, nat>)
    : map<string, map<string, nat>>
  {
    if x.unit.None? then index else index[x.name := units]
  }

  /** The unit index of one more ingredient: only its own name's entry is new. */
  lemma {:induction false} IndexGrown(xs: seq<Ingredient>, x: Ingredient, index: map<string, map<string, nat>>,
                                      units: map<string, nat>)
    requires IndexBuilt(xs, index) && Indexed(Group(xs, x.name) + [x], units)
    requires x.unit.None? ==> units == UnitsOf(index, x.name)
    ensures IndexBuilt(xs + [x], WithUnits(index, x, units))
  {
    IndexPut(xs, x, index, WithUnits(index, x, units));
  }

  /** One pass of the merge loop. */
  method AddIngredient(buckets: Dict<string, seq<Bucket>>, index: map<string, map<string, nat>>, x: Ingredient,
                       ghost xs: seq<Ingredient>)
    returns (buckets': Dict<string, seq<Bucket>>, index': map<string, map<string, nat>>)
    requires BucketsBuilt(xs, buckets) && IndexBuilt(xs, index)
    ensures BucketsBuilt(xs + [x], buckets') && IndexBuilt(xs + [x], index')
  {
    var mine, units := BucketsAt(buckets, x.name), UnitsOf(index, x.name);
    BucketsAtName(xs, x, buckets);
    assert Indexed(Group(xs, x.name), units);
    var grown, units' := AddToGroup(mine, units, x, Group(xs, x.name));
    BucketsPut(xs, x, buckets, grown);
    IndexGrown(xs, x, index, units');
    buckets', index' := buckets.Put(x.name, grown), WithUnits(index, x, units');
  }

  /** The names the pantry says are in stock, spelled as the recipe spells them. */
  function SeedHaveMarks(u: Script, shown: seq<Ingredient>, stocked: set<string>): set<string> {
    set x | x in shown && u.NormalizeName(x.name) in stocked :: x.name
  }

  /** The merge loop: one bucket list per name, in order of first appearance. */
  method BuildBuckets(xs: seq<Ingredient>) returns (buckets: Dict<string, seq<Bucket>>)
    ensures BucketsBuilt(xs, buckets)
  {
    var index: map<string, map<string, nat>>;
    buckets, index := EmptyDict(), map[];
    for i := 0 to |xs|
      invariant BucketsBuilt(xs[..i], buckets) && IndexBuilt(xs[..i], index)
    {
      buckets, index := AddIngredient(buckets, index, xs[i], xs[..i]);
      assert xs[..i + 1] == xs[..i] + [xs[i]];
    }
    assert xs[..|xs|] == xs;
  }

  /** The rendering loop: every bucket of every name becomes a row. */
  method RenderRows(buckets: Dict<string, seq<Bucket>>, marks: set<string>, ghost xs: seq<Ingredient>)
    returns (rows: seq<Row>)
    requires BucketsBuilt(xs, buckets)
    ensures rows == Grouped(xs, marks)
  {
    var names := buckets.keys;
    rows := [];
    for k := 0 to |names|
      invariant rows == RowsFor(names[..k], xs, marks)
    {
      assert names[..k + 1][..k] == names[..k];
      assert names[k] in buckets.at;
      rows := rows + Render(names[k], buckets.at[names[k]], marks);
    }
    assert names[..|names|] == names;
  }

  /** The node: the user's own marks win, otherwise the pantry seeds them. */
  method NormalizeIngredients(u: Script, recipe: seq<Ingredient>, haveMarks: set<string>, stocked: set<string>)
    returns (rows: seq<Row>, marks: set<string>)
    ensures marks == if haveMarks != {} then haveMarks else SeedHaveMarks(u, Filter(recipe, Shown(u)), stocked)
    ensures rows == Grouped(Filter(recipe, Shown(u)), marks)
  {
    var shown := Filter(recipe, Shown(u));
    marks := if haveMarks != {} then haveMarks else SeedHaveMarks(u, shown, stocked);
    var buckets := BuildBuckets(shown);
    rows := RenderRows(buckets, marks, shown);
  }
}
