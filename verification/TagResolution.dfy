/** What app/tags/service.py decides about a tap: which variant it means, whether its binding
    may answer, and what is bound. */
module TagResolution {
  import opened Collections
  import opened Names
  import opened Candidates

  const MAX_CANDIDATES: nat := 10

  datatype Tap = Tap(tagUid: string, text: string, quantity: int)

  datatype Item = Item(spinId: string, productId: Option<string>, productName: Option<string>,
                       refillSize: Option<string>, unitPrice: Option<real>)

  /** A `TagBinding` row, without its timestamps. */
  datatype Binding = Binding(tagText: string, item: Item, addressId: string, pantryItemId: Option<int>)

  /** The unique key of the table. */
  datatype TagKey = TagKey(userId: int, tagUid: string)

  type Rows = map<TagKey, Binding>

  datatype Answer =
    | Cached(item: Item, pantryItemId: Option<int>)
    | Bound(item: Item, pantryItemId: Option<int>)
    | Unresolved

  datatype Resolution = Resolution(tagUid: string, text: string, quantity: int, answer: Answer)

  datatype Outcome = Resolved(results: seq<Resolution>) | AuthExpired

  datatype Reply<T> = Answered(value: T) | Broken | Unauthorized

  /** What Swiggy and the pantry answer while one user scans at one address. */
  datatype Scan = Scan(u: Script, userId: int, addressId: string, linked: bool,
                       goTo: Reply<seq<Option<string>>>,
                       search: string -> Reply<seq<Product>>,
                       pantry: map<string, int>) {

    function Slug(tap: Tap): string {
      u.NormalizeName(tap.text)
    }

    function Key(tap: Tap): TagKey {
      TagKey(userId, tap.tagUid)
    }

    /** A binding answers only at its own address and for its own text. */
    function Usable(rows: Rows, key: TagKey, slug: string): Option<Binding> {
      if key in rows && rows[key].addressId == addressId && u.NormalizeName(rows[key].tagText) == slug
      then Some(rows[key]) else None
    }

    /** A failed lookup counts as a household with no history. */
    function Brands(): set<string> {
      if goTo.Answered? then set b | b in goTo.value && b.Some? && b.value != "" :: b.value else {}
    }

    /** A failed search finds nothing. */
    function Products(slug: string): seq<Product> {
      match search(slug)
      case Answered(products) => products
      case _ => []
    }

    function PantryId(slug: string): Option<int> {
      if slug != "" && slug in pantry then Some(pantry[slug]) else None
    }

    ghost predicate Authorized() {
      linked && !goTo.Unauthorized? && forall slug :: !search(slug).Unauthorized?
    }
  }

  function NameOf(product: Product, slug: string): string {
    if product.name.GetOr("") != "" then product.name.value
    else if product.brand.GetOr("") != "" then product.brand.value
    else slug
  }

  function ItemOf(best: Candidate, slug: string): Item {
    Item(best.variant.spinId, best.product.productId, Some(NameOf(best.product, slug)), best.variant.packSize,
         Some(best.price))
  }

  // ------------------------------------------------------------- the alternates

  function First<T>(s: seq<T>, n: nat): seq<T> {
    if |s| <= n then s else s[..n]
  }

  function SpinIds(candidates: seq<Candidate>): seq<string> {
    seq(|candidates|, i requires 0 <= i < |candidates| => candidates[i].variant.spinId)
  }

  /** `_capped`: the first ten, the winner in place of the last when it ranks below them. */
  function Capped(purchasable: seq<Candidate>, best: Candidate): seq<Candidate> {
    var kept := First(purchasable, MAX_CANDIDATES);
    if best.variant.spinId in SpinIds(kept) then kept else First(purchasable, MAX_CANDIDATES - 1) + [best]
  }

  function FirstWith(candidates: seq<Candidate>, spinId: string): Option<Candidate> {
    if candidates == [] then None
    else if candidates[0].variant.spinId == spinId then Some(candidates[0])
    else FirstWith(candidates[1..], spinId)
  }

  /** `_capped_around`: the same for a winner known only by its variant. */
  function CappedAround(purchasable: seq<Candidate>, spinId: string): seq<Candidate> {
    match FirstWith(purchasable, spinId)
    case None => First(purchasable, MAX_CANDIDATES)
    case Some(best) => Capped(purchasable, best)
  }

  lemma {:induction false} FirstWithFinds(candidates: seq<Candidate>, spinId: string)
    ensures FirstWith(candidates, spinId).Some? <==> spinId in SpinIds(candidates)
    ensures FirstWith(candidates, spinId).Some? ==>
      var c := FirstWith(candidates, spinId).value; c in candidates && c.variant.spinId == spinId
  {
    if candidates != [] {
      FirstWithFinds(candidates[1..], spinId);
      assert SpinIds(candidates) == [candidates[0].variant.spinId] + SpinIds(candidates[1..]);
    }
  }

  /** A subsequence, by a strictly increasing choice of places. */
  ghost predicate InOrder(places: seq<nat>, part: seq<Candidate>, whole: seq<Candidate>) {
    && |places| == |part|
    && (forall i | 0 <= i < |places| :: places[i] < |whole| && whole[places[i]] == part[i])
    && (forall i, j | 0 <= i < j < |places| :: places[i] < places[j])
  }

  /** The menu is short, keeps the search's order and always shows the winner. */
  lemma {:induction false} CappedShowsTheWinner(purchasable: seq<Candidate>, best: Candidate) returns (places: seq<nat>)
    requires best in purchasable
    ensures |Capped(purchasable, best)| <= MAX_CANDIDATES
    ensures best.variant.spinId in SpinIds(Capped(purchasable, best))
    ensures InOrder(places, Capped(purchasable, best), purchasable)
  {
    var kept, menu := First(purchasable, MAX_CANDIDATES), Capped(purchasable, best);
    assert forall i | 0 <= i < |kept| :: SpinIds(kept)[i] == purchasable[i].variant.spinId;
    if best.variant.spinId in SpinIds(kept) {
      places := seq(|kept|, i => i);
    } else {
      var k :| 0 <= k < |purchasable| && purchasable[k] == best;
      places := seq(MAX_CANDIDATES - 1, i => i) + [k];
      assert SpinIds(menu)[MAX_CANDIDATES - 1] == best.variant.spinId;
    }
  }

  /** A bound variant is on the menu exactly when the search still finds it to buy. */
  lemma {:induction false} BoundVariantShownExactlyIfFound(purchasable: seq<Candidate>, spinId: string)
    ensures |CappedAround(purchasable, spinId)| <= MAX_CANDIDATES
    ensures spinId in SpinIds(CappedAround(purchasable, spinId)) <==> spinId in SpinIds(purchasable)
  {
    FirstWithFinds(purchasable, spinId);
    var menu := CappedAround(purchasable, spinId);
    if FirstWith(purchasable, spinId).Some? {
      var places := CappedShowsTheWinner(purchasable, FirstWith(purchasable, spinId).value);
    } else {
      assert forall i | 0 <= i < |menu| :: SpinIds(menu)[i] == SpinIds(purchasable)[i];
    }
  }

  // ------------------------------------------------------------------- one tap

  /** `_resolve_tap`: the table, the answer and the menu. */
  function Decide(s: Scan, rows: Rows, tap: Tap, slug: string, cached: Option<Binding>,
                  products: seq<Product>, brands: set<string>): (Rows, Resolution, seq<Candidate>)
  {
    var purchasable := Purchasable(products);
    if cached.Some? then
      (rows, Resolution(tap.tagUid, tap.text, tap.quantity, Cached(cached.value.item, cached.value.pantryItemId)),
       CappedAround(purchasable, cached.value.item.spinId))
    else
      match Preferred(purchasable, brands)
      case None => (rows, Resolution(tap.tagUid, tap.text, tap.quantity, Unresolved), [])
      case Some(best) =>
        var bound := Binding(tap.text, ItemOf(best, slug), s.addressId, s.PantryId(slug));
        (rows[s.Key(tap) := bound],
         Resolution(tap.tagUid, tap.text, tap.quantity, Bound(bound.item, bound.pantryItemId)),
         Capped(purchasable, best))
  }

  /** `resolve_one` once its brands are known and Swiggy accepts the user. */
  function One(s: Scan, rows: Rows, tap: Tap, brands: set<string>): (Rows, Resolution, seq<Candidate>) {
    Decide(s, rows, tap, s.Slug(tap), s.Usable(rows, s.Key(tap), s.Slug(tap)), s.Products(s.Slug(tap)), brands)
  }

  // ------------------------------------------------------------ tap after tap

  /** How one tap is taken: the table before it, the table after it and the answer. */
  type Step = (Rows, Tap) -> (Rows, Resolution)

  function Run(step: Step, rows: Rows, taps: seq<Tap>): (Rows, seq<Resolution>) {
    if taps == [] then (rows, []) else
      var before := Run(step, rows, taps[..|taps| - 1]);
      var after := step(before.0, taps[|taps| - 1]);
      (after.0, before.1 + [after.1])
  }

  /** Through `resolve_one`. */
  function Single(s: Scan, brands: set<string>): Step {
    (rows: Rows, tap: Tap) => (One(s, rows, tap, brands).0, One(s, rows, tap, brands).1)
  }

  lemma {:induction false} RunAt(step: Step, rows: Rows, taps: seq<Tap>, i: nat)
    requires i < |taps|
    ensures |Run(step, rows, taps).1| == |taps|
    ensures Run(step, rows, taps).1[i] == step(Run(step, rows, taps[..i]).0, taps[i]).1
  {
    var init := taps[..|taps| - 1];
    if init != [] {
      RunAt(step, rows, init, if i < |init| then i else 0);
    }
    if i < |init| {
      assert init[..i] == taps[..i];
    }
  }

  /** Two ways to take a tap give the same run if they agree wherever the second one gets. */
  lemma {:induction false} RunsAgree(f: Step, g: Step, rows: Rows, taps: seq<Tap>)
    requires forall i | 0 <= i < |taps| :: f(Run(g, rows, taps[..i]).0, taps[i]) == g(Run(g, rows, taps[..i]).0, taps[i])
    ensures Run(f, rows, taps) == Run(g, rows, taps)
  {
    if taps != [] {
      var n := |taps| - 1;
      forall i | 0 <= i < n ensures taps[..n][..i] == taps[..i] {
      }
      RunsAgree(f, g, rows, taps[..n]);
      assert f(Run(g, rows, taps[..n]).0, taps[n]) == g(Run(g, rows, taps[..n]).0, taps[n]);
    }
  }

  // ------------------------------------------------------------------ the batch

  /** The `slugs` dictionary: a tag tapped twice keeps its last text. */
  function SlugOf(u: Script, taps: seq<Tap>, tagUid: string): string {
    if taps == [] then "" else
      var last := taps[|taps| - 1];
      if last.tagUid == tagUid then u.NormalizeName(last.text) else SlugOf(u, taps[..|taps| - 1], tagUid)
  }

  function Reusable(s: Scan, rows: Rows, taps: seq<Tap>, tap: Tap): Option<Binding> {
    s.Usable(rows, s.Key(tap), SlugOf(s.u, taps, tap.tagUid))
  }

  /** The slugs that must be searched for. */
  function Unbound(s: Scan, rows: Rows, taps: seq<Tap>): set<string> {
    set tap | tap in taps && Reusable(s, rows, taps, tap).None? :: SlugOf(s.u, taps, tap.tagUid)
  }

  function Found(s: Scan, queries: set<string>): map<string, seq<Product>> {
    map q | q in queries :: s.Products(q)
  }

  function ProductsFor(found: map<string, seq<Product>>, slug: string): seq<Product> {
    if slug in found then found[slug] else []
  }

  /** One pass of the batch's loop: bindings were read once, before any was written. */
  function Pass(s: Scan, rows: Rows, taps: seq<Tap>, brands: set<string>, current: Rows, tap: Tap): (Rows, Resolution) {
    var slug := SlugOf(s.u, taps, tap.tagUid);
    var step := Decide(s, current, tap, slug, Reusable(s, rows, taps, tap),
                       ProductsFor(Found(s, Unbound(s, rows, taps)), slug), brands);
    (step.0, step.1)
  }

  function Batched(s: Scan, rows: Rows, taps: seq<Tap>, brands: set<string>): Step {
    (current: Rows, tap: Tap) => Pass(s, rows, taps, brands, current, tap)
  }

  predicate BatchRefused(s: Scan, rows: Rows, taps: seq<Tap>) {
    var queries := Unbound(s, rows, taps);
    s.goTo.Unauthorized? || (queries != {} && (!s.linked || exists q | q in queries :: s.search(q).Unauthorized?))
  }

  function Batch(s: Scan, rows: Rows, taps: seq<Tap>): (Rows, Outcome) {
    if BatchRefused(s, rows, taps) then (rows, AuthExpired) else
      var end := Run(Batched(s, rows, taps, s.Brands()), rows, taps);
      (end.0, Resolved(end.1))
  }

  predicate OneRefused(s: Scan, tap: Tap, remembered: Option<set<string>>) {
    (remembered.None? && s.goTo.Unauthorized?) || !s.linked || s.search(s.Slug(tap)).Unauthorized?
  }

  // ------------------------------------------- the batch against the single taps

  ghost predicate DistinctTags(taps: seq<Tap>) {
    forall i, j | 0 <= i < j < |taps| :: taps[i].tagUid != taps[j].tagUid
  }

  lemma {:induction false} OwnSlug(s: Scan, taps: seq<Tap>, i: nat)
    requires DistinctTags(taps) && i < |taps|
    ensures SlugOf(s.u, taps, taps[i].tagUid) == s.Slug(taps[i])
  {
    if i < |taps| - 1 {
      OwnSlug(s, taps[..|taps| - 1], i);
    }
  }

  /** Only the tapped tag's row can change. */
  lemma {:induction false} DecideElsewhere(s: Scan, rows: Rows, tap: Tap, slug: string, cached: Option<Binding>,
                        products: seq<Product>, brands: set<string>, key: TagKey)
    requires key != s.Key(tap)
    ensures var rows' := Decide(s, rows, tap, slug, cached, products, brands).0;
      (key in rows' <==> key in rows) && (key in rows ==> rows'[key] == rows[key])
  {
  }

  lemma {:induction false} OthersUntouched(s: Scan, rows: Rows, taps: seq<Tap>, brands: set<string>, key: TagKey)
    requires forall i | 0 <= i < |taps| :: s.Key(taps[i]) != key
    ensures Lookup(Run(Single(s, brands), rows, taps).0, key) == Lookup(rows, key)
  {
    if taps != [] {
      var init, tap := taps[..|taps| - 1], taps[|taps| - 1];
      OthersUntouched(s, rows, init, brands, key);
      var before := Run(Single(s, brands), rows, init).0;
      DecideElsewhere(s, before, tap, s.Slug(tap), s.Usable(before, s.Key(tap), s.Slug(tap)),
                      s.Products(s.Slug(tap)), brands, key);
    }
  }

  /** What a tap is decided on does not depend on search results once its binding answers. */
  lemma {:induction false} SamePass(s: Scan, rows: Rows, taps: seq<Tap>, brands: set<string>, current: Rows, tap: Tap)
    requires tap in taps && SlugOf(s.u, taps, tap.tagUid) == s.Slug(tap)
    requires Lookup(current, s.Key(tap)) == Lookup(rows, s.Key(tap))
    ensures Pass(s, rows, taps, brands, current, tap).0 == One(s, current, tap, brands).0
    ensures Pass(s, rows, taps, brands, current, tap).1 == One(s, current, tap, brands).1
  {
    var slug := s.Slug(tap);
    assert s.Usable(current, s.Key(tap), slug) == Reusable(s, rows, taps, tap);
    if Reusable(s, rows, taps, tap).None? {
      assert slug in Unbound(s, rows, taps);
      assert ProductsFor(Found(s, Unbound(s, rows, taps)), slug) == s.Products(slug);
    }
  }

  lemma {:induction false} SameAt(s: Scan, rows: Rows, taps: seq<Tap>, brands: set<string>, i: nat)
    requires DistinctTags(taps) && i < |taps|
    ensures var current := Run(Single(s, brands), rows, taps[..i]).0;
      Batched(s, rows, taps, brands)(current, taps[i]) == Single(s, brands)(current, taps[i])
  {
    var current := Run(Single(s, brands), rows, taps[..i]).0;
    OwnSlug(s, taps, i);
    OthersUntouched(s, rows, taps[..i], brands, s.Key(taps[i]));
    SamePass(s, rows, taps, brands, current, taps[i]);
  }

  /** For distinct tags a batch answers, and leaves the table, as the single taps would. */
  lemma {:induction false} BatchIsOneByOne(s: Scan, rows: Rows, taps: seq<Tap>)
    requires DistinctTags(taps) && s.Authorized()
    ensures var end := Run(Single(s, s.Brands()), rows, taps);
      Batch(s, rows, taps) == (end.0, Resolved(end.1))
  {
    forall i | 0 <= i < |taps|
      ensures var current := Run(Single(s, s.Brands()), rows, taps[..i]).0;
        Batched(s, rows, taps, s.Brands())(current, taps[i]) == Single(s, s.Brands())(current, taps[i])
    {
      SameAt(s, rows, taps, s.Brands(), i);
    }
    RunsAgree(Batched(s, rows, taps, s.Brands()), Single(s, s.Brands()), rows, taps);
  }

  // A tag tapped twice: a Swiggy that sells one item for every slug tells the two ways apart.

  function Shelf(slug: string): Product {
    Product(None, None, None, [Variant(slug, None, Some(1.0), true)])
  }

  function Stocked(u: Script, userId: int, addressId: string): Scan {
    Scan(u, userId, addressId, true, Answered([]), (slug: string) => Answered([Shelf(slug)]), map[])
  }

  lemma {:induction false} ShelfPicked(slug: string, brands: set<string>)
    ensures Preferred(Purchasable([Shelf(slug)]), brands) == Some(Candidate(Shelf(slug), Shelf(slug).variants[0], 1.0))
  {
    var p := Shelf(slug);
    assert [p][..0] == [] && p.variants[..0] == [];
    assert PurchasableVariants(p, p.variants) == [Candidate(p, p.variants[0], 1.0)];
    assert Purchasable([p]) == [Candidate(p, p.variants[0], 1.0)];
  }

  /** With no binding to begin with, a pass of the batch binds its tap, to the last text of its tag. */
  lemma {:induction false} PassBinds(s: Scan, none: Rows, taps: seq<Tap>, current: Rows, tap: Tap)
    requires none == map[] && s == Stocked(s.u, s.userId, s.addressId) && tap in taps
    ensures var r := Pass(s, none, taps, {}, current, tap).1;
      r.answer.Bound? && r.answer.item.spinId == SlugOf(s.u, taps, tap.tagUid)
  {
    var slug := SlugOf(s.u, taps, tap.tagUid);
    assert Reusable(s, none, taps, tap).None?;
    assert slug in Unbound(s, none, taps);
    assert ProductsFor(Found(s, Unbound(s, none, taps)), slug) == [Shelf(slug)];
    ShelfPicked(slug, {});
  }

  /** Every row a run of single taps has left answers for its own text. */
  ghost predicate OwnTexts(s: Scan, rows: Rows) {
    forall key | key in rows ::
      rows[key].addressId == s.addressId && s.u.NormalizeName(rows[key].tagText) == rows[key].item.spinId
  }

  lemma {:induction false} OwnTextsStep(s: Scan, rows: Rows, tap: Tap)
    requires s == Stocked(s.u, s.userId, s.addressId) && OwnTexts(s, rows)
    ensures var step := Single(s, {})(rows, tap);
      && OwnTexts(s, step.0) && s.Key(tap) in step.0 && (forall key | key in rows :: key in step.0)
      && !step.1.answer.Unresolved? && step.1.answer.item.spinId == s.Slug(tap)
  {
    ShelfPicked(s.Slug(tap), {});
  }

  /** A way to take taps that leaves every row answering for its own text, and one for every tap. */
  ghost predicate LeavesOwnTexts(s: Scan, step: Step) {
    forall rows: Rows, tap: Tap | OwnTexts(s, rows) ::
      var after := step(rows, tap).0;
      OwnTexts(s, after) && s.Key(tap) in after && forall key | key in rows :: key in after
  }

  lemma {:induction false} SingleLeavesOwnTexts(s: Scan)
    requires s == Stocked(s.u, s.userId, s.addressId)
    ensures LeavesOwnTexts(s, Single(s, {}))
  {
    forall rows: Rows, tap: Tap | OwnTexts(s, rows)
      ensures var after := Single(s, {})(rows, tap).0;
        OwnTexts(s, after) && s.Key(tap) in after && forall key | key in rows :: key in after
    {
      OwnTextsStep(s, rows, tap);
    }
  }

  lemma {:induction false} RunLeavesOwnTexts(s: Scan, step: Step, none: Rows, taps: seq<Tap>)
    requires LeavesOwnTexts(s, step) && none == map[]
    ensures var rows := Run(step, none, taps).0;
      OwnTexts(s, rows) && forall i | 0 <= i < |taps| :: s.Key(taps[i]) in rows
  {
    if taps != [] {
      var init, tap := taps[..|taps| - 1], taps[|taps| - 1];
      RunLeavesOwnTexts(s, step, none, init);
      var rows := Run(step, none, init).0;
      assert OwnTexts(s, rows);
      assert Run(step, none, taps).0 == step(rows, tap).0;
      forall i | 0 <= i < |taps| ensures s.Key(taps[i]) in step(rows, tap).0 {
        if i < |init| {
          assert taps[i] == init[i];
        }
      }
    }
  }

  /** One by one, every row is left with an answer for its own text, and every tapped tag has one. */
  lemma {:induction false} OneByOneOwnTexts(s: Scan, none: Rows, taps: seq<Tap>)
    requires none == map[] && s == Stocked(s.u, s.userId, s.addressId)
    ensures var rows := Run(Single(s, {}), none, taps).0;
      OwnTexts(s, rows) && forall i | 0 <= i < |taps| :: s.Key(taps[i]) in rows
  {
    SingleLeavesOwnTexts(s);
    RunLeavesOwnTexts(s, Single(s, {}), none, taps);
  }

  lemma {:induction false} TextStandsStep(s: Scan, rows: Rows, tap: Tap, tagUid: string, slug: string)
    requires s == Stocked(s.u, s.userId, s.addressId)
    requires tap.tagUid == tagUid ==> s.Slug(tap) == slug
    requires var key := TagKey(s.userId, tagUid); key in rows ==> s.u.NormalizeName(rows[key].tagText) == slug
    ensures var after, key := Single(s, {})(rows, tap).0, TagKey(s.userId, tagUid);
      key in after ==> s.u.NormalizeName(after[key].tagText) == slug
  {
  }

  lemma {:induction false} TextStands(s: Scan, none: Rows, taps: seq<Tap>, tagUid: string, slug: string)
    requires none == map[] && s == Stocked(s.u, s.userId, s.addressId)
    requires forall k | 0 <= k < |taps| && taps[k].tagUid == tagUid :: s.Slug(taps[k]) == slug
    ensures var rows, key := Run(Single(s, {}), none, taps).0, TagKey(s.userId, tagUid);
      key in rows ==> s.u.NormalizeName(rows[key].tagText) == slug
  {
    if taps != [] {
      var init := taps[..|taps| - 1];
      TextStands(s, none, init, tagUid, slug);
      TextStandsStep(s, Run(Single(s, {}), none, init).0, taps[|taps| - 1], tagUid, slug);
    }
  }

  /** A single tap is answered for its own text; so is a batch's, unless a later tap of the tag differs. */
  lemma {:induction false} OtherTextDiffers(s: Scan, none: Rows, taps: seq<Tap>, k: nat)
    requires none == map[] && s == Stocked(s.u, s.userId, s.addressId) && k < |taps|
    requires s.Slug(taps[k]) != SlugOf(s.u, taps, taps[k].tagUid)
    ensures Run(Batched(s, none, taps, {}), none, taps).1 != Run(Single(s, {}), none, taps).1
  {
    RunAt(Batched(s, none, taps, {}), none, taps, k);
    PassBinds(s, none, taps, Run(Batched(s, none, taps, {}), none, taps[..k]).0, taps[k]);
    RunAt(Single(s, {}), none, taps, k);
    OneByOneOwnTexts(s, none, taps[..k]);
    OwnTextsStep(s, Run(Single(s, {}), none, taps[..k]).0, taps[k]);
  }

  lemma {:induction false} SecondTapHits(s: Scan, none: Rows, taps: seq<Tap>, i: nat, j: nat)
    requires none == map[] && s == Stocked(s.u, s.userId, s.addressId) && i < j < |taps| && taps[i].tagUid == taps[j].tagUid
    requires forall k | 0 <= k < |taps| && taps[k].tagUid == taps[j].tagUid :: s.Slug(taps[k]) == s.Slug(taps[j])
    ensures Single(s, {})(Run(Single(s, {}), none, taps[..j]).0, taps[j]).1.answer.Cached?
  {
    OneByOneOwnTexts(s, none, taps[..j]);
    assert taps[..j][i] == taps[i];
    TextStands(s, none, taps[..j], taps[j].tagUid, s.Slug(taps[j]));
    var rows := Run(Single(s, {}), none, taps[..j]).0;
    assert s.Usable(rows, s.Key(taps[j]), s.Slug(taps[j])).Some?;
  }

  /** The second of two taps of one tag and text is a hit alone, but bound again in a batch. */
  lemma {:induction false} SameTextDiffers(s: Scan, none: Rows, taps: seq<Tap>, i: nat, j: nat)
    requires none == map[] && s == Stocked(s.u, s.userId, s.addressId) && i < j < |taps| && taps[i].tagUid == taps[j].tagUid
    requires forall k | 0 <= k < |taps| && taps[k].tagUid == taps[j].tagUid :: s.Slug(taps[k]) == s.Slug(taps[j])
    ensures Run(Batched(s, none, taps, {}), none, taps).1 != Run(Single(s, {}), none, taps).1
  {
    RunAt(Batched(s, none, taps, {}), none, taps, j);
    PassBinds(s, none, taps, Run(Batched(s, none, taps, {}), none, taps[..j]).0, taps[j]);
    RunAt(Single(s, {}), none, taps, j);
    SecondTapHits(s, none, taps, i, j);
  }

  lemma {:induction false} RepeatedTagDiffers(s: Scan, none: Rows, taps: seq<Tap>, i: nat, j: nat)
    requires none == map[] && s == Stocked(s.u, s.userId, s.addressId) && i < j < |taps| && taps[i].tagUid == taps[j].tagUid
    ensures Run(Batched(s, none, taps, {}), none, taps).1 != Run(Single(s, {}), none, taps).1
  {
    if k :| 0 <= k < |taps| && taps[k].tagUid == taps[j].tagUid && s.Slug(taps[k]) != SlugOf(s.u, taps, taps[j].tagUid) {
      OtherTextDiffers(s, none, taps, k);
    } else {
      SameTextDiffers(s, none, taps, i, j);
    }
  }

  /** A batch and single taps that answer and write the same. */
  ghost predicate Agree(s: Scan, rows: Rows, taps: seq<Tap>) {
    var end := Run(Single(s, s.Brands()), rows, taps);
    Batch(s, rows, taps) == (end.0, Resolved(end.1))
  }

  lemma {:induction false} RepeatedTagDisagrees(u: Script, userId: int, addressId: string, taps: seq<Tap>) returns (s: Scan, rows: Rows)
    requires !DistinctTags(taps)
    ensures s.Authorized() && s.u == u && s.userId == userId && s.addressId == addressId && !Agree(s, rows, taps)
  {
    s, rows := Stocked(u, userId, addressId), map[];
    var i, j :| 0 <= i < j < |taps| && taps[i].tagUid == taps[j].tagUid;
    RepeatedTagDiffers(s, rows, taps, i, j);
    assert s.Brands() == {};
  }

  /** The batch and the single taps agree, whatever is bound and sold, exactly for distinct tags. */
  lemma {:induction false} BatchAgreesExactlyForDistinctTags(u: Script, userId: int, addressId: string, taps: seq<Tap>)
    ensures DistinctTags(taps) <==>
      forall s: Scan, rows: Rows | s.Authorized() && s.u == u && s.userId == userId && s.addressId == addressId ::
        Agree(s, rows, taps)
  {
    if DistinctTags(taps) {
      forall s: Scan, rows: Rows | s.Authorized() ensures Agree(s, rows, taps) {
        BatchIsOneByOne(s, rows, taps);
      }
    } else {
      var s, rows := RepeatedTagDisagrees(u, userId, addressId, taps);
    }
  }

  // -------------------------------------------------- brands remembered and fetched

  /** Brand sets that prefer the same products: no product's brand is the empty string. */
  predicate SameBrands(a: set<string>, b: set<string>) {
    a - {""} == b - {""}
  }

  lemma {:induction false} SameBrandsPreferTheSame(candidates: seq<Candidate>, a: set<string>, b: set<string>)
    requires SameBrands(a, b)
    ensures Preferred(candidates, a) == Preferred(candidates, b)
  {
    forall c ensures Branded(c, a) == Branded(c, b) {
      var brand := c.product.brand.GetOr("");
      assert brand in a - {""} <==> brand in b - {""};
    }
  }

  lemma {:induction false} SameBrandsAnswerTheSame(s: Scan, rows: Rows, tap: Tap, a: set<string>, b: set<string>)
    requires SameBrands(a, b)
    ensures One(s, rows, tap, a) == One(s, rows, tap, b)
  {
    SameBrandsPreferTheSame(Purchasable(s.Products(s.Slug(tap))), a, b);
  }

  /** A plain product and, behind it, one of a brand. */
  function Plain(): Product {
    Product(None, None, None, [Variant("plain", None, Some(1.0), true)])
  }

  function OfBrand(brand: string): Product {
    Product(None, None, Some(brand), [Variant("branded", None, Some(1.0), true)])
  }

  function Market(u: Script, userId: int, addressId: string, goTo: Reply<seq<Option<string>>>, brand: string): Scan {
    Scan(u, userId, addressId, true, goTo, (slug: string) => Answered([Plain(), OfBrand(brand)]), map[])
  }

  lemma {:induction false} MarketCandidates(brand: string)
    ensures Purchasable([Plain(), OfBrand(brand)])
      == [Candidate(Plain(), Plain().variants[0], 1.0), Candidate(OfBrand(brand), OfBrand(brand).variants[0], 1.0)]
  {
    var p, q := Plain(), OfBrand(brand);
    assert [p, q][..1] == [p] && [p][..0] == [] && p.variants[..0] == [] && q.variants[..0] == [];
    assert PurchasableVariants(p, p.variants) == [Candidate(p, p.variants[0], 1.0)];
    assert PurchasableVariants(q, q.variants) == [Candidate(q, q.variants[0], 1.0)];
    assert Purchasable([p]) == [Candidate(p, p.variants[0], 1.0)];
  }

  /** On that market a tap is bound to the branded product exactly for those who buy the brand. */
  lemma {:induction false} MarketAnswers(s: Scan, none: Rows, tap: Tap, brand: string, brands: set<string>)
    requires none == map[] && brand != "" && s == Market(s.u, s.userId, s.addressId, s.goTo, brand)
    ensures var answer := Single(s, brands)(none, tap).1.answer;
      answer.Bound? && answer.item.spinId == if brand in brands then "branded" else "plain"
  {
    MarketCandidates(brand);
    var candidates := Purchasable(s.Products(s.Slug(tap)));
    assert s.Products(s.Slug(tap)) == [Plain(), OfBrand(brand)];
    assert !Branded(candidates[0], brands) && (Branded(candidates[1], brands) <==> brand in brands);
    assert s.Usable(none, s.Key(tap), s.Slug(tap)).None?;
  }

  /** A batch and single taps that prefer remembered brands, while the batch fetches its own. */
  ghost predicate AgreeRemembering(s: Scan, rows: Rows, taps: seq<Tap>, remembered: set<string>) {
    var end := Run(Single(s, remembered), rows, taps);
    Batch(s, rows, taps) == (end.0, Resolved(end.1))
  }

  lemma {:induction false} RememberingTheSame(s: Scan, rows: Rows, taps: seq<Tap>, remembered: set<string>)
    requires DistinctTags(taps) && s.Authorized() && SameBrands(remembered, s.Brands())
    ensures AgreeRemembering(s, rows, taps, remembered)
  {
    BatchIsOneByOne(s, rows, taps);
    var f, g := Single(s, s.Brands()), Single(s, remembered);
    forall i | 0 <= i < |taps|
      ensures f(Run(g, rows, taps[..i]).0, taps[i]) == g(Run(g, rows, taps[..i]).0, taps[i])
    {
      SameBrandsAnswerTheSame(s, Run(g, rows, taps[..i]).0, taps[i], s.Brands(), remembered);
    }
    RunsAgree(f, g, rows, taps);
  }

  lemma {:induction false} FirstAnswer(step: Step, none: Rows, taps: seq<Tap>)
    requires taps != []
    ensures |Run(step, none, taps).1| == |taps| && Run(step, none, taps).1[0] == step(none, taps[0]).1
  {
    RunAt(step, none, taps, 0);
    assert taps[..0] == [];
  }

  /** A brand remembered but no longer bought, or bought since, changes an answer on some market. */
  lemma {:induction false} StaleBrandTells(s: Scan, none: Rows, taps: seq<Tap>, remembered: set<string>, brand: string)
    requires none == map[] && taps != [] && DistinctTags(taps) && s.Authorized()
    requires brand != "" && s == Market(s.u, s.userId, s.addressId, s.goTo, brand)
    requires brand in remembered <==> brand !in s.Brands()
    ensures !AgreeRemembering(s, none, taps, remembered)
  {
    BatchIsOneByOne(s, none, taps);
    FirstAnswer(Single(s, s.Brands()), none, taps);
    FirstAnswer(Single(s, remembered), none, taps);
    MarketAnswers(s, none, taps[0], brand, s.Brands());
    MarketAnswers(s, none, taps[0], brand, remembered);
  }

  /** The brands remembered are those of the go-to list as it is now; of a lookup that failed, none. */
  ghost predicate Fresh(remembered: set<string>, goTo: Reply<seq<Option<string>>>) {
    forall brand | brand != "" :: brand in remembered <==> goTo.Answered? && Some(brand) in goTo.value
  }

  lemma {:induction false} FreshBrands(remembered: set<string>, now: Scan)
    ensures Fresh(remembered, now.goTo) <==> SameBrands(remembered, now.Brands())
  {
    forall brand | brand != "" ensures brand in now.Brands() <==> now.goTo.Answered? && Some(brand) in now.goTo.value {
    }
    if SameBrands(remembered, now.Brands()) {
      forall brand | brand != "" ensures brand in remembered <==> brand in now.Brands() {
        assert brand in remembered - {""} <==> brand in now.Brands() - {""};
      }
    }
  }

  /** A scan of distinct tags and its single taps, which prefer the brands the cache remembers, agree on every
      table and catalogue exactly when the remembered brands are those the batch fetches. */
  lemma {:induction false} BatchAgreesExactlyForFreshBrands(now: Scan, taps: seq<Tap>, remembered: set<string>)
    requires taps != [] && DistinctTags(taps) && !now.goTo.Unauthorized?
    ensures Fresh(remembered, now.goTo) <==>
      forall s: Scan, rows: Rows |
        s.Authorized() && s.u == now.u && s.userId == now.userId && s.addressId == now.addressId && s.goTo == now.goTo ::
        AgreeRemembering(s, rows, taps, remembered)
  {
    FreshBrands(remembered, now);
    if SameBrands(remembered, now.Brands()) {
      forall s: Scan, rows: Rows | s.Authorized() && s.goTo == now.goTo
        ensures AgreeRemembering(s, rows, taps, remembered)
      {
        RememberingTheSame(s, rows, taps, remembered);
      }
    } else {
      var brand := OddBrand(remembered, now.Brands());
      var s, none: Rows := Market(now.u, now.userId, now.addressId, now.goTo, brand), map[];
      StaleBrandTells(s, none, taps, remembered, brand);
    }
  }

  lemma {:induction false} OddBrand(a: set<string>, b: set<string>) returns (brand: string)
    requires !SameBrands(a, b)
    ensures brand != "" && (brand in a <==> brand !in b)
  {
    if x :| x in a - {""} && x !in b {
      brand := x;
    } else {
      brand :| brand in b - {""} && brand !in a;
    }
  }

  // ------------------------------------------------------------ what a hit means

  /** What callers have been told, in order: new bindings, corrections and removals. */
  datatype Fact =
    | Learnt(key: TagKey, binding: Binding)
    | Corrected(key: TagKey, item: Item, addressId: string)
    | Forgotten(key: TagKey)

  /** The last binding of a tag that its owner was told of. */
  function Remembered(log: seq<Fact>, key: TagKey): Option<Binding> {
    if log == [] then None else
      var before := Remembered(log[..|log| - 1], key);
      match log[|log| - 1]
      case Learnt(k, b) => if k == key then Some(b) else before
      case Corrected(k, item, address) =>
        if k == key && before.Some? then Some(before.value.(item := item, addressId := address)) else before
      case Forgotten(k) => if k == key then None else before
  }

  /** What one answer tells its caller. */
  function Told(s: Scan, r: Resolution): seq<Fact> {
    if r.answer.Bound?
    then [Learnt(TagKey(s.userId, r.tagUid), Binding(r.text, r.answer.item, s.addressId, r.answer.pantryItemId))]
    else []
  }

  function AllTold(s: Scan, results: seq<Resolution>): seq<Fact> {
    if results == [] then [] else AllTold(s, results[..|results| - 1]) + Told(s, results[|results| - 1])
  }

  function Lookup(rows: Rows, key: TagKey): Option<Binding> {
    if key in rows then Some(rows[key]) else None
  }

  ghost predicate Faithful(rows: Rows, log: seq<Fact>) {
    forall key :: Lookup(rows, key) == Remembered(log, key)
  }

  lemma {:induction false} RememberedSnoc(log: seq<Fact>, fact: Fact, key: TagKey)
    ensures (log + [fact])[..|log|] == log && (log + [fact])[|log|] == fact
  {
  }

  lemma {:induction false} DecideFaithful(s: Scan, rows: Rows, tap: Tap, slug: string, cached: Option<Binding>,
                       products: seq<Product>, brands: set<string>, log: seq<Fact>)
    requires Faithful(rows, log)
    ensures var step := Decide(s, rows, tap, slug, cached, products, brands);
      Faithful(step.0, log + Told(s, step.1))
  {
    var step := Decide(s, rows, tap, slug, cached, products, brands);
    var told := Told(s, step.1);
    if told == [] {
      assert log + told == log;
    } else {
      forall key ensures Lookup(step.0, key) == Remembered(log + told, key) {
        assert (log + told)[..|log|] == log;
        assert Lookup(rows, key) == Remembered(log, key);
      }
    }
  }

  lemma {:induction false} AllToldSnoc(s: Scan, log: seq<Fact>, results: seq<Resolution>, r: Resolution)
    ensures log + AllTold(s, results + [r]) == log + AllTold(s, results) + Told(s, r)
  {
    assert (results + [r])[..|results|] == results;
  }

  /** A way to take taps after which callers still know the table. */
  ghost predicate Tells(s: Scan, step: Step) {
    forall rows: Rows, tap: Tap, log: seq<Fact> | Faithful(rows, log) ::
      Faithful(step(rows, tap).0, log + Told(s, step(rows, tap).1))
  }

  lemma {:induction false} BatchedTells(s: Scan, rows: Rows, taps: seq<Tap>, brands: set<string>)
    ensures Tells(s, Batched(s, rows, taps, brands))
  {
    var step := Batched(s, rows, taps, brands);
    forall current: Rows, tap: Tap, log: seq<Fact> | Faithful(current, log)
      ensures Faithful(step(current, tap).0, log + Told(s, step(current, tap).1))
    {
      var slug := SlugOf(s.u, taps, tap.tagUid);
      DecideFaithful(s, current, tap, slug, Reusable(s, rows, taps, tap),
                     ProductsFor(Found(s, Unbound(s, rows, taps)), slug), brands, log);
    }
  }

  lemma {:induction false} RunFaithful(s: Scan, step: Step, rows: Rows, taps: seq<Tap>, log: seq<Fact>)
    requires Tells(s, step) && Faithful(rows, log)
    ensures var end := Run(step, rows, taps); Faithful(end.0, log + AllTold(s, end.1))
  {
    if taps == [] {
      assert log + [] == log;
    } else {
      var init, tap := taps[..|taps| - 1], taps[|taps| - 1];
      RunFaithful(s, step, rows, init, log);
      var before := Run(step, rows, init);
      AllToldSnoc(s, log, before.1, step(before.0, tap).1);
    }
  }

  /** `remembered` is what the brand cache answers; a row may be corrected or removed only if it exists. */
  datatype Event =
    | Tapped(s: Scan, tap: Tap, remembered: Option<set<string>>)
    | Scanned(s: Scan, taps: seq<Tap>)
    | Rebound(key: TagKey, item: Item, addressId: string)
    | Removed(key: TagKey)

  function Play(events: seq<Event>): (Rows, seq<Fact>) {
    if events == [] then (map[], []) else
      var before := Play(events[..|events| - 1]);
      var rows, log := before.0, before.1;
      match events[|events| - 1]
      case Tapped(s, tap, remembered) =>
        if OneRefused(s, tap, remembered) then before else
          var step := One(s, rows, tap, remembered.GetOr(s.Brands()));
          (step.0, log + Told(s, step.1))
      case Scanned(s, taps) =>
        var end := Batch(s, rows, taps);
        (end.0, if end.1.AuthExpired? then log else log + AllTold(s, end.1.results))
      case Rebound(key, item, address) => (WithCorrection(rows, key, item, address), log + [Corrected(key, item, address)])
      case Removed(key) => (rows - {key}, log + [Forgotten(key)])
  }

  /** `rebind`: the row keeps its text and its pantry item. */
  function WithCorrection(rows: Rows, key: TagKey, item: Item, addressId: string): Rows {
    if key in rows then rows[key := rows[key].(item := item, addressId := addressId)] else rows
  }

  lemma {:induction false} FactFaithful(rows: Rows, log: seq<Fact>, key: TagKey, item: Item, addressId: string)
    requires Faithful(rows, log)
    ensures Faithful(WithCorrection(rows, key, item, addressId), log + [Corrected(key, item, addressId)])
    ensures Faithful(rows - {key}, log + [Forgotten(key)])
  {
    forall k
      ensures Lookup(WithCorrection(rows, key, item, addressId), k) == Remembered(log + [Corrected(key, item, addressId)], k)
      ensures Lookup(rows - {key}, k) == Remembered(log + [Forgotten(key)], k)
    {
      RememberedSnoc(log, Corrected(key, item, addressId), k);
      RememberedSnoc(log, Forgotten(key), k);
      assert Lookup(rows, k) == Remembered(log, k);
    }
  }

  lemma {:induction false} PlayFaithful(events: seq<Event>)
    ensures Faithful(Play(events).0, Play(events).1)
  {
    if events != [] {
      var init := events[..|events| - 1];
      PlayFaithful(init);
      var rows, log := Play(init).0, Play(init).1;
      match events[|events| - 1]
      case Tapped(s, tap, remembered) =>
        DecideFaithful(s, rows, tap, s.Slug(tap), s.Usable(rows, s.Key(tap), s.Slug(tap)), s.Products(s.Slug(tap)),
                       remembered.GetOr(s.Brands()), log);
      case Scanned(s, taps) =>
        BatchedTells(s, rows, taps, s.Brands());
        RunFaithful(s, Batched(s, rows, taps, s.Brands()), rows, taps, log);
      case Rebound(key, item, address) =>
        FactFaithful(rows, log, key, item, address);
      case Removed(key) =>
        FactFaithful(rows, log, key, Item("", None, None, None, None), "");
    }
  }

  /** After any run, a tap is answered from its binding exactly when the last its owner was told of
      is for this address and this text; the answer is then that binding's item. */
  lemma {:induction false} CachedExactlyWhenStillValid(events: seq<Event>, s: Scan, tap: Tap, brands: set<string>)
    ensures var known := Remembered(Play(events).1, s.Key(tap));
      var answer := One(s, Play(events).0, tap, brands).1.answer;
      && (answer.Cached? <==>
            known.Some? && known.value.addressId == s.addressId && s.u.NormalizeName(known.value.tagText) == s.Slug(tap))
      && (answer.Cached? ==> answer.item == known.value.item)
  {
    PlayFaithful(events);
    assert Lookup(Play(events).0, s.Key(tap)) == Remembered(Play(events).1, s.Key(tap));
  }

  lemma {:induction false} PassAnswer(s: Scan, rows: Rows, taps: seq<Tap>, brands: set<string>, current: Rows, tap: Tap)
    ensures var r, cached := Pass(s, rows, taps, brands, current, tap).1, Reusable(s, rows, taps, tap);
      && r.tagUid == tap.tagUid
      && (r.answer.Cached? <==> cached.Some?)
      && (r.answer.Cached? ==> r.answer.item == cached.value.item)
  {
  }

  /** Whether a binding may answer a tap: it is for this address and for this tap's own text. */
  ghost predicate StillValid(s: Scan, known: Option<Binding>, tap: Tap) {
    known.Some? && known.value.addressId == s.addressId && s.u.NormalizeName(known.value.tagText) == s.Slug(tap)
  }

  /** A batch answers its i-th tap from the binding exactly when it is still valid, and then with its item. */
  ghost predicate HitsRightly(s: Scan, rows: Rows, taps: seq<Tap>, i: nat)
    requires i < |taps|
  {
    var outcome, known := Batch(s, rows, taps).1, Lookup(rows, s.Key(taps[i]));
    outcome.Resolved? ==>
      && |outcome.results| == |taps| && outcome.results[i].tagUid == taps[i].tagUid
      && (outcome.results[i].answer.Cached? <==> StillValid(s, known, taps[i]))
      && (outcome.results[i].answer.Cached? ==> outcome.results[i].answer.item == known.value.item)
  }

  lemma {:induction false} BatchAnswer(s: Scan, rows: Rows, taps: seq<Tap>, i: nat)
    requires i < |taps| && Batch(s, rows, taps).1.Resolved?
    ensures var results, cached := Batch(s, rows, taps).1.results, Reusable(s, rows, taps, taps[i]);
      && |results| == |taps| && results[i].tagUid == taps[i].tagUid
      && (results[i].answer.Cached? <==> cached.Some?)
      && (results[i].answer.Cached? ==> results[i].answer.item == cached.value.item)
  {
    var step := Batched(s, rows, taps, s.Brands());
    RunAt(step, rows, taps, i);
    PassAnswer(s, rows, taps, s.Brands(), Run(step, rows, taps[..i]).0, taps[i]);
  }

  lemma {:induction false} SameTextHitsRightly(s: Scan, rows: Rows, taps: seq<Tap>, i: nat)
    requires i < |taps| && SlugOf(s.u, taps, taps[i].tagUid) == s.Slug(taps[i])
    ensures HitsRightly(s, rows, taps, i)
  {
    if Batch(s, rows, taps).1.Resolved? {
      BatchAnswer(s, rows, taps, i);
    }
  }

  /** If the tag's last tap reads otherwise, a binding of this tap's own text is passed over. */
  lemma {:induction false} OtherTextMisses(s: Scan, rows: Rows, taps: seq<Tap>, i: nat, item: Item)
    requires s == Stocked(s.u, s.userId, s.addressId) && i < |taps|
    requires SlugOf(s.u, taps, taps[i].tagUid) != s.Slug(taps[i])
    requires Lookup(rows, s.Key(taps[i])) == Some(Binding(taps[i].text, item, s.addressId, None))
    ensures !HitsRightly(s, rows, taps, i)
  {
    BatchAnswer(s, rows, taps, i);
  }

  /** The batch's answer to a tap follows its binding, whatever is bound and sold, exactly when the last
      tap of that tag in the batch reads the same text. */
  lemma {:induction false} HitsRightlyExactlyForTheLastText(u: Script, userId: int, addressId: string, taps: seq<Tap>, i: nat)
    requires i < |taps|
    ensures SlugOf(u, taps, taps[i].tagUid) == u.NormalizeName(taps[i].text) <==>
      forall s: Scan, rows: Rows | s.u == u && s.userId == userId && s.addressId == addressId ::
        HitsRightly(s, rows, taps, i)
  {
    if SlugOf(u, taps, taps[i].tagUid) == u.NormalizeName(taps[i].text) {
      forall s: Scan, rows: Rows | s.u == u ensures HitsRightly(s, rows, taps, i) {
        SameTextHitsRightly(s, rows, taps, i);
      }
    } else {
      var s := Stocked(u, userId, addressId);
      var item := Item("", None, None, None, None);
      var rows := map[s.Key(taps[i]) := Binding(taps[i].text, item, addressId, None)];
      OtherTextMisses(s, rows, taps, i, item);
    }
  }

  /** After any run, then, a batched tap is a hit exactly when what its owner was last told of is still valid. */
  lemma {:induction false} BatchCachedExactlyWhenStillValid(events: seq<Event>, s: Scan, taps: seq<Tap>, i: nat)
    requires i < |taps| && SlugOf(s.u, taps, taps[i].tagUid) == s.Slug(taps[i])
    requires Batch(s, Play(events).0, taps).1.Resolved?
    ensures var known := Remembered(Play(events).1, s.Key(taps[i]));
      var results := Batch(s, Play(events).0, taps).1.results;
      && |results| == |taps| && results[i].tagUid == taps[i].tagUid
      && (results[i].answer.Cached? <==> StillValid(s, known, taps[i]))
      && (results[i].answer.Cached? ==> results[i].answer.item == known.value.item)
  {
    PlayFaithful(events);
    assert Lookup(Play(events).0, s.Key(taps[i])) == Remembered(Play(events).1, s.Key(taps[i]));
    BatchAnswer(s, Play(events).0, taps, i);
  }

  /** A tag tapped more than once is read under its last text only: an earlier tap of another text is
      answered with the item bound to the last one's. */
  lemma {:induction false} ARelabelledTagAnswersForItsLastText(s: Scan, rows: Rows, taps: seq<Tap>, i: nat)
    requires i < |taps| && Batch(s, rows, taps).1.Resolved? && s.Key(taps[i]) in rows
    requires SlugOf(s.u, taps, taps[i].tagUid) != s.Slug(taps[i])
    requires rows[s.Key(taps[i])].addressId == s.addressId
    requires s.u.NormalizeName(rows[s.Key(taps[i])].tagText) == SlugOf(s.u, taps, taps[i].tagUid)
    ensures var results := Batch(s, rows, taps).1.results;
      && |results| == |taps| && results[i].answer.Cached?
      && results[i].answer.item == rows[s.Key(taps[i])].item
      && !StillValid(s, Lookup(rows, s.Key(taps[i])), taps[i])
  {
    BatchAnswer(s, rows, taps, i);
  }

  /** A new binding is to the first candidate of a brand the household buys, or to the first of all. */
  lemma {:induction false} BoundToTheFirstPreferred(s: Scan, rows: Rows, tap: Tap, brands: set<string>) returns (i: nat)
    requires One(s, rows, tap, brands).1.answer.Bound?
    ensures var candidates := Purchasable(s.Products(s.Slug(tap)));
      && i < |candidates|
      && (Branded(candidates[i], brands) || (i == 0 && forall c | c in candidates :: !Branded(c, brands)))
      && (forall j | 0 <= j < i :: !Branded(candidates[j], brands))
      && var item := One(s, rows, tap, brands).1.answer.item;
         && item.spinId == candidates[i].variant.spinId && item.unitPrice == candidates[i].variant.price
         && item.refillSize == candidates[i].variant.packSize && item.productId == candidates[i].product.productId
    ensures var after, key := One(s, rows, tap, brands).0, s.Key(tap);
      && key in after && after[key].addressId == s.addressId && after[key].tagText == tap.text
      && after[key].item == One(s, rows, tap, brands).1.answer.item
  {
    var products := s.Products(s.Slug(tap));
    var candidates := Purchasable(products);
    var best := Preferred(candidates, brands).value;
    PurchasableMembers(products, best);
    if j :| 0 <= j < |candidates| && Branded(candidates[j], brands)
            && forall l | 0 <= l < j :: !Branded(candidates[l], brands) {
      i := j;
    } else {
      i := 0;
      NoneBranded(candidates, brands, |candidates|);
    }
  }

  lemma {:induction false} NoneBranded(candidates: seq<Candidate>, brands: set<string>, n: nat)
    requires n <= |candidates|
    requires forall j | 0 <= j < |candidates| && Branded(candidates[j], brands) ::
      exists l :: 0 <= l < j && Branded(candidates[l], brands)
    ensures forall j | 0 <= j < n :: !Branded(candidates[j], brands)
  {
    if n > 0 {
      NoneBranded(candidates, brands, n - 1);
    }
  }

  /** A tap is unresolved exactly when no binding answers and nothing can be bought; it writes nothing. */
  lemma {:induction false} UnresolvedWritesNothing(s: Scan, rows: Rows, tap: Tap, brands: set<string>)
    ensures var step := One(s, rows, tap, brands);
      && (step.1.answer.Unresolved? <==>
            s.Usable(rows, s.Key(tap), s.Slug(tap)).None? && forall c :: !Buyable(c, s.Products(s.Slug(tap))))
      && (!step.1.answer.Bound? ==> step.0 == rows)
  {
    var products := s.Products(s.Slug(tap));
    forall c ensures c in Purchasable(products) <==> Buyable(c, products) {
      PurchasableMembers(products, c);
    }
    if Purchasable(products) != [] {
      assert Purchasable(products)[0] in Purchasable(products);
    }
  }
}
