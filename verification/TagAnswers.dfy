/** What a tap is answered, told from the binding table, the go-to list, the search and the pantry alone. */
module TagAnswers {
  import opened Collections
  import opened Names
  import opened Candidates
  import opened TagResolution

  /** Some go-to item is of the candidate's brand. A failed lookup lists none. */
  ghost predicate OnGoToList(goTo: Reply<seq<Option<string>>>, c: Candidate) {
    goTo.Answered? && c.product.brand.Some? && c.product.brand.value != "" && c.product.brand in goTo.value
  }

  /** The candidates the household favours: by the brands that are remembered or, if none are, by its go-to list. */
  ghost function Favoured(s: Scan, remembered: Option<set<string>>): Candidate -> bool {
    match remembered
    case None => (c: Candidate) => OnGoToList(s.goTo, c)
    case Some(brands) =>
      (c: Candidate) => c.product.brand.Some? && c.product.brand.value != "" && c.product.brand.value in brands
  }

  /** The first of the favoured candidates is the `i`-th, or none is favoured and it is the first of all. */
  ghost predicate Wins(candidates: seq<Candidate>, favoured: Candidate -> bool, i: nat) {
    && i < |candidates|
    && (forall j | 0 <= j < i :: !favoured(candidates[j]))
    && (favoured(candidates[i]) || (i == 0 && forall j | 0 <= j < |candidates| :: !favoured(candidates[j])))
  }

  /** What the search for a text puts on sale; a failed search, nothing. */
  function OnSale(s: Scan, slug: string): seq<Candidate> {
    Purchasable(if s.search(slug).Answered? then s.search(slug).value else [])
  }

  /** The tag's row is for this address and its text is this one. */
  predicate Hit(s: Scan, rows: Rows, tap: Tap, slug: string) {
    var key := TagKey(s.userId, tap.tagUid);
    key in rows && rows[key].addressId == s.addressId && s.u.NormalizeName(rows[key].tagText) == slug
  }

  /** The candidate as it is bound: named as its product, else its brand, else the text. */
  ghost predicate IsItemOf(item: Item, c: Candidate, slug: string) {
    && item.spinId == c.variant.spinId && item.productId == c.product.productId
    && item.refillSize == c.variant.packSize && item.unitPrice == Some(c.price)
    && item.productName.Some?
    && (c.product.name.GetOr("") != "" ==> item.productName == c.product.name)
    && (c.product.name.GetOr("") == "" && c.product.brand.GetOr("") != "" ==> item.productName == c.product.brand)
    && (c.product.name.GetOr("") == "" && c.product.brand.GetOr("") == "" ==> item.productName == Some(slug))
  }

  /** The answer to a tap read as `slug`: its row's item, or the winner of the search, bound with the pantry item
      of that name, or nothing. */
  ghost predicate Answers(s: Scan, rows: Rows, tap: Tap, slug: string, favoured: Candidate -> bool, r: Resolution) {
    && r.tagUid == tap.tagUid && r.text == tap.text && r.quantity == tap.quantity
    && var key, candidates := TagKey(s.userId, tap.tagUid), OnSale(s, slug);
    if Hit(s, rows, tap, slug) then r.answer == Cached(rows[key].item, rows[key].pantryItemId)
    else if candidates == [] then r.answer == Unresolved
    else
      && r.answer.Bound?
      && r.answer.pantryItemId == (if slug != "" && slug in s.pantry then Some(s.pantry[slug]) else None)
      && exists i: nat :: Wins(candidates, favoured, i) && IsItemOf(r.answer.item, candidates[i], slug)
  }

  /** The row a new binding leaves. */
  function Recorded(s: Scan, rows: Rows, r: Resolution): Rows {
    if r.answer.Bound?
    then rows[TagKey(s.userId, r.tagUid) := Binding(r.text, r.answer.item, s.addressId, r.answer.pantryItemId)]
    else rows
  }

  function AllRecorded(s: Scan, rows: Rows, results: seq<Resolution>): Rows {
    if results == [] then rows
    else Recorded(s, AllRecorded(s, rows, results[..|results| - 1]), results[|results| - 1])
  }

  // -------------------------------------------------------------------- one tap

  ghost predicate SameBrandsAs(brands: set<string>, favoured: Candidate -> bool) {
    forall c :: favoured(c) == Branded(c, brands)
  }

  lemma {:induction false} FavouredBrands(s: Scan, remembered: Option<set<string>>)
    ensures SameBrandsAs(remembered.GetOr(s.Brands()), Favoured(s, remembered))
  {
  }

  lemma {:induction false} PreferredWins(candidates: seq<Candidate>, brands: set<string>, favoured: Candidate -> bool)
    returns (i: nat)
    requires candidates != [] && SameBrandsAs(brands, favoured)
    ensures Wins(candidates, favoured, i) && Preferred(candidates, brands) == Some(candidates[i])
  {
    if j :| 0 <= j < |candidates| && Branded(candidates[j], brands)
            && forall l | 0 <= l < j :: !Branded(candidates[l], brands) {
      i := j;
    } else {
      i := 0;
      NoneBranded(candidates, brands, |candidates|);
    }
  }

  lemma {:induction false} BoundItem(best: Candidate, slug: string)
    requires best.variant.price == Some(best.price)
    ensures IsItemOf(ItemOf(best, slug), best, slug)
  {
  }

  lemma {:induction false} DecideAnswers(s: Scan, rows: Rows, current: Rows, tap: Tap, slug: string, brands: set<string>,
                                         products: seq<Product>, favoured: Candidate -> bool)
    requires SameBrandsAs(brands, favoured)
    requires !Hit(s, rows, tap, slug) ==> products == s.Products(slug)
    ensures var step := Decide(s, current, tap, slug, s.Usable(rows, s.Key(tap), slug), products, brands);
      Answers(s, rows, tap, slug, favoured, step.1) && step.0 == Recorded(s, current, step.1)
  {
    var candidates := OnSale(s, slug);
    if !Hit(s, rows, tap, slug) && candidates != [] {
      var i := PreferredWins(candidates, brands, favoured);
      PurchasableMembers(s.Products(slug), candidates[i]);
      assert candidates[i] in candidates;
      BoundItem(candidates[i], slug);
    }
  }

  // -------------------------------------------------------------------- the menu

  predicate Among(candidates: seq<Candidate>, n: nat, spinId: string) {
    exists k :: 0 <= k < |candidates| && k < n && candidates[k].variant.spinId == spinId
  }

  /** At most ten alternates, in search order: the first ten, or the first nine and the answer's own variant if it
      was found only further down; none for an unresolved tap. */
  ghost predicate MenuShows(menu: seq<Candidate>, candidates: seq<Candidate>, answer: Answer) {
    if answer.Unresolved? then menu == []
    else if Among(candidates, |candidates|, answer.item.spinId) && !Among(candidates, 10, answer.item.spinId) then
      && |menu| == 10 && menu[..9] == candidates[..9]
      && menu[9] in candidates && menu[9].variant.spinId == answer.item.spinId
    else menu == if |candidates| <= 10 then candidates else candidates[..10]
  }

  lemma {:induction false} AmongIds(candidates: seq<Candidate>, n: nat, spinId: string)
    ensures Among(candidates, n, spinId) <==> spinId in SpinIds(First(candidates, n))
  {
    var first := First(candidates, n);
    if Among(candidates, n, spinId) {
      var k :| 0 <= k < |candidates| && k < n && candidates[k].variant.spinId == spinId;
      assert SpinIds(first)[k] == spinId;
    }
    if spinId in SpinIds(first) {
      var k :| 0 <= k < |first| && SpinIds(first)[k] == spinId;
      assert candidates[k].variant.spinId == spinId;
    }
  }

  lemma {:induction false} CappedIsTheMenu(candidates: seq<Candidate>, best: Candidate, answer: Answer)
    requires best in candidates && !answer.Unresolved? && answer.item.spinId == best.variant.spinId
    ensures MenuShows(Capped(candidates, best), candidates, answer)
  {
    AmongIds(candidates, 10, best.variant.spinId);
    var k :| 0 <= k < |candidates| && candidates[k] == best;
    assert Among(candidates, |candidates|, best.variant.spinId);
    if !Among(candidates, 10, best.variant.spinId) {
      assert k >= 10;
    }
  }

  lemma {:induction false} CappedAroundIsTheMenu(candidates: seq<Candidate>, answer: Answer)
    requires !answer.Unresolved?
    ensures MenuShows(CappedAround(candidates, answer.item.spinId), candidates, answer)
  {
    var spinId := answer.item.spinId;
    FirstWithFinds(candidates, spinId);
    AmongIds(candidates, |candidates|, spinId);
    if FirstWith(candidates, spinId).Some? {
      CappedIsTheMenu(candidates, FirstWith(candidates, spinId).value, answer);
    }
  }

  lemma {:induction false} DecideMenu(s: Scan, rows: Rows, tap: Tap, slug: string, brands: set<string>)
    ensures var step := Decide(s, rows, tap, slug, s.Usable(rows, s.Key(tap), slug), s.Products(slug), brands);
      MenuShows(step.2, OnSale(s, slug), step.1.answer)
  {
    var candidates := OnSale(s, slug);
    var step := Decide(s, rows, tap, slug, s.Usable(rows, s.Key(tap), slug), s.Products(slug), brands);
    if step.1.answer.Cached? {
      CappedAroundIsTheMenu(candidates, step.1.answer);
    } else if candidates != [] {
      var favoured := (c: Candidate) => Branded(c, brands);
      var i := PreferredWins(candidates, brands, favoured);
      assert candidates[i] in candidates;
      CappedIsTheMenu(candidates, candidates[i], step.1.answer);
    }
  }

  // ------------------------------------------------------------------- the batch

  /** The `j`-th tap is the last of the tag the `i`-th one taps. */
  ghost predicate LastOfTag(taps: seq<Tap>, i: nat, j: nat) {
    && i < |taps| && j < |taps| && taps[j].tagUid == taps[i].tagUid
    && forall k | j < k < |taps| :: taps[k].tagUid != taps[i].tagUid
  }

  lemma {:induction false} LastTextIsRead(u: Script, taps: seq<Tap>, i: nat, j: nat)
    requires LastOfTag(taps, i, j)
    ensures SlugOf(u, taps, taps[i].tagUid) == u.NormalizeName(taps[j].text)
  {
    LastTextOf(u, taps, taps[i].tagUid, j);
  }

  lemma {:induction false} LastTextOf(u: Script, taps: seq<Tap>, tagUid: string, j: nat)
    requires j < |taps| && taps[j].tagUid == tagUid && forall k | j < k < |taps| :: taps[k].tagUid != tagUid
    ensures SlugOf(u, taps, tagUid) == u.NormalizeName(taps[j].text)
  {
    if j < |taps| - 1 {
      LastTextOf(u, taps[..|taps| - 1], tagUid, j);
    }
  }

  lemma {:induction false} HasLast(taps: seq<Tap>, i: nat) returns (j: nat)
    requires i < |taps|
    ensures LastOfTag(taps, i, j)
  {
    j := |taps| - 1;
    while taps[j].tagUid != taps[i].tagUid
      decreases j
      invariant i <= j < |taps| && forall k | j < k < |taps| :: taps[k].tagUid != taps[i].tagUid
    {
      j := j - 1;
    }
  }

  lemma {:induction false} PassAnswers(s: Scan, rows: Rows, taps: seq<Tap>, current: Rows, i: nat, j: nat)
    requires LastOfTag(taps, i, j)
    ensures var step := Pass(s, rows, taps, s.Brands(), current, taps[i]);
      && Answers(s, rows, taps[i], s.u.NormalizeName(taps[j].text), Favoured(s, None), step.1)
      && step.0 == Recorded(s, current, step.1)
  {
    var slug := s.u.NormalizeName(taps[j].text);
    LastTextIsRead(s.u, taps, i, j);
    FavouredBrands(s, None);
    var products := ProductsFor(Found(s, Unbound(s, rows, taps)), slug);
    if !Hit(s, rows, taps[i], slug) {
      assert taps[i] in taps && slug in Unbound(s, rows, taps);
    }
    DecideAnswers(s, rows, current, taps[i], slug, s.Brands(), products, Favoured(s, None));
  }

  lemma {:induction false} StepRecords(s: Scan, rows: Rows, taps: seq<Tap>, current: Rows, i: nat)
    requires i < |taps|
    ensures var step := Batched(s, rows, taps, s.Brands())(current, taps[i]); step.0 == Recorded(s, current, step.1)
  {
    var j := HasLast(taps, i);
    PassAnswers(s, rows, taps, current, i, j);
  }

  lemma {:induction false} RecordedSnoc(s: Scan, rows: Rows, results: seq<Resolution>, r: Resolution)
    ensures AllRecorded(s, rows, results + [r]) == Recorded(s, AllRecorded(s, rows, results), r)
  {
    assert (results + [r])[..|results|] == results;
  }

  /** A way to take these taps that leaves the table with what its answers tell. */
  ghost predicate Records(s: Scan, step: Step, taps: seq<Tap>) {
    forall current: Rows, i: nat | i < |taps| :: step(current, taps[i]).0 == Recorded(s, current, step(current, taps[i]).1)
  }

  lemma {:induction false} RunRecords(s: Scan, step: Step, rows: Rows, taps: seq<Tap>)
    requires Records(s, step, taps)
    ensures Run(step, rows, taps).0 == AllRecorded(s, rows, Run(step, rows, taps).1)
  {
    if taps != [] {
      var n := |taps| - 1;
      forall current: Rows, i: nat | i < n
        ensures step(current, taps[..n][i]).0 == Recorded(s, current, step(current, taps[..n][i]).1)
      {
        assert taps[..n][i] == taps[i];
      }
      RunRecords(s, step, rows, taps[..n]);
      var before := Run(step, rows, taps[..n]);
      RecordedSnoc(s, rows, before.1, step(before.0, taps[n]).1);
    }
  }

  lemma {:induction false} AnswerAt(s: Scan, rows: Rows, taps: seq<Tap>, i: nat, j: nat)
    requires LastOfTag(taps, i, j)
    ensures var end := Run(Batched(s, rows, taps, s.Brands()), rows, taps);
      && |end.1| == |taps|
      && Answers(s, rows, taps[i], s.u.NormalizeName(taps[j].text), Favoured(s, None), end.1[i])
  {
    var step := Batched(s, rows, taps, s.Brands());
    RunAt(step, rows, taps, i);
    PassAnswers(s, rows, taps, Run(step, rows, taps[..i]).0, i, j);
  }

  /** Every tap of a batch is answered under the last text of its tag, by the go-to list as it is now, and the table
      is left with exactly the bindings the answers tell of. */
  lemma {:induction false} BatchAnswersEach(s: Scan, rows: Rows, taps: seq<Tap>)
    requires Batch(s, rows, taps).1.Resolved?
    ensures var (rows', outcome) := Batch(s, rows, taps);
      && |outcome.results| == |taps| && rows' == AllRecorded(s, rows, outcome.results)
      && forall i: nat, j: nat | LastOfTag(taps, i, j) ::
           Answers(s, rows, taps[i], s.u.NormalizeName(taps[j].text), Favoured(s, None), outcome.results[i])
  {
    var step := Batched(s, rows, taps, s.Brands());
    forall current: Rows, i: nat | i < |taps|
      ensures step(current, taps[i]).0 == Recorded(s, current, step(current, taps[i]).1)
    {
      StepRecords(s, rows, taps, current, i);
    }
    RunRecords(s, step, rows, taps);
    if taps != [] {
      RunAt(step, rows, taps, 0);
    }
    forall i: nat, j: nat | LastOfTag(taps, i, j) {
      AnswerAt(s, rows, taps, i, j);
    }
  }

  predicate SearchFails(s: Scan, rows: Rows, tap: Tap, slug: string) {
    !Hit(s, rows, tap, slug) && (!s.linked || s.search(slug).Unauthorized?)
  }

  /** The link is needed, and refused, for the go-to list or for the search of a tap no binding answers. */
  ghost predicate LinkFails(s: Scan, rows: Rows, taps: seq<Tap>) {
    || s.goTo.Unauthorized?
    || exists i: nat, j: nat :: LastOfTag(taps, i, j) && SearchFails(s, rows, taps[i], s.u.NormalizeName(taps[j].text))
  }

  lemma {:induction false} UnboundSlug(s: Scan, rows: Rows, taps: seq<Tap>, slug: string)
    ensures slug in Unbound(s, rows, taps) <==>
      exists i: nat, j: nat :: LastOfTag(taps, i, j) && s.u.NormalizeName(taps[j].text) == slug && !Hit(s, rows, taps[i], slug)
  {
    if slug in Unbound(s, rows, taps) {
      var tap :| tap in taps && Reusable(s, rows, taps, tap).None? && SlugOf(s.u, taps, tap.tagUid) == slug;
      var i :| 0 <= i < |taps| && taps[i] == tap;
      var j := HasLast(taps, i);
      LastTextIsRead(s.u, taps, i, j);
    }
    if i: nat, j: nat :| LastOfTag(taps, i, j) && s.u.NormalizeName(taps[j].text) == slug && !Hit(s, rows, taps[i], slug) {
      LastTextIsRead(s.u, taps, i, j);
      assert taps[i] in taps;
    }
  }

  lemma {:induction false} RefusedExactlyWhenLinkFails(s: Scan, rows: Rows, taps: seq<Tap>)
    ensures Batch(s, rows, taps).1.AuthExpired? <==> LinkFails(s, rows, taps)
    ensures Batch(s, rows, taps).1.AuthExpired? ==> Batch(s, rows, taps).0 == rows
  {
    var queries := Unbound(s, rows, taps);
    if queries != {} && (!s.linked || exists q | q in queries :: s.search(q).Unauthorized?) {
      var q :| q in queries && (!s.linked || s.search(q).Unauthorized?);
      UnboundSlug(s, rows, taps, q);
    }
    if i: nat, j: nat :| LastOfTag(taps, i, j) && SearchFails(s, rows, taps[i], s.u.NormalizeName(taps[j].text)) {
      UnboundSlug(s, rows, taps, s.u.NormalizeName(taps[j].text));
    }
  }
}
