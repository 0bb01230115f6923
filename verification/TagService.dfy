/** The entry points of app/tags/service.py over the binding table, proved to do what
    TagResolution says of them. */
module TagService {
  import opened Collections
  import opened Names
  import opened Candidates
  import opened TagResolution
  import opened TagAnswers

  method PreferByBrand(purchasable: seq<Candidate>, brands: set<string>) returns (best: Option<Candidate>)
    ensures best == Preferred(purchasable, brands)
  {
    if purchasable == [] {
      return None;
    }
    if brands != {} {
      for i := 0 to |purchasable|
        invariant forall j | 0 <= j < i :: !Branded(purchasable[j], brands)
      {
        if Branded(purchasable[i], brands) {
          return Some(purchasable[i]);
        }
      }
    }
    best := Some(purchasable[0]);
  }

  lemma {:induction false} SlugOfSnoc(u: Script, taps: seq<Tap>, i: nat, tagUid: string)
    requires i < |taps|
    ensures SlugOf(u, taps[..i + 1], tagUid)
      == if taps[i].tagUid == tagUid then u.NormalizeName(taps[i].text) else SlugOf(u, taps[..i], tagUid)
  {
    assert taps[..i + 1][..i] == taps[..i];
  }

  /** The dictionary from tag to slug. */
  method SlugsByTag(s: Scan, taps: seq<Tap>) returns (slugs: map<string, string>)
    ensures forall i | 0 <= i < |taps| ::
      taps[i].tagUid in slugs && slugs[taps[i].tagUid] == SlugOf(s.u, taps, taps[i].tagUid)
  {
    slugs := map[];
    for i := 0 to |taps|
      invariant forall k | 0 <= k < i :: taps[k].tagUid in slugs
      invariant forall t | t in slugs :: slugs[t] == SlugOf(s.u, taps[..i], t)
    {
      forall t | t in slugs ensures t != taps[i].tagUid ==> SlugOf(s.u, taps[..i + 1], t) == slugs[t] {
        SlugOfSnoc(s.u, taps, i, t);
      }
      SlugOfSnoc(s.u, taps, i, taps[i].tagUid);
      slugs := slugs[taps[i].tagUid := s.Slug(taps[i])];
    }
    assert taps[..|taps|] == taps;
  }

  /** Every query is searched once; one refusal of the user's link refuses them all. */
  method SearchSlugs(s: Scan, queries: seq<string>)
    returns (found: Option<map<string, seq<Product>>>, searched: seq<string>)
    requires NoDup(queries)
    ensures found.None? <==> queries != [] && (!s.linked || exists q | q in queries :: s.search(q).Unauthorized?)
    ensures found.Some? ==> found.value == Found(s, Elements(queries)) && searched == queries
    ensures searched == queries || searched == []
  {
    searched := [];
    if queries == [] {
      return Some(map[]), [];
    }
    if !s.linked {
      return None, [];
    }
    searched := queries;
    var answers: map<string, seq<Product>> := map[];
    for i := 0 to |queries|
      invariant answers == Found(s, Elements(queries[..i]))
      invariant forall q | q in queries[..i] :: !s.search(q).Unauthorized?
    {
      if s.search(queries[i]).Unauthorized? {
        assert queries[i] in queries;
        return None, searched;
      }
      assert Elements(queries[..i + 1]) == Elements(queries[..i]) + {queries[i]};
      answers := answers[queries[i] := s.Products(queries[i])];
    }
    assert queries[..|queries|] == queries;
    found := Some(answers);
  }

  class TagBindings {
    var rows: Rows

    constructor ()
      ensures rows == map[]
    {
      rows := map[];
    }

    /** An upsert on the unique key. */
    method Bind(s: Scan, tap: Tap, slug: string, best: Candidate) returns (bound: Binding)
      modifies this
      ensures bound == Binding(tap.text, ItemOf(best, slug), s.addressId, s.PantryId(slug))
      ensures rows == old(rows)[s.Key(tap) := bound]
    {
      bound := Binding(tap.text, ItemOf(best, slug), s.addressId, s.PantryId(slug));
      rows := rows[s.Key(tap) := bound];
    }

    method ResolveTap(s: Scan, tap: Tap, slug: string, cached: Option<Binding>, products: seq<Product>,
                      brands: set<string>)
      returns (r: Resolution, menu: seq<Candidate>)
      modifies this
      ensures (rows, r, menu) == Decide(s, old(rows), tap, slug, cached, products, brands)
    {
      var purchasable := Purchasable(products);
      if cached.Some? {
        var answer := Cached(cached.value.item, cached.value.pantryItemId);
        return Resolution(tap.tagUid, tap.text, tap.quantity, answer), CappedAround(purchasable, cached.value.item.spinId);
      }
      var best := PreferByBrand(purchasable, brands);
      if best.None? {
        return Resolution(tap.tagUid, tap.text, tap.quantity, Unresolved), [];
      }
      var bound := Bind(s, tap, slug, best.value);
      r := Resolution(tap.tagUid, tap.text, tap.quantity, Bound(bound.item, bound.pantryItemId));
      menu := Capped(purchasable, best.value);
    }

    /** `remembered` is the brand cache's answer for this user and address. */
    method ResolveOne(s: Scan, tap: Tap, remembered: Option<set<string>>) returns (r: Outcome, menu: seq<Candidate>)
      modifies this
      ensures r.AuthExpired? <==>
        (remembered.None? && s.goTo.Unauthorized?) || !s.linked || s.search(s.u.NormalizeName(tap.text)).Unauthorized?
      ensures r.AuthExpired? ==> rows == old(rows)
      ensures r.Resolved? ==>
        var slug := s.u.NormalizeName(tap.text);
        && |r.results| == 1
        && Answers(s, old(rows), tap, slug, Favoured(s, remembered), r.results[0])
        && rows == Recorded(s, old(rows), r.results[0])
        && MenuShows(menu, OnSale(s, slug), r.results[0].answer)
      ensures !OneRefused(s, tap, remembered) ==>
        r.Resolved? && |r.results| == 1
        && (rows, r.results[0], menu) == One(s, old(rows), tap, remembered.GetOr(s.Brands()))
    {
      if remembered.None? && s.goTo.Unauthorized? {
        return AuthExpired, [];
      }
      ghost var before := rows;
      var brands := remembered.GetOr(s.Brands());
      var slug := s.Slug(tap);
      var found, _ := SearchSlugs(s, [slug]);
      if found.None? {
        return AuthExpired, [];
      }
      var resolution, candidates :=
        ResolveTap(s, tap, slug, s.Usable(rows, s.Key(tap), slug), ProductsFor(found.value, slug), brands);
      FavouredBrands(s, remembered);
      DecideAnswers(s, before, before, tap, slug, brands, s.Products(slug), Favoured(s, remembered));
      DecideMenu(s, before, tap, slug, brands);
      r, menu := Resolved([resolution]), candidates;
    }

    /** The slugs to search for: each once, whatever the number of taps that read it. */
    method UnboundSlugs(s: Scan, taps: seq<Tap>, slugs: map<string, string>) returns (queries: seq<string>)
      requires forall i | 0 <= i < |taps| ::
        taps[i].tagUid in slugs && slugs[taps[i].tagUid] == SlugOf(s.u, taps, taps[i].tagUid)
      ensures NoDup(queries) && Elements(queries) == Unbound(s, rows, taps)
    {
      queries := [];
      for i := 0 to |taps|
        invariant NoDup(queries)
        invariant forall q | q in queries :: q in Unbound(s, rows, taps)
        invariant forall k | 0 <= k < i && Reusable(s, rows, taps, taps[k]).None? :: slugs[taps[k].tagUid] in queries
      {
        var slug := slugs[taps[i].tagUid];
        if s.Usable(rows, s.Key(taps[i]), slug).None? && slug !in queries {
          assert taps[i] in taps;
          queries := queries + [slug];
        }
      }
    }

    /** The loop over the taps; `before` is the table the bindings were read from. */
    method AnswerTaps(s: Scan, taps: seq<Tap>, slugs: map<string, string>, found: map<string, seq<Product>>)
      returns (results: seq<Resolution>)
      requires forall i | 0 <= i < |taps| ::
        taps[i].tagUid in slugs && slugs[taps[i].tagUid] == SlugOf(s.u, taps, taps[i].tagUid)
      requires found == Found(s, Unbound(s, rows, taps))
      modifies this
      ensures (rows, results) == Run(Batched(s, old(rows), taps, s.Brands()), old(rows), taps)
    {
      var before := rows;
      ghost var step := Batched(s, before, taps, s.Brands());
      results := [];
      for i := 0 to |taps|
        invariant (rows, results) == Run(step, before, taps[..i])
      {
        assert taps[..i + 1][..i] == taps[..i];
        var tap := taps[i];
        var slug := slugs[tap.tagUid];
        var resolution, _ := ResolveTap(s, tap, slug, s.Usable(before, s.Key(tap), slug),
                                        ProductsFor(found, slug), s.Brands());
        results := results + [resolution];
      }
      assert taps[..|taps|] == taps;
    }

    /** A finished scan. Distinct slugs are searched at most once, and only when nothing bound answers. */
    method ResolveBatch(s: Scan, taps: seq<Tap>) returns (r: Outcome, searched: seq<string>)
      modifies this
      ensures (rows, r) == Batch(s, old(rows), taps)
      ensures r.AuthExpired? <==> LinkFails(s, old(rows), taps)
      ensures r.AuthExpired? ==> rows == old(rows)
      ensures r.Resolved? ==>
        && |r.results| == |taps| && rows == AllRecorded(s, old(rows), r.results)
        && forall i: nat, j: nat | LastOfTag(taps, i, j) ::
             Answers(s, old(rows), taps[i], s.u.NormalizeName(taps[j].text), Favoured(s, None), r.results[i])
      ensures NoDup(searched) && Elements(searched) <= Unbound(s, old(rows), taps)
      ensures r.Resolved? ==> Elements(searched) == Unbound(s, old(rows), taps)
    {
      ghost var before := rows;
      RefusedExactlyWhenLinkFails(s, before, taps);
      var slugs := SlugsByTag(s, taps);
      if s.goTo.Unauthorized? {
        return AuthExpired, [];
      }
      var queries := UnboundSlugs(s, taps, slugs);
      var found;
      found, searched := SearchSlugs(s, queries);
      SameQueries(s, queries, Unbound(s, rows, taps));
      if found.None? {
        return AuthExpired, searched;
      }
      var results := AnswerTaps(s, taps, slugs, found.value);
      r := Resolved(results);
      BatchAnswersEach(s, before, taps);
    }

    /** The row is written as the user chose it; an unknown tag is refused by the route. */
    method Rebind(key: TagKey, item: Item, addressId: string) returns (ok: bool)
      modifies this
      ensures ok == (key in old(rows)) && rows == WithCorrection(old(rows), key, item, addressId)
      ensures rows == if !ok then old(rows) else
        old(rows)[key := Binding(old(rows)[key].tagText, item, addressId, old(rows)[key].pantryItemId)]
    {
      ok := key in rows;
      if ok {
        rows := rows[key := rows[key].(item := item, addressId := addressId)];
      }
    }

    method Unbind(key: TagKey) returns (ok: bool)
      modifies this
      ensures ok == (key in old(rows)) && rows == old(rows) - {key}
    {
      ok := key in rows;
      rows := rows - {key};
    }
  }

  lemma {:induction false} SameQueries(s: Scan, queries: seq<string>, unbound: set<string>)
    requires Elements(queries) == unbound
    ensures queries == [] <==> unbound == {}
    ensures (exists q | q in queries :: s.search(q).Unauthorized?) <==> exists q | q in unbound :: s.search(q).Unauthorized?
  {
    if queries != [] {
      assert queries[0] in unbound;
    }
    assert forall q :: q in queries <==> q in unbound;
  }
}
