/** `rank_candidates` of app/matching/substitution.py: when the order of the search results
    cannot be seen in the ranking. */
module Ranking {
  import opened Collections
  import opened Units
  import opened Candidates

  // ----------------------------------------------------------------- the key

  /** Python's order on strings. */
  predicate Before(a: string, b: string) {
    b != "" && (a == "" || if a[0] != b[0] then a[0] < b[0] else Before(a[1..], b[1..]))
  }

  lemma {:induction false} StringsAreTotallyOrdered(a: string, b: string, c: string)
    ensures !Before(a, a)
    ensures Before(a, b) && Before(b, c) ==> Before(a, c)
    ensures a == b || Before(a, b) || Before(b, a)
  {
    if a != "" {
      StringsAreTotallyOrdered(a[1..], if b == "" then "" else b[1..], if c == "" then "" else c[1..]);
      if b != "" && a[0] == b[0] && a[1..] == b[1..] {
        assert a == [a[0]] + a[1..] && b == [b[0]] + b[1..];
      }
    }
  }

  /** Bought before, closeness of the pack, price, variant. */
  datatype Key = Key(preference: int, distanceRank: int, distance: real, price: real, spinId: string) {
    predicate Below(other: Key) {
      if preference != other.preference then preference < other.preference
      else if distanceRank != other.distanceRank then distanceRank < other.distanceRank
      else if distance != other.distance then distance < other.distance
      else if price != other.price then price < other.price
      else Before(spinId, other.spinId)
    }
  }

  lemma {:induction false} KeysAreTotallyOrdered(a: Key, b: Key, c: Key)
    ensures !a.Below(a)
    ensures a.Below(b) && b.Below(c) ==> a.Below(c)
    ensures a == b || a.Below(b) || b.Below(a)
  {
    StringsAreTotallyOrdered(a.spinId, b.spinId, c.spinId);
  }

  function Distance(preferred: Option<string>, candidate: Option<string>): (int, real) {
    if preferred.None? || candidate.None? then (1, 0.0)
    else Between(ParsePackSize(preferred.value), ParsePackSize(candidate.value))
  }

  function Between(want: Option<Amount>, got: Option<Amount>): (int, real) {
    if want.None? || got.None? || want.value.base != got.value.base then (1, 0.0)
    else
      var gap := got.value.quantity - want.value.quantity;
      (0, if gap < 0.0 then -gap else gap)
  }

  /** `_sort_key`. */
  function KeyOf(preferredPack: Option<string>, preferredIds: set<string>): Candidate -> Key {
    (c: Candidate) =>
      var d := Distance(preferredPack, c.variant.packSize);
      Key(if c.variant.spinId in preferredIds then 0 else 1, d.0, d.1, c.price, c.variant.spinId)
  }

  // ---------------------------------------------------------------- the sort

  /** A stable sort, as `list.sort` is. */
  function Sort(s: seq<Candidate>, key: Candidate -> Key): seq<Candidate> {
    if s == [] then [] else Insert(Sort(s[..|s| - 1], key), s[|s| - 1], key)
  }

  /** Behind everything that does not sort after it. */
  function Insert(s: seq<Candidate>, x: Candidate, key: Candidate -> Key): seq<Candidate> {
    if s == [] || !key(x).Below(key(s[|s| - 1])) then s + [x]
    else Insert(s[..|s| - 1], x, key) + [s[|s| - 1]]
  }

  ghost predicate Sorted(s: seq<Candidate>, key: Candidate -> Key) {
    forall i, j | 0 <= i < j < |s| :: !key(s[j]).Below(key(s[i]))
  }

  function With(k: Key, key: Candidate -> Key): Candidate -> bool {
    (c: Candidate) => key(c) == k
  }

  lemma {:induction false} InsertSame(s: seq<Candidate>, x: Candidate, key: Candidate -> Key)
    ensures multiset(Insert(s, x, key)) == multiset(s + [x])
  {
    if s != [] && key(x).Below(key(s[|s| - 1])) {
      InsertSame(s[..|s| - 1], x, key);
      assert s == s[..|s| - 1] + [s[|s| - 1]];
    }
  }

  lemma {:induction false} InsertSorted(s: seq<Candidate>, x: Candidate, key: Candidate -> Key)
    requires Sorted(s, key)
    ensures Sorted(Insert(s, x, key), key)
  {
    if s != [] {
      var init, last := s[..|s| - 1], s[|s| - 1];
      if key(x).Below(key(last)) {
        InsertSorted(init, x, key);
        InsertSame(init, x, key);
        var r := Insert(init, x, key);
        forall i | 0 <= i < |r| ensures !key(last).Below(key(r[i])) {
          assert r[i] in multiset(r);
          KeysAreTotallyOrdered(key(last), key(x), key(last));
        }
      } else {
        forall i | 0 <= i < |s| ensures !key(x).Below(key(s[i])) {
          KeysAreTotallyOrdered(key(last), key(s[i]), key(x));
          KeysAreTotallyOrdered(key(x), key(s[i]), key(last));
        }
      }
    }
  }

  lemma {:induction false} InsertStable(s: seq<Candidate>, x: Candidate, key: Candidate -> Key, k: Key)
    requires Sorted(s, key)
    ensures Filter(Insert(s, x, key), With(k, key)) == Filter(s + [x], With(k, key))
  {
    if s != [] && key(x).Below(key(s[|s| - 1])) {
      var init, last, p := s[..|s| - 1], s[|s| - 1], With(k, key);
      InsertStable(init, x, key, k);
      KeysAreTotallyOrdered(key(x), key(last), key(x));
      FilterSnoc(Insert(init, x, key), last, p);
      FilterSnoc(init, x, p);
      FilterSnoc(s, x, p);
      assert s == init + [last];
      FilterSnoc(init, last, p);
    }
  }

  /** What sorting promises: the same candidates, in order, equals staying as they stood. */
  lemma {:induction false} SortIsStable(s: seq<Candidate>, key: Candidate -> Key)
    ensures Sorted(Sort(s, key), key)
    ensures multiset(Sort(s, key)) == multiset(s)
    ensures forall k :: Filter(Sort(s, key), With(k, key)) == Filter(s, With(k, key))
  {
    if s != [] {
      var init, x := s[..|s| - 1], s[|s| - 1];
      SortIsStable(init, key);
      InsertSorted(Sort(init, key), x, key);
      InsertSame(Sort(init, key), x, key);
      assert s == init + [x];
      forall k ensures Filter(Sort(s, key), With(k, key)) == Filter(s, With(k, key)) {
        InsertStable(Sort(init, key), x, key, k);
        FilterSnoc(Sort(init, key), x, With(k, key));
        FilterSnoc(init, x, With(k, key));
      }
    }
  }

  lemma {:induction false} KeptIn(a: seq<Candidate>, b: seq<Candidate>, x: Candidate, p: Candidate -> bool)
    requires x in a && p(x) && Filter(a, p) == Filter(b, p)
    ensures x in b
  {
    FilterMembers(a, p);
    FilterMembers(b, p);
    assert x in Filter(b, p);
  }

  lemma {:induction false} LastKeyCommon(a: seq<Candidate>, b: seq<Candidate>, key: Candidate -> Key)
    requires a != [] && b != [] && Sorted(b, key)
    requires forall k :: Filter(a, With(k, key)) == Filter(b, With(k, key))
    ensures !key(b[|b| - 1]).Below(key(a[|a| - 1]))
  {
    var x := a[|a| - 1];
    var k := key(x);
    assert Filter(a, With(k, key)) == Filter(b, With(k, key));
    KeptIn(a, b, x, With(k, key));
    var i :| 0 <= i < |b| && b[i] == x;
    KeysAreTotallyOrdered(k, k, k);
  }

  /** Sorted lists that agree key by key are equal, so the three promises above fix the result. */
  lemma {:induction false} SortedListsAgree(a: seq<Candidate>, b: seq<Candidate>, key: Candidate -> Key)
    requires Sorted(a, key) && Sorted(b, key)
    requires forall k :: Filter(a, With(k, key)) == Filter(b, With(k, key))
    ensures a == b
  {
    if a == [] || b == [] {
      NothingToFilter(a, b, key);
      NothingToFilter(b, a, key);
    } else {
      var x, y := a[|a| - 1], b[|b| - 1];
      var c, d := a[..|a| - 1], b[..|b| - 1];
      LastKeyCommon(a, b, key);
      LastKeyCommon(b, a, key);
      KeysAreTotallyOrdered(key(x), key(y), key(x));
      assert a == c + [x] && b == d + [y];
      forall k ensures x == y && Filter(c, With(k, key)) == Filter(d, With(k, key)) {
        SameLast(c, x, d, y, With(key(x), key));
        FilterSnoc(c, x, With(k, key));
        FilterSnoc(d, y, With(k, key));
        SameLast(c, x, d, y, With(k, key));
      }
      SortedListsAgree(c, d, key);
      assert Filter(a, With(key(x), key)) == Filter(b, With(key(x), key));
      SameLast(c, x, d, y, With(key(x), key));
    }
  }

  lemma {:induction false} NothingToFilter(a: seq<Candidate>, b: seq<Candidate>, key: Candidate -> Key)
    requires forall k :: Filter(a, With(k, key)) == Filter(b, With(k, key))
    ensures a == [] ==> b == []
  {
    if b != [] {
      FilterMembers(b, With(key(b[0]), key));
      FilterMembers(a, With(key(b[0]), key));
      assert b[0] in Filter(b, With(key(b[0]), key));
    }
  }

  lemma {:induction false} SameLast(c: seq<Candidate>, x: Candidate, d: seq<Candidate>, y: Candidate, p: Candidate -> bool)
    requires Filter(c + [x], p) == Filter(d + [y], p)
    ensures p(x) && p(y) ==> x == y && Filter(c, p) == Filter(d, p)
    ensures !p(x) && !p(y) ==> Filter(c, p) == Filter(d, p)
  {
    FilterSnoc(c, x, p);
    FilterSnoc(d, y, p);
    if p(x) && p(y) {
      var r := Filter(c, p) + [x];
      assert r[|r| - 1] == x && r[..|r| - 1] == Filter(c, p);
      var t := Filter(d, p) + [y];
      assert t[|t| - 1] == y && t[..|t| - 1] == Filter(d, p);
    }
  }

  // ------------------------------------------------------- independence of order

  /** No two different candidates of the list share a key. */
  ghost predicate TellsApart(s: seq<Candidate>, key: Candidate -> Key) {
    forall a, b | a in s && b in s && key(a) == key(b) :: a == b
  }

  lemma {:induction false} FilterIsCopies(s: seq<Candidate>, p: Candidate -> bool, a: Candidate)
    requires p(a) && forall b | b in s && p(b) :: b == a
    ensures Filter(s, p) == seq(multiset(s)[a], _ => a)
  {
    if s != [] {
      var init, x := s[..|s| - 1], s[|s| - 1];
      assert s == init + [x];
      FilterIsCopies(init, p, a);
    }
  }

  lemma {:induction false} OrderInvisible(s: seq<Candidate>, t: seq<Candidate>, key: Candidate -> Key)
    requires TellsApart(s, key) && multiset(s) == multiset(t)
    ensures Sort(s, key) == Sort(t, key)
  {
    SortIsStable(s, key);
    SortIsStable(t, key);
    forall k ensures Filter(Sort(s, key), With(k, key)) == Filter(Sort(t, key), With(k, key)) {
      assert forall c :: c in s <==> c in multiset(s);
      assert forall c :: c in t <==> c in multiset(t);
      if a :| a in s && key(a) == k {
        FilterIsCopies(s, With(k, key), a);
        FilterIsCopies(t, With(k, key), a);
      } else {
        FilterNone(s, With(k, key));
        FilterNone(t, With(k, key));
      }
    }
    SortedListsAgree(Sort(s, key), Sort(t, key), key);
  }

  lemma {:induction false} Apart(s: seq<Candidate>, i: nat, j: nat) returns (rest: seq<Candidate>)
    requires i < j < |s|
    ensures multiset([s[i], s[j]] + rest) == multiset(s) && multiset([s[j], s[i]] + rest) == multiset(s)
  {
    rest := s[..i] + s[i + 1..j] + s[j + 1..];
    assert s == s[..i] + [s[i]] + s[i + 1..j] + [s[j]] + s[j + 1..];
  }

  lemma {:induction false} SwapSeen(s: seq<Candidate>, i: nat, j: nat, key: Candidate -> Key)
    returns (t: seq<Candidate>, t': seq<Candidate>)
    requires i < j < |s| && s[i] != s[j] && key(s[i]) == key(s[j])
    ensures multiset(t) == multiset(s) && multiset(t') == multiset(s) && Sort(t, key) != Sort(t', key)
  {
    var rest := Apart(s, i, j);
    t, t' := [s[i], s[j]] + rest, [s[j], s[i]] + rest;
    var p := With(key(s[i]), key);
    FilterConcat([s[i], s[j]], rest, p);
    FilterConcat([s[j], s[i]], rest, p);
    FilterAll([s[i], s[j]], p);
    FilterAll([s[j], s[i]], p);
    assert Filter(t, p)[0] == s[i] && Filter(t', p)[0] == s[j];
    SortIsStable(t, key);
    SortIsStable(t', key);
  }

  /** The ranking is the same for every order of the results exactly when the key tells them apart. */
  lemma {:induction false} OrderInvisibleExactlyWhenToldApart(s: seq<Candidate>, key: Candidate -> Key)
    ensures TellsApart(s, key) <==>
      forall t: seq<Candidate> | multiset(t) == multiset(s) :: Sort(t, key) == Sort(s, key)
  {
    if TellsApart(s, key) {
      forall t: seq<Candidate> | multiset(t) == multiset(s) ensures Sort(t, key) == Sort(s, key) {
        OrderInvisible(s, t, key);
      }
    } else {
      var a, b :| a in s && b in s && key(a) == key(b) && a != b;
      var i :| 0 <= i < |s| && s[i] == a;
      var j :| 0 <= j < |s| && s[j] == b;
      var t, t' := SwapSeen(s, if i < j then i else j, if i < j then j else i, key);
    }
  }

  // ----------------------------------------------------------------- the ranker

  /** `rank_candidates`. */
  function Rank(products: seq<Product>, preferredPack: Option<string>, preferredIds: set<string>): seq<Candidate> {
    Sort(Purchasable(products), KeyOf(preferredPack, preferredIds))
  }

  /** `propose_substitute`'s pick. */
  function Substitute(products: seq<Product>, preferredPack: Option<string>): Option<Candidate> {
    var ranked := Rank(products, preferredPack, {});
    if ranked == [] then None else Some(ranked[0])
  }

  ghost predicate DistinctVariants(s: seq<Candidate>) {
    forall a, b | a in s && b in s && a.variant.spinId == b.variant.spinId :: a == b
  }

  /** Results that name every variant once rank the same, and substitute the same, in any order. */
  lemma {:induction false} RankingIgnoresSearchOrder(products: seq<Product>, others: seq<Product>, preferredPack: Option<string>,
                                  preferredIds: set<string>)
    requires multiset(Purchasable(products)) == multiset(Purchasable(others))
    requires DistinctVariants(Purchasable(products))
    ensures Rank(products, preferredPack, preferredIds) == Rank(others, preferredPack, preferredIds)
    ensures Substitute(products, preferredPack) == Substitute(others, preferredPack)
  {
    OrderInvisible(Purchasable(products), Purchasable(others), KeyOf(preferredPack, preferredIds));
    OrderInvisible(Purchasable(products), Purchasable(others), KeyOf(preferredPack, {}));
  }

  /** A substitute is proposed exactly when something can be bought, and nothing buyable ranks above it. */
  lemma {:induction false} SubstituteIsTheClosest(products: seq<Product>, preferredPack: Option<string>)
    ensures Substitute(products, preferredPack).None? <==> forall c :: !Buyable(c, products)
    ensures Substitute(products, preferredPack).Some? ==>
      var best, key := Substitute(products, preferredPack).value, KeyOf(preferredPack, {});
      Buyable(best, products) && forall c | Buyable(c, products) :: !key(c).Below(key(best))
  {
    var all, key := Purchasable(products), KeyOf(preferredPack, {});
    var ranked := Sort(all, key);
    SortIsStable(all, key);
    forall c ensures Buyable(c, products) <==> c in ranked {
      PurchasableMembers(products, c);
      assert c in multiset(ranked) <==> c in multiset(all);
    }
    if ranked != [] {
      assert ranked[0] in ranked;
      forall c | c in ranked ensures !key(c).Below(key(ranked[0])) {
        var i :| 0 <= i < |ranked| && ranked[i] == c;
        KeysAreTotallyOrdered(key(c), key(c), key(c));
      }
    }
  }

  // ----------------------------------------------- what the ranking puts ahead of what

  /** Which of two strings comes first is decided where they first differ, or by which one ends there. */
  lemma {:induction false} BeforeAtFirstDifference(a: string, b: string, n: nat)
    requires n <= |a| && n < |b| && a[..n] == b[..n] && (n == |a| || a[n] < b[n])
    ensures Before(a, b) && !Before(b, a)
  {
    if n > 0 {
      assert a[0] == a[..n][0] && b[0] == b[..n][0];
      assert a[1..][..n - 1] == a[..n][1..] && b[1..][..n - 1] == b[..n][1..];
      BeforeAtFirstDifference(a[1..], b[1..], n - 1);
    }
  }

  /** A pack size, if it is given and can be read. */
  function Told(size: Option<string>): Option<Amount> {
    if size.None? then None else ParsePackSize(size.value)
  }

  /** Both packs are told, in the same base unit. */
  predicate Comparable(want: Option<Amount>, got: Option<Amount>) {
    want.Some? && got.Some? && want.value.base == got.value.base
  }

  /** How far apart they are, either way. */
  function Gap(want: Option<Amount>, got: Option<Amount>): (gap: real)
    requires Comparable(want, got)
    ensures gap >= 0.0
  {
    if want.value.quantity <= got.value.quantity then got.value.quantity - want.value.quantity
    else want.value.quantity - got.value.quantity
  }

  /** `b` does not go ahead of `a`: bought before, comparable packs, the closest, the cheapest, the lesser variant. */
  ghost predicate NotAhead(preferredPack: Option<string>, preferredIds: set<string>, a: Candidate, b: Candidate) {
    NotAheadBySize(Told(preferredPack), Told(a.variant.packSize), Told(b.variant.packSize), preferredIds, a, b)
  }

  ghost predicate NotAheadBySize(want: Option<Amount>, size: Option<Amount>, size': Option<Amount>,
                                 preferredIds: set<string>, a: Candidate, b: Candidate)
  {
    var known, known' := a.variant.spinId in preferredIds, b.variant.spinId in preferredIds;
    var told, told' := Comparable(want, size), Comparable(want, size');
    && (known' ==> known)
    && (known == known' ==>
          && (told' ==> told)
          && (told && told' ==> Gap(want, size) <= Gap(want, size'))
          && (told == told' && (told && told' ==> Gap(want, size) == Gap(want, size')) ==>
                a.price < b.price || (a.price == b.price && !Before(b.variant.spinId, a.variant.spinId))))
  }

  lemma {:induction false} DistanceIsGap(preferred: Option<string>, candidate: Option<string>)
    ensures Distance(preferred, candidate)
      == if Comparable(Told(preferred), Told(candidate)) then (0, Gap(Told(preferred), Told(candidate))) else (1, 0.0)
  {
    if preferred.Some? && candidate.Some? {
      var want, got := ParsePackSize(preferred.value), ParsePackSize(candidate.value);
      assert Told(preferred) == want && Told(candidate) == got;
      assert Distance(preferred, candidate) == Between(want, got);
    }
  }

  lemma {:induction false} NotBelowNotAhead(preferredPack: Option<string>, preferredIds: set<string>, a: Candidate,
                                            b: Candidate)
    requires !KeyOf(preferredPack, preferredIds)(b).Below(KeyOf(preferredPack, preferredIds)(a))
    ensures NotAhead(preferredPack, preferredIds, a, b)
  {
    DistanceIsGap(preferredPack, a.variant.packSize);
    DistanceIsGap(preferredPack, b.variant.packSize);
  }

  /** The ranking holds what can be bought, each as often as it was found, and puts nothing behind what it should
      go ahead of. */
  lemma {:induction false} RankedAhead(products: seq<Product>, preferredPack: Option<string>, preferredIds: set<string>)
    ensures multiset(Rank(products, preferredPack, preferredIds)) == multiset(Purchasable(products))
    ensures forall i, j | 0 <= i < j < |Rank(products, preferredPack, preferredIds)| ::
      var ranked := Rank(products, preferredPack, preferredIds);
      NotAhead(preferredPack, preferredIds, ranked[i], ranked[j])
  {
    var key, ranked := KeyOf(preferredPack, preferredIds), Rank(products, preferredPack, preferredIds);
    SortIsStable(Purchasable(products), key);
    forall i, j | 0 <= i < j < |ranked| ensures NotAhead(preferredPack, preferredIds, ranked[i], ranked[j]) {
      NotBelowNotAhead(preferredPack, preferredIds, ranked[i], ranked[j]);
    }
  }

  /** The substitute is the one nothing that can be bought goes ahead of. */
  lemma {:induction false} SubstituteIsAheadOfAll(products: seq<Product>, preferredPack: Option<string>, c: Candidate)
    requires Buyable(c, products)
    ensures Substitute(products, preferredPack).Some?
    ensures Buyable(Substitute(products, preferredPack).value, products)
    ensures NotAhead(preferredPack, {}, Substitute(products, preferredPack).value, c)
  {
    SubstituteIsTheClosest(products, preferredPack);
    NotBelowNotAhead(preferredPack, {}, Substitute(products, preferredPack).value, c);
  }

  /** With no pack preferred it is the cheapest, and of the cheapest the least by variant. */
  lemma {:induction false} SubstituteIsTheCheapest(products: seq<Product>, c: Candidate)
    requires Buyable(c, products)
    ensures Substitute(products, None).Some?
    ensures var best := Substitute(products, None).value;
      best.price < c.price || (best.price == c.price && !Before(c.variant.spinId, best.variant.spinId))
  {
    SubstituteIsAheadOfAll(products, None, c);
  }
}
