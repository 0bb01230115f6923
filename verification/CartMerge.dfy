/** `_merge` of app/cart/service.py: the union every cart write is built from. */
module CartMerge {
  import opened Collections

  /** `CartItemInput` and `CartItemRequest` both constrain a quantity to be positive. */
  type Quantity = q: int | 0 < q witness 1

  datatype Line = Line(spinId: string, quantity: Quantity)

  function Ids(lines: seq<Line>): seq<string> {
    seq(|lines|, i requires 0 <= i < |lines| => lines[i].spinId)
  }

  /** What a dictionary comprehension over `lines` holds at `id`: the last line wins. */
  function Baseline(lines: seq<Line>, id: string): nat {
    if lines == [] then 0 else
      var last := lines[|lines| - 1];
      if last.spinId == id then last.quantity else Baseline(lines[..|lines| - 1], id)
  }

  /** How many of `id` the lines ask for altogether. */
  function Total(lines: seq<Line>, id: string): nat {
    if lines == [] then 0 else
      var last := lines[|lines| - 1];
      Total(lines[..|lines| - 1], id) + (if last.spinId == id then last.quantity else 0)
  }

  /** A line is positive, so a quantity is zero exactly when the id is absent. */
  lemma {:induction false} PresentIffPositive(lines: seq<Line>, id: string)
    ensures Baseline(lines, id) > 0 <==> id in Ids(lines)
    ensures Total(lines, id) > 0 <==> id in Ids(lines)
  {
    if lines != [] {
      var init, last := lines[..|lines| - 1], lines[|lines| - 1];
      PresentIffPositive(init, id);
      assert Ids(lines) == Ids(init) + [last.spinId];
    }
  }

  lemma {:induction false} MergedIdsPositive(existing: seq<Line>, additions: seq<Line>, id: string)
    requires id in FirstSeen(Ids(existing) + Ids(additions))
    ensures Baseline(existing, id) + Total(additions, id) > 0
  {
    FirstSeenMembers(Ids(existing) + Ids(additions));
    PresentIffPositive(existing, id);
    PresentIffPositive(additions, id);
  }

  /** The reference: existing lines first and in order, then the new ids in request
      order; every id holds its baseline plus everything the request adds. */
  function Merged(existing: seq<Line>, additions: seq<Line>): seq<Line> {
    var keys := FirstSeen(Ids(existing) + Ids(additions));
    seq(|keys|, i requires 0 <= i < |keys| =>
      MergedIdsPositive(existing, additions, keys[i]);
      Line(keys[i], Baseline(existing, keys[i]) + Total(additions, keys[i])))
  }

  lemma {:induction false} MergedReading(existing: seq<Line>, additions: seq<Line>)
    ensures Ids(Merged(existing, additions)) == FirstSeen(Ids(existing) + Ids(additions))
    ensures forall i | 0 <= i < |Merged(existing, additions)| ::
      var line := Merged(existing, additions)[i];
      line.quantity == Baseline(existing, line.spinId) + Total(additions, line.spinId)
  {
  }

  /** The lines of a merge stand in the order in which their ids first come up, in the cart and then in the request. */
  lemma {:induction false} MergeKeepsOrder(existing: seq<Line>, additions: seq<Line>, i: nat, j: nat) returns (p: nat)
    requires i < j < |Merged(existing, additions)|
    ensures p < |existing + additions| && (existing + additions)[p].spinId == Merged(existing, additions)[i].spinId
    ensures forall q | 0 <= q <= p :: (existing + additions)[q].spinId != Merged(existing, additions)[j].spinId
  {
    var ids := Ids(existing) + Ids(additions);
    p := FirstSeenInOrder(ids, i, j);
    assert Ids(existing + additions) == ids;
    forall q | 0 <= q <= p ensures (existing + additions)[q].spinId != FirstSeen(ids)[j] {
      assert ids[..p + 1][q] == ids[q] == Ids(existing + additions)[q];
    }
    assert ids[p] == Ids(existing + additions)[p];
  }

  /** The dictionary `_merge` has built once it has read `existing` and applied `additions`. */
  ghost predicate Holds(d: Dict<string, Quantity>, existing: seq<Line>, additions: seq<Line>) {
    && d.Valid()
    && d.keys == FirstSeen(Ids(existing) + Ids(additions))
    && forall k | k in d.at :: d.at[k] == Baseline(existing, k) + Total(additions, k)
  }

  lemma {:induction false} HoldsAfterLine(d: Dict<string, Quantity>, existing: seq<Line>, line: Line)
    requires Holds(d, existing, [])
    ensures Holds(d.Put(line.spinId, line.quantity), existing + [line], [])
  {
    var d' := d.Put(line.spinId, line.quantity);
    FirstSeenMembers(Ids(existing));
    assert d'.keys == FirstSeen(Ids(existing + [line]) + Ids([])) by {
      FirstSeenSnoc(Ids(existing), line.spinId);
      assert Ids(existing) + Ids([]) == Ids(existing);
      assert Ids(existing + [line]) + Ids([]) == Ids(existing) + [line.spinId];
    }
    forall k | k in d'.at ensures d'.at[k] == Baseline(existing + [line], k) + Total([], k) {
      BaselineSnoc(existing, line, k);
    }
  }

  function Held(d: Dict<string, Quantity>, id: string): nat {
    if id in d.at then d.at[id] else 0
  }

  /** The dictionary holds of every id what the lines say, also of one that is absent. */
  lemma {:induction false} HeldIsSum(d: Dict<string, Quantity>, existing: seq<Line>, additions: seq<Line>, id: string)
    requires Holds(d, existing, additions)
    ensures Held(d, id) == Baseline(existing, id) + Total(additions, id)
  {
    FirstSeenMembers(Ids(existing) + Ids(additions));
    PresentIffPositive(existing, id);
    PresentIffPositive(additions, id);
  }

  lemma {:induction false} KeysAfterAddition(d: Dict<string, Quantity>, existing: seq<Line>, additions: seq<Line>, line: Line, q: Quantity)
    requires Holds(d, existing, additions)
    ensures d.Put(line.spinId, q).keys == FirstSeen(Ids(existing) + Ids(additions + [line]))
    ensures d.Put(line.spinId, q).Valid()
  {
    FirstSeenMembers(Ids(existing) + Ids(additions));
    FirstSeenSnoc(Ids(existing) + Ids(additions), line.spinId);
    assert Ids(existing) + Ids(additions + [line]) == Ids(existing) + Ids(additions) + [line.spinId];
    d.PutValid(line.spinId, q);
  }

  lemma {:induction false} HoldsAfterAddition(d: Dict<string, Quantity>, existing: seq<Line>, additions: seq<Line>, line: Line)
    requires Holds(d, existing, additions)
    ensures Holds(d.Put(line.spinId, Held(d, line.spinId) + line.quantity), existing, additions + [line])
  {
    KeysAfterAddition(d, existing, additions, line, Held(d, line.spinId) + line.quantity);
    ValuesAfterAddition(d, existing, additions, line);
  }

  lemma {:induction false} ValuesAfterAddition(d: Dict<string, Quantity>, existing: seq<Line>, additions: seq<Line>,
                                               line: Line)
    requires Holds(d, existing, additions)
    ensures var d' := d.Put(line.spinId, Held(d, line.spinId) + line.quantity);
      forall k | k in d'.at :: d'.at[k] == Baseline(existing, k) + Total(additions + [line], k)
  {
    HeldIsSum(d, existing, additions, line.spinId);
    forall k ensures Total(additions + [line], k) == Total(additions, k) + if line.spinId == k then line.quantity else 0 {
      TotalSnoc(additions, line, k);
    }
  }

  function LinesOf(d: Dict<string, Quantity>): (r: seq<Line>)
    requires d.Valid()
  {
    seq(|d.keys|, i requires 0 <= i < |d.keys| => Line(d.keys[i], d.at[d.keys[i]]))
  }

  lemma {:induction false} HoldsIsMerged(d: Dict<string, Quantity>, existing: seq<Line>, additions: seq<Line>)
    requires Holds(d, existing, additions)
    ensures LinesOf(d) == Merged(existing, additions)
  {
    assert Ids(LinesOf(d)) == d.keys;
    MergedLines(existing, additions, LinesOf(d));
  }

  /** One pass of the loop over the additions. */
  lemma {:induction false} HoldsAfterPass(d: Dict<string, Quantity>, existing: seq<Line>, additions: seq<Line>, j: nat)
    requires j < |additions| && Holds(d, existing, additions[..j])
    ensures Holds(d.Put(additions[j].spinId, Held(d, additions[j].spinId) + additions[j].quantity),
                  existing, additions[..j + 1])
  {
    HoldsAfterAddition(d, existing, additions[..j], additions[j]);
    assert additions[..j + 1] == additions[..j] + [additions[j]];
  }

  method AddAll(d: Dict<string, Quantity>, ghost existing: seq<Line>, additions: seq<Line>)
    returns (quantities: Dict<string, Quantity>)
    requires Holds(d, existing, [])
    ensures Holds(quantities, existing, additions)
  {
    quantities := d;
    for j := 0 to |additions|
      invariant Holds(quantities, existing, additions[..j])
    {
      HoldsAfterPass(quantities, existing, additions, j);
      var id := additions[j].spinId;
      quantities := quantities.Put(id, Held(quantities, id) + additions[j].quantity);
    }
    assert additions[..|additions|] == additions;
  }

  method Merge(existing: seq<Line>, additions: seq<Line>) returns (r: seq<Line>)
    ensures r == Merged(existing, additions)
  {
    var quantities: Dict<string, Quantity> := EmptyDict();
    for i := 0 to |existing|
      invariant Holds(quantities, existing[..i], [])
    {
      HoldsAfterLine(quantities, existing[..i], existing[i]);
      assert existing[..i + 1] == existing[..i] + [existing[i]];
      quantities := quantities.Put(existing[i].spinId, existing[i].quantity);
    }
    assert existing[..|existing|] == existing;
    quantities := AddAll(quantities, existing, additions);
    HoldsIsMerged(quantities, existing, additions);
    r := LinesOf(quantities);
  }

  /** The reference is determined by its ids and its quantities. */
  lemma {:induction false} MergedLines(existing: seq<Line>, additions: seq<Line>, r: seq<Line>)
    requires Ids(r) == FirstSeen(Ids(existing) + Ids(additions))
    requires forall i | 0 <= i < |r| ::
      r[i].quantity == Baseline(existing, r[i].spinId) + Total(additions, r[i].spinId)
    ensures r == Merged(existing, additions)
  {
    var m := Merged(existing, additions);
    MergedReading(existing, additions);
    forall i | 0 <= i < |r| ensures r[i] == m[i] {
      assert Ids(r)[i] == Ids(m)[i];
    }
  }

  lemma {:induction false} IdsSnoc(lines: seq<Line>, line: Line)
    ensures Ids(lines + [line]) == Ids(lines) + [line.spinId]
  {
  }

  lemma {:induction false} BaselineSnoc(lines: seq<Line>, line: Line, id: string)
    ensures Baseline(lines + [line], id) == if line.spinId == id then line.quantity else Baseline(lines, id)
  {
    assert (lines + [line])[..|lines|] == lines;
  }

  lemma {:induction false} TotalSnoc(lines: seq<Line>, line: Line, id: string)
    ensures Total(lines + [line], id) == Total(lines, id) + if line.spinId == id then line.quantity else 0
  {
    assert (lines + [line])[..|lines|] == lines;
  }

  lemma {:induction false} TotalConcat(a: seq<Line>, b: seq<Line>, id: string)
    ensures Total(a + b, id) == Total(a, id) + Total(b, id)
    ensures Ids(a + b) == Ids(a) + Ids(b)
  {
    if b == [] {
      assert a + b == a;
    } else {
      TotalConcat(a, b[..|b| - 1], id);
      assert a + b == (a + b[..|b| - 1]) + [b[|b| - 1]];
      TotalSnoc(a + b[..|b| - 1], b[|b| - 1], id);
      IdsSnoc(a + b[..|b| - 1], b[|b| - 1]);
    }
  }

  /** With distinct ids the two ways of reading a cart agree, line by line. */
  lemma {:induction false} DistinctReading(lines: seq<Line>)
    requires NoDup(Ids(lines))
    ensures forall id :: Baseline(lines, id) == Total(lines, id)
    ensures forall i | 0 <= i < |lines| :: Total(lines, lines[i].spinId) == lines[i].quantity
  {
    if lines != [] {
      var init, last := lines[..|lines| - 1], lines[|lines| - 1];
      assert lines == init + [last];
      assert Ids(init) == Ids(lines)[..|init|] && Ids(lines)[|init|] == last.spinId;
      DistinctReading(init);
      assert last.spinId !in Ids(init);
      PresentIffPositive(init, last.spinId);
      forall id ensures Baseline(lines, id) == Total(lines, id) {
        TotalSnoc(init, last, id);
        BaselineSnoc(init, last, id);
      }
      forall i | 0 <= i < |lines| ensures Total(lines, lines[i].spinId) == lines[i].quantity {
        TotalSnoc(init, last, lines[i].spinId);
        if i < |init| {
          assert init[i] == lines[i] && Ids(init)[i] == lines[i].spinId;
        }
      }
    }
  }

  /** What a merged cart holds of each id: the last existing line plus the additions. */
  lemma {:induction false} MergedTotal(existing: seq<Line>, additions: seq<Line>, id: string)
    ensures NoDup(Ids(Merged(existing, additions)))
    ensures Total(Merged(existing, additions), id) == Baseline(existing, id) + Total(additions, id)
    ensures Baseline(Merged(existing, additions), id) == Baseline(existing, id) + Total(additions, id)
  {
    var r := Merged(existing, additions);
    var keys := Ids(existing) + Ids(additions);
    FirstSeenMembers(keys);
    MergedReading(existing, additions);
    DistinctReading(r);
    PresentIffPositive(r, id);
    if id in Ids(r) {
      var i :| 0 <= i < |r| && Ids(r)[i] == id;
      assert r[i].spinId == id;
    } else {
      PresentIffPositive(existing, id);
      PresentIffPositive(additions, id);
    }
  }

  /** Two carts with the same ids in the same order and the same totals are the same cart. */
  lemma {:induction false} SameCart(a: seq<Line>, b: seq<Line>)
    requires Ids(a) == Ids(b) && NoDup(Ids(a))
    requires forall id :: Total(a, id) == Total(b, id)
    ensures a == b
  {
    DistinctReading(a);
    DistinctReading(b);
    forall i | 0 <= i < |a| ensures a[i] == b[i] {
      assert Ids(a)[i] == Ids(b)[i];
    }
  }

  lemma {:induction false} SameIdsTwice(existing: seq<Line>, first: seq<Line>, second: seq<Line>)
    ensures Ids(Merged(Merged(existing, first), second)) == FirstSeen(Ids(existing) + Ids(first + second))
  {
    MergedReading(existing, first);
    MergedReading(Merged(existing, first), second);
    AbsorbIds(Ids(existing), Ids(first), Ids(second));
    TotalConcat(first, second, "");
  }

  lemma {:induction false} AbsorbIds(a: seq<string>, b: seq<string>, c: seq<string>)
    ensures FirstSeen(FirstSeen(a + b) + c) == FirstSeen(a + (b + c))
  {
    FirstSeenAbsorb(a + b, c);
    assert a + b + c == a + (b + c);
  }

  /** Merging twice is merging the concatenation: a batch may be split anywhere. */
  lemma {:induction false} MergeTwice(existing: seq<Line>, first: seq<Line>, second: seq<Line>)
    ensures Merged(Merged(existing, first), second) == Merged(existing, first + second)
  {
    var once, both := Merged(existing, first), first + second;
    var r := Merged(once, second);
    SameIdsTwice(existing, first, second);
    MergedReading(once, second);
    forall i | 0 <= i < |r|
      ensures r[i].quantity == Baseline(existing, r[i].spinId) + Total(both, r[i].spinId)
    {
      MergedTotal(existing, first, r[i].spinId);
      TotalConcat(first, second, r[i].spinId);
    }
    MergedLines(existing, both, r);
  }

  /** Existing lines keep their order and come first, none is lost and none is lowered. */
  lemma {:induction false} MergeNeverDropsOrLowers(existing: seq<Line>, additions: seq<Line>)
    requires NoDup(Ids(existing))
    ensures Ids(existing) <= Ids(Merged(existing, additions))
    ensures forall i | 0 <= i < |existing| ::
      Merged(existing, additions)[i].quantity
        == existing[i].quantity + Total(additions, existing[i].spinId)
    ensures Merged(existing, []) == existing
  {
    FirstSeenFixed(Ids(existing));
    FirstSeenPrefix(Ids(existing), Ids(additions));
    DistinctReading(existing);
    var r := Merged(existing, additions);
    MergedReading(existing, additions);
    MergedReading(existing, []);
    forall i | 0 <= i < |existing|
      ensures r[i].quantity == existing[i].quantity + Total(additions, existing[i].spinId)
    {
      assert Ids(r)[i] == Ids(existing)[i];
    }
    assert Ids(existing) + Ids([]) == Ids(existing);
    forall id ensures Total(Merged(existing, []), id) == Total(existing, id) {
      MergedTotal(existing, [], id);
    }
    SameCart(Merged(existing, []), existing);
  }

  lemma {:induction false} LastOfManyIsLess(lines: seq<Line>, id: string)
    ensures Baseline(lines, id) <= Total(lines, id)
    ensures (exists i, j | 0 <= i < j < |lines| :: lines[i].spinId == id && lines[j].spinId == id)
      ==> Baseline(lines, id) < Total(lines, id)
  {
    if lines != [] {
      var init, last := lines[..|lines| - 1], lines[|lines| - 1];
      assert lines == init + [last];
      TotalSnoc(init, last, id);
      BaselineSnoc(init, last, id);
      LastOfManyIsLess(init, id);
      if i, j :| 0 <= i < j < |lines| && lines[i].spinId == id && lines[j].spinId == id {
        assert Ids(init)[i] == id;
        PresentIffPositive(init, id);
        if j < |init| {
          assert init[i].spinId == id && init[j].spinId == id;
        }
      }
    }
  }

  /** A merge conserves what the cart and the request hold between them exactly when the
      cart that was read names no id twice: `_merge` lets the last duplicate line win. */
  lemma {:induction false} MergeConservesExactlyDistinctCarts(existing: seq<Line>, additions: seq<Line>)
    ensures (forall id :: Total(Merged(existing, additions), id) == Total(existing, id) + Total(additions, id))
      <==> NoDup(Ids(existing))
  {
    forall id ensures Total(Merged(existing, additions), id) == Baseline(existing, id) + Total(additions, id) {
      MergedTotal(existing, additions, id);
    }
    if NoDup(Ids(existing)) {
      DistinctReading(existing);
    } else {
      var i, j :| 0 <= i < j < |existing| && Ids(existing)[i] == Ids(existing)[j];
      var id := Ids(existing)[i];
      assert existing[i].spinId == id && existing[j].spinId == id;
      LastOfManyIsLess(existing, id);
      assert Total(Merged(existing, additions), id) < Total(existing, id) + Total(additions, id);
    }
  }

  /** A merge lowers no line, whatever it adds, exactly for a cart that names no id twice. */
  lemma {:induction false} MergeLowersNothingExactlyFromDistinctCarts(existing: seq<Line>)
    ensures (forall additions, id | additions != [] :: Total(Merged(existing, additions), id) >= Total(existing, id))
      <==> NoDup(Ids(existing))
  {
    if NoDup(Ids(existing)) {
      DistinctReading(existing);
      forall additions, id | additions != [] ensures Total(Merged(existing, additions), id) >= Total(existing, id) {
        MergedTotal(existing, additions, id);
      }
    } else {
      var additions, id := MergeThatLowers(existing);
    }
  }

  /** Adding anything else lowers a line the cart names twice. */
  lemma {:induction false} MergeThatLowers(existing: seq<Line>) returns (additions: seq<Line>, id: string)
    requires !NoDup(Ids(existing))
    ensures additions != [] && Total(Merged(existing, additions), id) < Total(existing, id)
  {
    var i, j :| 0 <= i < j < |existing| && Ids(existing)[i] == Ids(existing)[j];
    id := Ids(existing)[i];
    assert existing[i].spinId == id && existing[j].spinId == id;
    var other := Line(id + "+", 1);
    additions := [other];
    assert |other.spinId| != |id|;
    TotalSnoc([], other, id);
    assert [] + [other] == additions;
    LastOfManyIsLess(existing, id);
    MergedTotal(existing, additions, id);
  }

  /** What writing some additions makes of a cart; nothing is written if there are none. */
  function Onto(existing: seq<Line>, additions: seq<Line>): seq<Line> {
    if additions == [] then existing else Merged(existing, additions)
  }

  lemma {:induction false} OntoTwice(existing: seq<Line>, first: seq<Line>, second: seq<Line>)
    ensures Onto(Onto(existing, first), second) == Onto(existing, first + second)
  {
    MergeTwice(existing, first, second);
    if first == [] {
      assert first + second == second;
    } else if second == [] {
      assert first + second == first;
    }
  }

  /** A duplicated baseline line: the cart reads two and three, the merge keeps three. */
  lemma {:induction false} MergeForgetsADuplicate()
    ensures Total([Line("a", 2), Line("a", 3)], "a") == 5
    ensures Total(Merged([Line("a", 2), Line("a", 3)], []), "a") == 3
  {
    var twice := [Line("a", 2), Line("a", 3)];
    TotalSnoc([], twice[0], "a");
    TotalSnoc([twice[0]], twice[1], "a");
    BaselineSnoc([twice[0]], twice[1], "a");
    assert [twice[0]] + [twice[1]] == twice && [] + [twice[0]] == [twice[0]];
    MergedTotal(twice, [], "a");
  }
}
