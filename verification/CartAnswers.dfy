/** What a finished cart operation's answer is worth, and exactly when a review of Swiggy's makes it
    worth less: the one error after which the write has happened. */
module CartAnswers {
  import opened Collections
  import opened CartMerge
  import opened CartOps
  import opened CartGuarantees

  // --------------------------------------------------- writes against the cart

  /** Until its first write an operation holds the cart it read, and the server still has it. */
  ghost predicate Unwritten(op: Op, before: seq<Line>, c: Config) {
    && (c.pc.Reading? ==> c.cart == before)
    && (FirstWriteNext(c.pc) ==> c.cart == before && Fits(op, Reading) && c.pc == AfterRead(op, before))
  }

  /** The points from which an operation first writes are reached by its read alone. */
  predicate FirstWriteNext(pc: Pc) {
    pc.AddBatch? || pc.SetWrite? || pc.RemoveWrite? || pc.ComposeWrite?
  }

  lemma {:induction false} OnlyAfterReading(op: Op, pc: Pc, answer: Answer)
    requires Fits(op, pc) && !pc.Done? && !pc.Reading?
    ensures !After(op, pc, answer).Reading? && !FirstWriteNext(After(op, pc, answer))
  {
  }

  lemma {:induction false} UnwrittenStep(op: Op, before: seq<Line>, c: Config, o: Outcome)
    requires WellFormed(op) && Fits(op, c.pc) && Unwritten(op, before, c)
    ensures Unwritten(op, before, Step(op, c, o))
  {
    if !c.pc.Done? && !c.pc.Reading? {
      OnlyAfterReading(op, c.pc, Serve(NextCall(op, c.pc), c.cart, o).1);
    }
  }

  lemma {:induction false} FirstWrite(op: Op, before: seq<Line>, outs: seq<Outcome>)
    requires WellFormed(op)
    ensures Unwritten(op, before, Exec(op, before, outs))
  {
    if outs != [] {
      FirstWrite(op, before, outs[..|outs| - 1]);
      UnwrittenStep(op, before, Exec(op, before, outs[..|outs| - 1]), outs[|outs| - 1]);
    }
  }

  // --------------------------------------------------- what an answer is worth

  /** An item that was set is added and in the cart, dropped and not in it, or refused and the cart as it was. */
  ghost predicate ReportedOnce(item: Line, added: seq<Line>, rejected: seq<Rejected>, before: seq<Line>,
                               cart: seq<Line>) {
    || (added == [item] && rejected == [] && item.spinId in Ids(cart))
    || (added == [] && rejected == [Rejected(item, DroppedBySwiggy)] && item.spinId !in Ids(cart))
    || (added == [] && rejected == [Rejected(item, RefusedBySwiggy)] && cart == before)
  }

  /** A finished set, remove, clear or compose, by how Swiggy met its write: the cart it answers with is the
      server's, and what that holds. */
  ghost predicate Honest(op: Op, before: seq<Line>, result: Result, cart: seq<Line>, outs: seq<Outcome>) {
    match result
    case Raised => true
    case NotFound => (op.SetQuantity? || op.Remove?) && op.spinId !in Ids(before) && cart == before
    case Mutated(shown, added, rejected) =>
      match op
      case Add(_) => true
      case SetQuantity(id, quantity) =>
        && shown == cart && id in Ids(before) && |outs| >= 2
        && SetMet(Line(id, quantity), before, added, rejected, cart, outs[1])
      case Remove(id) =>
        && shown == cart && added == [] && rejected == [] && id in Ids(before) && id !in Ids(cart)
        && if Without(before, id) == [] then cart == []
           else |outs| >= 2 && outs[1].Accept? && cart == Kept(Without(before, id), outs[1].drops)
      case Clear => shown == cart == [] && added == [] && rejected == []
      case Compose(purchasable) =>
        && shown == cart && added == [] && rejected == []
        && if purchasable == [] then cart == before
           else |outs| >= 2 && ComposeMet(purchasable, before, cart, outs[1])
  }

  ghost predicate SetMet(item: Line, before: seq<Line>, added: seq<Line>, rejected: seq<Rejected>, cart: seq<Line>,
                         o: Outcome) {
    match o
    case Accept(drops) =>
      && cart == Kept(WithQuantity(before, item.spinId, item.quantity), drops)
      && ReportedOnce(item, added, rejected, before, cart)
      && (rejected == [] || rejected == [Rejected(item, DroppedBySwiggy)])
    case Refuse => added == [] && rejected == [Rejected(item, RefusedBySwiggy)] && cart == before
    case Review(adjusted) => added == [] && rejected == [Rejected(item, RefusedBySwiggy)] && cart == adjusted
    case Fail(_, _) => false
  }

  ghost predicate ComposeMet(purchasable: seq<Line>, before: seq<Line>, cart: seq<Line>, o: Outcome) {
    match o
    case Accept(drops) => cart == Kept(Merged(before, purchasable), drops)
    case Review(adjusted) => cart == adjusted
    case _ => false
  }

  ghost predicate Midway(op: Op, before: seq<Line>, c: Config, outs: seq<Outcome>) {
    match c.pc
    case Reading => outs == []
    case SetWrite(_) => |outs| == 1
    case RemoveWrite(_) => |outs| == 1
    case ComposeWrite(_) => |outs| == 1
    case SetReadBack =>
      |outs| == 2 && ((outs[1].Refuse? && c.cart == before) || (outs[1].Review? && c.cart == outs[1].adjusted))
      && op.SetQuantity? && op.spinId in Ids(before)
    case Clearing => op.Remove? ==> Without(before, op.spinId) == [] && op.spinId in Ids(before)
    case FinalRead =>
      && (op.Clear? || op.Remove? ==> c.cart == [])
      && (op.Remove? ==> Without(before, op.spinId) == [] && op.spinId in Ids(before))
      && (op.Compose? ==> if op.purchasable == [] then c.cart == before
                          else |outs| == 2 && outs[1].Review? && c.cart == outs[1].adjusted)
    case Done(result) => Honest(op, before, result, c.cart, outs)
    case _ => true
  }

  lemma {:induction false} OneVerdict(item: Line, before: seq<Line>, cart: seq<Line>)
    ensures var r := FinishSet(item, cart);
      r.Mutated? && r.cart == cart && ReportedOnce(item, r.added, r.rejected, before, cart)
      && (r.rejected == [] || r.rejected == [Rejected(item, DroppedBySwiggy)])
  {
    DroppedOfOne(item, cart);
  }

  lemma {:induction false} DroppedOfOne(item: Line, cart: seq<Line>)
    ensures Dropped(cart, [item], []) == if item.spinId in Ids(cart) then [] else [item]
  {
    FilterSnoc([], item, Unaccounted(Ids(cart), []));
    assert [] + [item] == [item];
  }

  lemma {:induction false} SetStep(op: Op, before: seq<Line>, c: Config, outs: seq<Outcome>, o: Outcome)
    requires op.SetQuantity? && Fits(op, c.pc) && Unwritten(op, before, c) && Midway(op, before, c, outs)
    ensures Midway(op, before, Step(op, c, o), outs + [o])
  {
    if c.pc.SetWrite? && o.Accept? {
      OneVerdict(Line(op.spinId, op.quantity), before, Kept(c.pc.lines, o.drops));
    }
  }

  lemma {:induction false} WithoutMisses(lines: seq<Line>, id: string, drops: set<string>)
    ensures id !in Ids(Kept(Without(lines, id), drops))
  {
    FilterMembers(lines, Outside({id}));
    FilterMembers(Without(lines, id), Outside(drops));
    var kept := Kept(Without(lines, id), drops);
    forall i | 0 <= i < |kept| ensures Ids(kept)[i] != id {
      assert kept[i] in kept;
    }
  }

  lemma {:induction false} RemoveStep(op: Op, before: seq<Line>, c: Config, outs: seq<Outcome>, o: Outcome)
    requires op.Remove? && Fits(op, c.pc) && Unwritten(op, before, c) && Midway(op, before, c, outs)
    ensures Midway(op, before, Step(op, c, o), outs + [o])
  {
    if c.pc.RemoveWrite? && o.Accept? {
      WithoutMisses(before, op.spinId, o.drops);
    }
  }

  lemma {:induction false} ComposeStep(op: Op, before: seq<Line>, c: Config, outs: seq<Outcome>, o: Outcome)
    requires op.Compose? && Fits(op, c.pc) && Unwritten(op, before, c) && Midway(op, before, c, outs)
    ensures Midway(op, before, Step(op, c, o), outs + [o])
  {
    match c.pc
    case ComposeWrite(_) => ComposeWriteStep(op, before, c, outs, o);
    case Done(_) => assert outs != [] ==> (outs + [o])[..|outs|] == outs;
    case _ =>
  }

  lemma {:induction false} ComposeWriteStep(op: Op, before: seq<Line>, c: Config, outs: seq<Outcome>, o: Outcome)
    requires op.Compose? && c.pc.ComposeWrite? && Fits(op, c.pc) && Unwritten(op, before, c) && |outs| == 1
    ensures Midway(op, before, Step(op, c, o), outs + [o])
  {
    assert (outs + [o])[1] == o;
  }

  lemma {:induction false} MidwayStep(op: Op, before: seq<Line>, c: Config, outs: seq<Outcome>, o: Outcome)
    requires WellFormed(op) && !op.Add? && Fits(op, c.pc) && Unwritten(op, before, c) && Midway(op, before, c, outs)
    ensures Midway(op, before, Step(op, c, o), outs + [o])
  {
    match op
    case SetQuantity(_, _) => SetStep(op, before, c, outs, o);
    case Remove(_) => RemoveStep(op, before, c, outs, o);
    case Compose(_) => ComposeStep(op, before, c, outs, o);
    case Clear =>
  }

  lemma {:induction false} MidwayAlways(op: Op, before: seq<Line>, outs: seq<Outcome>)
    requires WellFormed(op) && !op.Add?
    ensures Midway(op, before, Exec(op, before, outs), outs)
  {
    if outs != [] {
      var earlier, o := outs[..|outs| - 1], outs[|outs| - 1];
      MidwayAlways(op, before, earlier);
      FirstWrite(op, before, earlier);
      assert outs == earlier + [o];
      MidwayStep(op, before, Exec(op, before, earlier), earlier, o);
    }
  }

  /** What a finished set, remove, clear or compose is worth, whatever Swiggy did: its cart is the server's;
      a set's item is added and there, dropped and not there, or refused; a removed line is gone and no other
      but dropped ones; a cleared cart is empty; a compose leaves the merge less silent drops, or, after a
      review, Swiggy's own cart. */
  lemma {:induction false} EveryAnswerIsHonest(op: Op, before: seq<Line>, outs: seq<Outcome>)
    requires WellFormed(op) && !op.Add? && Exec(op, before, outs).pc.Done?
    ensures var c := Exec(op, before, outs); Honest(op, before, c.pc.result, c.cart, outs)
  {
    MidwayAlways(op, before, outs);
  }

  // ----------------------------------------------------------- reviews, exactly

  /** Scripts that differ at most in the carts Swiggy writes when it asks for a review. */
  ghost predicate Alike(outs: seq<Outcome>, outs': seq<Outcome>) {
    |outs| == |outs'| && forall i | 0 <= i < |outs| :: AlikeOne(outs[i], outs'[i])
  }

  predicate AlikeOne(o: Outcome, o': Outcome) {
    o == o' || (o.Review? && o'.Review?)
  }

  ghost predicate SamePlace(p: Pc, q: Pc) {
    p == q || (p.Done? && q.Done? && p.result.Mutated? && q.result.Mutated?)
  }

  lemma {:induction false} AlikeStep(op: Op, before: seq<Line>, c: Config, c': Config, o: Outcome, o': Outcome)
    requires WellFormed(op) && Fits(op, c.pc) && Fits(op, c'.pc)
    requires Unwritten(op, before, c) && Unwritten(op, before, c') && SamePlace(c.pc, c'.pc) && AlikeOne(o, o')
    ensures SamePlace(Step(op, c, o).pc, Step(op, c', o').pc)
  {
  }

  /** What Swiggy puts in a reviewed cart does not change where an operation goes. */
  lemma {:induction false} AlikeRuns(op: Op, before: seq<Line>, outs: seq<Outcome>, outs': seq<Outcome>)
    requires WellFormed(op) && Alike(outs, outs')
    ensures SamePlace(Exec(op, before, outs).pc, Exec(op, before, outs').pc)
  {
    if outs != [] {
      var n := |outs| - 1;
      assert forall i | 0 <= i < n :: outs[..n][i] == outs[i] && outs'[..n][i] == outs'[i];
      AlikeRuns(op, before, outs[..n], outs'[..n]);
      FirstWrite(op, before, outs[..n]);
      FirstWrite(op, before, outs'[..n]);
      AlikeStep(op, before, Exec(op, before, outs[..n]), Exec(op, before, outs'[..n]), outs[n], outs'[n]);
    }
  }

  /** The script with every reviewed cart replaced. */
  function Rewritten(outs: seq<Outcome>, adjusted: seq<Line>): (r: seq<Outcome>)
    ensures |r| == |outs|
  {
    seq(|outs|, i requires 0 <= i < |outs| => if outs[i].Review? then Review(adjusted) else outs[i])
  }

  lemma {:induction false} RewrittenAlike(outs: seq<Outcome>, adjusted: seq<Line>)
    ensures Alike(outs, Rewritten(outs, adjusted))
  {
  }

  lemma {:induction false} AlikeReviewed(writes: seq<Outcome>, writes': seq<Outcome>)
    requires Alike(writes, writes')
    ensures Reviewed(writes).Some? == Reviewed(writes').Some?
  {
    if writes != [] {
      var n := |writes| - 1;
      assert forall i | 0 <= i < n :: writes[..n][i] == writes[i] && writes'[..n][i] == writes'[i];
      assert AlikeOne(writes[n], writes'[n]);
      AlikeReviewed(writes[..n], writes'[..n]);
    }
  }

  lemma {:induction false} RewrittenReviewed(writes: seq<Outcome>, adjusted: seq<Line>)
    ensures Reviewed(Rewritten(writes, adjusted)) == if Reviewed(writes).Some? then Some(adjusted) else None
  {
    if writes != [] {
      var n := |writes| - 1;
      assert Rewritten(writes, adjusted)[..n] == Rewritten(writes[..n], adjusted);
      RewrittenReviewed(writes[..n], adjusted);
    }
  }

  lemma {:induction false} AlikeWrites(items: seq<Line>, outs: seq<Outcome>, outs': seq<Outcome>)
    requires Alike(outs, outs') && |outs| >= 2
    ensures Alike(Writes(items, outs), Writes(items, outs')) && Sorting(items, outs) == Sorting(items, outs')
  {
    assert AlikeOne(outs[1], outs'[1]);
    forall i | 0 <= i < |outs| ensures outs[i].Accept? <==> outs'[i].Accept? {
      assert AlikeOne(outs[i], outs'[i]);
    }
  }

  lemma {:induction false} RewrittenWrites(items: seq<Line>, outs: seq<Outcome>, adjusted: seq<Line>)
    requires |outs| >= 2
    ensures Writes(items, Rewritten(outs, adjusted)) == Rewritten(Writes(items, outs), adjusted)
  {
  }

  /** What is reported added is in the cart, with what it held and all that was asked for; what is reported
      dropped is not. */
  ghost predicate ReportsTheCart(items: seq<Line>, before: seq<Line>, result: Result, cart: seq<Line>)
    requires result.Mutated?
  {
    && (forall item | item in result.added ::
          item.spinId in Ids(cart) && Total(cart, item.spinId) == Baseline(before, item.spinId) + Total(items, item.spinId))
    && (forall r | r in result.rejected && r.reason.DroppedBySwiggy? :: r.item.spinId !in Ids(cart))
  }

  lemma {:induction false} SplitTotalSnoc(items: seq<Line>, verdicts: seq<bool>, item: Line, verdict: bool, wanted: bool,
                                          id: string)
    requires |verdicts| == |items|
    ensures Total(Split(items + [item], verdicts + [verdict], wanted), id)
      == Total(Split(items, verdicts, wanted), id) + if verdict == wanted && item.spinId == id then item.quantity else 0
  {
    SplitSnoc(items, verdicts, item, verdict, wanted);
    TotalSnoc(Split(items, verdicts, wanted), item, id);
  }

  lemma {:induction false} SplitTotal(items: seq<Line>, verdicts: seq<bool>, id: string)
    requires |verdicts| == |items|
    ensures Total(items, id) == Total(Split(items, verdicts, true), id) + Total(Split(items, verdicts, false), id)
  {
    if items != [] {
      var n := |items| - 1;
      var init, last, before, v := items[..n], items[n], verdicts[..n], verdicts[n];
      SplitTotal(init, before, id);
      assert items == init + [last] && verdicts == before + [v];
      TotalSnoc(init, last, id);
      SplitTotalSnoc(init, before, last, v, true, id);
      SplitTotalSnoc(init, before, last, v, false, id);
    }
  }

  /** An item reported added was asked for, not refused, and is in the cart. */
  lemma {:induction false} AddedIsThere(items: seq<Line>, cart: seq<Line>, refused: seq<Line>, item: Line)
    requires item in FinishAdd(items, cart, refused).added
    ensures item in items && item.spinId !in Ids(refused) && item.spinId in Ids(cart)
  {
    var dropped := Dropped(cart, items, Ids(refused));
    var rejected := Because(refused, RefusedBySwiggy) + Because(dropped, DroppedBySwiggy);
    RejectedItems(refused, dropped);
    FilterMembers(items, Outside(RejectedIds(rejected)));
    FilterMembers(items, Unaccounted(Ids(cart), Ids(refused)));
    forall k | 0 <= k < |dropped| ensures dropped[k] != item {
      assert Ids(dropped)[k] == dropped[k].spinId;
    }
  }

  lemma {:induction false} AddedExactly(items: seq<Line>, cart: seq<Line>, refused: seq<Line>, item: Line)
    ensures item in FinishAdd(items, cart, refused).added <==>
      item in items && item.spinId !in Ids(refused) && item.spinId in Ids(cart)
  {
    if item in FinishAdd(items, cart, refused).added {
      AddedIsThere(items, cart, refused, item);
    } else {
      var dropped := Dropped(cart, items, Ids(refused));
      var rejected := Because(refused, RefusedBySwiggy) + Because(dropped, DroppedBySwiggy);
      RejectedItems(refused, dropped);
      FilterMembers(items, Outside(RejectedIds(rejected)));
      FilterMembers(items, Unaccounted(Ids(cart), Ids(refused)));
      forall k | 0 <= k < |dropped| ensures dropped[k].spinId !in Ids(cart) {
        assert dropped[k] in dropped;
      }
    }
  }

  /** The report of an add: what was refused, in request order, then what the cart lacks; the rest is added. */
  ghost predicate ReportSorts(items: seq<Line>, refused: seq<Line>, result: Result)
    requires result.Mutated?
  {
    var n := |refused|;
    && n <= |result.rejected|
    && (forall k | 0 <= k < n :: result.rejected[k] == Rejected(refused[k], RefusedBySwiggy))
    && (forall k | n <= k < |result.rejected| :: result.rejected[k].reason == DroppedBySwiggy)
    && (forall item :: Rejected(item, DroppedBySwiggy) in result.rejected <==>
          item in items && item.spinId !in Ids(refused) && item.spinId !in Ids(result.cart))
    && (forall item :: item in result.added <==>
          item in items && item.spinId !in Ids(refused) && item.spinId in Ids(result.cart))
  }

  lemma {:induction false} FinishSorts(items: seq<Line>, cart: seq<Line>, refused: seq<Line>)
    ensures ReportSorts(items, refused, FinishAdd(items, cart, refused))
  {
    var result, dropped := FinishAdd(items, cart, refused), Dropped(cart, items, Ids(refused));
    FilterMembers(items, Unaccounted(Ids(cart), Ids(refused)));
    forall item ensures Rejected(item, DroppedBySwiggy) in result.rejected <==> item in dropped {
      if item in dropped {
        var k :| 0 <= k < |dropped| && dropped[k] == item;
        assert result.rejected[|refused| + k] == Rejected(item, DroppedBySwiggy);
      }
    }
    forall item ensures item in result.added <==>
      item in items && item.spinId !in Ids(refused) && item.spinId in Ids(cart)
    {
      AddedExactly(items, cart, refused, item);
    }
  }

  /** Every item of an add that answers is reported by how its own write was met: refused, or accepted and then
      in the cart the add shows, or not in it. */
  lemma {:induction false} AddReportsEveryItem(items: seq<Line>, before: seq<Line>, outs: seq<Outcome>)
    requires items != []
    requires Exec(Add(items), before, outs).pc.Done? && Exec(Add(items), before, outs).pc.result.Mutated?
    ensures |outs| >= 2
    ensures ReportSorts(items, Split(items, Sorting(items, outs), false), Exec(Add(items), before, outs).pc.result)
  {
    AddInvariant(items, before, outs);
    FinishSorts(items, Exec(Add(items), before, outs).pc.result.cart, Split(items, Sorting(items, outs), false));
  }

  lemma {:induction false} DroppedIsNotThere(items: seq<Line>, cart: seq<Line>, refused: seq<Line>, r: Rejected)
    requires r in FinishAdd(items, cart, refused).rejected && r.reason.DroppedBySwiggy?
    ensures r.item.spinId !in Ids(cart)
  {
    var dropped := Dropped(cart, items, Ids(refused));
    FilterMembers(items, Unaccounted(Ids(cart), Ids(refused)));
    assert r in Because(dropped, DroppedBySwiggy);
    var k :| 0 <= k < |dropped| && Because(dropped, DroppedBySwiggy)[k] == r;
    assert dropped[k] in dropped;
  }

  /** What a cart that is the merge, less drops, holds of an id it still has. */
  lemma {:induction false} MergeHasAll(before: seq<Line>, accepted: seq<Line>, cart: seq<Line>, id: string)
    requires HoldsMerge(before, accepted, cart) && accepted != [] && id in Ids(cart)
    ensures Total(cart, id) == Baseline(before, id) + Total(accepted, id)
  {
    var drops :| cart == Kept(Merged(before, accepted), drops);
    KeptTotal(Merged(before, accepted), drops, id);
    PresentIffPositive(cart, id);
    MergedTotal(before, accepted, id);
  }

  lemma {:induction false} AddedIsWhole(items: seq<Line>, before: seq<Line>, verdicts: seq<bool>, cart: seq<Line>, item: Line)
    requires |verdicts| == |items| && HoldsMerge(before, Split(items, verdicts, true), cart)
    requires item in FinishAdd(items, cart, Split(items, verdicts, false)).added
    ensures item.spinId in Ids(cart)
    ensures Total(cart, item.spinId) == Baseline(before, item.spinId) + Total(items, item.spinId)
  {
    var accepted, refused := Split(items, verdicts, true), Split(items, verdicts, false);
    AddedIsThere(items, cart, refused, item);
    SplitTotal(items, verdicts, item.spinId);
    PresentIffPositive(refused, item.spinId);
    PresentIffPositive(items, item.spinId);
    var k :| 0 <= k < |items| && items[k] == item;
    assert Ids(items)[k] == item.spinId;
    MergeHasAll(before, accepted, cart, item.spinId);
  }

  lemma {:induction false} AddReports(items: seq<Line>, before: seq<Line>, verdicts: seq<bool>, cart: seq<Line>)
    requires |verdicts| == |items| && HoldsMerge(before, Split(items, verdicts, true), cart)
    ensures ReportsTheCart(items, before, FinishAdd(items, cart, Split(items, verdicts, false)), cart)
  {
    var refused := Split(items, verdicts, false);
    var result := FinishAdd(items, cart, refused);
    forall item | item in result.added
      ensures item.spinId in Ids(cart) && Total(cart, item.spinId) == Baseline(before, item.spinId) + Total(items, item.spinId)
    {
      AddedIsWhole(items, before, verdicts, cart, item);
    }
    forall r | r in result.rejected && r.reason.DroppedBySwiggy? ensures r.item.spinId !in Ids(cart) {
      DroppedIsNotThere(items, cart, refused, r);
    }
  }

  /** An add that answers with the server's cart, the old one merged with the accepted items less drops, and
      reports what is in it. */
  ghost predicate AddIsRight(items: seq<Line>, before: seq<Line>, outs: seq<Outcome>)
    requires items != []
  {
    var c := Exec(Add(items), before, outs);
    && |outs| >= 2 && c.pc.Done? && c.pc.result.Mutated?
    && c.pc.result.cart == c.cart && HoldsMerge(before, Accepted(items, outs), c.cart)
    && ReportsTheCart(items, before, c.pc.result, c.cart)
  }

  lemma {:induction false} UnreviewedAddIsRight(items: seq<Line>, before: seq<Line>, outs: seq<Outcome>)
    requires items != [] && Exec(Add(items), before, outs).pc.Done?
    requires var c := Exec(Add(items), before, outs); Answered(items, before, c.pc.result, c.cart, outs)
    requires Reviewed(Writes(items, outs)).None?
    ensures AddIsRight(items, before, outs)
  {
    var c := Exec(Add(items), before, outs);
    AddReports(items, before, Sorting(items, outs), c.cart);
  }

  lemma {:induction false} AnsweredAlike(items: seq<Line>, before: seq<Line>, outs: seq<Outcome>, outs': seq<Outcome>)
    requires items != [] && Alike(outs, outs')
    requires Exec(Add(items), before, outs).pc.Done? && Exec(Add(items), before, outs).pc.result.Mutated?
    ensures |outs| >= 2
    ensures var c := Exec(Add(items), before, outs');
      && c.pc.Done? && Answered(items, before, c.pc.result, c.cart, outs')
      && Accepted(items, outs') == Accepted(items, outs)
      && (Reviewed(Writes(items, outs')).Some? <==> Reviewed(Writes(items, outs)).Some?)
  {
    AlikeRuns(Add(items), before, outs, outs');
    AddInvariant(items, before, outs);
    AddInvariant(items, before, outs');
    AlikeWrites(items, outs, outs');
    AlikeReviewed(Writes(items, outs), Writes(items, outs'));
  }

  /** A cart no merge of these, however much of it is dropped, can be. */
  function Strange(before: seq<Line>, accepted: seq<Line>): seq<Line> {
    (if accepted == [] then before else Merged(before, accepted)) + [Line("", 1)]
  }

  lemma {:induction false} StrangeIsNoMerge(before: seq<Line>, accepted: seq<Line>)
    ensures !HoldsMerge(before, accepted, Strange(before, accepted))
  {
    if accepted != [] {
      forall drops ensures Strange(before, accepted) != Kept(Merged(before, accepted), drops) {
        FilterMembers(Merged(before, accepted), Outside(drops));
      }
    }
  }

  lemma {:induction false} LateReviewMisleads(items: seq<Line>, before: seq<Line>, outs: seq<Outcome>)
    returns (outs': seq<Outcome>)
    requires items != []
    requires Exec(Add(items), before, outs).pc.Done? && Exec(Add(items), before, outs).pc.result.Mutated?
    requires Reviewed(Writes(items, outs)).Some?
    ensures Alike(outs, outs') && !AddIsRight(items, before, outs')
  {
    AddInvariant(items, before, outs);
    var strange := Strange(before, Accepted(items, outs));
    outs' := Rewritten(outs, strange);
    RewrittenAlike(outs, strange);
    AnsweredAlike(items, before, outs, outs');
    RewrittenWrites(items, outs, strange);
    RewrittenReviewed(Writes(items, outs), strange);
    StrangeIsNoMerge(before, Accepted(items, outs));
  }

  /** An add that answers is right about the cart and its items, whatever Swiggy writes for review, exactly
      when no review comes after the last accepted write. */
  lemma {:induction false} AddIsRightExactlyWithoutALateReview(items: seq<Line>, before: seq<Line>, outs: seq<Outcome>)
    requires items != []
    requires Exec(Add(items), before, outs).pc.Done? && Exec(Add(items), before, outs).pc.result.Mutated?
    ensures (forall outs' | Alike(outs, outs') :: AddIsRight(items, before, outs'))
      <==> Reviewed(Writes(items, outs)).None?
  {
    if Reviewed(Writes(items, outs)).None? {
      forall outs' | Alike(outs, outs') ensures AddIsRight(items, before, outs') {
        AnsweredAlike(items, before, outs, outs');
        UnreviewedAddIsRight(items, before, outs');
      }
    } else {
      var outs' := LateReviewMisleads(items, before, outs);
    }
  }

  /** A set whose report is true of the cart. */
  ghost predicate SetIsRight(item: Line, before: seq<Line>, outs: seq<Outcome>) {
    var c := Exec(SetQuantity(item.spinId, item.quantity), before, outs);
    && c.pc.Done? && c.pc.result.Mutated? && c.pc.result.cart == c.cart
    && ReportedOnce(item, c.pc.result.added, c.pc.result.rejected, before, c.cart)
  }

  lemma {:induction false} SetAlike(item: Line, before: seq<Line>, outs: seq<Outcome>, outs': seq<Outcome>)
    requires Alike(outs, outs')
    requires var c := Exec(SetQuantity(item.spinId, item.quantity), before, outs); c.pc.Done? && c.pc.result.Mutated?
    ensures |outs| >= 2 && AlikeOne(outs[1], outs'[1])
    ensures var c := Exec(SetQuantity(item.spinId, item.quantity), before, outs');
      && c.pc.Done? && c.pc.result.Mutated? && c.pc.result.cart == c.cart
      && SetMet(item, before, c.pc.result.added, c.pc.result.rejected, c.cart, outs'[1])
  {
    var op := SetQuantity(item.spinId, item.quantity);
    AlikeRuns(op, before, outs, outs');
    EveryAnswerIsHonest(op, before, outs);
    EveryAnswerIsHonest(op, before, outs');
    assert Line(item.spinId, item.quantity) == item;
  }

  /** A set that answers is right about its item and the cart, whatever Swiggy writes for review, exactly
      when its write met no review: a reviewed one is reported refused. */
  lemma {:induction false} SetIsRightExactlyWithoutAReview(item: Line, before: seq<Line>, outs: seq<Outcome>)
    requires var c := Exec(SetQuantity(item.spinId, item.quantity), before, outs); c.pc.Done? && c.pc.result.Mutated?
    ensures |outs| >= 2
    ensures (forall outs' | Alike(outs, outs') :: SetIsRight(item, before, outs')) <==> !outs[1].Review?
  {
    assert Alike(outs, outs);
    SetAlike(item, before, outs, outs);
    if !outs[1].Review? {
      forall outs' | Alike(outs, outs') ensures SetIsRight(item, before, outs') {
        SetAlike(item, before, outs, outs');
      }
    } else {
      var strange := Strange(before, []);
      RewrittenAlike(outs, strange);
      SetAlike(item, before, outs, Rewritten(outs, strange));
      assert strange != before;
      assert !SetIsRight(item, before, Rewritten(outs, strange));
    }
  }

  /** A compose that leaves the merge. */
  ghost predicate ComposeIsRight(purchasable: seq<Line>, before: seq<Line>, outs: seq<Outcome>) {
    var c := Exec(Compose(purchasable), before, outs);
    && c.pc.Done? && c.pc.result.Mutated? && c.pc.result.cart == c.cart && HoldsMerge(before, purchasable, c.cart)
  }

  lemma {:induction false} ComposeAlike(purchasable: seq<Line>, before: seq<Line>, outs: seq<Outcome>,
                                        outs': seq<Outcome>)
    requires Alike(outs, outs')
    requires var c := Exec(Compose(purchasable), before, outs); c.pc.Done? && c.pc.result.Mutated?
    ensures purchasable != [] ==> |outs| >= 2 && AlikeOne(outs[1], outs'[1])
    ensures var c := Exec(Compose(purchasable), before, outs');
      && c.pc.Done? && c.pc.result.Mutated? && c.pc.result.cart == c.cart
      && if purchasable == [] then c.cart == before else ComposeMet(purchasable, before, c.cart, outs'[1])
  {
    AlikeRuns(Compose(purchasable), before, outs, outs');
    EveryAnswerIsHonest(Compose(purchasable), before, outs);
    EveryAnswerIsHonest(Compose(purchasable), before, outs');
  }

  /** A compose leaves the merge, whatever Swiggy writes for review, exactly when its write met none. */
  lemma {:induction false} ComposeIsRightExactlyWithoutAReview(purchasable: seq<Line>, before: seq<Line>,
                                                               outs: seq<Outcome>)
    requires var c := Exec(Compose(purchasable), before, outs); c.pc.Done? && c.pc.result.Mutated?
    ensures purchasable != [] ==> |outs| >= 2
    ensures (forall outs' | Alike(outs, outs') :: ComposeIsRight(purchasable, before, outs'))
      <==> purchasable == [] || !outs[1].Review?
  {
    assert Alike(outs, outs);
    ComposeAlike(purchasable, before, outs, outs);
    if purchasable == [] || !outs[1].Review? {
      forall outs' | Alike(outs, outs') ensures ComposeIsRight(purchasable, before, outs') {
        ComposeAlike(purchasable, before, outs, outs');
      }
    } else {
      var strange := Strange(before, purchasable);
      RewrittenAlike(outs, strange);
      ComposeAlike(purchasable, before, outs, Rewritten(outs, strange));
      StrangeIsNoMerge(before, purchasable);
      assert !ComposeIsRight(purchasable, before, Rewritten(outs, strange));
    }
  }

  // --------------------------------------------------- writes against the server

  lemma {:induction false} KeptTotal(items: seq<Line>, drops: set<string>, id: string)
    ensures Total(Kept(items, drops), id) == if id in drops then 0 else Total(items, id)
  {
    if items != [] {
      var init, last := items[..|items| - 1], items[|items| - 1];
      KeptTotal(init, drops, id);
      assert items == init + [last];
      TotalSnoc(init, last, id);
      TotalSnoc(Kept(init, drops), last, id);
    }
  }

  lemma {:induction false} MergeRaises(before: seq<Line>, additions: seq<Line>, id: string)
    requires NoDup(Ids(before))
    ensures Total(Merged(before, additions), id) >= Total(before, id)
  {
    DistinctReading(before);
    MergedTotal(before, additions, id);
  }

  lemma {:induction false} NextAttemptRaises(before: seq<Line>, accepted: seq<Line>, item: Line, cart: seq<Line>, id: string)
    requires NoDup(Ids(before)) && HoldsMerge(before, accepted, cart)
    ensures Total(Merged(before, accepted + [item]), id) >= Total(cart, id)
  {
    DistinctReading(before);
    MergedTotal(before, accepted + [item], id);
    TotalSnoc(accepted, item, id);
    if accepted != [] {
      var drops :| cart == Kept(Merged(before, accepted), drops);
      KeptTotal(Merged(before, accepted), drops, id);
      MergedTotal(before, accepted, id);
    }
  }

  /** What the server holds as an add or a compose is about to write, if no review came after an accepted write. */
  ghost predicate Unreviewed(op: Op, outs: seq<Outcome>) {
    op.Add? ==> Reviewed(Writes(op.items, outs)).None?
  }

  /** What the cart holds while the fallback is trying items. */
  lemma {:induction false} TryingHolds(items: seq<Line>, before: seq<Line>, outs: seq<Outcome>)
    requires items != [] && Exec(Add(items), before, outs).pc.AddOne?
    ensures |outs| >= 2 && Writes(items, outs) == outs[1..]
    ensures var c := Exec(Add(items), before, outs);
      c.pc.baseline == before
      && (Reviewed(outs[1..]).None? ==> HoldsMerge(before, c.pc.accepted, c.cart))
      && (Reviewed(outs[1..]).Some? ==> c.cart == Reviewed(outs[1..]).value)
  {
    AddInvariant(items, before, outs);
    var c := Exec(Add(items), before, outs);
    SplitLength(items, c.pc.accepted, c.pc.refused, Verdicts(outs));
  }

  lemma {:induction false} WriteRaises(op: Op, before: seq<Line>, c: Config, id: string)
    requires WellFormed(op) && (op.Add? || op.Compose?) && NoDup(Ids(before)) && Fits(op, c.pc)
    requires !c.pc.Done? && NextCall(op, c.pc).UpdateCart? && Unwritten(op, before, c)
    requires c.pc.AddOne? ==> c.pc.baseline == before && HoldsMerge(before, c.pc.accepted, c.cart)
    ensures Total(NextCall(op, c.pc).items, id) >= Total(c.cart, id)
  {
    if c.pc.AddOne? {
      NextAttemptRaises(before, c.pc.accepted, op.items[|c.pc.accepted| + |c.pc.refused|], c.cart, id);
    } else {
      MergeRaises(before, if op.Add? then op.items else op.purchasable, id);
    }
  }

  /** A write that holds at least what the server's cart holds of every line. */
  ghost predicate Raises(op: Op, before: seq<Line>, outs: seq<Outcome>)
    requires WellFormed(op)
  {
    var c := Exec(op, before, outs);
    && !c.pc.Done? && NextCall(op, c.pc).UpdateCart?
    && forall id :: Total(NextCall(op, c.pc).items, id) >= Total(c.cart, id)
  }

  /** Every write of an add or a compose holds at least what the cart holds of every line, unless a review
      came after the last accepted write: then it is written from what was read before the review. */
  lemma {:induction false} AddsOnlyRaise(op: Op, before: seq<Line>, outs: seq<Outcome>)
    requires WellFormed(op) && (op.Add? || op.Compose?) && NoDup(Ids(before)) && Unreviewed(op, outs)
    requires !Exec(op, before, outs).pc.Done? && NextCall(op, Exec(op, before, outs).pc).UpdateCart?
    ensures Raises(op, before, outs)
  {
    FirstWrite(op, before, outs);
    if Exec(op, before, outs).pc.AddOne? {
      assert op == Add(op.items);
      TryingHolds(op.items, before, outs);
    }
    forall id ensures Total(NextCall(op, Exec(op, before, outs).pc).items, id) >= Total(Exec(op, before, outs).cart, id) {
      WriteRaises(op, before, Exec(op, before, outs), id);
    }
  }

  lemma {:induction false} UnreviewedAlike(op: Op, outs: seq<Outcome>, outs': seq<Outcome>)
    requires Alike(outs, outs') && Unreviewed(op, outs)
    ensures Unreviewed(op, outs')
  {
    if op.Add? && |outs| >= 2 {
      AlikeWrites(op.items, outs, outs');
      AlikeReviewed(Writes(op.items, outs), Writes(op.items, outs'));
    }
  }

  /** A review that stands can hold more of a line than the next write does. */
  lemma {:induction false} ReviewIsOverwritten(op: Op, before: seq<Line>, outs: seq<Outcome>) returns (outs': seq<Outcome>)
    requires WellFormed(op) && !Unreviewed(op, outs)
    requires !Exec(op, before, outs).pc.Done? && NextCall(op, Exec(op, before, outs).pc).UpdateCart?
    ensures Alike(outs, outs') && !Raises(op, before, outs')
  {
    var items := op.items;
    assert op == Add(items);
    FirstWrite(op, before, outs);
    AddInvariant(items, before, outs);
    assert Exec(op, before, outs).pc.AddOne?;
    var write := NextCall(op, Exec(op, before, outs).pc).items;
    var adjusted := [Line("", Total(write, "") + 1)];
    outs' := Rewritten(outs, adjusted);
    RewrittenAlike(outs, adjusted);
    AlikeRuns(op, before, outs, outs');
    TryingHolds(items, before, outs);
    TryingHolds(items, before, outs');
    RewrittenWrites(items, outs, adjusted);
    RewrittenReviewed(Writes(items, outs), adjusted);
    TotalSnoc([], adjusted[0], "");
    assert [] + [adjusted[0]] == adjusted;
    assert Total(Exec(op, before, outs').cart, "") == Total(write, "") + 1;
  }

  /** A write of an add or a compose lowers nothing, whatever Swiggy wrote for review, exactly when no review
      came after the last accepted write. */
  lemma {:induction false} WritesRaiseExactlyUnreviewed(op: Op, before: seq<Line>, outs: seq<Outcome>)
    requires WellFormed(op) && (op.Add? || op.Compose?) && NoDup(Ids(before))
    requires !Exec(op, before, outs).pc.Done? && NextCall(op, Exec(op, before, outs).pc).UpdateCart?
    ensures (forall outs' | Alike(outs, outs') :: Raises(op, before, outs')) <==> Unreviewed(op, outs)
  {
    if Unreviewed(op, outs) {
      forall outs' | Alike(outs, outs') ensures Raises(op, before, outs') {
        AlikeRuns(op, before, outs, outs');
        UnreviewedAlike(op, outs, outs');
        AddsOnlyRaise(op, before, outs');
      }
    } else {
      var outs' := ReviewIsOverwritten(op, before, outs);
    }
  }

  /** Some compose lowers a line of a cart that names an id twice: its merge keeps the last of the two. */
  lemma {:induction false} ComposeThatLowers(before: seq<Line>) returns (op: Op, outs: seq<Outcome>)
    requires !NoDup(Ids(before))
    ensures op.Compose? && Unreviewed(op, outs) && !Raises(op, before, outs)
    ensures !Exec(op, before, outs).pc.Done? && NextCall(op, Exec(op, before, outs).pc).UpdateCart?
  {
    var additions, id := MergeThatLowers(before);
    op, outs := Compose(additions), [] + [Accept({})];
    ExecSnoc(op, before, [], Accept({}));
    assert Exec(op, before, outs) == Config(ComposeWrite(before), before);
    assert Total(NextCall(op, Exec(op, before, outs).pc).items, id) < Total(before, id);
  }

  /** Without such reviews no write of any add or compose lowers a line, exactly for a cart read that names no
      id twice. */
  lemma {:induction false} WritesRaiseExactlyFromDistinctCarts(before: seq<Line>)
    ensures NoDup(Ids(before)) <==>
      forall op, outs |
        && WellFormed(op) && (op.Add? || op.Compose?) && Unreviewed(op, outs)
        && !Exec(op, before, outs).pc.Done? && NextCall(op, Exec(op, before, outs).pc).UpdateCart? ::
        Raises(op, before, outs)
  {
    if NoDup(Ids(before)) {
      forall op, outs |
        && WellFormed(op) && (op.Add? || op.Compose?) && Unreviewed(op, outs)
        && !Exec(op, before, outs).pc.Done? && NextCall(op, Exec(op, before, outs).pc).UpdateCart?
        ensures Raises(op, before, outs)
      {
        AddsOnlyRaise(op, before, outs);
      }
    } else {
      var op, outs := ComposeThatLowers(before);
    }
  }

  /** A set or a remove writes the cart as it is on the server, but for the line it names. */
  lemma {:induction false} OnlyTheNamedLine(op: Op, before: seq<Line>, outs: seq<Outcome>)
    requires WellFormed(op) && (op.SetQuantity? || op.Remove?)
    requires !Exec(op, before, outs).pc.Done? && NextCall(op, Exec(op, before, outs).pc).UpdateCart?
    ensures var c := Exec(op, before, outs);
      var write := NextCall(op, c.pc).items;
      && Without(write, op.spinId) == Without(c.cart, op.spinId)
      && (op.SetQuantity? ==> Ids(write) == Ids(c.cart))
      && (op.SetQuantity? ==>
            forall i | 0 <= i < |write| && write[i].spinId == op.spinId :: write[i].quantity == op.quantity)
      && (op.Remove? ==> op.spinId !in Ids(write))
  {
    FirstWrite(op, before, outs);
    if op.SetQuantity? {
      WithoutWithQuantity(before, op.spinId, op.quantity);
      assert Ids(WithQuantity(before, op.spinId, op.quantity)) == Ids(before);
    } else {
      var write := Without(before, op.spinId);
      FilterMembers(before, Outside({op.spinId}));
      FilterAll(write, Outside({op.spinId}));
      forall i | 0 <= i < |write| ensures write[i].spinId != op.spinId {
        assert write[i] in write;
      }
    }
  }

  lemma {:induction false} WithoutWithQuantity(lines: seq<Line>, id: string, quantity: Quantity)
    ensures Without(WithQuantity(lines, id, quantity), id) == Without(lines, id)
  {
    if lines != [] {
      var n := |lines| - 1;
      WithoutWithQuantity(lines[..n], id, quantity);
      assert WithQuantity(lines, id, quantity)[..n] == WithQuantity(lines[..n], id, quantity);
    }
  }
}
