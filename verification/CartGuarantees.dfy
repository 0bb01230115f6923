/** What the cart operations promise, whatever Swiggy answers: proved of the programs in
    CartOps, and so of the methods in CartService, which run them. */
module CartGuarantees {
  import opened Collections
  import opened CartMerge
  import opened CartOps

  // ---------------------------------------------------------------- calls made

  /** How many more calls an operation can make. */
  function CallsLeft(op: Op, pc: Pc): nat
    requires Fits(op, pc)
  {
    match pc
    case Reading => CallBound(op)
    case AddBatch(_) => |op.items| + 2
    case AddOne(_, accepted, refused, _) => |op.items| - |accepted| - |refused| + 1
    case SetWrite(_) => 2
    case RemoveWrite(_) => 1
    case Clearing => 2
    case ComposeWrite(_) => 2
    case Done(_) => 0
    case _ => 1
  }

  function CallBound(op: Op): nat {
    match op
    case Add(items) => |items| + 3
    case Clear => 2
    case _ => 3
  }

  lemma {:induction false} CallsLeftDrops(op: Op, pc: Pc, answer: Answer)
    requires WellFormed(op) && Fits(op, pc) && !pc.Done? && Fits(op, After(op, pc, answer))
    ensures CallsLeft(op, After(op, pc, answer)) < CallsLeft(op, pc)
  {
  }

  lemma {:induction false} CallsRunDown(op: Op, cart: seq<Line>, outs: seq<Outcome>)
    requires WellFormed(op)
    ensures Exec(op, cart, outs).pc.Done? || CallsLeft(op, Exec(op, cart, outs).pc) + |outs| <= CallBound(op)
  {
    if outs != [] {
      var sofar := Exec(op, cart, outs[..|outs| - 1]);
      CallsRunDown(op, cart, outs[..|outs| - 1]);
      if !sofar.pc.Done? {
        var (_, answer) := Serve(NextCall(op, sofar.pc), sofar.cart, outs[|outs| - 1]);
        AfterFits(op, sofar.pc, answer);
        CallsLeftDrops(op, sofar.pc, answer);
      }
    }
  }

  /** Every operation ends: an add after at most one read, one batch write, one write per item
      and one more read; the others after at most three calls. */
  lemma {:induction false} OperationsEnd(op: Op, cart: seq<Line>, outs: seq<Outcome>)
    requires WellFormed(op) && |outs| >= CallBound(op)
    ensures Exec(op, cart, outs).pc.Done?
  {
    CallsRunDown(op, cart, outs);
  }

  lemma {:induction false} MergedNotEmpty(existing: seq<Line>, additions: seq<Line>)
    requires additions != []
    ensures Merged(existing, additions) != []
  {
    FirstSeenMembers(Ids(existing) + Ids(additions));
    MergedReading(existing, additions);
    assert Ids(additions)[0] in Ids(existing) + Ids(additions);
    assert Ids(additions)[0] in Ids(Merged(existing, additions));
  }

  /** No operation ever sends an empty `update_cart`, which Swiggy refuses. */
  lemma {:induction false} NoEmptyWrite(op: Op, pc: Pc)
    requires WellFormed(op) && Fits(op, pc) && !pc.Done?
    ensures NextCall(op, pc) != UpdateCart([])
  {
    match pc
    case AddBatch(baseline) => MergedNotEmpty(baseline, op.items);
    case AddOne(baseline, accepted, refused, _) =>
      MergedNotEmpty(baseline, accepted + [op.items[|accepted| + |refused|]]);
    case ComposeWrite(baseline) => MergedNotEmpty(baseline, op.purchasable);
    case _ =>
  }

  // ------------------------------------------------------- sorting the request

  /** The items a run of verdicts let through, or those it did not, in request order. */
  function Split(items: seq<Line>, verdicts: seq<bool>, wanted: bool): seq<Line>
    requires |verdicts| == |items|
  {
    if items == [] then [] else
      var rest := Split(items[..|items| - 1], verdicts[..|items| - 1], wanted);
      if verdicts[|items| - 1] == wanted then rest + [items[|items| - 1]] else rest
  }

  lemma {:induction false} SplitSnoc(items: seq<Line>, verdicts: seq<bool>, item: Line, verdict: bool, wanted: bool)
    requires |verdicts| == |items|
    ensures Split(items + [item], verdicts + [verdict], wanted)
      == if verdict == wanted then Split(items, verdicts, wanted) + [item] else Split(items, verdicts, wanted)
  {
    assert (items + [item])[..|items|] == items && (verdicts + [verdict])[..|items|] == verdicts;
  }

  lemma {:induction false} SplitCovers(items: seq<Line>, verdicts: seq<bool>)
    requires |verdicts| == |items|
    ensures multiset(Split(items, verdicts, true)) + multiset(Split(items, verdicts, false)) == multiset(items)
    ensures |Split(items, verdicts, true)| + |Split(items, verdicts, false)| == |items|
  {
    if items != [] {
      SplitCovers(items[..|items| - 1], verdicts[..|items| - 1]);
      assert items == items[..|items| - 1] + [items[|items| - 1]];
    }
  }

  /** `accepted` and `refused` sort the first items of the request by these verdicts. */
  ghost predicate SortedBy(items: seq<Line>, accepted: seq<Line>, refused: seq<Line>, verdicts: seq<bool>) {
    && |verdicts| <= |items|
    && accepted == Split(items[..|verdicts|], verdicts, true)
    && refused == Split(items[..|verdicts|], verdicts, false)
  }

  lemma {:induction false} SortedStep(items: seq<Line>, accepted: seq<Line>, refused: seq<Line>, verdicts: seq<bool>, verdict: bool)
    requires SortedBy(items, accepted, refused, verdicts) && |verdicts| < |items|
    ensures |accepted| + |refused| == |verdicts|
    ensures var item := items[|accepted| + |refused|];
      SortedBy(items, if verdict then accepted + [item] else accepted,
               if verdict then refused else refused + [item], verdicts + [verdict])
  {
    var k := |verdicts|;
    SplitCovers(items[..k], verdicts);
    SplitSnoc(items[..k], verdicts, items[k], verdict, true);
    SplitSnoc(items[..k], verdicts, items[k], verdict, false);
    assert items[..k + 1] == items[..k] + [items[k]];
  }

  lemma {:induction false} SplitLength(items: seq<Line>, accepted: seq<Line>, refused: seq<Line>, verdicts: seq<bool>)
    requires SortedBy(items, accepted, refused, verdicts)
    ensures |accepted| + |refused| == |verdicts|
  {
    SplitCovers(items[..|verdicts|], verdicts);
  }

  lemma {:induction false} SplitAllOneWay(items: seq<Line>, wanted: bool)
    ensures Split(items, seq(|items|, _ => wanted), wanted) == items
    ensures Split(items, seq(|items|, _ => wanted), !wanted) == []
  {
    if items != [] {
      var n := |items| - 1;
      SplitAllOneWay(items[..n], wanted);
      assert seq(|items|, _ => wanted)[..n] == seq(n, _ => wanted);
      assert items == items[..n] + [items[n]];
    }
  }

  // ------------------------------------------------- what the server cart holds

  /** A cart written from `before` plus the accepted items, less what Swiggy silently
      dropped; the untouched cart when nothing was accepted. */
  ghost predicate HoldsMerge(before: seq<Line>, accepted: seq<Line>, cart: seq<Line>) {
    if accepted == [] then cart == before
    else exists drops :: cart == Kept(Merged(before, accepted), drops)
  }

  /** The cart of a review that no accepted write has come after. */
  function Reviewed(writes: seq<Outcome>): Option<seq<Line>> {
    if writes == [] then None else
      match writes[|writes| - 1]
      case Accept(_) => None
      case Review(adjusted) => Some(adjusted)
      case _ => Reviewed(writes[..|writes| - 1])
  }

  /** How Swiggy met the writes of an add: the batch alone if it was accepted, else the batch and one
      write per item. A read comes before them, and one after them if none was accepted. */
  function Writes(items: seq<Line>, outs: seq<Outcome>): seq<Outcome> {
    if |outs| < 2 then []
    else if outs[1].Accept? then [outs[1]]
    else outs[1..if |outs| < |items| + 2 then |outs| else |items| + 2]
  }

  /** Which items were accepted. */
  function Sorting(items: seq<Line>, outs: seq<Outcome>): (v: seq<bool>)
    requires |outs| >= 2
    ensures |v| == |items|
  {
    seq(|items|, i requires 0 <= i < |items| => outs[1].Accept? || (i + 2 < |outs| && outs[i + 2].Accept?))
  }

  function Accepted(items: seq<Line>, outs: seq<Outcome>): seq<Line>
    requires |outs| >= 2
  {
    Split(items, Sorting(items, outs), true)
  }

  /** What an add shows and what the server holds: a review that nothing accepted has come after is what
      the server holds, and is shown only if nothing was accepted at all. */
  ghost predicate Standing(before: seq<Line>, accepted: seq<Line>, shown: seq<Line>, cart: seq<Line>,
                           reviewed: Option<seq<Line>>) {
    if accepted == [] then shown == cart && cart == reviewed.GetOr(before)
    else HoldsMerge(before, accepted, shown) && cart == reviewed.GetOr(shown)
  }

  /** An add that sorted the whole request and then answered. */
  ghost predicate Answered(items: seq<Line>, before: seq<Line>, result: Result, cart: seq<Line>, outs: seq<Outcome>) {
    && |outs| >= 2 && (outs[1].Accept? || |outs| >= |items| + 2)
    && result.Mutated?
    && result == FinishAdd(items, result.cart, Split(items, Sorting(items, outs), false))
    && Standing(before, Accepted(items, outs), result.cart, cart, Reviewed(Writes(items, outs)))
  }

  /** The verdicts of the item-by-item writes, which follow the read and the refused batch. */
  function Verdicts(outs: seq<Outcome>): seq<bool>
    requires |outs| >= 2
  {
    seq(|outs| - 2, i requires 0 <= i < |outs| - 2 => outs[i + 2].Accept?)
  }

  lemma {:induction false} VerdictsSnoc(outs: seq<Outcome>, o: Outcome)
    requires |outs| >= 2
    ensures Verdicts(outs + [o]) == Verdicts(outs) + [o.Accept?]
  {
  }

  lemma {:induction false} ReviewedSnoc(outs: seq<Outcome>, o: Outcome)
    requires outs != []
    ensures Reviewed((outs + [o])[1..]) ==
      match o
      case Accept(_) => None
      case Review(adjusted) => Some(adjusted)
      case _ => Reviewed(outs[1..])
  {
    assert (outs + [o])[1..] == outs[1..] + [o];
    assert (outs[1..] + [o])[..|outs| - 1] == outs[1..];
  }

  /** An add that has reached its fallback and met `outs` on the way. */
  ghost predicate Trying(items: seq<Line>, before: seq<Line>, accepted: seq<Line>, refused: seq<Line>,
                         last: Option<seq<Line>>, cart: seq<Line>, outs: seq<Outcome>) {
    && |outs| >= 2 && !outs[1].Accept?
    && SortedBy(items, accepted, refused, Verdicts(outs))
    && (last.Some? <==> accepted != [])
    && (last.Some? ==> HoldsMerge(before, accepted, last.value))
    && cart == Reviewed(outs[1..]).GetOr(last.GetOr(before))
  }

  ghost predicate Ended(items: seq<Line>, before: seq<Line>, result: Result, cart: seq<Line>, outs: seq<Outcome>) {
    result.Raised? || Answered(items, before, result, cart, outs)
  }

  ghost predicate AddSoFar(items: seq<Line>, before: seq<Line>, c: Config, outs: seq<Outcome>) {
    match c.pc
    case Reading => outs == [] && c.cart == before
    case AddBatch(baseline) => |outs| == 1 && baseline == before == c.cart
    case AddOne(baseline, accepted, refused, last) =>
      baseline == before && Trying(items, before, accepted, refused, last, c.cart, outs)
    case AddReadBack(refused) => Trying(items, before, [], refused, None, c.cart, outs)
    case Done(result) => Ended(items, before, result, c.cart, outs)
    case _ => false
  }

  /** Once every item has been tried the verdicts are the sorting, and the writes are all that was met. */
  lemma {:induction false} AllTried(items: seq<Line>, outs: seq<Outcome>)
    requires |outs| == |items| + 2 && !outs[1].Accept?
    ensures Sorting(items, outs) == Verdicts(outs) && Writes(items, outs) == outs[1..]
    ensures items[..|items|] == items
  {
  }

  /** What comes after is no write of this add. */
  lemma {:induction false} NothingMoreTried(items: seq<Line>, outs: seq<Outcome>, o: Outcome)
    requires |outs| >= 2 && (outs[1].Accept? || |outs| >= |items| + 2)
    ensures Sorting(items, outs + [o]) == Sorting(items, outs) && Writes(items, outs + [o]) == Writes(items, outs)
  {
  }

  lemma {:induction false} AddEnds(items: seq<Line>, before: seq<Line>, accepted: seq<Line>, refused: seq<Line>,
                                   last: Option<seq<Line>>, cart: seq<Line>, outs: seq<Outcome>)
    requires Trying(items, before, accepted, refused, last, cart, outs)
    requires |accepted| + |refused| == |items| && last.Some?
    ensures Ended(items, before, FinishAdd(items, last.value, refused), cart, outs)
  {
    SplitLength(items, accepted, refused, Verdicts(outs));
    AllTried(items, outs);
  }

  lemma {:induction false} NextOneSoFar(items: seq<Line>, before: seq<Line>, accepted: seq<Line>, refused: seq<Line>,
                                        last: Option<seq<Line>>, cart: seq<Line>, outs: seq<Outcome>)
    requires Trying(items, before, accepted, refused, last, cart, outs)
    ensures AddSoFar(items, before, Config(NextOne(items, before, accepted, refused, last), cart), outs)
  {
    SplitLength(items, accepted, refused, Verdicts(outs));
    if |accepted| + |refused| == |items| && last.Some? {
      AddEnds(items, before, accepted, refused, last, cart, outs);
    }
  }

  lemma {:induction false} TryingAccepted(items: seq<Line>, before: seq<Line>, accepted: seq<Line>, refused: seq<Line>,
                                          last: Option<seq<Line>>, cart: seq<Line>, outs: seq<Outcome>, drops: set<string>)
    requires Trying(items, before, accepted, refused, last, cart, outs) && |accepted| + |refused| < |items|
    ensures var more := accepted + [items[|accepted| + |refused|]];
      var got := Kept(Merged(before, more), drops);
      Trying(items, before, more, refused, Some(got), got, outs + [Accept(drops)])
  {
    var o := Accept(drops);
    SplitLength(items, accepted, refused, Verdicts(outs));
    SortedStep(items, accepted, refused, Verdicts(outs), true);
    VerdictsSnoc(outs, o);
    ReviewedSnoc(outs, o);
  }

  lemma {:induction false} TryingRefused(items: seq<Line>, before: seq<Line>, accepted: seq<Line>, refused: seq<Line>,
                                         last: Option<seq<Line>>, cart: seq<Line>, outs: seq<Outcome>, o: Outcome,
                                         after: seq<Line>)
    requires Trying(items, before, accepted, refused, last, cart, outs) && |accepted| + |refused| < |items|
    requires (o.Refuse? && after == cart) || (o.Review? && after == o.adjusted)
    ensures Trying(items, before, accepted, refused + [items[|accepted| + |refused|]], last, after, outs + [o])
  {
    SplitLength(items, accepted, refused, Verdicts(outs));
    SortedStep(items, accepted, refused, Verdicts(outs), false);
    VerdictsSnoc(outs, o);
    ReviewedSnoc(outs, o);
  }

  /** One step of the fallback, in full. */
  lemma {:induction false} StepOfOne(items: seq<Line>, before: seq<Line>, accepted: seq<Line>, refused: seq<Line>,
                                     last: Option<seq<Line>>, cart: seq<Line>, o: Outcome)
    requires items != [] && |accepted| + |refused| < |items| && (last.Some? <==> accepted != [])
    ensures var item := items[|accepted| + |refused|];
      Step(Add(items), Config(AddOne(before, accepted, refused, last), cart), o) ==
        match o
        case Accept(drops) =>
          var got := Kept(Merged(before, accepted + [item]), drops);
          Config(NextOne(items, before, accepted + [item], refused, Some(got)), got)
        case Refuse => Config(NextOne(items, before, accepted, refused + [item], last), cart)
        case Review(adjusted) => Config(NextOne(items, before, accepted, refused + [item], last), adjusted)
        case Fail(applied, lost) =>
          Config(Done(Raised), if applied then Kept(Merged(before, accepted + [item]), lost) else cart)
  {
  }

  lemma {:induction false} AddOneAccepted(items: seq<Line>, before: seq<Line>, accepted: seq<Line>, refused: seq<Line>,
                                          last: Option<seq<Line>>, cart: seq<Line>, outs: seq<Outcome>, drops: set<string>)
    requires Trying(items, before, accepted, refused, last, cart, outs) && |accepted| + |refused| < |items|
    ensures var more := accepted + [items[|accepted| + |refused|]];
      var got := Kept(Merged(before, more), drops);
      AddSoFar(items, before, Config(NextOne(items, before, more, refused, Some(got)), got), outs + [Accept(drops)])
  {
    var more := accepted + [items[|accepted| + |refused|]];
    var got := Kept(Merged(before, more), drops);
    TryingAccepted(items, before, accepted, refused, last, cart, outs, drops);
    NextOneSoFar(items, before, more, refused, Some(got), got, outs + [Accept(drops)]);
  }

  lemma {:induction false} AddOneRefused(items: seq<Line>, before: seq<Line>, accepted: seq<Line>, refused: seq<Line>,
                                         last: Option<seq<Line>>, cart: seq<Line>, outs: seq<Outcome>, o: Outcome,
                                         after: seq<Line>)
    requires Trying(items, before, accepted, refused, last, cart, outs) && |accepted| + |refused| < |items|
    requires (o.Refuse? && after == cart) || (o.Review? && after == o.adjusted)
    ensures var more := refused + [items[|accepted| + |refused|]];
      AddSoFar(items, before, Config(NextOne(items, before, accepted, more, last), after), outs + [o])
  {
    TryingRefused(items, before, accepted, refused, last, cart, outs, o, after);
    NextOneSoFar(items, before, accepted, refused + [items[|accepted| + |refused|]], last, after, outs + [o]);
  }

  lemma {:induction false} AddOneStep(items: seq<Line>, before: seq<Line>, accepted: seq<Line>, refused: seq<Line>,
                                      last: Option<seq<Line>>, cart: seq<Line>, outs: seq<Outcome>, o: Outcome)
    requires items != [] && |accepted| + |refused| < |items|
    requires Trying(items, before, accepted, refused, last, cart, outs)
    ensures var c := Config(AddOne(before, accepted, refused, last), cart);
      AddSoFar(items, before, Step(Add(items), c, o), outs + [o])
  {
    StepOfOne(items, before, accepted, refused, last, cart, o);
    match o
    case Accept(drops) => AddOneAccepted(items, before, accepted, refused, last, cart, outs, drops);
    case Fail(_, _) =>
    case Refuse => AddOneRefused(items, before, accepted, refused, last, cart, outs, o, cart);
    case Review(adjusted) => AddOneRefused(items, before, accepted, refused, last, cart, outs, o, adjusted);
  }

  lemma {:induction false} BatchAccepted(items: seq<Line>, before: seq<Line>, outs: seq<Outcome>, drops: set<string>)
    requires items != [] && |outs| == 1
    ensures var got := Kept(Merged(before, items), drops);
      Ended(items, before, FinishAdd(items, got, []), got, outs + [Accept(drops)])
  {
    var all := outs + [Accept(drops)];
    SplitAllOneWay(items, true);
    assert Sorting(items, all) == seq(|items|, _ => true);
    assert Writes(items, all)[0] == Accept(drops);
    assert HoldsMerge(before, items, Kept(Merged(before, items), drops));
  }

  lemma {:induction false} BatchRefused(items: seq<Line>, before: seq<Line>, outs: seq<Outcome>, o: Outcome,
                                        after: seq<Line>)
    requires |outs| == 1 && ((o.Refuse? && after == before) || (o.Review? && after == o.adjusted))
    ensures Trying(items, before, [], [], None, after, outs + [o])
  {
    assert Verdicts(outs + [o]) == [];
    ReviewedSnoc(outs, o);
  }

  lemma {:induction false} AddBatchStep(items: seq<Line>, before: seq<Line>, outs: seq<Outcome>, o: Outcome)
    requires items != [] && |outs| == 1
    ensures AddSoFar(items, before, Step(Add(items), Config(AddBatch(before), before), o), outs + [o])
  {
    match o
    case Accept(drops) => BatchAccepted(items, before, outs, drops);
    case Fail(_, _) =>
    case Refuse =>
      BatchRefused(items, before, outs, o, before);
      NextOneSoFar(items, before, [], [], None, before, outs + [o]);
    case Review(adjusted) =>
      BatchRefused(items, before, outs, o, adjusted);
      NextOneSoFar(items, before, [], [], None, adjusted, outs + [o]);
  }

  lemma {:induction false} AddReadBackStep(items: seq<Line>, before: seq<Line>, refused: seq<Line>, cart: seq<Line>,
                                           outs: seq<Outcome>, o: Outcome)
    requires items != [] && |refused| == |items| && Trying(items, before, [], refused, None, cart, outs)
    ensures AddSoFar(items, before, Step(Add(items), Config(AddReadBack(refused), cart), o), outs + [o])
  {
    SplitLength(items, [], refused, Verdicts(outs));
    AllTried(items, outs);
    NothingMoreTried(items, outs, o);
  }

  lemma {:induction false} EndedStays(items: seq<Line>, before: seq<Line>, result: Result, cart: seq<Line>,
                                      outs: seq<Outcome>, o: Outcome)
    requires Ended(items, before, result, cart, outs)
    ensures Ended(items, before, result, cart, outs + [o])
  {
    if !result.Raised? {
      NothingMoreTried(items, outs, o);
    }
  }

  lemma {:induction false} AddStep(items: seq<Line>, before: seq<Line>, c: Config, outs: seq<Outcome>, o: Outcome)
    requires items != [] && Fits(Add(items), c.pc) && AddSoFar(items, before, c, outs)
    ensures AddSoFar(items, before, Step(Add(items), c, o), outs + [o])
  {
    match c.pc
    case AddBatch(_) => AddBatchStep(items, before, outs, o);
    case AddOne(_, accepted, refused, last) =>
      AddOneStep(items, before, accepted, refused, last, c.cart, outs, o);
    case AddReadBack(refused) => AddReadBackStep(items, before, refused, c.cart, outs, o);
    case Done(result) => EndedStays(items, before, result, c.cart, outs, o);
    case _ =>
  }

  lemma {:induction false} AddInvariant(items: seq<Line>, before: seq<Line>, outs: seq<Outcome>)
    requires items != []
    ensures AddSoFar(items, before, Exec(Add(items), before, outs), outs)
  {
    if outs != [] {
      var earlier, o := outs[..|outs| - 1], outs[|outs| - 1];
      AddInvariant(items, before, earlier);
      AddStep(items, before, Exec(Add(items), before, earlier), earlier, o);
      assert outs == earlier + [o];
    }
  }

  /** The fallback's promise, whatever Swiggy did. An add that answers has sorted the request, in order,
      into accepted and refused items. The cart it answers with is the old cart merged with the accepted
      items, less silent drops, and is the server's unless a review came after the last accepted write;
      with nothing accepted it is the server's: the last reviewed cart, or the untouched one. */
  lemma {:induction false} AddWritesExactlyTheAccepted(items: seq<Line>, before: seq<Line>, outs: seq<Outcome>)
    requires items != []
    ensures var c := Exec(Add(items), before, outs);
      c.pc.Done? && !c.pc.result.Raised? ==> Answered(items, before, c.pc.result, c.cart, outs)
  {
    AddInvariant(items, before, outs);
  }

  lemma {:induction false} KeptAll(items: seq<Line>)
    ensures Kept(items, {}) == items
  {
    FilterAll(items, Outside({}));
  }

  lemma {:induction false} NothingDropped(cart: seq<Line>, items: seq<Line>, rejected: seq<string>)
    requires forall item | item in items :: item.spinId in Ids(cart) || item.spinId in rejected
    ensures Dropped(cart, items, rejected) == []
  {
    FilterNone(items, Unaccounted(Ids(cart), rejected));
  }

  lemma {:induction false} MergedHasAll(before: seq<Line>, items: seq<Line>, item: Line)
    requires item in items
    ensures item.spinId in Ids(Merged(before, items))
  {
    FirstSeenMembers(Ids(before) + Ids(items));
    MergedReading(before, items);
    var i :| 0 <= i < |items| && items[i] == item;
    assert Ids(items)[i] == item.spinId && item.spinId in Ids(before) + Ids(items);
  }

  lemma {:induction false} NobodyRejected(cart: seq<Line>, items: seq<Line>)
    requires forall item | item in items :: item.spinId in Ids(cart)
    ensures FinishAdd(items, cart, []) == Mutated(cart, items, [])
  {
    NothingDropped(cart, items, Ids([]));
    FilterAll(items, Outside(RejectedIds([])));
    assert Because([], RefusedBySwiggy) + Because([], DroppedBySwiggy) == [];
  }

  /** With no refusal and nothing dropped, an add is exactly a merge and reports every item added. */
  lemma {:induction false} CleanAdd(items: seq<Line>, before: seq<Line>, outs: seq<Outcome>)
    requires items != []
    requires |outs| == 2 && outs[0].Accept? && outs[1] == Accept({})
    ensures Exec(Add(items), before, outs)
      == Config(Done(Mutated(Merged(before, items), items, [])), Merged(before, items))
  {
    var after := Merged(before, items);
    assert outs == [outs[0]] + [outs[1]] && [] + [outs[0]] == [outs[0]];
    ExecSnoc(Add(items), before, [], outs[0]);
    ExecSnoc(Add(items), before, [outs[0]], outs[1]);
    assert Exec(Add(items), before, [outs[0]]) == Config(AddBatch(before), before);
    KeptAll(after);
    forall item | item in items ensures item.spinId in Ids(after) {
      MergedHasAll(before, items, item);
    }
    NobodyRejected(after, items);
  }

  // ------------------------------------------------ adds Swiggy is candid about

  /** Every call was refused, or accepted with nothing silently dropped. */
  ghost predicate Candid(outs: seq<Outcome>) {
    forall o | o in outs :: o == Refuse || o == Accept({})
  }

  function Reported(result: Result): seq<Line> {
    if result.Mutated? then result.added else []
  }

  /** The cart while a candid add is under way. */
  ghost predicate CandidSoFar(items: seq<Line>, before: seq<Line>, c: Config, outs: seq<Outcome>) {
    match c.pc
    case AddOne(_, accepted, _, _) => c.cart == Onto(before, accepted)
    case Done(result) =>
      if result.Mutated? then
        |outs| >= 2 && result.cart == c.cart && c.cart == Onto(before, Accepted(items, outs))
      else c.cart == before
    case _ => c.cart == before
  }

  lemma {:induction false} CandidTaken(items: seq<Line>, before: seq<Line>, accepted: seq<Line>, refused: seq<Line>,
                                       last: Option<seq<Line>>, outs: seq<Outcome>)
    requires Trying(items, before, accepted, refused, last, Onto(before, accepted), outs)
    requires last == Some(Onto(before, accepted)) || (last == None && accepted == [])
    ensures CandidSoFar(items, before, Config(NextOne(items, before, accepted, refused, last), Onto(before, accepted)),
                        outs)
  {
    SplitLength(items, accepted, refused, Verdicts(outs));
    if |accepted| + |refused| == |items| {
      AllTried(items, outs);
    }
  }

  lemma {:induction false} CandidOne(items: seq<Line>, before: seq<Line>, accepted: seq<Line>, refused: seq<Line>,
                                     last: Option<seq<Line>>, outs: seq<Outcome>, o: Outcome)
    requires items != [] && (o == Refuse || o == Accept({})) && |accepted| + |refused| < |items|
    requires Trying(items, before, accepted, refused, last, Onto(before, accepted), outs)
    requires last == Some(Onto(before, accepted)) || (last == None && accepted == [])
    ensures var c := Config(AddOne(before, accepted, refused, last), Onto(before, accepted));
      CandidSoFar(items, before, Step(Add(items), c, o), outs + [o])
  {
    var item := items[|accepted| + |refused|];
    StepOfOne(items, before, accepted, refused, last, Onto(before, accepted), o);
    if o.Refuse? {
      TryingRefused(items, before, accepted, refused, last, Onto(before, accepted), outs, o, Onto(before, accepted));
      CandidTaken(items, before, accepted, refused + [item], last, outs + [o]);
    } else {
      var got := Merged(before, accepted + [item]);
      KeptAll(got);
      TryingAccepted(items, before, accepted, refused, last, Onto(before, accepted), outs, {});
      CandidTaken(items, before, accepted + [item], refused, Some(got), outs + [o]);
    }
  }

  lemma {:induction false} CandidBatch(items: seq<Line>, before: seq<Line>, outs: seq<Outcome>, o: Outcome)
    requires items != [] && |outs| == 1 && (o == Refuse || o == Accept({}))
    ensures CandidSoFar(items, before, Step(Add(items), Config(AddBatch(before), before), o), outs + [o])
  {
    if o.Refuse? {
      BatchRefused(items, before, outs, o, before);
      CandidTaken(items, before, [], [], None, outs + [o]);
    } else {
      KeptAll(Merged(before, items));
      SplitAllOneWay(items, true);
      assert Sorting(items, outs + [o]) == seq(|items|, _ => true);
    }
  }

  lemma {:induction false} CandidReadBack(items: seq<Line>, before: seq<Line>, refused: seq<Line>, outs: seq<Outcome>,
                                          o: Outcome)
    requires items != [] && |refused| == |items|
    requires Trying(items, before, [], refused, None, before, outs) && (o == Refuse || o == Accept({}))
    ensures CandidSoFar(items, before, Step(Add(items), Config(AddReadBack(refused), before), o), outs + [o])
  {
    SplitLength(items, [], refused, Verdicts(outs));
    AllTried(items, outs);
    NothingMoreTried(items, outs, o);
  }

  /** A candid write that was accepted answers with the whole merge. */
  ghost predicate LastIsMerge(before: seq<Line>, pc: Pc) {
    pc.AddOne? && pc.last.Some? ==> pc.last.value == Onto(before, pc.accepted)
  }

  lemma {:induction false} LastOfOne(items: seq<Line>, before: seq<Line>, accepted: seq<Line>, refused: seq<Line>,
                                     last: Option<seq<Line>>, cart: seq<Line>, o: Outcome)
    requires items != [] && |accepted| + |refused| < |items| && (last.Some? <==> accepted != [])
    requires last.Some? ==> last.value == Onto(before, accepted)
    requires o == Refuse || o == Accept({})
    ensures LastIsMerge(before, Step(Add(items), Config(AddOne(before, accepted, refused, last), cart), o).pc)
  {
    StepOfOne(items, before, accepted, refused, last, cart, o);
    KeptAll(Merged(before, accepted + [items[|accepted| + |refused|]]));
  }

  lemma {:induction false} LastStaysMerge(items: seq<Line>, before: seq<Line>, c: Config, outs: seq<Outcome>, o: Outcome)
    requires items != [] && Fits(Add(items), c.pc) && AddSoFar(items, before, c, outs) && LastIsMerge(before, c.pc)
    requires o == Refuse || o == Accept({})
    ensures LastIsMerge(before, Step(Add(items), c, o).pc)
  {
    if c.pc.AddOne? {
      LastOfOne(items, before, c.pc.accepted, c.pc.refused, c.pc.last, c.cart, o);
    }
  }

  lemma {:induction false} CandidStep(items: seq<Line>, before: seq<Line>, c: Config, outs: seq<Outcome>, o: Outcome)
    requires items != [] && (o == Refuse || o == Accept({}))
    requires Fits(Add(items), c.pc) && AddSoFar(items, before, c, outs)
    requires CandidSoFar(items, before, c, outs) && LastIsMerge(before, c.pc)
    ensures CandidSoFar(items, before, Step(Add(items), c, o), outs + [o])
  {
    match c.pc
    case AddBatch(_) => CandidBatch(items, before, outs, o);
    case AddOne(_, accepted, refused, last) => CandidOne(items, before, accepted, refused, last, outs, o);
    case AddReadBack(refused) => CandidReadBack(items, before, refused, outs, o);
    case Done(result) =>
      if result.Mutated? {
        NothingMoreTried(items, outs, o);
      }
    case _ =>
  }

  lemma {:induction false} CandidInvariant(items: seq<Line>, before: seq<Line>, outs: seq<Outcome>)
    requires items != [] && Candid(outs)
    ensures CandidSoFar(items, before, Exec(Add(items), before, outs), outs)
    ensures LastIsMerge(before, Exec(Add(items), before, outs).pc)
  {
    if outs != [] {
      var earlier, o := outs[..|outs| - 1], outs[|outs| - 1];
      assert outs == earlier + [o];
      assert o in outs && forall p | p in earlier :: p in outs;
      CandidInvariant(items, before, earlier);
      AddInvariant(items, before, earlier);
      CandidStep(items, before, Exec(Add(items), before, earlier), earlier, o);
      LastStaysMerge(items, before, Exec(Add(items), before, earlier), earlier, o);
    }
  }

  lemma {:induction false} FilterIsSplit(items: seq<Line>, verdicts: seq<bool>, ids: set<string>)
    requires |verdicts| == |items| && forall i | 0 <= i < |items| :: items[i].spinId in ids <==> !verdicts[i]
    ensures Filter(items, Outside(ids)) == Split(items, verdicts, true)
  {
    if items != [] {
      FilterIsSplit(items[..|items| - 1], verdicts[..|items| - 1], ids);
    }
  }

  // --------------------------------------------- accepted and rejected partition

  /** Every requested item is in exactly one of the two lists of the answer. */
  ghost predicate Partitions(items: seq<Line>, result: Result) {
    result.Mutated? ==>
      multiset(result.added) + multiset(Map((r: Rejected) => r.item, result.rejected)) == multiset(items)
  }

  lemma {:induction false} FilterCount<T(!new)>(s: seq<T>, p: T -> bool, x: T)
    ensures multiset(Filter(s, p))[x] == if p(x) then multiset(s)[x] else 0
  {
    if s != [] {
      FilterCount(s[..|s| - 1], p, x);
      assert s == s[..|s| - 1] + [s[|s| - 1]];
    }
  }

  lemma {:induction false} CountOnce(lines: seq<Line>, x: Line)
    requires NoDup(Ids(lines))
    ensures multiset(lines)[x] == if x in lines then 1 else 0
  {
    if lines != [] {
      var init, last := lines[..|lines| - 1], lines[|lines| - 1];
      assert Ids(init) == Ids(lines)[..|init|];
      CountOnce(init, x);
      assert lines == init + [last];
      forall i | 0 <= i < |init| ensures init[i] != last {
        assert Ids(lines)[i] != Ids(lines)[|init|];
      }
    }
  }

  lemma {:induction false} IdNamesItem(lines: seq<Line>, part: seq<Line>, x: Line)
    requires NoDup(Ids(lines)) && x in lines && (forall y | y in part :: y in lines)
    ensures x.spinId in Ids(part) <==> x in part
  {
    if x.spinId in Ids(part) {
      var i :| 0 <= i < |part| && Ids(part)[i] == x.spinId;
      assert part[i] in lines;
      var j :| 0 <= j < |lines| && lines[j] == part[i];
      var k :| 0 <= k < |lines| && lines[k] == x;
      assert Ids(lines)[j] == Ids(lines)[k];
    }
    if x in part {
      var i :| 0 <= i < |part| && part[i] == x;
      assert Ids(part)[i] == x.spinId;
    }
  }

  lemma {:induction false} RejectedItems(refused: seq<Line>, dropped: seq<Line>)
    ensures var rejected := Because(refused, RefusedBySwiggy) + Because(dropped, DroppedBySwiggy);
      && Map((r: Rejected) => r.item, rejected) == refused + dropped
      && forall id :: id in RejectedIds(rejected) <==> id in Ids(refused) || id in Ids(dropped)
  {
    var rejected := Because(refused, RefusedBySwiggy) + Because(dropped, DroppedBySwiggy);
    var n := |refused|;
    forall id ensures id in RejectedIds(rejected) <==> id in Ids(refused) || id in Ids(dropped) {
      if id in RejectedIds(rejected) {
        var r :| r in rejected && r.item.spinId == id;
        var i :| 0 <= i < |rejected| && rejected[i] == r;
        assert if i < n then Ids(refused)[i] == id else Ids(dropped)[i - n] == id;
      }
      if id in Ids(refused) {
        var i :| 0 <= i < n && Ids(refused)[i] == id;
        assert rejected[i] in rejected && rejected[i].item.spinId == id;
      }
      if id in Ids(dropped) {
        var i :| 0 <= i < |dropped| && Ids(dropped)[i] == id;
        assert rejected[n + i] in rejected && rejected[n + i].item.spinId == id;
      }
    }
  }

  lemma {:induction false} FinishAddPartitions(items: seq<Line>, cart: seq<Line>, verdicts: seq<bool>)
    requires NoDup(Ids(items)) && |verdicts| == |items|
    ensures Partitions(items, FinishAdd(items, cart, Split(items, verdicts, false)))
  {
    var kept, refused := Split(items, verdicts, true), Split(items, verdicts, false);
    var dropped := Dropped(cart, items, Ids(refused));
    var rejected := Because(refused, RefusedBySwiggy) + Because(dropped, DroppedBySwiggy);
    var added := Filter(items, Outside(RejectedIds(rejected)));
    SplitCovers(items, verdicts);
    RejectedItems(refused, dropped);
    FilterMembers(items, Unaccounted(Ids(cart), Ids(refused)));
    forall x ensures (multiset(added) + multiset(refused + dropped))[x] == multiset(items)[x] {
      FilterCount(items, Outside(RejectedIds(rejected)), x);
      FilterCount(items, Unaccounted(Ids(cart), Ids(refused)), x);
      CountOnce(items, x);
      assert multiset(kept)[x] + multiset(refused)[x] == multiset(items)[x];
      if x in items {
        assert forall y | y in refused :: y in multiset(items);
        IdNamesItem(items, refused, x);
        IdNamesItem(items, dropped, x);
      }
    }
  }

  /** With distinct ids the items an add reports as added are the accepted ones that are in the cart. */
  lemma {:induction false} AddedAreAccepted(items: seq<Line>, cart: seq<Line>, verdicts: seq<bool>)
    requires NoDup(Ids(items)) && |verdicts| == |items|
    requires forall item | item in Split(items, verdicts, true) :: item.spinId in Ids(cart)
    ensures FinishAdd(items, cart, Split(items, verdicts, false)).added == Split(items, verdicts, true)
  {
    var refused := Split(items, verdicts, false);
    forall item | item in items ensures item.spinId in Ids(cart) || item.spinId in Ids(refused) {
      var i :| 0 <= i < |items| && items[i] == item;
      SplitHas(items, verdicts, verdicts[i], i);
      if !verdicts[i] {
        var k :| 0 <= k < |refused| && refused[k] == item;
        assert Ids(refused)[k] == item.spinId;
      }
    }
    NothingDropped(cart, items, Ids(refused));
    RejectedItems(refused, []);
    var rejected := Because(refused, RefusedBySwiggy) + Because([], DroppedBySwiggy);
    forall i | 0 <= i < |items| ensures items[i].spinId in RejectedIds(rejected) <==> !verdicts[i] {
      RefusedExactly(items, verdicts, i);
    }
    FilterIsSplit(items, verdicts, RejectedIds(rejected));
  }

  lemma {:induction false} RefusedExactly(items: seq<Line>, verdicts: seq<bool>, i: nat)
    requires NoDup(Ids(items)) && |verdicts| == |items| && i < |items|
    ensures items[i].spinId in Ids(Split(items, verdicts, false)) <==> !verdicts[i]
  {
    var refused := Split(items, verdicts, false);
    if !verdicts[i] {
      SplitHas(items, verdicts, false, i);
      var k :| 0 <= k < |refused| && refused[k] == items[i];
      assert Ids(refused)[k] == items[i].spinId;
    }
    forall k | 0 <= k < |refused| ensures Ids(refused)[k] == items[i].spinId ==> !verdicts[i] {
      var j := SplitFrom(items, verdicts, false, k);
      assert i != j ==> Ids(items)[i] != Ids(items)[j];
    }
  }

  lemma {:induction false} SplitFrom(items: seq<Line>, verdicts: seq<bool>, wanted: bool, k: nat) returns (j: nat)
    requires |verdicts| == |items| && k < |Split(items, verdicts, wanted)|
    ensures j < |items| && items[j] == Split(items, verdicts, wanted)[k] && verdicts[j] == wanted
  {
    var n := |items| - 1;
    if verdicts[n] == wanted && k == |Split(items, verdicts, wanted)| - 1 {
      j := n;
    } else {
      j := SplitFrom(items[..n], verdicts[..n], wanted, k);
    }
  }

  /** A candid add of distinct ids, partly refused or not, answered or not, leaves the old cart merged with
      exactly what it reports as added. */
  lemma {:induction false} CandidAddKeepsCount(items: seq<Line>, before: seq<Line>, outs: seq<Outcome>)
    requires items != [] && NoDup(Ids(items)) && Candid(outs)
    requires Exec(Add(items), before, outs).pc.Done?
    ensures var c := Exec(Add(items), before, outs); c.cart == Onto(before, Reported(c.pc.result))
  {
    CandidInvariant(items, before, outs);
    AddInvariant(items, before, outs);
    var c := Exec(Add(items), before, outs);
    if c.pc.result.Mutated? {
      var accepted := Accepted(items, outs);
      forall item | item in accepted ensures item.spinId in Ids(c.cart) {
        MergedHasAll(before, accepted, item);
      }
      AddedAreAccepted(items, c.cart, Sorting(items, outs));
    }
  }

  /** The verdicts by which all items but the j-th are accepted. */
  function AllBut(n: nat, j: nat): seq<bool> {
    seq(n, i => i != j)
  }

  lemma {:induction false} SplitAllBut(items: seq<Line>, j: nat)
    requires j < |items|
    ensures Split(items, AllBut(|items|, j), false) == [items[j]]
  {
    var n := |items| - 1;
    if j == n {
      SplitAllOneWay(items[..n], true);
      assert AllBut(n + 1, j)[..n] == seq(n, _ => true);
    } else {
      SplitAllBut(items[..n], j);
      assert AllBut(n + 1, j)[..n] == AllBut(n, j);
    }
  }

  lemma {:induction false} SplitHas(items: seq<Line>, verdicts: seq<bool>, wanted: bool, k: nat)
    requires |verdicts| == |items| && k < |items| && verdicts[k] == wanted
    ensures items[k] in Split(items, verdicts, wanted)
  {
    var n := |items| - 1;
    if k < n {
      SplitHas(items[..n], verdicts[..n], wanted, k);
    }
  }

  lemma {:induction false} FilterMisses<T(!new)>(s: seq<T>, p: T -> bool, i: nat, j: nat)
    requires i <= j < |s| && !p(s[i]) && !p(s[j])
    ensures |Filter(s, p)| <= |s| - if i < j then 2 else 1
  {
    var n := |s| - 1;
    if j < n {
      FilterMisses(s[..n], p, i, j);
    } else if i < n {
      FilterMisses(s[..n], p, i, i);
    } else {
      FilterMembers(s[..n], p);
    }
  }

  /** The fallback after accepting and refusing these, when nothing is silently dropped. */
  function Fallback(items: seq<Line>, before: seq<Line>, accepted: seq<Line>, refused: seq<Line>): Config {
    if accepted == [] then Config(NextOne(items, before, [], refused, None), before)
    else Config(NextOne(items, before, accepted, refused, Some(Merged(before, accepted))), Merged(before, accepted))
  }

  lemma {:induction false} FallbackTakes(items: seq<Line>, before: seq<Line>, accepted: seq<Line>, refused: seq<Line>)
    requires |accepted| + |refused| < |items|
    ensures var c := Fallback(items, before, accepted, refused);
      && Fits(Add(items), c.pc)
      && Step(Add(items), c, Accept({})) == Fallback(items, before, accepted + [items[|accepted| + |refused|]], refused)
  {
    var item := items[|accepted| + |refused|];
    KeptAll(Merged(before, accepted + [item]));
    assert accepted + [item] != [];
  }

  lemma {:induction false} FallbackSkips(items: seq<Line>, before: seq<Line>, accepted: seq<Line>, refused: seq<Line>)
    requires |accepted| + |refused| < |items|
    ensures var c := Fallback(items, before, accepted, refused);
      && Fits(Add(items), c.pc)
      && Step(Add(items), c, Refuse) == Fallback(items, before, accepted, refused + [items[|accepted| + |refused|]])
  {
  }

  lemma {:induction false} FallbackStarts(items: seq<Line>, before: seq<Line>)
    requires items != []
    ensures Exec(Add(items), before, [Accept({}), Refuse]) == Fallback(items, before, [], [])
  {
    var op, o1: Outcome, o2 := Add(items), Accept({}), Refuse;
    ExecSnoc(op, before, [], o1);
    assert [] + [o1] == [o1] && Exec(op, before, [o1]) == Config(AddBatch(before), before);
    ExecSnoc(op, before, [o1], o2);
    assert [o1] + [o2] == [o1, o2];
  }

  lemma {:induction false} SplitAt(items: seq<Line>, v: seq<bool>, k: nat, wanted: bool)
    requires k < |items| == |v|
    ensures Split(items[..k + 1], v[..k + 1], wanted)
      == if v[k] == wanted then Split(items[..k], v[..k], wanted) + [items[k]] else Split(items[..k], v[..k], wanted)
  {
    assert items[..k + 1] == items[..k] + [items[k]] && v[..k + 1] == v[..k] + [v[k]];
    SplitSnoc(items[..k], v[..k], items[k], v[k], wanted);
  }

  /** The items of each kind among the first `k`, when all but the j-th are accepted. */
  function Sorted(items: seq<Line>, j: nat, k: nat, wanted: bool): seq<Line>
    requires k <= |items|
  {
    if k == 0 then [] else
      var rest := Sorted(items, j, k - 1, wanted);
      if (k - 1 != j) == wanted then rest + [items[k - 1]] else rest
  }

  lemma {:induction false} SortedIsSplit(items: seq<Line>, j: nat, k: nat, wanted: bool)
    requires j < |items| && k <= |items|
    ensures Sorted(items, j, k, wanted) == Split(items[..k], AllBut(|items|, j)[..k], wanted)
  {
    if k > 0 {
      SortedIsSplit(items, j, k - 1, wanted);
      SplitAt(items, AllBut(|items|, j), k - 1, wanted);
    }
  }

  lemma {:induction false} SortedCount(items: seq<Line>, j: nat, k: nat)
    requires k <= |items|
    ensures |Sorted(items, j, k, true)| + |Sorted(items, j, k, false)| == k
  {
    if k > 0 {
      SortedCount(items, j, k - 1);
    }
  }

  lemma {:induction false} ExecTakes(items: seq<Line>, before: seq<Line>, outs: seq<Outcome>, accepted: seq<Line>,
                                     refused: seq<Line>)
    requires items != [] && |accepted| + |refused| < |items|
    requires Exec(Add(items), before, outs) == Fallback(items, before, accepted, refused)
    ensures Exec(Add(items), before, outs + [Accept({})])
      == Fallback(items, before, accepted + [items[|accepted| + |refused|]], refused)
  {
    ExecSnoc(Add(items), before, outs, Accept({}));
    FallbackTakes(items, before, accepted, refused);
  }

  lemma {:induction false} ExecSkips(items: seq<Line>, before: seq<Line>, outs: seq<Outcome>, accepted: seq<Line>,
                                     refused: seq<Line>)
    requires items != [] && |accepted| + |refused| < |items|
    requires Exec(Add(items), before, outs) == Fallback(items, before, accepted, refused)
    ensures Exec(Add(items), before, outs + [Refuse])
      == Fallback(items, before, accepted, refused + [items[|accepted| + |refused|]])
  {
    ExecSnoc(Add(items), before, outs, Refuse);
    FallbackSkips(items, before, accepted, refused);
  }

  /** Where a script has brought the fallback. */
  type Place = (seq<Outcome>, seq<Line>, seq<Line>) -> bool

  function Placed(items: seq<Line>, before: seq<Line>): Place
    requires items != []
  {
    (outs: seq<Outcome>, accepted: seq<Line>, refused: seq<Line>) =>
      Exec(Add(items), before, outs) == Fallback(items, before, accepted, refused)
  }

  /** A place can be left by accepting the next item, or by refusing it. */
  ghost predicate GoesOn(items: seq<Line>, at: Place, outs: seq<Outcome>, accepted: seq<Line>, refused: seq<Line>) {
    at(outs, accepted, refused) && |accepted| + |refused| < |items| ==>
      && at(outs + [Accept({})], accepted + [items[|accepted| + |refused|]], refused)
      && at(outs + [Refuse], accepted, refused + [items[|accepted| + |refused|]])
  }

  ghost predicate Walkable(items: seq<Line>, at: Place) {
    forall outs: seq<Outcome>, accepted: seq<Line>, refused: seq<Line> :: GoesOn(items, at, outs, accepted, refused)
  }

  lemma {:induction false} FallbackWalks(items: seq<Line>, before: seq<Line>)
    requires items != []
    ensures Walkable(items, Placed(items, before)) && Placed(items, before)([Accept({}), Refuse], [], [])
  {
    var at := Placed(items, before);
    forall outs: seq<Outcome>, accepted: seq<Line>, refused: seq<Line> ensures GoesOn(items, at, outs, accepted, refused) {
      if at(outs, accepted, refused) && |accepted| + |refused| < |items| {
        ExecTakes(items, before, outs, accepted, refused);
        ExecSkips(items, before, outs, accepted, refused);
      }
    }
    FallbackStarts(items, before);
  }

  /** There is a script on which, of the first `k` items, exactly the j-th is refused. */
  lemma {:induction false} Walk(items: seq<Line>, at: Place, first: seq<Outcome>, j: nat, k: nat)
    returns (outs: seq<Outcome>)
    requires Walkable(items, at) && at(first, [], []) && k <= |items|
    ensures at(outs, Sorted(items, j, k, true), Sorted(items, j, k, false))
  {
    if k == 0 {
      outs := first;
    } else {
      outs := Walk(items, at, first, j, k - 1);
      SortedCount(items, j, k - 1);
      assert GoesOn(items, at, outs, Sorted(items, j, k - 1, true), Sorted(items, j, k - 1, false));
      outs := outs + [if k - 1 != j then Accept({}) else Refuse];
    }
  }

  lemma {:induction false} FallbackDone(items: seq<Line>, before: seq<Line>, accepted: seq<Line>, refused: seq<Line>)
    requires accepted != [] && |accepted| + |refused| == |items|
    ensures Fallback(items, before, accepted, refused)
      == Config(Done(FinishAdd(items, Merged(before, accepted), refused)), Merged(before, accepted))
  {
  }

  /** All the verdicts sort the whole request. */
  lemma {:induction false} AllSorted(items: seq<Line>, j: nat)
    requires j < |items|
    ensures Sorted(items, j, |items|, true) == Split(items, AllBut(|items|, j), true)
    ensures Sorted(items, j, |items|, false) == [items[j]]
  {
    assert items[..|items|] == items && AllBut(|items|, j)[..|items|] == AllBut(|items|, j);
    SortedIsSplit(items, j, |items|, true);
    SortedIsSplit(items, j, |items|, false);
    SplitAllBut(items, j);
  }

  lemma {:induction false} FallbackEnds(items: seq<Line>, j: nat, accepted: seq<Line>) returns (outs: seq<Outcome>)
    requires j < |items| && accepted == Split(items, AllBut(|items|, j), true) && accepted != []
    ensures Exec(Add(items), [], outs)
      == Config(Done(FinishAdd(items, Merged([], accepted), [items[j]])), Merged([], accepted))
  {
    FallbackWalks(items, []);
    outs := Walk(items, Placed(items, []), [Accept({}), Refuse], j, |items|);
    AllSorted(items, j);
    SortedCount(items, j, |items|);
    FallbackDone(items, [], accepted, [items[j]]);
  }

  lemma {:induction false} ARepeatedIdCanVanish(items: seq<Line>, i: nat, j: nat)
    requires i < j < |items| && Ids(items)[i] == Ids(items)[j]
    ensures exists before, outs ::
      Exec(Add(items), before, outs).pc.Done? && !Partitions(items, Exec(Add(items), before, outs).pc.result)
  {
    var n, v := |items|, AllBut(|items|, j);
    var accepted := Split(items, v, true);
    SplitHas(items, v, true, i);
    var outs := FallbackEnds(items, j, accepted);
    var cart, refused := Merged([], accepted), [items[j]];
    VanishingAnswer(items, cart, i, j) by {
      forall item | item in items ensures item.spinId in Ids(cart) || item.spinId in Ids(refused) {
        var k :| 0 <= k < n && items[k] == item;
        if k == j {
          assert Ids(refused)[0] == item.spinId;
        } else {
          SplitHas(items, v, true, k);
          MergedHasAll([], accepted, item);
        }
      }
    }
  }

  lemma {:induction false} VanishingAnswer(items: seq<Line>, cart: seq<Line>, i: nat, j: nat)
    requires i < j < |items| && Ids(items)[i] == Ids(items)[j]
    requires forall item | item in items :: item.spinId in Ids(cart) || item.spinId in Ids([items[j]])
    ensures !Partitions(items, FinishAdd(items, cart, [items[j]]))
  {
    var refused := [items[j]];
    NothingDropped(cart, items, Ids(refused));
    RejectedItems(refused, []);
    var rejected := Because(refused, RefusedBySwiggy) + Because([], DroppedBySwiggy);
    assert Ids(refused)[0] == items[j].spinId == items[i].spinId;
    FilterMisses(items, Outside(RejectedIds(rejected)), i, j);
    var added := Filter(items, Outside(RejectedIds(rejected)));
    assert refused + [] == refused;
    assert |multiset(added) + multiset(refused)| == |added| + 1;
    assert |multiset(items)| == |items|;
  }

  /** Whatever Swiggy answers, `added` and `rejected` partition the request: exactly for requests
      that name no id twice. If one copy of a repeated id is refused, the other is in neither list. */
  lemma {:induction false} PartitionExactlyForDistinctIds(items: seq<Line>)
    requires items != []
    ensures (forall before, outs :: Exec(Add(items), before, outs).pc.Done?
              ==> Partitions(items, Exec(Add(items), before, outs).pc.result))
      <==> NoDup(Ids(items))
  {
    if NoDup(Ids(items)) {
      forall before, outs | Exec(Add(items), before, outs).pc.Done?
        ensures Partitions(items, Exec(Add(items), before, outs).pc.result)
      {
        AddInvariant(items, before, outs);
        var c := Exec(Add(items), before, outs);
        if !c.pc.result.Raised? {
          FinishAddPartitions(items, c.pc.result.cart, Sorting(items, outs));
        }
      }
    } else {
      var i, j :| 0 <= i < j < |items| && Ids(items)[i] == Ids(items)[j];
      ARepeatedIdCanVanish(items, i, j);
    }
  }
}
