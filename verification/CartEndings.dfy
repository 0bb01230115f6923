/** How a cart operation ends, told from the cart it began on and from how Swiggy met its calls alone. */
module CartEndings {
  import opened Collections
  import opened CartMerge
  import opened CartOps
  import opened CartAnswers

  /** The k-th call was made and accepted, or made and not. */
  predicate Took(outs: seq<Outcome>, k: nat) {
    k < |outs| && outs[k].Accept?
  }

  predicate Stopped(outs: seq<Outcome>, k: nat) {
    k < |outs| && !outs[k].Accept?
  }

  /** An auth or transport error, which nothing catches. */
  predicate Broke(outs: seq<Outcome>, k: nat) {
    k < |outs| && outs[k].Fail?
  }

  /** Refused outright, or written as Swiggy saw fit and sent for review: one error class. */
  predicate Declined(outs: seq<Outcome>, k: nat) {
    k < |outs| && (outs[k].Refuse? || outs[k].Review?)
  }

  predicate OnlyLine(lines: seq<Line>, id: string) {
    forall i | 0 <= i < |lines| :: lines[i].spinId == id
  }

  /** The operation raises: a read was not accepted, or a write failed in a way it does not handle. */
  ghost predicate EndsInError(op: Op, before: seq<Line>, outs: seq<Outcome>) {
    match op
    case Clear => Stopped(outs, 0) || Stopped(outs, 1)
    case Remove(id) =>
      || Stopped(outs, 0)
      || (id in Ids(before) && (Stopped(outs, 1) || (OnlyLine(before, id) && Stopped(outs, 2))))
    case SetQuantity(id, _) =>
      || Stopped(outs, 0)
      || (id in Ids(before) && (Broke(outs, 1) || (Declined(outs, 1) && Stopped(outs, 2))))
    case Compose(purchasable) =>
      || Stopped(outs, 0)
      || (purchasable != [] && |outs| >= 2
          && (outs[1].Refuse? || outs[1].Fail? || (outs[1].Review? && Stopped(outs, 2))))
    case Add(items) =>
      || Stopped(outs, 0)
      || Broke(outs, 1)
      || (Declined(outs, 1) && (exists k: nat :: 2 <= k < |items| + 2 && Broke(outs, k)))
      || (Stopped(outs, |items| + 2) && forall k: nat | 1 <= k < |items| + 2 :: Declined(outs, k))
  }

  /** The cart that was read has no line to set or remove. */
  ghost predicate EndsUnfound(op: Op, before: seq<Line>, outs: seq<Outcome>) {
    (op.SetQuantity? || op.Remove?) && Took(outs, 0) && op.spinId !in Ids(before)
  }

  /** No further call is made. */
  ghost predicate Over(op: Op, before: seq<Line>, outs: seq<Outcome>) {
    EndsInError(op, before, outs) || EndsUnfound(op, before, outs) ||
    match op
    case Clear => |outs| >= 2
    case Remove(id) => |outs| >= (if OnlyLine(before, id) then 3 else 2)
    case SetQuantity(_, _) => Took(outs, 1) || |outs| >= 3
    case Compose(purchasable) => if purchasable == [] then |outs| >= 1 else Took(outs, 1) || |outs| >= 3
    case Add(items) =>
      || Took(outs, 1)
      || |outs| >= |items| + 3
      || (|outs| >= |items| + 2 && exists k: nat :: 2 <= k < |items| + 2 && Took(outs, k))
  }

  ghost predicate EndsSo(op: Op, before: seq<Line>, result: Result, outs: seq<Outcome>) {
    && Over(op, before, outs)
    && (result.Raised? <==> EndsInError(op, before, outs))
    && (result.NotFound? <==> !EndsInError(op, before, outs) && EndsUnfound(op, before, outs))
  }

  /** Where an operation stands after these calls. */
  ghost predicate StandsAt(op: Op, before: seq<Line>, pc: Pc, outs: seq<Outcome>) {
    match pc
    case Reading => outs == []
    case AddBatch(_) => |outs| == 1 && Took(outs, 0)
    case AddOne(_, accepted, refused, _) =>
      |outs| == 2 + |accepted| + |refused| && OneByOne(outs) && (accepted != [] <==> exists k: nat :: 2 <= k && Took(outs, k))
    case AddReadBack(_) => op.Add? && |outs| == 2 + |op.items| && OneByOne(outs) && forall k: nat | 2 <= k :: !Took(outs, k)
    case SetWrite(_) => |outs| == 1 && Took(outs, 0) && op.SetQuantity? && op.spinId in Ids(before)
    case SetReadBack => |outs| == 2 && Took(outs, 0) && Declined(outs, 1) && op.SetQuantity? && op.spinId in Ids(before)
    case RemoveWrite(_) =>
      |outs| == 1 && Took(outs, 0) && op.Remove? && op.spinId in Ids(before) && !OnlyLine(before, op.spinId)
    case Clearing =>
      if op.Remove? then |outs| == 1 && Took(outs, 0) && op.spinId in Ids(before) && OnlyLine(before, op.spinId)
      else outs == []
    case ComposeWrite(_) => |outs| == 1 && Took(outs, 0)
    case FinalRead =>
      (match op
       case Clear => |outs| == 1 && Took(outs, 0)
       case Remove(id) => |outs| == 2 && Took(outs, 0) && Took(outs, 1) && id in Ids(before) && OnlyLine(before, id)
       case Compose(purchasable) =>
         if purchasable == [] then outs == [] else |outs| == 2 && Took(outs, 0) && outs[1].Review?
       case _ => false)
    case Done(result) => EndsSo(op, before, result, outs)
  }

  /** The read was accepted, the batch declined, and nothing has failed since. */
  ghost predicate OneByOne(outs: seq<Outcome>) {
    |outs| >= 2 && Took(outs, 0) && Declined(outs, 1) && forall k: nat | 2 <= k < |outs| :: !outs[k].Fail?
  }

  lemma {:induction false} NothingElse(lines: seq<Line>, id: string)
    ensures Without(lines, id) == [] <==> OnlyLine(lines, id)
  {
    FilterMembers(lines, Outside({id}));
    if OnlyLine(lines, id) {
      FilterNone(lines, Outside({id}));
    } else {
      var i :| 0 <= i < |lines| && lines[i].spinId != id;
      assert lines[i] in Without(lines, id);
    }
  }

  lemma {:induction false} OverStays(op: Op, before: seq<Line>, result: Result, outs: seq<Outcome>, o: Outcome)
    requires WellFormed(op) && !op.Add? && EndsSo(op, before, result, outs)
    ensures EndsSo(op, before, result, outs + [o])
  {
    assert forall k | 0 <= k < |outs| :: (outs + [o])[k] == outs[k];
  }

  lemma {:induction false} StandsNext(op: Op, before: seq<Line>, c: Config, outs: seq<Outcome>, o: Outcome)
    requires WellFormed(op) && !op.Add? && Fits(op, c.pc) && Unwritten(op, before, c) && StandsAt(op, before, c.pc, outs)
    ensures StandsAt(op, before, Step(op, c, o).pc, outs + [o])
  {
    var met := outs + [o];
    assert forall k | 0 <= k < |outs| :: met[k] == outs[k];
    if c.pc.Done? {
      OverStays(op, before, c.pc.result, outs, o);
    } else if op.Remove? {
      NothingElse(before, op.spinId);
    }
  }

  // ------------------------------------------------------------- the fallback

  lemma {:induction false} AddStays(items: seq<Line>, before: seq<Line>, result: Result, outs: seq<Outcome>, o: Outcome)
    requires items != [] && EndsSo(Add(items), before, result, outs)
    ensures EndsSo(Add(items), before, result, outs + [o])
  {
    var met := outs + [o];
    assert forall k | 0 <= k < |outs| :: met[k] == outs[k];
    forall k: nat | k < |items| + 2 && k < |outs|
      ensures Broke(met, k) == Broke(outs, k) && Took(met, k) == Took(outs, k) && Declined(met, k) == Declined(outs, k)
    {
    }
    if |outs| >= |items| + 2 {
      assert forall k: nat | k < |items| + 2 :: Broke(met, k) == Broke(outs, k);
      if k: nat :| 2 <= k < |items| + 2 && Took(outs, k) {
        assert !Declined(met, k);
      }
    }
    if k: nat :| 2 <= k < |items| + 2 && Broke(outs, k) {
      assert Broke(met, k);
    }
    if k: nat :| 2 <= k < |items| + 2 && Took(outs, k) {
      assert Took(met, k);
    }
  }

  lemma {:induction false} OneMore(outs: seq<Outcome>, o: Outcome)
    requires OneByOne(outs) && !o.Fail?
    ensures OneByOne(outs + [o])
    ensures (exists k: nat :: 2 <= k && Took(outs + [o], k)) <==> o.Accept? || exists k: nat :: 2 <= k && Took(outs, k)
  {
    var met := outs + [o];
    assert forall k | 0 <= k < |outs| :: met[k] == outs[k];
    assert o.Accept? ==> Took(met, |outs|);
    if k: nat :| 2 <= k && Took(outs, k) {
      assert Took(met, k);
    }
    if k: nat :| 2 <= k && Took(met, k) {
      assert k < |outs| ==> Took(outs, k);
    }
  }

  lemma {:induction false} BrokenOff(items: seq<Line>, before: seq<Line>, outs: seq<Outcome>, o: Outcome)
    requires items != [] && 2 <= |outs| < |items| + 2 && OneByOne(outs) && o.Fail?
    ensures EndsSo(Add(items), before, Raised, outs + [o])
  {
    var met := outs + [o];
    assert forall k | 0 <= k < |outs| :: met[k] == outs[k];
    assert Broke(met, |outs|);
  }

  lemma {:induction false} NextOneStands(items: seq<Line>, before: seq<Line>, baseline: seq<Line>, accepted: seq<Line>,
                                         refused: seq<Line>, last: Option<seq<Line>>, outs: seq<Outcome>)
    requires items != [] && |accepted| + |refused| <= |items| && (last.Some? <==> accepted != [])
    requires |outs| == 2 + |accepted| + |refused| && OneByOne(outs)
    requires accepted != [] <==> exists k: nat :: 2 <= k && Took(outs, k)
    ensures StandsAt(Add(items), before, NextOne(items, baseline, accepted, refused, last), outs)
  {
    if |accepted| + |refused| == |items| && accepted != [] {
      var k: nat :| 2 <= k && Took(outs, k);
      assert k < |items| + 2;
    }
  }

  lemma {:induction false} OneStands(items: seq<Line>, before: seq<Line>, c: Config, outs: seq<Outcome>, o: Outcome)
    requires items != [] && c.pc.AddOne? && Fits(Add(items), c.pc) && StandsAt(Add(items), before, c.pc, outs)
    ensures StandsAt(Add(items), before, Step(Add(items), c, o).pc, outs + [o])
  {
    var AddOne(baseline, accepted, refused, last) := c.pc;
    var item := items[|accepted| + |refused|];
    if o.Fail? {
      BrokenOff(items, before, outs, o);
    } else {
      OneMore(outs, o);
      if o.Accept? {
        var got := Kept(Merged(baseline, accepted + [item]), o.drops);
        NextOneStands(items, before, baseline, accepted + [item], refused, Some(got), outs + [o]);
      } else {
        NextOneStands(items, before, baseline, accepted, refused + [item], last, outs + [o]);
      }
    }
  }

  /** Nothing was accepted, and the last read settles how it ends. */
  lemma {:induction false} LastReadStands(items: seq<Line>, before: seq<Line>, c: Config, outs: seq<Outcome>, o: Outcome)
    requires items != [] && c.pc.AddReadBack? && Fits(Add(items), c.pc) && StandsAt(Add(items), before, c.pc, outs)
    ensures StandsAt(Add(items), before, Step(Add(items), c, o).pc, outs + [o])
  {
    var met := outs + [o];
    assert forall k | 0 <= k < |outs| :: met[k] == outs[k];
    forall k: nat | 1 <= k < |items| + 2 ensures Declined(met, k) && !Broke(met, k) {
      assert k >= 2 ==> !Took(outs, k);
    }
  }

  lemma {:induction false} BatchStands(items: seq<Line>, before: seq<Line>, c: Config, outs: seq<Outcome>, o: Outcome)
    requires items != [] && c.pc.AddBatch? && StandsAt(Add(items), before, c.pc, outs)
    ensures StandsAt(Add(items), before, Step(Add(items), c, o).pc, outs + [o])
  {
    var met := outs + [o];
    assert met[0] == outs[0] && met[1] == o;
    if Declined(met, 1) {
      assert forall k: nat | 2 <= k :: !Took(met, k);
      NextOneStands(items, before, c.pc.baseline, [], [], None, met);
    }
  }

  lemma {:induction false} Stands(op: Op, before: seq<Line>, outs: seq<Outcome>)
    requires WellFormed(op)
    ensures StandsAt(op, before, Exec(op, before, outs).pc, outs)
  {
    if outs != [] {
      var earlier, o := outs[..|outs| - 1], outs[|outs| - 1];
      var c := Exec(op, before, earlier);
      Stands(op, before, earlier);
      assert outs == earlier + [o];
      if op.Add? {
        match c.pc
        case AddBatch(_) => BatchStands(op.items, before, c, earlier, o);
        case AddOne(_, _, _, _) => OneStands(op.items, before, c, earlier, o);
        case AddReadBack(_) => LastReadStands(op.items, before, c, earlier, o);
        case Done(result) => AddStays(op.items, before, result, earlier, o);
        case _ =>
      } else {
        FirstWrite(op, before, earlier);
        StandsNext(op, before, c, earlier, o);
      }
    }
  }

  /** No operation ends early or goes on late. */
  lemma {:induction false} NotOverYet(op: Op, before: seq<Line>, pc: Pc, outs: seq<Outcome>)
    requires WellFormed(op) && Fits(op, pc) && !pc.Done? && StandsAt(op, before, pc, outs)
    ensures !Over(op, before, outs)
  {
  }

  /** How each of the five operations ends, whatever Swiggy does: it is over exactly when no call is left to
      make, raises exactly when a call it does not recover from was not accepted (a declined write of a set or an
      add, and a reviewed one of a compose, are recovered from), and finds no line exactly when the cart it read
      has none. */
  lemma {:induction false} EndsExactlySo(op: Op, before: seq<Line>, outs: seq<Outcome>)
    requires WellFormed(op)
    ensures var pc := Exec(op, before, outs).pc;
      && (pc.Done? <==> Over(op, before, outs))
      && (pc == Done(Raised) <==> EndsInError(op, before, outs))
      && (pc == Done(NotFound) <==> !EndsInError(op, before, outs) && EndsUnfound(op, before, outs))
  {
    Stands(op, before, outs);
    var pc := Exec(op, before, outs).pc;
    if !pc.Done? {
      NotOverYet(op, before, pc, outs);
    }
  }
}
