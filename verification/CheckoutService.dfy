/** `place_order` as app/cart/checkout.py runs it, committing to the order table between calls:
    each execution is a run of the step machine in Checkout. */
module CheckoutService {
  import opened Collections
  import opened Checkout

  /** How Swiggy treats one attempt: what it read of the cart, whether it placed an order (and
      under which id), what it answered, and whether the order history could be read after. */
  datatype Attempt = Attempt(cart: CartAnswer, made: Option<string>, answer: Answer, readable: bool) {
    predicate Possible() {
      match answer
      case Confirmed(id) => made == Some(id)
      case Refused => made == None
      case _ => true
    }
  }

  /** A commit fails, and leaves the row as it was, on an order id the table already has. */
  function Committed(rows: seq<Row>, row: nat, final: Row): (seq<Row>, Outcome)
    requires row < |rows|
  {
    if final.orderId.Some? && HasOrder(rows, final.orderId.value) then (rows, Raised)
    else (rows[row := final], Returned(row))
  }

  /** The table and the answer once Swiggy has been asked to place the order of `row`. */
  function FinalRows(rows: seq<Row>, row: nat, user: int, swiggy: Attempt): (seq<Row>, Outcome)
    requires row < |rows|
  {
    match swiggy.answer
    case Confirmed(id) => Committed(rows, row, Row(user, Placed, Some(id)))
    case Refused => Committed(rows, row, Row(user, Failed, None))
    case _ => if swiggy.readable then Committed(rows, row, Row(user, Unknown, None)) else (rows, Raised)
  }

  /** The verdict a request ends with. */
  function Settled(swiggy: Attempt): Verdict {
    if swiggy.answer.Refused? then Dead
    else if swiggy.made.Some? then Made(swiggy.made.value) else Pending
  }

  /** The outcome is unknown and the orders cannot be read, or Swiggy confirms an order id the table has. */
  predicate LeftUnsettled(rows: seq<Row>, swiggy: Attempt) {
    match swiggy.answer
    case Confirmed(id) => HasOrder(rows, id)
    case Refused => false
    case _ => !swiggy.readable
  }

  /** What Swiggy's answer makes of the row the attempt inserted, and what its caller is told. */
  ghost predicate RecordedAs(user: int, swiggy: Attempt, before: seq<Row>, row: Row, o: Outcome) {
    match swiggy.answer
    case Refused => row == Row(user, Failed, None) && o == Returned(|before|)
    case Confirmed(id) =>
      if exists i :: 0 <= i < |before| && before[i].orderId == Some(id)
      then row == Row(user, Placing, None) && o == Raised
      else row == Row(user, Placed, Some(id)) && o == Returned(|before|)
    case _ =>
      if swiggy.readable then row == Row(user, Unknown, None) && o == Returned(|before|)
      else row == Row(user, Placing, None) && o == Raised
  }

  predicate IsPlacing(row: Row, user: int) {
    row.user == user && row.status.Placing?
  }

  /** An attempt leaves its row as its answer says, `placing` for good exactly if unsettled; it changes no other
      row. */
  lemma {:induction false} LeftPlacingExactlyWhen(rows: seq<Row>, user: int, swiggy: Attempt)
    ensures var r := |rows|;
      var (rows', o) := FinalRows(rows + [Row(user, Placing, None)], r, user, swiggy);
      && |rows'| == r + 1 && rows'[..r] == rows
      && (rows'[r].status.Placing? <==> LeftUnsettled(rows, swiggy))
      && RecordedAs(user, swiggy, rows, rows'[r], o)
  {
    var placing := rows + [Row(user, Placing, None)];
    if swiggy.answer.Confirmed? {
      assert HasOrder(placing, swiggy.answer.id) <==> HasOrder(rows, swiggy.answer.id) by {
        assert forall i | 0 <= i < |rows| :: placing[i] == rows[i];
      }
    }
  }

  lemma {:induction false} PlaysNext(v: World, run: seq<Event>, w: World, e: Event)
    requires Plays(v, run, w) && Shaped(w) && Enabled(w, e)
    ensures Plays(v, run + [e], Next(w, e)) && Shaped(Next(w, e))
  {
    NextShaped(w, e);
    assert (run + [e])[..|run|] == run;
    assert PlaysVia(v, run + [e], w, Next(w, e));
  }

  /** The `order` table and, beside it, the checkout requests that reached Swiggy. */
  class OrderTable {
    var rows: seq<Row>
    var calls: seq<Call>

    constructor ()
      ensures rows == [] && calls == []
    {
      rows, calls := [], [];
    }

    /** The table while one `place_order`, for `user`, is at `phase`. */
    ghost function View(user: int, phase: Phase): World
      reads this
    {
      World(map[0 := user], map[0 := phase], rows, calls)
    }

    method PlaceOrder(user: int, swiggy: Attempt) returns (o: Outcome, ghost run: seq<Event>)
      requires swiggy.Possible()
      modifies this
      ensures Plays(old(View(user, Start)), run, View(user, Done(o)))
      ensures swiggy.cart.Empty? ==> o == NotCheckoutable && rows == old(rows) && calls == old(calls)
      ensures swiggy.cart.Unreadable? ==> o == Raised && rows == old(rows) && calls == old(calls)
      ensures swiggy.cart.Filled? && (exists i :: 0 <= i < |old(rows)| && IsPlacing(old(rows)[i], user)) ==>
        o == InProgress && rows == old(rows) && calls == old(calls)
      ensures swiggy.cart.Filled? && (forall i | 0 <= i < |old(rows)| :: !IsPlacing(old(rows)[i], user)) ==>
        var r := |old(rows)|;
        && |rows| == r + 1 && rows[..r] == old(rows)
        && calls == old(calls) + [Call(r, Settled(swiggy))]
        && (rows[r].status.Placing? <==> LeftUnsettled(old(rows), swiggy))
        && RecordedAs(user, swiggy, old(rows), rows[r], o)
    {
      ghost var start := View(user, Start);
      ghost var table := rows;
      var admitted;
      admitted, o, run := Admit(user, swiggy.cart);
      if admitted {
        run := SendCheckout(user, |rows| - 1, start, run);
        o, run := AwaitCheckout(user, swiggy, |rows| - 1, start, run);
        LeftPlacingExactlyWhen(table, user, swiggy);
      }
    }

    /** The cart is there and the `placing` row is in, or the attempt is over. */
    method Admit(user: int, cart: CartAnswer) returns (admitted: bool, o: Outcome, ghost run: seq<Event>)
      modifies this
      ensures calls == old(calls)
      ensures admitted <==> cart.Filled? && !HasPlacing(old(rows), user)
      ensures rows == if admitted then old(rows) + [Row(user, Placing, None)] else old(rows)
      ensures !admitted ==>
        o == if cart.Empty? then NotCheckoutable else if cart.Unreadable? then Raised else InProgress
      ensures Plays(old(View(user, Start)), run,
                    View(user, if admitted then Inserted(|old(rows)|) else Done(o)))
    {
      ghost var start := View(user, Start);
      admitted, o := false, Raised;
      if !cart.Filled? {
        o := if cart.Empty? then NotCheckoutable else Raised;
        run := Observe(start, [], start, ReadCart(0, cart), View(user, Done(o)));
        return;
      }
      run := Observe(start, [], start, ReadCart(0, Filled), View(user, CartRead));
      ghost var w := View(user, CartRead);
      if HasPlacing(rows, user) {
        o := InProgress;
        run := Observe(start, run, w, Insert(0), View(user, Done(o)));
        return;
      }
      admitted := true;
      rows := rows + [Row(user, Placing, None)];
      run := Observe(start, run, w, Insert(0), View(user, Inserted(|rows| - 1)));
    }

    method SendCheckout(user: int, row: nat, ghost start: World, ghost before: seq<Event>)
      returns (ghost run: seq<Event>)
      requires row < |rows| && Plays(start, before, View(user, Inserted(row)))
      modifies this
      ensures rows == old(rows) && calls == old(calls) + [Call(row, Pending)]
      ensures Plays(start, run, View(user, Calling(row, |old(calls)|)))
    {
      ghost var w := View(user, Inserted(row));
      calls := calls + [Call(row, Pending)];
      run := Observe(start, before, w, Send(0), View(user, Calling(row, |calls| - 1)));
    }

    /** From the sent request onwards: the row is in and is `placing`. */
    method AwaitCheckout(user: int, swiggy: Attempt, row: nat, ghost start: World, ghost before: seq<Event>)
      returns (o: Outcome, ghost run: seq<Event>)
      requires swiggy.Possible() && row < |rows| && rows[row] == Row(user, Placing, None)
      requires calls != [] && calls[|calls| - 1] == Call(row, Pending)
      requires Plays(start, before, View(user, Calling(row, |calls| - 1)))
      modifies this
      ensures Plays(start, run, View(user, Done(o)))
      ensures calls == old(calls)[|old(calls)| - 1 := Call(row, Settled(swiggy))]
      ensures (rows, o) == FinalRows(old(rows), row, user, swiggy)
    {
      run := Decide(user, swiggy, row, start, before);
      match swiggy.answer {
        case Confirmed(id) =>
          o, run := CommitRow(user, row, Row(user, Placed, Some(id)), start, run);
        case Refused =>
          o, run := CommitRow(user, row, Row(user, Failed, None), start, run);
        case _ =>
          o, run := ReconcileRow(user, row, swiggy.readable, start, run);
      }
    }

    /** Swiggy's side of the call, and the answer coming back. */
    ghost function Decided(user: int, swiggy: Attempt, row: nat): Phase {
      match swiggy.answer
      case Confirmed(id) => Committing(row, Row(user, Placed, Some(id)))
      case Refused => Committing(row, Row(user, Failed, None))
      case _ => Reconciling(row)
    }

    /** Swiggy's side of the call: it may place the order. */
    method Reach(user: int, made: Option<string>, row: nat, ghost start: World, ghost before: seq<Event>)
      returns (ghost run: seq<Event>)
      requires row < |rows| && calls != [] && calls[|calls| - 1] == Call(row, Pending)
      requires Plays(start, before, View(user, Calling(row, |calls| - 1)))
      modifies this
      ensures rows == old(rows)
      ensures calls == old(calls)[|old(calls)| - 1 := Call(row, if made.Some? then Made(made.value) else Pending)]
      ensures Plays(start, run, View(user, Calling(row, |calls| - 1)))
    {
      var call := |calls| - 1;
      run := before;
      if made.Some? {
        ghost var w := View(user, Calling(row, call));
        calls := calls[call := Call(row, Made(made.value))];
        run := Observe(start, run, w, Place(call, made.value), View(user, Calling(row, call)));
      }
    }

    /** The answer coming back. */
    method Decide(user: int, swiggy: Attempt, row: nat, ghost start: World, ghost before: seq<Event>)
      returns (ghost run: seq<Event>)
      requires swiggy.Possible() && row < |rows| && rows[row] == Row(user, Placing, None)
      requires calls != [] && calls[|calls| - 1] == Call(row, Pending)
      requires Plays(start, before, View(user, Calling(row, |calls| - 1)))
      modifies this
      ensures rows == old(rows) && calls == old(calls)[|old(calls)| - 1 := Call(row, Settled(swiggy))]
      ensures Plays(start, run, View(user, Decided(user, swiggy, row)))
    {
      run := Reach(user, swiggy.made, row, start, before);
      var call := |calls| - 1;
      ghost var w := View(user, Calling(row, call));
      if swiggy.answer.Refused? {
        calls := calls[call := Call(row, Dead)];
      }
      run := Observe(start, run, w, Receive(0, swiggy.answer), View(user, Decided(user, swiggy, row)));
    }

    method ReconcileRow(user: int, row: nat, readable: bool, ghost start: World, ghost before: seq<Event>)
      returns (o: Outcome, ghost run: seq<Event>)
      requires row < |rows| && rows[row] == Row(user, Placing, None)
      requires Plays(start, before, View(user, Reconciling(row)))
      modifies this
      ensures Plays(start, run, View(user, Done(o))) && calls == old(calls)
      ensures (rows, o) == if readable then Committed(old(rows), row, Row(user, Unknown, None)) else (old(rows), Raised)
    {
      ghost var w := View(user, Reconciling(row));
      if readable {
        var final := Row(user, Unknown, None);
        run := Observe(start, before, w, Reconcile(0, true), View(user, Committing(row, final)));
        o, run := CommitRow(user, row, final, start, run);
      } else {
        o := Raised;
        run := Observe(start, before, w, Reconcile(0, false), View(user, Done(o)));
      }
    }

    method CommitRow(user: int, row: nat, final: Row, ghost start: World, ghost before: seq<Event>)
      returns (o: Outcome, ghost run: seq<Event>)
      requires row < |rows| && rows[row].user == final.user && !final.status.Placing?
      requires Plays(start, before, View(user, Committing(row, final)))
      modifies this
      ensures Plays(start, run, View(user, Done(o))) && calls == old(calls)
      ensures (rows, o) == Committed(old(rows), row, final)
    {
      ghost var w := View(user, Committing(row, final));
      if final.orderId.Some? && HasOrder(rows, final.orderId.value) {
        o := Raised;
      } else {
        rows := rows[row := final];
        o := Returned(row);
      }
      run := Observe(start, before, w, Commit(0), View(user, Done(o)));
    }
  }

  /** One more step, from `w` to `w'`, of the run this execution is. */
  ghost method Observe(start: World, before: seq<Event>, w: World, e: Event, w': World) returns (run: seq<Event>)
    requires Plays(start, before, w) && Shaped(w) && Enabled(w, e)
    requires Next(w, e).callers == w'.callers && Next(w, e).phases == w'.phases
    requires Next(w, e).rows == w'.rows && Next(w, e).calls == w'.calls
    ensures run == before + [e] && Plays(start, run, w')
  {
    run := before + [e];
    PlaysNext(start, before, w, e);
  }
}
