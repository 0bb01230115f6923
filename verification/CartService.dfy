/** The cart operations as app/cart/service.py runs them, changing the server's cart call by
    call, each proved to be a complete run of its program in CartOps. */
module CartService {
  import opened Collections
  import opened CartMerge
  import opened CartOps

  /** The user's cart at Swiggy. How it answers its n-th call is not for the caller to know. */
  class Swiggy {
    var cart: seq<Line>
    var history: seq<Outcome>
    const answers: nat -> Outcome

    constructor (cart: seq<Line>, answers: nat -> Outcome)
      ensures this.cart == cart && this.answers == answers && history == []
    {
      this.cart, this.answers, history := cart, answers, [];
    }

    method Answer(call: Call) returns (a: Answer)
      modifies this
      ensures history == old(history) + [answers(|old(history)|)]
      ensures (cart, a) == Serve(call, old(cart), answers(|old(history)|))
    {
      var o := answers(|history|);
      var (after, answer) := Serve(call, cart, o);
      cart, history, a := after, history + [o], answer;
    }
  }

  /** One call of the program `op`, which started on the cart `before` and has met `outs`. */
  method Ask(swiggy: Swiggy, call: Call, ghost op: Op, ghost before: seq<Line>, ghost outs: seq<Outcome>)
    returns (a: Answer, ghost o: Outcome)
    requires WellFormed(op)
    requires Exec(op, before, outs).cart == swiggy.cart
    requires !Exec(op, before, outs).pc.Done? && NextCall(op, Exec(op, before, outs).pc) == call
    modifies swiggy
    ensures swiggy.history == old(swiggy.history) + [o]
    ensures Exec(op, before, outs + [o]) == Config(After(op, Exec(op, before, outs).pc, a), swiggy.cart)
  {
    o := swiggy.answers(|swiggy.history|);
    a := swiggy.Answer(call);
    ExecSnoc(op, before, outs, o);
  }

  method AddItems(swiggy: Swiggy, items: seq<Line>) returns (r: Result, ghost outs: seq<Outcome>)
    requires WellFormed(Add(items))
    modifies swiggy
    ensures swiggy.history == old(swiggy.history) + outs
    ensures Exec(Add(items), old(swiggy.cart), outs) == Config(Done(r), swiggy.cart)
  {
    ghost var op, before, earlier := Add(items), swiggy.cart, swiggy.history;
    var current, o := Ask(swiggy, GetCart, op, before, []);
    ghost var read := [o];
    if !current.Returned? {
      return Raised, read;
    }
    var baseline := current.cart;
    var union := Merge(baseline, items);
    var written, o' := Ask(swiggy, UpdateCart(union), op, before, read);
    ghost var tried := read + [o'];
    if written.Errored? {
      return Raised, tried;
    }
    if written.Returned? {
      return FinishAdd(items, written.cart, []), tried;
    }
    r, outs := AddIndividually(swiggy, baseline, items, before, earlier, tried);
  }

  /** One attempt of the fallback: the baseline, everything accepted so far, and one candidate. */
  method TryOne(swiggy: Swiggy, baseline: seq<Line>, items: seq<Line>, accepted: seq<Line>, refused: seq<Line>,
                last: Option<seq<Line>>, ghost before: seq<Line>, ghost met: seq<Outcome>)
    returns (raised: bool, nowAccepted: seq<Line>, nowRefused: seq<Line>, nowLast: Option<seq<Line>>, ghost o: Outcome)
    requires |accepted| + |refused| < |items|
    requires Exec(Add(items), before, met) == Config(AddOne(baseline, accepted, refused, last), swiggy.cart)
    modifies swiggy
    ensures swiggy.history == old(swiggy.history) + [o]
    ensures |nowAccepted| + |nowRefused| == |accepted| + |refused| + 1
    ensures Exec(Add(items), before, met + [o]) == Config(
      if raised then Done(Raised) else NextOne(items, baseline, nowAccepted, nowRefused, nowLast), swiggy.cart)
  {
    var item := items[|accepted| + |refused|];
    var union := Merge(baseline, accepted + [item]);
    var answer;
    answer, o := Ask(swiggy, UpdateCart(union), Add(items), before, met);
    raised, nowAccepted, nowRefused, nowLast := answer.Errored?, accepted, refused + [item], last;
    if answer.Returned? {
      nowAccepted, nowRefused, nowLast := accepted + [item], refused, Some(answer.cart);
    }
  }

  /** One write per item, keeping the ones Swiggy accepts. */
  method AddIndividually(swiggy: Swiggy, baseline: seq<Line>, items: seq<Line>,
                         ghost before: seq<Line>, ghost earlier: seq<Outcome>, ghost tried: seq<Outcome>)
    returns (r: Result, ghost outs: seq<Outcome>)
    requires items != []
    requires swiggy.history == earlier + tried
    requires Exec(Add(items), before, tried) == Config(AddOne(baseline, [], [], None), swiggy.cart)
    modifies swiggy
    ensures swiggy.history == earlier + outs
    ensures Exec(Add(items), before, outs) == Config(Done(r), swiggy.cart)
  {
    var accepted: seq<Line>, refused: seq<Line> := [], [];
    var last: Option<seq<Line>> := None;
    outs := tried;
    ghost var o;
    for i := 0 to |items|
      invariant |accepted| + |refused| == i
      invariant swiggy.history == earlier + outs
      invariant Exec(Add(items), before, outs)
        == Config(NextOne(items, baseline, accepted, refused, last), swiggy.cart)
    {
      var raised;
      raised, accepted, refused, last, o := TryOne(swiggy, baseline, items, accepted, refused, last, before, outs);
      outs := outs + [o];
      if raised {
        return Raised, outs;
      }
    }
    if last.Some? {
      return FinishAdd(items, last.value, refused), outs;
    }
    r, o := ReadBack(swiggy, items, refused, before, outs);
    outs := outs + [o];
  }

  /** Nothing landed, so no write returned a cart: read the real one. */
  method ReadBack(swiggy: Swiggy, items: seq<Line>, refused: seq<Line>, ghost before: seq<Line>, ghost met: seq<Outcome>)
    returns (r: Result, ghost o: Outcome)
    requires items != []
    requires Exec(Add(items), before, met) == Config(AddReadBack(refused), swiggy.cart)
    modifies swiggy
    ensures swiggy.history == old(swiggy.history) + [o]
    ensures Exec(Add(items), before, met + [o]) == Config(Done(r), swiggy.cart)
  {
    var current;
    current, o := Ask(swiggy, GetCart, Add(items), before, met);
    r := if current.Returned? then FinishAdd(items, current.cart, refused) else Raised;
  }

  method SetItemQuantity(swiggy: Swiggy, spinId: string, quantity: Quantity)
    returns (r: Result, ghost outs: seq<Outcome>)
    modifies swiggy
    ensures swiggy.history == old(swiggy.history) + outs
    ensures Exec(SetQuantity(spinId, quantity), old(swiggy.cart), outs) == Config(Done(r), swiggy.cart)
  {
    ghost var op, before := SetQuantity(spinId, quantity), swiggy.cart;
    var current, o := Ask(swiggy, GetCart, op, before, []);
    ghost var read := [o];
    if !current.Returned? {
      return Raised, read;
    }
    if spinId !in Ids(current.cart) {
      return NotFound, read;
    }
    var lines := WithQuantity(current.cart, spinId, quantity);
    var written, o' := Ask(swiggy, UpdateCart(lines), op, before, read);
    ghost var tried := read + [o'];
    if written.Errored? {
      return Raised, tried;
    }
    if written.Returned? {
      return FinishSet(Line(spinId, quantity), written.cart), tried;
    }
    var actual, last := Ask(swiggy, GetCart, op, before, tried);
    ghost var met := tried + [last];
    if !actual.Returned? {
      return Raised, met;
    }
    return Mutated(actual.cart, [], [Rejected(Line(spinId, quantity), RefusedBySwiggy)]), met;
  }

  method RemoveItem(swiggy: Swiggy, spinId: string) returns (r: Result, ghost outs: seq<Outcome>)
    modifies swiggy
    ensures swiggy.history == old(swiggy.history) + outs
    ensures Exec(Remove(spinId), old(swiggy.cart), outs) == Config(Done(r), swiggy.cart)
  {
    ghost var op, before := Remove(spinId), swiggy.cart;
    var current, o := Ask(swiggy, GetCart, op, before, []);
    ghost var read := [o];
    if !current.Returned? {
      return Raised, read;
    }
    if spinId !in Ids(current.cart) {
      return NotFound, read;
    }
    var remaining := Without(current.cart, spinId);
    if remaining != [] {
      var written, last := Ask(swiggy, UpdateCart(remaining), op, before, read);
      ghost var met := read + [last];
      return if written.Returned? then Mutated(written.cart, [], []) else Raised, met;
    }
    var cleared, o' := Ask(swiggy, ClearCart, op, before, read);
    ghost var tried := read + [o'];
    if !cleared.Returned? {
      return Raised, tried;
    }
    var final, last := Ask(swiggy, GetCart, op, before, tried);
    ghost var met := tried + [last];
    return if final.Returned? then Mutated(final.cart, [], []) else Raised, met;
  }

  method EmptyCart(swiggy: Swiggy) returns (r: Result, ghost outs: seq<Outcome>)
    modifies swiggy
    ensures swiggy.history == old(swiggy.history) + outs
    ensures Exec(Clear, old(swiggy.cart), outs) == Config(Done(r), swiggy.cart)
  {
    ghost var before := swiggy.cart;
    var cleared, o := Ask(swiggy, ClearCart, Clear, before, []);
    ghost var tried := [o];
    if !cleared.Returned? {
      return Raised, tried;
    }
    var final, last := Ask(swiggy, GetCart, Clear, before, tried);
    ghost var met := tried + [last];
    return if final.Returned? then Mutated(final.cart, [], []) else Raised, met;
  }

  /** The cart leg of `compose_cart`; the plan rows it records are not part of it. */
  method ComposeOnto(swiggy: Swiggy, purchasable: seq<Line>) returns (r: Result, ghost outs: seq<Outcome>)
    modifies swiggy
    ensures swiggy.history == old(swiggy.history) + outs
    ensures Exec(Compose(purchasable), old(swiggy.cart), outs) == Config(Done(r), swiggy.cart)
  {
    ghost var op, before := Compose(purchasable), swiggy.cart;
    if purchasable == [] {
      var only, last := Ask(swiggy, GetCart, op, before, []);
      ghost var met := [last];
      return if only.Returned? then Mutated(only.cart, [], []) else Raised, met;
    }
    var current, o := Ask(swiggy, GetCart, op, before, []);
    ghost var read := [o];
    if !current.Returned? {
      return Raised, read;
    }
    var union := Merge(current.cart, purchasable);
    var written, o' := Ask(swiggy, UpdateCart(union), op, before, read);
    ghost var tried := read + [o'];
    if written.Returned? {
      return Mutated(written.cart, [], []), tried;
    }
    if !written.NeedsReview? {
      return Raised, tried;
    }
    var final, last := Ask(swiggy, GetCart, op, before, tried);
    ghost var met := tried + [last];
    return if final.Returned? then Mutated(final.cart, [], []) else Raised, met;
  }
}
