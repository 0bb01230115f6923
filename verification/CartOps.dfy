/** The mutating cart operations of app/cart/service.py, each as the program of Swiggy
    calls it makes, against a server whose `update_cart` replaces the whole cart. */
module CartOps {
  import opened Collections
  import opened CartMerge

  datatype Call = GetCart | UpdateCart(items: seq<Line>) | ClearCart

  /** What Swiggy does with one call. `Accept` may silently omit lines of a write;
      `Review` writes a cart of Swiggy's own choosing and then answers with an error;
      `Fail` is an auth or transport error, before or after the call took effect. */
  datatype Outcome =
    | Accept(drops: set<string>)
    | Refuse
    | Review(adjusted: seq<Line>)
    | Fail(applied: bool, lost: set<string>)

  datatype Answer = Returned(cart: seq<Line>) | Refused | NeedsReview | Errored

  function Outside(ids: set<string>): Line -> bool {
    (line: Line) => line.spinId !in ids
  }

  function Kept(items: seq<Line>, drops: set<string>): seq<Line> {
    Filter(items, Outside(drops))
  }

  function Serve(call: Call, cart: seq<Line>, o: Outcome): (seq<Line>, Answer) {
    match call
    case GetCart =>
      (match o
       case Accept(_) => (cart, Returned(cart))
       case Refuse => (cart, Refused)
       case Review(_) => (cart, Refused)
       case Fail(_, _) => (cart, Errored))
    case UpdateCart(items) =>
      (match o
       case Accept(drops) => (Kept(items, drops), Returned(Kept(items, drops)))
       case Refuse => (cart, Refused)
       case Review(adjusted) => (adjusted, NeedsReview)
       case Fail(applied, lost) => (if applied then Kept(items, lost) else cart, Errored))
    case ClearCart =>
      (match o
       case Accept(_) => ([], Returned([]))
       case Refuse => (cart, Refused)
       case Review(_) => (cart, Refused)
       case Fail(applied, _) => (if applied then [] else cart, Errored))
  }

  datatype Op =
    | Add(items: seq<Line>)
    | SetQuantity(spinId: string, quantity: Quantity)
    | Remove(spinId: string)
    | Clear
    | Compose(purchasable: seq<Line>)

  /** The request schema: `AddCartItemsRequest.items` has at least one item. */
  predicate WellFormed(op: Op) {
    op.Add? ==> op.items != []
  }

  type Request = op: Op | WellFormed(op) witness Clear

  datatype Reason = RefusedBySwiggy | DroppedBySwiggy
  datatype Rejected = Rejected(item: Line, reason: Reason)

  datatype Result =
    | Mutated(cart: seq<Line>, added: seq<Line>, rejected: seq<Rejected>)
    | NotFound
    | Raised

  /** Where an operation stands between two calls. */
  datatype Pc =
    | Reading
    | AddBatch(baseline: seq<Line>)
    | AddOne(baseline: seq<Line>, accepted: seq<Line>, refused: seq<Line>, last: Option<seq<Line>>)
    | AddReadBack(refused: seq<Line>)
    | SetWrite(lines: seq<Line>)
    | SetReadBack
    | RemoveWrite(remaining: seq<Line>)
    | Clearing
    | ComposeWrite(baseline: seq<Line>)
    | FinalRead
    | Done(result: Result)

  /** The program points an operation can stand at. */
  ghost predicate Fits(op: Op, pc: Pc) {
    match pc
    case Reading => !op.Clear? && (op.Compose? ==> op.purchasable != [])
    case AddBatch(_) => op.Add?
    case AddOne(_, accepted, refused, last) =>
      op.Add? && |accepted| + |refused| < |op.items| && (last.Some? <==> accepted != [])
    case AddReadBack(refused) => op.Add? && |refused| == |op.items|
    case SetWrite(lines) => op.SetQuantity? && lines != []
    case SetReadBack => op.SetQuantity?
    case RemoveWrite(remaining) => op.Remove? && remaining != []
    case Clearing => op.Clear? || op.Remove?
    case ComposeWrite(_) => op.Compose? && op.purchasable != []
    case FinalRead => op.Clear? || op.Remove? || op.Compose?
    case Done(_) => true
  }

  function Start(op: Op): Pc {
    match op
    case Clear => Clearing
    case Compose(purchasable) => if purchasable == [] then FinalRead else Reading
    case _ => Reading
  }

  function NextCall(op: Op, pc: Pc): Call
    requires Fits(op, pc) && !pc.Done?
  {
    match pc
    case AddBatch(baseline) => UpdateCart(Merged(baseline, op.items))
    case AddOne(baseline, accepted, refused, _) =>
      UpdateCart(Merged(baseline, accepted + [op.items[|accepted| + |refused|]]))
    case SetWrite(lines) => UpdateCart(lines)
    case RemoveWrite(remaining) => UpdateCart(remaining)
    case ComposeWrite(baseline) => UpdateCart(Merged(baseline, op.purchasable))
    case Clearing => ClearCart
    case _ => GetCart
  }

  function WithQuantity(lines: seq<Line>, id: string, quantity: Quantity): seq<Line> {
    Map((line: Line) => if line.spinId == id then Line(id, quantity) else line, lines)
  }

  function Without(lines: seq<Line>, id: string): seq<Line> {
    Filter(lines, Outside({id}))
  }

  function Unaccounted(cart: seq<string>, rejected: seq<string>): Line -> bool {
    (item: Line) => item.spinId !in cart && item.spinId !in rejected
  }

  /** `_dropped`: requested lines the read-back lacks and nobody refused. */
  function Dropped(cart: seq<Line>, requested: seq<Line>, rejected: seq<string>): seq<Line> {
    Filter(requested, Unaccounted(Ids(cart), rejected))
  }

  function Because(items: seq<Line>, reason: Reason): seq<Rejected> {
    Map((item: Line) => Rejected(item, reason), items)
  }

  function RejectedIds(rejected: seq<Rejected>): set<string> {
    set r | r in rejected :: r.item.spinId
  }

  function FinishAdd(items: seq<Line>, cart: seq<Line>, refused: seq<Line>): Result {
    var rejected := Because(refused, RefusedBySwiggy)
      + Because(Dropped(cart, items, Ids(refused)), DroppedBySwiggy);
    Mutated(cart, Filter(items, Outside(RejectedIds(rejected))), rejected)
  }

  function FinishSet(item: Line, cart: seq<Line>): Result {
    var rejected := Because(Dropped(cart, [item], []), DroppedBySwiggy);
    Mutated(cart, if rejected == [] then [item] else [], rejected)
  }

  function NextOne(items: seq<Line>, baseline: seq<Line>, accepted: seq<Line>, refused: seq<Line>,
                   last: Option<seq<Line>>): Pc {
    if |accepted| + |refused| < |items| then AddOne(baseline, accepted, refused, last)
    else if last.Some? then Done(FinishAdd(items, last.value, refused))
    else AddReadBack(refused)
  }

  /** One item tried alone: accepted, refused, or the end of the operation. */
  function AfterOne(items: seq<Line>, baseline: seq<Line>, accepted: seq<Line>, refused: seq<Line>,
                    last: Option<seq<Line>>, answer: Answer): Pc
    requires |accepted| + |refused| < |items|
  {
    var item := items[|accepted| + |refused|];
    match answer
    case Returned(cart) => NextOne(items, baseline, accepted + [item], refused, Some(cart))
    case Errored => Done(Raised)
    case _ => NextOne(items, baseline, accepted, refused + [item], last)
  }

  function After(op: Op, pc: Pc, answer: Answer): Pc
    requires Fits(op, pc) && !pc.Done?
  {
    match pc
    case Reading =>
      (match answer
       case Returned(cart) => AfterRead(op, cart)
       case _ => Done(Raised))
    case AddBatch(baseline) =>
      (match answer
       case Returned(cart) => Done(FinishAdd(op.items, cart, []))
       case Errored => Done(Raised)
       case _ => NextOne(op.items, baseline, [], [], None))
    case AddOne(baseline, accepted, refused, last) =>
      AfterOne(op.items, baseline, accepted, refused, last, answer)
    case AddReadBack(refused) =>
      (match answer
       case Returned(cart) => Done(FinishAdd(op.items, cart, refused))
       case _ => Done(Raised))
    case SetWrite(lines) =>
      (match answer
       case Returned(cart) => Done(FinishSet(Line(op.spinId, op.quantity), cart))
       case Errored => Done(Raised)
       case _ => SetReadBack)
    case SetReadBack =>
      (match answer
       case Returned(cart) =>
         Done(Mutated(cart, [], [Rejected(Line(op.spinId, op.quantity), RefusedBySwiggy)]))
       case _ => Done(Raised))
    case Clearing => if answer.Returned? then FinalRead else Done(Raised)
    case ComposeWrite(_) =>
      (match answer
       case Returned(cart) => Done(Mutated(cart, [], []))
       case NeedsReview => FinalRead
       case _ => Done(Raised))
    case RemoveWrite(_) =>
      if answer.Returned? then Done(Mutated(answer.cart, [], [])) else Done(Raised)
    case FinalRead =>
      if answer.Returned? then Done(Mutated(answer.cart, [], [])) else Done(Raised)
  }

  function AfterRead(op: Op, cart: seq<Line>): Pc
    requires Fits(op, Reading)
  {
    match op
    case Add(_) => AddBatch(cart)
    case SetQuantity(id, quantity) =>
      if id !in Ids(cart) then Done(NotFound) else SetWrite(WithQuantity(cart, id, quantity))
    case Remove(id) =>
      if id !in Ids(cart) then Done(NotFound)
      else if Without(cart, id) != [] then RemoveWrite(Without(cart, id)) else Clearing
    case Compose(_) => ComposeWrite(cart)
  }

  lemma {:induction false} AfterReadFits(op: Op, cart: seq<Line>)
    requires Fits(op, Reading)
    ensures Fits(op, AfterRead(op, cart))
  {
  }

  lemma {:induction false} AfterFits(op: Op, pc: Pc, answer: Answer)
    requires WellFormed(op) && Fits(op, pc) && !pc.Done?
    ensures Fits(op, After(op, pc, answer))
  {
    if pc.Reading? && answer.Returned? {
      AfterReadFits(op, answer.cart);
    }
  }

  /** An operation in progress: its program point and the cart on the server. */
  datatype Config = Config(pc: Pc, cart: seq<Line>)

  function Step(op: Op, c: Config, o: Outcome): (r: Config)
    requires WellFormed(op) && Fits(op, c.pc)
    ensures Fits(op, r.pc)
  {
    if c.pc.Done? then c else
      var (cart, answer) := Serve(NextCall(op, c.pc), c.cart, o);
      AfterFits(op, c.pc, answer);
      Config(After(op, c.pc, answer), cart)
  }

  /** An operation run alone from `cart`, meeting the given outcomes in turn. */
  function Exec(op: Op, cart: seq<Line>, outs: seq<Outcome>): (r: Config)
    requires WellFormed(op)
    ensures Fits(op, r.pc)
  {
    if outs == [] then Config(Start(op), cart)
    else Step(op, Exec(op, cart, outs[..|outs| - 1]), outs[|outs| - 1])
  }

  lemma {:induction false} ExecSnoc(op: Op, cart: seq<Line>, outs: seq<Outcome>, o: Outcome)
    requires WellFormed(op)
    ensures Exec(op, cart, outs + [o]) == Step(op, Exec(op, cart, outs), o)
  {
    assert (outs + [o])[..|outs|] == outs;
  }
}
