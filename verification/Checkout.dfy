/** `place_order` of app/cart/checkout.py over interleaved callers: order rows under the partial
    unique index `uq_order_one_placing`, and a `checkout` whose outcome may stay unknown. */
module Checkout {
  import opened Collections

  datatype Status = Placing | Placed | Failed | Unknown

  /** An `order` row; its id is its position in the table. */
  datatype Row = Row(user: int, status: Status, orderId: Option<string>)

  /** One `checkout` request at Swiggy: it may still place an order while `Pending`, whether or not
      anybody is waiting for the answer; `Made` is a real order; `Dead` was definitively refused. */
  datatype Verdict = Pending | Made(id: string) | Dead
  datatype Call = Call(row: nat, verdict: Verdict)

  datatype CartAnswer = Filled | Empty | Unreadable
  datatype Answer = Confirmed(id: string) | ConfirmedWithoutId | Refused | TransportLost

  datatype Outcome = Returned(row: nat) | NotCheckoutable | InProgress | Raised

  datatype Phase =
    | Start
    | CartRead
    | Inserted(row: nat)
    | Calling(row: nat, call: nat)
    | Reconciling(row: nat)
    | Committing(row: nat, final: Row)
    | Done(outcome: Outcome)
  {
    /** The row this checkout is placing. */
    function Held(): Option<nat> {
      if Start? || CartRead? || Done? then None else Some(row)
    }
  }

  /** `callers` names the user each running `place_order` is for. */
  datatype World = World(callers: map<nat, int>, phases: map<nat, Phase>, rows: seq<Row>, calls: seq<Call>)

  datatype Event =
    | ReadCart(task: nat, cart: CartAnswer)
    | Insert(task: nat)
    | Send(task: nat)
    | Place(call: nat, id: string)
    | Receive(task: nat, answer: Answer)
    | Reconcile(task: nat, readable: bool)
    | Commit(task: nat)
    | Crash(task: nat)

  predicate Fits(phase: Phase, rows: seq<Row>, calls: seq<Call>) {
    match phase
    case Inserted(row) => row < |rows|
    case Calling(row, call) => row < |rows| && call < |calls| && calls[call].row == row
    case Reconciling(row) => row < |rows|
    case Committing(row, final) => row < |rows| && final.user == rows[row].user && !final.status.Placing?
    case _ => true
  }

  predicate Shaped(w: World) {
    w.phases.Keys == w.callers.Keys && forall t | t in w.phases :: Fits(w.phases[t], w.rows, w.calls)
  }

  /** What the unique index looks at. */
  predicate HasPlacing(rows: seq<Row>, user: int) {
    exists r :: 0 <= r < |rows| && rows[r].user == user && rows[r].status.Placing?
  }

  predicate HasOrder(rows: seq<Row>, id: string) {
    exists r :: 0 <= r < |rows| && rows[r].orderId == Some(id)
  }

  /** Swiggy confirms an id only for the order it made, and refuses definitively only what it
      did not and will not place. Everything else may happen at any time. */
  predicate Enabled(w: World, e: Event)
    requires Shaped(w)
  {
    match e
    case Place(call, _) => call < |w.calls| && w.calls[call].verdict.Pending?
    case ReadCart(t, _) => t in w.phases && w.phases[t].Start?
    case Insert(t) => t in w.phases && w.phases[t].CartRead?
    case Send(t) => t in w.phases && w.phases[t].Inserted?
    case Receive(t, answer) => t in w.phases && w.phases[t].Calling? &&
      (match answer
       case Confirmed(id) => w.calls[w.phases[t].call].verdict == Made(id)
       case Refused => w.calls[w.phases[t].call].verdict.Pending?
       case _ => true)
    case Reconcile(t, _) => t in w.phases && w.phases[t].Reconciling?
    case Commit(t) => t in w.phases && w.phases[t].Committing?
    case Crash(t) => t in w.phases && !w.phases[t].Done?
  }

  function Next(w: World, e: Event): World
    requires Shaped(w) && Enabled(w, e)
  {
    match e
    case Place(call, id) => w.(calls := w.calls[call := w.calls[call].(verdict := Made(id))])
    case ReadCart(t, cart) =>
      w.(phases := w.phases[t :=
        match cart
        case Filled => CartRead
        case Empty => Done(NotCheckoutable)
        case Unreadable => Done(Raised)])
    case Insert(t) =>
      if HasPlacing(w.rows, w.callers[t]) then w.(phases := w.phases[t := Done(InProgress)])
      else w.(phases := w.phases[t := Inserted(|w.rows|)], rows := w.rows + [Row(w.callers[t], Placing, None)])
    case Send(t) =>
      var row := w.phases[t].row;
      w.(phases := w.phases[t := Calling(row, |w.calls|)], calls := w.calls + [Call(row, Pending)])
    case Receive(t, answer) => AfterAnswer(w, t, answer)
    case Reconcile(t, readable) =>
      var row := w.phases[t].row;
      w.(phases := w.phases[t := if readable then Committing(row, w.rows[row].(status := Unknown)) else Done(Raised)])
    case Commit(t) =>
      var Committing(row, final) := w.phases[t];
      if final.orderId.Some? && HasOrder(w.rows, final.orderId.value) then w.(phases := w.phases[t := Done(Raised)])
      else w.(phases := w.phases[t := Done(Returned(row))], rows := w.rows[row := final])
    case Crash(t) => w.(phases := w.phases[t := Done(Raised)])
  }

  function AfterAnswer(w: World, t: nat, answer: Answer): World
    requires Shaped(w) && t in w.phases && w.phases[t].Calling?
  {
    var Calling(row, call) := w.phases[t];
    var mine := w.rows[row];
    match answer
    case Confirmed(id) =>
      w.(phases := w.phases[t := Committing(row, mine.(status := Placed, orderId := Some(id)))])
    case Refused =>
      w.(phases := w.phases[t := Committing(row, mine.(status := Failed))],
         calls := w.calls[call := w.calls[call].(verdict := Dead)])
    case _ => w.(phases := w.phases[t := Reconciling(row)])
  }

  /** Rows and calls are only ever added to; a row keeps its user and a call its row. */
  ghost predicate Grows(w: World, w': World) {
    && w'.callers == w.callers
    && |w.rows| <= |w'.rows| && |w.calls| <= |w'.calls|
    && (forall r | 0 <= r < |w.rows| :: w'.rows[r].user == w.rows[r].user)
    && (forall c | 0 <= c < |w.calls| :: w'.calls[c].row == w.calls[c].row)
  }

  lemma {:induction false} StillFits(phase: Phase, w: World, w': World)
    requires Fits(phase, w.rows, w.calls) && Grows(w, w')
    ensures Fits(phase, w'.rows, w'.calls)
  {
  }

  lemma {:induction false} NextGrows(w: World, e: Event)
    requires Shaped(w) && Enabled(w, e)
    ensures Grows(w, Next(w, e))
  {
    if e.Commit? {
      assert Fits(w.phases[e.task], w.rows, w.calls);
    }
  }

  lemma {:induction false} NextShaped(w: World, e: Event)
    requires Shaped(w) && Enabled(w, e)
    ensures Shaped(Next(w, e))
  {
    var w' := Next(w, e);
    NextGrows(w, e);
    forall t | t in w'.phases ensures Fits(w'.phases[t], w'.rows, w'.calls) {
      assert t in w.phases && Fits(w.phases[t], w.rows, w.calls);
      if w'.phases[t] == w.phases[t] {
        StillFits(w.phases[t], w, w');
      }
    }
  }

  // ------------------------------------------------------------------ invariant

  /** `uq_order_one_placing`. */
  ghost predicate OnePlacing(rows: seq<Row>) {
    forall i, j | 0 <= i < |rows| && 0 <= j < |rows| ::
      rows[i].status.Placing? && rows[j].status.Placing? && rows[i].user == rows[j].user ==> i == j
  }

  /** A running checkout holds a `placing` row of its own. */
  ghost predicate Owned(callers: map<nat, int>, phases: map<nat, Phase>, rows: seq<Row>) {
    && (forall t | t in phases && phases[t].Held().Some? ::
          && phases[t].Held().value < |rows| && t in callers
          && rows[phases[t].Held().value] == Row(callers[t], Placing, None))
    && (forall t, t' | t in phases && t' in phases && phases[t].Held().Some? ::
          phases[t].Held() == phases[t'].Held() ==> t == t')
  }

  /** A checkout request is made at most once for a row, and never before the row is there. */
  ghost predicate OneCallEach(w: World)
    requires Shaped(w)
  {
    && (forall c | 0 <= c < |w.calls| :: w.calls[c].row < |w.rows|)
    && (forall c, c' | 0 <= c < |w.calls| && 0 <= c' < |w.calls| :: w.calls[c].row == w.calls[c'].row ==> c == c')
    && (forall t, c | t in w.phases && w.phases[t].Inserted? && 0 <= c < |w.calls| :: w.calls[c].row != w.phases[t].row)
  }

  /** What a row may say given the calls made for it. */
  ghost predicate Truthful(row: Row, r: nat, calls: seq<Call>) {
    && (row.status.Failed? ==> forall c | 0 <= c < |calls| && calls[c].row == r :: calls[c].verdict == Dead)
    && (row.status.Placed? ==> row.orderId.Some? && exists c :: 0 <= c < |calls| && calls[c] == Call(r, Made(row.orderId.value)))
    && (row.orderId.Some? ==> row.status.Placed?)
  }

  ghost predicate Honest(w: World)
    requires Shaped(w)
  {
    && (forall r | 0 <= r < |w.rows| :: Truthful(w.rows[r], r, w.calls))
    && (forall t | t in w.phases && w.phases[t].Committing? :: Truthful(w.phases[t].final, w.phases[t].row, w.calls))
  }

  ghost predicate Safe(w: World)
    requires Shaped(w)
  {
    OnePlacing(w.rows) && Owned(w.callers, w.phases, w.rows) && OneCallEach(w) && Honest(w)
  }

  lemma {:induction false} NextKeepsIndex(w: World, e: Event)
    requires Shaped(w) && Safe(w) && Enabled(w, e)
    ensures OnePlacing(Next(w, e).rows)
  {
    if e.Commit? {
      assert Fits(w.phases[e.task], w.rows, w.calls);
    }
  }

  lemma {:induction false} SameRowOwned(callers: map<nat, int>, phases: map<nat, Phase>, rows: seq<Row>, t: nat, phase: Phase)
    requires Owned(callers, phases, rows) && t in phases
    requires phase.Held() == phases[t].Held() || phase.Held() == None
    ensures Owned(callers, phases[t := phase], rows)
  {
  }

  lemma {:induction false} NewRowOwned(callers: map<nat, int>, phases: map<nat, Phase>, rows: seq<Row>, t: nat)
    requires Owned(callers, phases, rows) && t in phases && t in callers
    ensures Owned(callers, phases[t := Inserted(|rows|)], rows + [Row(callers[t], Placing, None)])
  {
  }

  lemma {:induction false} FinalRowOwned(callers: map<nat, int>, phases: map<nat, Phase>, rows: seq<Row>, t: nat, final: Row, o: Outcome)
    requires Owned(callers, phases, rows) && t in phases && phases[t].Held().Some?
    ensures Owned(callers, phases[t := Done(o)], rows[phases[t].Held().value := final])
  {
    var phases', rows' := phases[t := Done(o)], rows[phases[t].Held().value := final];
    forall r | r in phases' && phases'[r].Held().Some?
      ensures phases'[r].Held().value < |rows'| && r in callers
        && rows'[phases'[r].Held().value] == Row(callers[r], Placing, None)
    {
      assert phases[r].Held() != phases[t].Held();
    }
  }

  lemma {:induction false} NextKeepsOwned(w: World, e: Event)
    requires Shaped(w) && Safe(w) && Enabled(w, e)
    ensures var w' := Next(w, e); Owned(w'.callers, w'.phases, w'.rows)
  {
    var w' := Next(w, e);
    if e.Insert? && !HasPlacing(w.rows, w.callers[e.task]) {
      NewRowOwned(w.callers, w.phases, w.rows, e.task);
    } else if e.Commit? {
      var Committing(row, final) := w.phases[e.task];
      SameRowOwned(w.callers, w.phases, w.rows, e.task, Done(Raised));
      FinalRowOwned(w.callers, w.phases, w.rows, e.task, final, Returned(row));
    } else if !e.Place? {
      SameRowOwned(w.callers, w.phases, w.rows, e.task, w'.phases[e.task]);
    }
  }

  lemma {:induction false} SendKeepsCalls(w: World, t: nat)
    requires Shaped(w) && Safe(w) && Enabled(w, Send(t))
    ensures Shaped(Next(w, Send(t))) && OneCallEach(Next(w, Send(t)))
  {
    NextShaped(w, Send(t));
    var r := w.phases[t].row;
    forall t' | t' in w.phases && t' != t && w.phases[t'].Inserted? ensures w.phases[t'].row != r {
      assert w.phases[t'].Held() != w.phases[t].Held();
    }
  }

  /** A row that has just been inserted has not been checked out. */
  lemma {:induction false} InsertKeepsCalls(w: World, t: nat)
    requires Shaped(w) && Safe(w) && Enabled(w, Insert(t))
    ensures Shaped(Next(w, Insert(t))) && OneCallEach(Next(w, Insert(t)))
  {
    NextShaped(w, Insert(t));
  }

  lemma {:induction false} CallsStay(w: World, w': World)
    requires Shaped(w) && Shaped(w') && OneCallEach(w) && Grows(w, w') && |w'.calls| == |w.calls|
    requires forall t | t in w.phases && t in w'.phases && w'.phases[t].Inserted? :: w.phases[t] == w'.phases[t]
    ensures OneCallEach(w')
  {
  }

  /** Any other step makes no call and inserts no row. */
  lemma {:induction false} OthersKeepCalls(w: World, e: Event)
    requires Shaped(w) && Safe(w) && Enabled(w, e) && !e.Send? && !e.Insert?
    ensures Shaped(Next(w, e)) && OneCallEach(Next(w, e))
  {
    NextShaped(w, e);
    NextGrows(w, e);
    NextSettles(w, e);
    CallsStay(w, Next(w, e));
  }

  lemma {:induction false} NextKeepsCalls(w: World, e: Event)
    requires Shaped(w) && Safe(w) && Enabled(w, e)
    ensures Shaped(Next(w, e)) && OneCallEach(Next(w, e))
  {
    match e
    case Send(t) => SendKeepsCalls(w, t);
    case Insert(t) => InsertKeepsCalls(w, t);
    case _ => OthersKeepCalls(w, e);
  }

  /** Calls only grow, and only a pending one changes its verdict. */
  ghost predicate Settles(calls: seq<Call>, calls': seq<Call>) {
    && |calls| <= |calls'|
    && (forall c | 0 <= c < |calls| ::
          calls'[c].row == calls[c].row && (!calls[c].verdict.Pending? ==> calls'[c] == calls[c]))
  }

  lemma {:induction false} StillTruthful(row: Row, r: nat, calls: seq<Call>, calls': seq<Call>)
    requires Truthful(row, r, calls) && Settles(calls, calls')
    requires row.status.Failed? ==> forall c | |calls| <= c < |calls'| :: calls'[c].row != r
    ensures Truthful(row, r, calls')
  {
    if row.status.Placed? {
      var c :| 0 <= c < |calls| && calls[c] == Call(r, Made(row.orderId.value));
      assert calls'[c] == Call(r, Made(row.orderId.value));
    }
  }

  lemma {:induction false} NextSettles(w: World, e: Event)
    requires Shaped(w) && Enabled(w, e)
    ensures Settles(w.calls, Next(w, e).calls)
    ensures !e.Send? ==> |Next(w, e).calls| == |w.calls|
  {
  }

  lemma {:induction false} NextKeepsRowsTruthful(w: World, e: Event, r: nat)
    requires Shaped(w) && Safe(w) && Enabled(w, e)
    requires r < |Next(w, e).rows|
    ensures Truthful(Next(w, e).rows[r], r, Next(w, e).calls)
  {
    var w' := Next(w, e);
    NextSettles(w, e);
    if r < |w.rows| && w'.rows[r] == w.rows[r] {
      if e.Send? {
        assert w.phases[e.task].Held() == Some(w.phases[e.task].row);
      }
      StillTruthful(w.rows[r], r, w.calls, w'.calls);
    } else if e.Commit? {
      assert Truthful(w.phases[e.task].final, w.phases[e.task].row, w.calls);
    }
  }

  /** What an answer makes of a row is true of the one call made for it. */
  lemma {:induction false} AnswerIsTruthful(w: World, t: nat, answer: Answer)
    requires Shaped(w) && Safe(w) && Enabled(w, Receive(t, answer))
    ensures var w' := Next(w, Receive(t, answer));
      w'.phases[t].Committing? ==> Truthful(w'.phases[t].final, w'.phases[t].row, w'.calls)
  {
    assert w.phases[t].Held() == Some(w.phases[t].row);
    assert Fits(w.phases[t], w.rows, w.calls);
    var call := w.phases[t].call;
    assert w.calls[call].row == w.phases[t].row;
    assert forall c | 0 <= c < |w.calls| && w.calls[c].row == w.phases[t].row :: c == call;
  }

  /** A record about to be committed stays true whatever other callers do. */
  lemma {:induction false} FinalStaysTruthful(w: World, e: Event, t: nat)
    requires Shaped(w) && Safe(w) && Enabled(w, e)
    requires t in w.phases && w.phases[t].Committing?
    ensures Truthful(w.phases[t].final, w.phases[t].row, Next(w, e).calls)
  {
    NextSettles(w, e);
    if e.Send? {
      assert w.phases[t].Held() != w.phases[e.task].Held();
    }
    StillTruthful(w.phases[t].final, w.phases[t].row, w.calls, Next(w, e).calls);
  }

  lemma {:induction false} NextKeepsFinalsTruthful(w: World, e: Event, t: nat)
    requires Shaped(w) && Safe(w) && Enabled(w, e)
    requires t in w.phases && Next(w, e).phases[t].Committing?
    ensures Truthful(Next(w, e).phases[t].final, Next(w, e).phases[t].row, Next(w, e).calls)
  {
    if w.phases[t].Committing? {
      FinalStaysTruthful(w, e, t);
    } else if e.Receive? {
      AnswerIsTruthful(w, t, e.answer);
    }
  }

  lemma {:induction false} NextSafe(w: World, e: Event)
    requires Shaped(w) && Safe(w) && Enabled(w, e)
    ensures Shaped(Next(w, e)) && Safe(Next(w, e))
  {
    NextKeepsIndex(w, e);
    NextKeepsOwned(w, e);
    NextKeepsCalls(w, e);
    forall r: nat | r < |Next(w, e).rows| ensures Truthful(Next(w, e).rows[r], r, Next(w, e).calls) {
      NextKeepsRowsTruthful(w, e, r);
    }
    forall t | t in w.phases && Next(w, e).phases[t].Committing?
      ensures Truthful(Next(w, e).phases[t].final, Next(w, e).phases[t].row, Next(w, e).calls)
    {
      NextKeepsFinalsTruthful(w, e, t);
    }
  }

  // ----------------------------------------------------------------------- runs

  /** The steps of `run`, each enabled where it is taken, lead from `v` to `w`. */
  ghost predicate Plays(v: World, run: seq<Event>, w: World)
    decreases |run|, 1
  {
    if run == [] then w == v else exists u :: PlaysVia(v, run, u, w)
  }

  ghost predicate PlaysVia(v: World, run: seq<Event>, u: World, w: World)
    requires run != []
    decreases |run|, 0
  {
    var e := run[|run| - 1];
    Plays(v, run[..|run| - 1], u) && Shaped(u) && Enabled(u, e) && w == Next(u, e)
  }

  /** No checkout has been attempted yet. */
  function Opening(callers: map<nat, int>): World {
    World(callers, map t | t in callers :: Start, [], [])
  }

  lemma {:induction false} PlaysSafe(v: World, run: seq<Event>, w: World)
    requires Shaped(v) && Safe(v) && Plays(v, run, w)
    ensures Shaped(w) && Safe(w) && Grows(v, w)
    decreases |run|
  {
    if run != [] {
      var u :| PlaysVia(v, run, u, w);
      PlaysSafe(v, run[..|run| - 1], u);
      NextSafe(u, run[|run| - 1]);
      NextGrows(u, run[|run| - 1]);
    }
  }

  /** In every interleaving a user has at most one `placing` row and one checkout under way, no
      row is ever checked out twice, a `failed` row has no real order behind it, and a `placed`
      row has exactly the one it names. */
  lemma {:induction false} CheckoutIsSafe(callers: map<nat, int>, run: seq<Event>, w: World)
    requires Plays(Opening(callers), run, w)
    ensures Shaped(w) && OnePlacing(w.rows)
    ensures forall t, t' | t in w.phases && t' in w.phases && w.phases[t].Held().Some? && w.phases[t'].Held().Some? ::
      w.callers[t] == w.callers[t'] ==> t == t'
    ensures forall c, c' | 0 <= c < |w.calls| && 0 <= c' < |w.calls| :: w.calls[c].row == w.calls[c'].row ==> c == c'
    ensures forall c | 0 <= c < |w.calls| :: w.calls[c].row < |w.rows|
    ensures forall c | 0 <= c < |w.calls| && w.calls[c].verdict.Made? :: !w.rows[w.calls[c].row].status.Failed?
    ensures forall r | 0 <= r < |w.rows| && w.rows[r].status.Placed? ::
      w.rows[r].orderId.Some? && exists c :: 0 <= c < |w.calls| && w.calls[c] == Call(r, Made(w.rows[r].orderId.value))
  {
    PlaysSafe(Opening(callers), run, w);
    forall c | 0 <= c < |w.calls| && w.calls[c].verdict.Made?
      ensures !w.rows[w.calls[c].row].status.Failed?
    {
      assert Truthful(w.rows[w.calls[c].row], w.calls[c].row, w.calls);
    }
    forall r | 0 <= r < |w.rows| && w.rows[r].status.Placed?
      ensures w.rows[r].orderId.Some? && exists c :: 0 <= c < |w.calls| && w.calls[c] == Call(r, Made(w.rows[r].orderId.value))
    {
      assert Truthful(w.rows[r], r, w.calls);
    }
  }

  // ------------------------------------------------------------ what a row records

  /** Swiggy refused the row's call. */
  ghost predicate RefusedFor(calls: seq<Call>, r: nat) {
    exists c :: 0 <= c < |calls| && calls[c] == Call(r, Dead)
  }

  ghost predicate CalledFor(calls: seq<Call>, r: nat) {
    exists c :: 0 <= c < |calls| && calls[c].row == r
  }

  ghost predicate RowRecords(row: Row, r: nat, calls: seq<Call>) {
    !row.status.Placing? ==> CalledFor(calls, r) && (row.status.Failed? <==> RefusedFor(calls, r))
  }

  /** A call is refused only by the answer that is then recorded. */
  ghost predicate PhaseRecords(phase: Phase, calls: seq<Call>) {
    match phase
    case Calling(row, _) => CalledFor(calls, row) && !RefusedFor(calls, row)
    case Reconciling(row) => CalledFor(calls, row) && !RefusedFor(calls, row)
    case Committing(row, final) => CalledFor(calls, row) && (final.status.Failed? <==> RefusedFor(calls, row))
    case _ => true
  }

  ghost predicate Recording(w: World) {
    && (forall r | 0 <= r < |w.rows| :: RowRecords(w.rows[r], r, w.calls))
    && (forall t | t in w.phases :: PhaseRecords(w.phases[t], w.calls))
  }

  /** A step of anybody else neither makes nor refuses a row's call. */
  lemma {:induction false} OthersRecord(w: World, e: Event, r: nat)
    requires Shaped(w) && Safe(w) && Enabled(w, e)
    requires e.Receive? ==> w.phases[e.task].row != r
    requires e.Send? ==> w.phases[e.task].row != r
    ensures RefusedFor(Next(w, e).calls, r) == RefusedFor(w.calls, r)
    ensures CalledFor(Next(w, e).calls, r) == CalledFor(w.calls, r)
  {
    var calls, calls' := w.calls, Next(w, e).calls;
    NextSettles(w, e);
    if e.Receive? {
      assert Fits(w.phases[e.task], w.rows, w.calls);
    }
    forall c | 0 <= c < |calls| ensures calls'[c] == Call(r, Dead) <==> calls[c] == Call(r, Dead) {
    }
    forall c | |calls| <= c < |calls'| ensures calls'[c].row != r {
    }
  }

  lemma {:induction false} AnswerRecords(w: World, t: nat, answer: Answer)
    requires Shaped(w) && Safe(w) && Recording(w) && Enabled(w, Receive(t, answer))
    ensures var w' := Next(w, Receive(t, answer)); PhaseRecords(w'.phases[t], w'.calls)
  {
    var Calling(row, call) := w.phases[t];
    var calls' := Next(w, Receive(t, answer)).calls;
    assert Fits(w.phases[t], w.rows, w.calls) && PhaseRecords(w.phases[t], w.calls);
    assert calls'[call].row == row;
    if answer.Refused? {
      assert calls'[call] == Call(row, Dead);
    }
  }

  lemma {:induction false} SendRecords(w: World, t: nat)
    requires Shaped(w) && Safe(w) && Enabled(w, Send(t))
    ensures var w' := Next(w, Send(t)); PhaseRecords(w'.phases[t], w'.calls)
  {
    var w' := Next(w, Send(t));
    assert w'.calls[|w.calls|] == Call(w.phases[t].row, Pending);
    forall c | 0 <= c < |w'.calls| ensures w'.calls[c] != Call(w.phases[t].row, Dead) {
      assert c < |w.calls| ==> w.calls[c].row != w.phases[t].row;
    }
  }

  lemma {:induction false} PhaseStillRecords(w: World, e: Event, t: nat)
    requires Shaped(w) && Safe(w) && Recording(w) && Enabled(w, e) && t in w.phases
    ensures PhaseRecords(Next(w, e).phases[t], Next(w, e).calls)
  {
    var phase := w.phases[t];
    assert PhaseRecords(phase, w.calls);
    if e == Send(t) {
      SendRecords(w, t);
    } else if e.Receive? && e.task == t {
      AnswerRecords(w, t, e.answer);
    } else if phase.Held().Some? {
      assert e.Send? || e.Receive? ==> w.phases[e.task].Held() != phase.Held();
      OthersRecord(w, e, phase.row);
    }
  }

  lemma {:induction false} RowStillRecords(w: World, e: Event, r: nat)
    requires Shaped(w) && Safe(w) && Recording(w) && Enabled(w, e) && r < |Next(w, e).rows|
    ensures RowRecords(Next(w, e).rows[r], r, Next(w, e).calls)
  {
    if r < |w.rows| {
      assert RowRecords(w.rows[r], r, w.calls);
      if e.Commit? {
        assert PhaseRecords(w.phases[e.task], w.calls);
      }
      if !w.rows[r].status.Placing? {
        assert e.Send? || e.Receive? ==> w.phases[e.task].Held() != Some(r);
        OthersRecord(w, e, r);
      }
    }
  }

  lemma {:induction false} NextRecords(w: World, e: Event)
    requires Shaped(w) && Safe(w) && Recording(w) && Enabled(w, e)
    ensures Recording(Next(w, e))
  {
    var w' := Next(w, e);
    assert w'.phases.Keys == w.phases.Keys;
    forall r | 0 <= r < |w'.rows| ensures RowRecords(w'.rows[r], r, w'.calls) {
      RowStillRecords(w, e, r);
    }
    forall t | t in w'.phases ensures PhaseRecords(w'.phases[t], w'.calls) {
      PhaseStillRecords(w, e, t);
    }
  }

  lemma {:induction false} PlaysRecord(v: World, run: seq<Event>, w: World)
    requires Shaped(v) && Safe(v) && Recording(v) && Plays(v, run, w)
    ensures Shaped(w) && Safe(w) && Recording(w)
    decreases |run|
  {
    if run != [] {
      var u :| PlaysVia(v, run, u, w);
      PlaysRecord(v, run[..|run| - 1], u);
      NextSafe(u, run[|run| - 1]);
      NextRecords(u, run[|run| - 1]);
    }
  }

  /** In every interleaving a row that is settled has its one call, and is `failed` exactly when Swiggy
      refused that call. */
  lemma {:induction false} FailedExactlyWhenRefused(callers: map<nat, int>, run: seq<Event>, w: World, r: nat)
    returns (c: nat)
    requires Plays(Opening(callers), run, w) && r < |w.rows| && !w.rows[r].status.Placing?
    ensures c < |w.calls| && w.calls[c].row == r
    ensures forall d | 0 <= d < |w.calls| && w.calls[d].row == r :: d == c
    ensures w.rows[r].status.Failed? <==> w.calls[c].verdict == Dead
  {
    PlaysSafe(Opening(callers), run, w);
    PlaysRecord(Opening(callers), run, w);
    assert RowRecords(w.rows[r], r, w.calls);
    c :| 0 <= c < |w.calls| && w.calls[c].row == r;
  }

  /** The real orders made by a user's checkouts. */
  ghost function RealOrders(w: World, user: int): set<nat>
    requires forall c | 0 <= c < |w.calls| :: w.calls[c].row < |w.rows|
  {
    set c: nat | c < |w.calls| && w.calls[c].verdict.Made? && w.rows[w.calls[c].row].user == user
  }

  /** The rows that admit an order: `placing`, `placed` or `unknown`. */
  ghost function OpenRows(w: World, user: int): set<nat> {
    set r: nat | r < |w.rows| && w.rows[r].user == user && !w.rows[r].status.Failed?
  }

  lemma {:induction false} InjectiveImage(calls: seq<Call>, cs: set<nat>, rs: set<nat>)
    requires forall c | c in cs :: c < |calls| && calls[c].row in rs
    requires forall c, c' | c in cs && c' in cs :: calls[c].row == calls[c'].row ==> c == c'
    ensures |cs| <= |rs|
    decreases |cs|
  {
    if cs != {} {
      var c :| c in cs;
      InjectiveImage(calls, cs - {c}, rs - {calls[c].row});
    }
  }

  /** No real order is unrecorded, even when `get_orders` fails and a row is left `placing`. */
  lemma {:induction false} RealOrdersAreRecorded(callers: map<nat, int>, run: seq<Event>, w: World, user: int)
    requires Plays(Opening(callers), run, w)
    ensures forall c | 0 <= c < |w.calls| :: w.calls[c].row < |w.rows|
    ensures |RealOrders(w, user)| <= |OpenRows(w, user)|
  {
    CheckoutIsSafe(callers, run, w);
    InjectiveImage(w.calls, RealOrders(w, user), OpenRows(w, user));
  }

  lemma {:induction false} SettledStep(w: World, e: Event, r: nat)
    requires Shaped(w) && Safe(w) && Enabled(w, e) && r < |w.rows| && !w.rows[r].status.Placing?
    ensures r < |Next(w, e).rows| && Next(w, e).rows[r] == w.rows[r]
  {
    if e.Commit? {
      assert w.phases[e.task].Held() == Some(w.phases[e.task].row);
    }
  }

  /** The record of a finished checkout is never rewritten. */
  lemma {:induction false} SettledRowsStay(v: World, run: seq<Event>, w: World, r: nat)
    requires Shaped(v) && Safe(v) && Plays(v, run, w)
    requires r < |v.rows| && !v.rows[r].status.Placing?
    ensures r < |w.rows| && w.rows[r] == v.rows[r]
    decreases |run|
  {
    if run != [] {
      var u :| PlaysVia(v, run, u, w);
      SettledRowsStay(v, run[..|run| - 1], u, r);
      PlaysSafe(v, run[..|run| - 1], u);
      SettledStep(u, run[|run| - 1], r);
    }
  }

  /** A `placing` row whose checkout is gone. */
  ghost predicate Orphan(w: World, r: nat) {
    r < |w.rows| && w.rows[r].status.Placing? && forall t | t in w.phases :: w.phases[t].Held() != Some(r)
  }

  /** A task that holds a row is not working for the user of an orphaned one. */
  lemma {:induction false} OrphanExcludes(w: World, r: nat, t: nat)
    requires Shaped(w) && Safe(w) && Orphan(w, r) && t in w.phases && w.phases[t].Held().Some?
    ensures w.callers[t] != w.rows[r].user
  {
    assert w.rows[w.phases[t].Held().value] == Row(w.callers[t], Placing, None);
  }

  lemma {:induction false} OrphanStep(w: World, e: Event, r: nat)
    requires Shaped(w) && Safe(w) && Orphan(w, r) && Enabled(w, e)
    ensures Orphan(Next(w, e), r) && Next(w, e).rows[r] == w.rows[r]
    ensures forall c | |w.calls| <= c < |Next(w, e).calls| ::
      Next(w, e).calls[c].row < |w.rows| && w.rows[Next(w, e).calls[c].row].user != w.rows[r].user
    ensures e.Insert? && w.callers[e.task] == w.rows[r].user ==> Next(w, e).phases[e.task] == Done(InProgress)
  {
    if e.Send? {
      assert w.phases[e.task].Held() == Some(w.phases[e.task].row);
      OrphanExcludes(w, r, e.task);
    } else if e.Commit? {
      assert w.phases[e.task].Held() == Some(w.phases[e.task].row);
    }
  }

  /** An orphaned row is never repaired: it stays `placing` through every later run, and its user
      makes no further checkout call in it. */
  lemma {:induction false} OrphanBlocksForever(v: World, run: seq<Event>, w: World, r: nat)
    requires Shaped(v) && Safe(v) && Orphan(v, r) && Plays(v, run, w)
    ensures Shaped(w) && Safe(w) && Grows(v, w) && Orphan(w, r) && w.rows[r] == v.rows[r]
    ensures forall c | |v.calls| <= c < |w.calls| ::
      w.calls[c].row < |w.rows| && w.rows[w.calls[c].row].user != v.rows[r].user
    decreases |run|
  {
    if run != [] {
      var u, e :| PlaysVia(v, run, u, w) && e == run[|run| - 1];
      OrphanBlocksForever(v, run[..|run| - 1], u, r);
      OrphanStep(u, e, r);
      NextSafe(u, e);
      NextGrows(u, e);
      forall c | |v.calls| <= c < |w.calls|
        ensures w.calls[c].row < |w.rows| && w.rows[w.calls[c].row].user != v.rows[r].user
      {
        if c < |u.calls| {
          assert w.calls[c].row == u.calls[c].row;
        }
      }
    }
  }

  /** A step that lets go of a `placing` row without settling it. */
  ghost predicate LetsGo(w: World, e: Event, r: nat)
    requires Shaped(w) && Enabled(w, e)
  {
    match e
    case Reconcile(t, readable) => w.phases[t].row == r && !readable
    case Commit(t) =>
      && w.phases[t].row == r
      && w.phases[t].final.orderId.Some? && HasOrder(w.rows, w.phases[t].final.orderId.value)
    case Crash(t) => w.phases[t].Held() == Some(r)
    case _ => false
  }

  /** Whoever holds a row still does after a step of somebody else. */
  lemma {:induction false} OthersKeepHolding(w: World, e: Event, r: nat, t: nat)
    requires Shaped(w) && Safe(w) && Enabled(w, e)
    requires t in w.phases && w.phases[t].Held() == Some(r)
    ensures Next(w, e).phases[t].Held() == Some(r) || (!e.Place? && e.task == t)
  {
  }

  lemma {:induction false} LettingGoOrphans(w: World, e: Event, r: nat)
    requires Shaped(w) && Safe(w) && Enabled(w, e) && LetsGo(w, e, r)
    ensures Orphan(Next(w, e), r)
  {
    var t := e.task;
    assert w.phases[t].Held() == Some(r);
    assert w.rows[r] == Row(w.callers[t], Placing, None);
  }

  /** One way to be orphaned: the outcome is unknown and `get_orders` raises. */
  lemma {:induction false} UnreadableOrdersOrphan(w: World, t: nat)
    requires Shaped(w) && Safe(w) && Enabled(w, Reconcile(t, false))
    ensures Orphan(Next(w, Reconcile(t, false)), w.phases[t].row)
  {
    LettingGoOrphans(w, Reconcile(t, false), w.phases[t].row);
  }

  lemma {:induction false} NewRowIsHeld(w: World, e: Event, r: nat)
    requires Shaped(w) && Enabled(w, e) && |w.rows| <= r < |Next(w, e).rows|
    ensures !Orphan(Next(w, e), r)
  {
    assert e.Insert? && Next(w, e).phases[e.task].Held() == Some(r);
  }

  /** A row that has a holder loses it only to a step that lets go, or settles with it. */
  lemma {:induction false} HeldRowIsOrphanedExactlyBy(w: World, e: Event, r: nat, t: nat)
    requires Shaped(w) && Safe(w) && Enabled(w, e)
    requires t in w.phases && w.phases[t].Held() == Some(r)
    ensures Orphan(Next(w, e), r) <==> LetsGo(w, e, r)
  {
    OthersKeepHolding(w, e, r, t);
    if LetsGo(w, e, r) {
      LettingGoOrphans(w, e, r);
    }
  }

  /** A row without a holder, settled or not there yet, is orphaned by no step. */
  lemma {:induction false} UnheldRowIsNotOrphaned(w: World, e: Event, r: nat)
    requires Shaped(w) && Safe(w) && Enabled(w, e) && !Orphan(w, r)
    requires forall t | t in w.phases :: w.phases[t].Held() != Some(r)
    ensures !Orphan(Next(w, e), r) && !LetsGo(w, e, r)
  {
    if r < |w.rows| {
      SettledStep(w, e, r);
    } else if r < |Next(w, e).rows| {
      NewRowIsHeld(w, e, r);
    }
  }

  /** In every run a row is orphaned by a step exactly if the outcome was unknown and the orders could not
      be read, or the order id to commit is already recorded, or the checkout crashed holding it. */
  lemma {:induction false} OrphanedExactlyWhenLetGo(callers: map<nat, int>, run: seq<Event>, w: World, e: Event, r: nat)
    requires Plays(Opening(callers), run, w)
    ensures Shaped(w)
    ensures Enabled(w, e) && !Orphan(w, r) ==> (Orphan(Next(w, e), r) <==> LetsGo(w, e, r))
  {
    PlaysSafe(Opening(callers), run, w);
    if Enabled(w, e) && !Orphan(w, r) {
      if t :| t in w.phases && w.phases[t].Held() == Some(r) {
        HeldRowIsOrphanedExactlyBy(w, e, r, t);
      } else {
        UnheldRowIsNotOrphaned(w, e, r);
      }
    }
  }
}
