/** What every run of a turn keeps, and how its card accounts for the recipe. */
module TurnLaws {
  import opened Collections
  import opened Names
  import opened CartMerge
  import opened Checklist
  import opened ChecklistLaws
  import opened ScratchChoice
  import opened Turn
  import VariantSelection
  import CartOps
  import CartAnswers

  function RowsOf(arrived: seq<Arrival>): seq<Row> {
    Map((a: Arrival) => a.row, arrived)
  }

  ghost predicate OwnNames(arrived: seq<Arrival>) {
    forall i | 0 <= i < |arrived| :: arrived[i].found.name == arrived[i].row.name
  }

  /** Every worker has been sent exactly one needed row. */
  ghost predicate Sent(needed: seq<Row>, arrived: seq<Arrival>, pending: seq<Row>) {
    multiset(RowsOf(arrived)) + multiset(pending) == multiset(needed) && OwnNames(arrived)
  }

  ghost predicate Early(w: World) {
    w.pending == [] && w.given.have == None && w.given.arrived == [] && w.written == []
  }

  /** Where a run stands, told from what it was given alone. */
  ghost predicate OnTrack(k: Kitchen, s: State, w: World) {
    var g := w.given;
    match w.phase
    case Choosing => w.state == s && Early(w) && g.choice == None
    case Normalizing => w.state == Chosen(k, s, g.choice) && Early(w) && Settled(s, g.choice)
    case Confirming => w.state == Listed(k, s, g.choice) && Early(w) && Settled(s, g.choice)
    case Matching =>
      && g.have.Some? && w.written == [] && Settled(s, g.choice)
      && w.state == Confirmed(k, s, g.choice, g.have.value)
      && Sent(Needed(w.state), g.arrived, w.pending)
    case Composing => Complete(k, s, g) && w.state == Matched(k, s, g) && w.written == []
    case Reporting =>
      && Complete(k, s, g) && w.state == Matched(k, s, g)
      && PlanAccepted(w.state.matches) && Written(w.state.matches, w.written)
      && w.plan == PlanOf(w.state.rows, w.state.matches)
    case Ended =>
      && Complete(k, s, g) && w.state == Straight(k, s, g)
      && PlanAccepted(w.state.matches) && Written(w.state.matches, w.written)
      && w.plan == PlanOf(w.state.rows, w.state.matches)
    case Failed =>
      && g.have.Some?
      && (w.written == [] ||
          (w.state == Matched(k, s, g) && PlanAccepted(w.state.matches) && Written(w.state.matches, w.written)))
  }

  ghost predicate Settled(s: State, choice: Option<Choice>) {
    s.component.Some? && s.choice.None? ==> choice.Some?
  }

  /** The choice was made if it had to be, the checklist was answered, and every worker finished. */
  ghost predicate Complete(k: Kitchen, s: State, g: Given) {
    Settled(s, g.choice) && g.have.Some? && Sent(Needed(Confirmed(k, s, g.choice, g.have.value)), g.arrived, [])
  }

  /** At most one write, of exactly what the matches add. */
  ghost predicate Written(matches: seq<Match>, written: seq<seq<Line>>) {
    written == if Additions(matches) == [] then [] else [Additions(matches)]
  }

  /** Running the finished choice node again changes nothing exactly when there was a component to choose;
      without one it would show the recipe a second time. */
  lemma {:induction false} ReplayHarmlessExactlyWithComponent(k: Kitchen, s: State, choice: Option<Choice>)
    requires Settled(s, choice)
    ensures var chosen := Chosen(k, s, choice);
      ChooseNode(k.u, chosen, None) == Finished(chosen) <==> s.component.Some?
  {
    var chosen := Chosen(k, s, choice);
    if s.component.Some? {
      ReplayChangesNothing(k.u, s.recipe, s.component.value, if s.choice.Some? then s.choice.value else choice.value);
    } else {
      assert |chosen.shown + [chosen.recipe]| != |chosen.shown|;
    }
  }

  lemma {:induction false} FinishSent(needed: seq<Row>, arrived: seq<Arrival>, pending: seq<Row>, i: nat, found: Match)
    requires Sent(needed, arrived, pending) && i < |pending| && found.name == pending[i].name
    ensures Sent(needed, arrived + [Arrival(pending[i], found)], pending[..i] + pending[i + 1..])
  {
    assert pending == pending[..i] + [pending[i]] + pending[i + 1..];
    assert RowsOf(arrived + [Arrival(pending[i], found)]) == RowsOf(arrived) + [pending[i]];
  }

  lemma {:induction false} RunOnTrack(k: Kitchen, s: State, w: World, resume: Option<Answer>)
    requires OnTrack(k, s, w) && Enabled(w, Run(resume))
    ensures OnTrack(k, s, Next(k, w, Run(resume)))
  {
    if w.phase.Confirming? && ConfirmNode(w.state, resume).Finished? {
      var confirmed := ConfirmNode(w.state, resume).state;
      var w' := Next(k, w, Run(resume));
      assert w'.given == w.given.(have := Some(resume.value.names));
      assert RowsOf([]) == [];
      assert Sent(Needed(confirmed), [], Needed(confirmed));
      if Needed(confirmed) == [] {
        assert FoundBy(w'.given.arrived) == [];
        assert confirmed.matches + [] == confirmed.matches;
      }
    }
  }

  lemma {:induction false} FinishOnTrack(k: Kitchen, s: State, w: World, i: nat, found: Match)
    requires OnTrack(k, s, w) && Enabled(w, Finish(i, found))
    ensures OnTrack(k, s, Next(k, w, Finish(i, found)))
  {
    FinishSent(Needed(w.state), w.given.arrived, w.pending, i, found);
  }

  lemma {:induction false} OtherOnTrack(k: Kitchen, s: State, w: World, e: Event)
    requires OnTrack(k, s, w) && Enabled(w, e) && !e.Run?
    ensures OnTrack(k, s, Next(k, w, e))
  {
    match e
    case Replay => ReplayHarmlessExactlyWithComponent(k, s, w.given.choice);
    case Finish(i, found) => FinishOnTrack(k, s, w, i, found);
    case _ =>
  }

  lemma {:induction false} RunsStayOnTrack(k: Kitchen, s: State, run: seq<Event>, w: World)
    requires Via(k, s, run, w)
    ensures OnTrack(k, s, w)
  {
    if run != [] {
      var last := run[|run| - 1];
      var w0 :| Via(k, s, run[..|run| - 1], w0) && Enabled(w0, last) && w == Next(k, w0, last);
      RunsStayOnTrack(k, s, run[..|run| - 1], w0);
      if last.Run? {
        RunOnTrack(k, s, w0, last.resume);
      } else {
        OtherOnTrack(k, s, w0, last);
      }
    }
  }

  /** However often a turn pauses, is answered unreadably, or has its choice replayed, it ends in the
      state an uninterrupted run with the same answers ends in. */
  lemma {:induction false} PausesLeaveNoTrace(k: Kitchen, s: State, w: World)
    requires Reaches(k, s, w) && w.phase.Ended?
    ensures w.state == Straight(k, s, w.given)
  {
    var run :| Via(k, s, run, w);
    RunsStayOnTrack(k, s, run, w);
  }

  /** The cart is written at most once, only after the checklist was answered, and only with what the
      matches hold. */
  lemma {:induction false} NothingIsWrittenWithoutConsent(k: Kitchen, s: State, w: World)
    requires Reaches(k, s, w) && w.written != []
    ensures w.given.have.Some? && w.written == [Additions(w.state.matches)] && PlanAccepted(w.state.matches)
    ensures w.state.matches == s.matches + FoundBy(w.given.arrived)
  {
    var run :| Via(k, s, run, w);
    RunsStayOnTrack(k, s, run, w);
  }

  // ------------------------------------------------------------------ the turn ends

  function Rank(p: Phase): nat {
    match p
    case Choosing => 6
    case Normalizing => 5
    case Confirming => 4
    case Matching => 3
    case Composing => 2
    case Reporting => 1
    case Ended => 0
    case Failed => 0
  }

  ghost predicate MovesOn(w: World, w': World) {
    || Rank(w'.phase) < Rank(w.phase)
    || (Rank(w'.phase) == Rank(w.phase) && |w'.pending| < |w.pending|)
  }

  lemma {:induction false} StepMovesOn(k: Kitchen, w: World, e: Event)
    requires Enabled(w, e) && !e.Replay?
    ensures MovesOn(w, Next(k, w, e)) || Next(k, w, e) == w
  {
  }

  lemma {:induction false} ReplayLeavesTheWorld(k: Kitchen, s: State, w: World)
    requires OnTrack(k, s, w) && Enabled(w, Replay)
    ensures Next(k, w, Replay) == w
  {
    ReplayHarmlessExactlyWithComponent(k, s, w.given.choice);
  }

  /** The graph has no cycle: every step moves on, finishes a worker, or leaves the world as it was. */
  lemma {:induction false} EveryStepMovesOn(k: Kitchen, s: State, w: World, e: Event)
    requires Reaches(k, s, w) && Enabled(w, e)
    ensures MovesOn(w, Next(k, w, e)) || Next(k, w, e) == w
  {
    var run :| Via(k, s, run, w);
    RunsStayOnTrack(k, s, run, w);
    if e.Replay? {
      ReplayLeavesTheWorld(k, s, w);
    } else {
      StepMovesOn(k, w, e);
    }
  }

  /** Until it ends a turn can always go on: there is an answer or a result that moves it. */
  lemma {:induction false} NeverStranded(k: Kitchen, s: State, w: World) returns (e: Event)
    requires Reaches(k, s, w) && !(w.phase in {Ended, Failed})
    ensures Enabled(w, e) && Next(k, w, e) != w
  {
    var run :| Via(k, s, run, w);
    RunsStayOnTrack(k, s, run, w);
    match w.phase
    case Choosing => e := Run(Some(Choose(FromScratch)));
    case Normalizing => e := Run(None);
    case Confirming => e := Run(Some(Have({})));
    case Matching =>
      MatchingHasWorkers(k, s, run, w);
      e := Finish(0, Match(w.pending[0].name, VariantSelection.Unavailable, None, None, None));
    case Composing => e := Compose([]);
    case Reporting => e := Report;
  }

  lemma {:induction false} MatchingHasWorkers(k: Kitchen, s: State, run: seq<Event>, w: World)
    requires Via(k, s, run, w) && w.phase.Matching?
    ensures w.pending != []
  {
    if run != [] {
      var last := run[|run| - 1];
      var w0 :| Via(k, s, run[..|run| - 1], w0) && Enabled(w0, last) && w == Next(k, w0, last);
    }
  }

  // ------------------------------------------------------------------ the accounting

  function MatchNames(matches: seq<Match>): seq<string> {
    Map((m: Match) => m.name, matches)
  }

  function CardNames(cards: seq<Card>): seq<string> {
    Map((c: Card) => c.name, cards)
  }

  function RowNames(rows: seq<Row>): seq<string> {
    Map((r: Row) => r.name, rows)
  }

  lemma {:induction false} NamesOfFound(arrived: seq<Arrival>)
    requires OwnNames(arrived)
    ensures MatchNames(FoundBy(arrived)) == RowNames(RowsOf(arrived))
  {
  }

  lemma {:induction false} RowNamesWith(c: seq<Row>, r: Row, d: seq<Row>)
    ensures multiset(RowNames(c + [r] + d)) == multiset(RowNames(c + d)) + multiset{r.name}
  {
    assert RowNames(c + [r] + d) == RowNames(c) + [r.name] + RowNames(d);
    assert RowNames(c + d) == RowNames(c) + RowNames(d);
  }

  lemma {:induction false} SameRowsSameNames(a: seq<Row>, b: seq<Row>)
    requires multiset(a) == multiset(b)
    ensures multiset(RowNames(a)) == multiset(RowNames(b))
  {
    if a == [] {
      assert b == [];
    } else {
      var j := Pluck(a, b);
      var init := a[..|a| - 1];
      SameRowsSameNames(init, b[..j] + b[j + 1..]);
      RowNamesWith(b[..j], b[j], b[j + 1..]);
      RowNamesWith(init, b[j], []);
      assert init + [b[j]] + [] == a && init + [] == init;
    }
  }

  /** The finished workers are the needed rows, one each, in whatever order they came. */
  lemma {:induction false} OneMatchPerNeededRow(k: Kitchen, s: State, w: World)
    requires Reaches(k, s, w) && w.phase.Ended?
    ensures multiset(RowsOf(w.given.arrived)) == multiset(Needed(w.state)) && OwnNames(w.given.arrived)
    ensures w.state.matches == s.matches + FoundBy(w.given.arrived)
    ensures |w.state.cards| == |w.state.matches| && CardNames(w.state.cards) == MatchNames(w.state.matches)
  {
    var run :| Via(k, s, run, w);
    RunsStayOnTrack(k, s, run, w);
    assert multiset(RowsOf(w.given.arrived)) + multiset([]) == multiset(RowsOf(w.given.arrived));
    assert Needed(w.state) == Needed(Confirmed(k, s, w.given.choice, w.given.have.value));
  }

  lemma {:induction false} EndedPlanIsAccepted(k: Kitchen, s: State, w: World)
    requires Reaches(k, s, w) && w.phase.Ended?
    ensures PlanAccepted(w.state.matches)
  {
    var run :| Via(k, s, run, w);
    RunsStayOnTrack(k, s, run, w);
  }

  /** The card has one row for each needed ingredient exactly when the turn began with no matches:
      nothing clears those of an earlier turn. */
  lemma {:induction false} CardAccountsExactlyForAFreshTurn(k: Kitchen, s: State, w: World)
    requires Reaches(k, s, w) && w.phase.Ended?
    ensures multiset(CardNames(w.state.cards)) == multiset(RowNames(Needed(w.state))) <==> s.matches == []
  {
    OneMatchPerNeededRow(k, s, w);
    var found := FoundBy(w.given.arrived);
    NamesOfFound(w.given.arrived);
    SameRowsSameNames(RowsOf(w.given.arrived), Needed(w.state));
    assert MatchNames(s.matches + found) == MatchNames(s.matches) + MatchNames(found);
    assert multiset(CardNames(w.state.cards)) == multiset(MatchNames(s.matches)) + multiset(RowNames(Needed(w.state)));
    assert |multiset(MatchNames(s.matches))| == |s.matches|;
    if s.matches == [] {
      assert MatchNames(s.matches) == [];
    }
  }

  /** The card shows what Swiggy's cart holds: an ingredient is in the cart exactly when a line of its
      variant is, and then with that line's quantity. */
  lemma {:induction false} CardShowsTheCart(k: Kitchen, s: State, w: World, i: nat)
    requires Reaches(k, s, w) && w.phase.Ended? && i < |w.state.cards|
    ensures |w.state.cards| == |w.state.matches|
    ensures var m, card, held := w.state.matches[i], w.state.cards[i], w.given.held;
      && (card.inCart <==> m.spinId.GetOr("") != "" && m.spinId.value in Ids(held))
      && (card.inCart ==> card.quantity.Some? && card.quantity.value == Baseline(held, m.spinId.value))
      && (!card.inCart ==> card.quantity == m.quantity)
  {
    OneMatchPerNeededRow(k, s, w);
    var run :| Via(k, s, run, w);
    RunsStayOnTrack(k, s, run, w);
    PresentIffPositive(w.given.held, w.state.matches[i].spinId.GetOr(""));
  }

  lemma {:induction false} AdditionsConcat(a: seq<Match>, b: seq<Match>)
    ensures Additions(a + b) == Additions(a) + Additions(b)
  {
    if b == [] {
      assert a + b == a;
    } else {
      AdditionsConcat(a, b[..|b| - 1]);
      assert (a + b)[..|a + b| - 1] == a + b[..|b| - 1];
    }
  }

  /** A compose of these matches onto `before`, answered by Swiggy and without a review. */
  ghost predicate Composed(matches: seq<Match>, before: seq<Line>, outs: seq<CartOps.Outcome>) {
    var c := CartOps.Exec(CartOps.Compose(Additions(matches)), before, outs);
    && c.pc.Done? && c.pc.result.Mutated?
    && (Additions(matches) != [] ==> |outs| >= 2 && !outs[1].Review?)
  }

  ghost function ComposedCart(matches: seq<Match>, before: seq<Line>, outs: seq<CartOps.Outcome>): seq<Line> {
    CartOps.Exec(CartOps.Compose(Additions(matches)), before, outs).cart
  }

  /** A cart that holds what it held and these, but for what was dropped. */
  ghost predicate Gained(before: seq<Line>, additions: seq<Line>, cart: seq<Line>) {
    exists drops: set<string> :: GainedBut(before, additions, cart, drops)
  }

  ghost predicate GainedBut(before: seq<Line>, additions: seq<Line>, cart: seq<Line>, drops: set<string>) {
    forall id :: Total(cart, id) == if id in drops then 0 else Total(before, id) + Total(additions, id)
  }

  lemma {:induction false} ComposeGains(matches: seq<Match>, before: seq<Line>, outs: seq<CartOps.Outcome>)
    requires NoDup(Ids(before)) && Composed(matches, before, outs)
    ensures Gained(before, Additions(matches), ComposedCart(matches, before, outs))
  {
    var additions, cart := Additions(matches), ComposedCart(matches, before, outs);
    CartAnswers.EveryAnswerIsHonest(CartOps.Compose(additions), before, outs);
    if additions == [] {
      assert GainedBut(before, additions, cart, {});
    } else {
      var drops := outs[1].drops;
      DistinctReading(before);
      forall id ensures Total(cart, id) == if id in drops then 0 else Total(before, id) + Total(additions, id) {
        CartAnswers.KeptTotal(Merged(before, additions), drops, id);
        MergedTotal(before, additions, id);
      }
      assert GainedBut(before, additions, cart, drops);
    }
  }

  lemma {:induction false} CleanCompose(matches: seq<Match>) returns (outs: seq<CartOps.Outcome>)
    requires Additions(matches) != []
    ensures Composed(matches, [], outs) && ComposedCart(matches, [], outs) == Merged([], Additions(matches))
  {
    var op, yes := CartOps.Compose(Additions(matches)), CartOps.Accept({});
    outs := [yes] + [yes];
    CartOps.ExecSnoc(op, [], [], yes);
    CartOps.ExecSnoc(op, [], [yes], yes);
    assert [] + [yes] == [yes];
    assert CartOps.Exec(op, [], [yes]) == CartOps.Config(CartOps.ComposeWrite([]), []);
    FilterAll(Merged([], Additions(matches)), CartOps.Outside({}));
  }

  /** A line of an earlier turn's matches ends up in a cart that should only gain this turn's. */
  lemma {:induction false} PriorIsAddedAgain(prior: seq<Match>, found: seq<Match>) returns (outs: seq<CartOps.Outcome>)
    requires Additions(prior) != []
    ensures Composed(prior + found, [], outs) && !Gained([], Additions(found), ComposedCart(prior + found, [], outs))
  {
    AdditionsConcat(prior, found);
    outs := CleanCompose(prior + found);
    var id := Additions(prior)[0].spinId;
    assert Ids(Additions(prior))[0] == id;
    PresentIffPositive(Additions(prior), id);
    TotalConcat(Additions(prior), Additions(found), id);
    MergedTotal([], Additions(prior + found), id);
    forall drops: set<string>
      ensures !GainedBut([], Additions(found), ComposedCart(prior + found, [], outs), drops)
    {
      assert Total(ComposedCart(prior + found, [], outs), id) != if id in drops then 0 else Total([], id) + Total(Additions(found), id);
    }
  }

  /** Every compose of an ended turn's matches, silent drops aside, leaves the cart with what earlier matches
      hold and what this turn's workers found; and with the latter alone, for every cart and every way Swiggy
      answers, exactly when the earlier matches hold nothing that can be bought. */
  lemma {:induction false} CartGainsExactlyTheNeeded(k: Kitchen, s: State, w: World)
    requires Reaches(k, s, w) && w.phase.Ended?
    ensures forall before, outs | NoDup(Ids(before)) && Composed(w.state.matches, before, outs) ::
      Gained(before, Additions(s.matches) + Additions(FoundBy(w.given.arrived)), ComposedCart(w.state.matches, before, outs))
    ensures (forall before, outs | NoDup(Ids(before)) && Composed(w.state.matches, before, outs) ::
               Gained(before, Additions(FoundBy(w.given.arrived)), ComposedCart(w.state.matches, before, outs)))
      <==> Additions(s.matches) == []
  {
    OneMatchPerNeededRow(k, s, w);
    var found := FoundBy(w.given.arrived);
    AdditionsConcat(s.matches, found);
    forall before, outs | NoDup(Ids(before)) && Composed(w.state.matches, before, outs)
      ensures Gained(before, Additions(s.matches) + Additions(found), ComposedCart(w.state.matches, before, outs))
    {
      ComposeGains(w.state.matches, before, outs);
    }
    if Additions(s.matches) == [] {
      assert Additions(s.matches) + Additions(found) == Additions(found);
    } else {
      var outs := PriorIsAddedAgain(s.matches, found);
      var none: seq<Line> := [];
      assert NoDup(Ids(none)) && Composed(w.state.matches, none, outs);
    }
  }

  lemma {:induction false} TotalWith(c: seq<Match>, m: Match, d: seq<Match>, id: string)
    ensures Total(Additions(c + [m] + d), id) == Total(Additions(c + d), id) + Total(Additions([m]), id)
  {
    AdditionsConcat(c + [m], d);
    AdditionsConcat(c, [m]);
    AdditionsConcat(c, d);
    TotalConcat(Additions(c) + Additions([m]), Additions(d), id);
    TotalConcat(Additions(c), Additions([m]), id);
    TotalConcat(Additions(c), Additions(d), id);
  }

  lemma {:induction false} TotalWithLast(s: seq<Match>, id: string)
    requires s != []
    ensures Total(Additions(s), id)
      == Total(Additions(s[..|s| - 1]), id) + Total(Additions([s[|s| - 1]]), id)
  {
    var init, m := s[..|s| - 1], s[|s| - 1];
    assert s == init + [m];
    AdditionsConcat(init, [m]);
    TotalConcat(Additions(init), Additions([m]), id);
  }

  lemma {:induction false} TotalIgnoresOrder(a: seq<Match>, b: seq<Match>, id: string)
    requires multiset(a) == multiset(b)
    ensures Total(Additions(a), id) == Total(Additions(b), id)
  {
    if a == [] {
      assert b == [];
    } else {
      var j := Pluck(a, b);
      TotalIgnoresOrder(a[..|a| - 1], b[..j] + b[j + 1..], id);
      TotalWith(b[..j], b[j], b[j + 1..], id);
      TotalWithLast(a, id);
    }
  }

  /** Whatever order the same matches come in, the cart ends with the same quantities. */
  lemma {:induction false} CartIgnoresFinishingOrder(existing: seq<Line>, prior: seq<Match>, a: seq<Match>, b: seq<Match>, id: string)
    requires multiset(a) == multiset(b)
    ensures Total(Merged(existing, Additions(prior + a)), id) == Total(Merged(existing, Additions(prior + b)), id)
  {
    TotalIgnoresOrder(prior + a, prior + b, id);
    MergedTotal(existing, Additions(prior + a), id);
    MergedTotal(existing, Additions(prior + b), id);
  }

  // ----------------------------------------------- from the recipe to the needed rows

  lemma {:induction false} SplitTally<T(!new)>(s: seq<T>, p: T -> bool, q: T -> bool, w: T -> real)
    requires forall x: T :: q(x) == !p(x)
    ensures Tally(s, w) == Tally(Filter(s, p), w) + Tally(Filter(s, q), w)
  {
    if s != [] {
      var init, x := s[..|s| - 1], s[|s| - 1];
      SplitTally(init, p, q, w);
      if p(x) {
        TallySnoc(Filter(init, p), x, w);
      } else {
        TallySnoc(Filter(init, q), x, w);
      }
    }
  }

  function Omitted(u: Script): Ingredient -> bool {
    (i: Ingredient) => IsOmitted(u, i)
  }

  function Ticked(marks: set<string>): Row -> bool {
    (r: Row) => r.name in marks
  }

  lemma {:induction false} TallyIgnoresOrder<T>(a: seq<T>, b: seq<T>, w: T -> real)
    requires multiset(a) == multiset(b)
    ensures Tally(a, w) == Tally(b, w)
  {
    if a == [] {
      assert b == [];
    } else {
      var j := Pluck(a, b);
      TallyIgnoresOrder(a[..|a| - 1], b[..j] + b[j + 1..], w);
      TallyConcat(b[..j] + [b[j]], b[j + 1..], w);
      TallySnoc(b[..j], b[j], w);
      TallyConcat(b[..j], b[j + 1..], w);
    }
  }

  /** Ticked rows and finished workers are all the rows there are. */
  lemma {:induction false} RowsAreTickedOrMatched(k: Kitchen, s: State, w: World, weight: Row -> real)
    requires Reaches(k, s, w) && w.phase.Ended?
    ensures Tally(w.state.rows, weight)
      == Tally(Filter(w.state.rows, Ticked(w.state.marks)), weight) + Tally(RowsOf(w.given.arrived), weight)
  {
    OneMatchPerNeededRow(k, s, w);
    SplitTally(w.state.rows, Ticked(w.state.marks), Wanted(w.state.marks), weight);
    TallyIgnoresOrder(RowsOf(w.given.arrived), Needed(w.state), weight);
  }

  /** The rows of an ended turn are the merge of what the chosen recipe lists and does not omit. */
  lemma {:induction false} RowsOfEnded(k: Kitchen, s: State, w: World)
    requires Reaches(k, s, w) && w.phase.Ended?
    ensures w.state.rows == Grouped(Filter(Chosen(k, s, w.given.choice).recipe.ingredients, Shown(k.u)),
                                    Listed(k, s, w.given.choice).marks)
  {
    var run :| Via(k, s, run, w);
    RunsStayOnTrack(k, s, run, w);
  }

  /** Every amount the chosen recipe calls for is omitted, ticked off, or on a row some worker resolved. */
  lemma {:induction false} EveryAmountIsAccountedFor(k: Kitchen, s: State, w: World, name: string, unit: Option<string>)
    requires Reaches(k, s, w) && w.phase.Ended?
    ensures var recipe := Chosen(k, s, w.given.choice).recipe.ingredients;
      Tally(recipe, AmountOf(name, unit)) ==
        Tally(Filter(recipe, Omitted(k.u)), AmountOf(name, unit))
        + Tally(Filter(w.state.rows, Ticked(w.state.marks)), RowAmount(name, unit))
        + Tally(RowsOf(w.given.arrived), RowAmount(name, unit))
  {
    var recipe := Chosen(k, s, w.given.choice).recipe.ingredients;
    RowsOfEnded(k, s, w);
    SplitTally(recipe, Omitted(k.u), Shown(k.u), AmountOf(name, unit));
    AmountsConserved(Filter(recipe, Shown(k.u)), Listed(k, s, w.given.choice).marks, name, unit);
    RowsAreTickedOrMatched(k, s, w, RowAmount(name, unit));
  }

  /** Every ingredient without a unit, measured or not, is omitted, ticked off, or has a match of its own:
      counted by name, none is lost and none is matched twice. */
  lemma {:induction false} EveryUnitlessIngredientIsAccountedFor(k: Kitchen, s: State, w: World, name: string)
    requires Reaches(k, s, w) && w.phase.Ended?
    ensures var recipe := Chosen(k, s, w.given.choice).recipe.ingredients;
      Tally(recipe, Matches(name, None)) ==
        Tally(Filter(recipe, Omitted(k.u)), Matches(name, None))
        + Tally(Filter(w.state.rows, Ticked(w.state.marks)), RowMatches(name, None))
        + Tally(RowsOf(w.given.arrived), RowMatches(name, None))
  {
    var recipe := Chosen(k, s, w.given.choice).recipe.ingredients;
    RowsOfEnded(k, s, w);
    SplitTally(recipe, Omitted(k.u), Shown(k.u), Matches(name, None));
    OneRowPerNameAndUnit(Filter(recipe, Shown(k.u)), Listed(k, s, w.given.choice).marks, name, None);
    RowsAreTickedOrMatched(k, s, w, RowMatches(name, None));
  }

  /** All ingredients of one name and unit that are not omitted share exactly one ticked row or one match;
      there is neither if there are none. */
  lemma {:induction false} EveryUnitIsAccountedForOnce(k: Kitchen, s: State, w: World, name: string, unit: string)
    requires Reaches(k, s, w) && w.phase.Ended?
    ensures var recipe := Chosen(k, s, w.given.choice).recipe.ingredients;
      Tally(Filter(w.state.rows, Ticked(w.state.marks)), RowMatches(name, Some(unit)))
        + Tally(RowsOf(w.given.arrived), RowMatches(name, Some(unit)))
      == if exists i :: i in recipe && !IsOmitted(k.u, i) && i.name == name && i.unit == Some(unit) then 1.0 else 0.0
  {
    var recipe := Chosen(k, s, w.given.choice).recipe.ingredients;
    RowsOfEnded(k, s, w);
    FilterMembers(recipe, Shown(k.u));
    OneRowPerNameAndUnit(Filter(recipe, Shown(k.u)), Listed(k, s, w.given.choice).marks, name, Some(unit));
    RowsAreTickedOrMatched(k, s, w, RowMatches(name, Some(unit)));
  }

  // ------------------------------------------------------------- plan quantities

  lemma {:induction false} PlanRowFound(rows: seq<Row>, name: string)
    ensures PlanRow(rows, name).None? ==> forall r | r in rows :: r.name != name
    ensures PlanRow(rows, name).Some? ==> PlanRow(rows, name).value in rows && PlanRow(rows, name).value.name == name
  {
    if rows != [] {
      PlanRowFound(rows[..|rows| - 1], name);
      assert rows == rows[..|rows| - 1] + [rows[|rows| - 1]];
    }
  }

  ghost predicate AsksLike(r: Row, q: Row) {
    r.quantity == q.quantity && r.unit == q.unit
  }

  /** The stored row of every worker carries what the row it was sent asked for. */
  ghost predicate PlanIsRight(prior: nat, arrived: seq<Arrival>, plan: seq<PlanItem>)
    requires |plan| == prior + |arrived|
  {
    forall i | 0 <= i < |arrived| ::
      plan[prior + i].quantity == arrived[i].row.quantity && plan[prior + i].unit == arrived[i].row.unit
  }

  lemma {:induction false} PlanOfEnded(k: Kitchen, s: State, w: World)
    requires Reaches(k, s, w) && w.phase.Ended?
    ensures w.plan == PlanOf(w.state.rows, w.state.matches)
  {
    var run :| Via(k, s, run, w);
    RunsStayOnTrack(k, s, run, w);
  }

  /** The plan's rows from `prior` on are those of the finished workers. */
  ghost predicate PlansArrived(plan: seq<PlanItem>, rows: seq<Row>, prior: nat, arrived: seq<Arrival>) {
    && |plan| == prior + |arrived|
    && forall i | 0 <= i < |arrived| :: plan[prior + i] == PlanItemOf(rows, arrived[i].found)
  }

  lemma {:induction false} PlanSuffix(rows: seq<Row>, prior: seq<Match>, arrived: seq<Arrival>)
    ensures PlansArrived(PlanOf(rows, prior + FoundBy(arrived)), rows, |prior|, arrived)
  {
  }

  lemma {:induction false} PlanItemsOf(k: Kitchen, s: State, w: World)
    requires Reaches(k, s, w) && w.phase.Ended?
    ensures PlansArrived(w.plan, w.state.rows, |s.matches|, w.given.arrived)
  {
    OneMatchPerNeededRow(k, s, w);
    PlanOfEnded(k, s, w);
    PlanSuffix(w.state.rows, s.matches, w.given.arrived);
  }

  lemma {:induction false} NeededRowsArrived(k: Kitchen, s: State, w: World)
    requires Reaches(k, s, w) && w.phase.Ended?
    ensures OwnNames(w.given.arrived)
    ensures forall r :: r in Needed(w.state) <==> exists i :: 0 <= i < |w.given.arrived| && w.given.arrived[i].row == r
    ensures forall r :: r in Needed(w.state) <==> r in w.state.rows && r.name !in w.state.marks
  {
    OneMatchPerNeededRow(k, s, w);
    FilterMembers(w.state.rows, Wanted(w.state.marks));
    var sent := RowsOf(w.given.arrived);
    forall r ensures r in Needed(w.state) <==> exists i :: 0 <= i < |w.given.arrived| && w.given.arrived[i].row == r {
      assert r in multiset(Needed(w.state)) <==> r in multiset(sent);
      if i :| 0 <= i < |w.given.arrived| && w.given.arrived[i].row == r {
        assert sent[i] == r;
      }
    }
  }

  /** The plan of an ended turn is right about every needed row exactly when no needed row shares its name
      with a row of another quantity or unit. */
  lemma {:induction false} PlanIsRightExactlyWhenNamesSuffice(k: Kitchen, s: State, w: World)
    requires Reaches(k, s, w) && w.phase.Ended?
    ensures |w.plan| == |s.matches| + |w.given.arrived|
    ensures PlanIsRight(|s.matches|, w.given.arrived, w.plan) <==>
      forall r, q | r in Needed(w.state) && q in w.state.rows && r.name == q.name :: AsksLike(r, q)
  {
    PlanItemsOf(k, s, w);
    NeededRowsArrived(k, s, w);
    var rows, arrived := w.state.rows, w.given.arrived;
    forall i | 0 <= i < |arrived| {
      PlanRowFound(rows, arrived[i].row.name);
    }
    if PlanIsRight(|s.matches|, arrived, w.plan) {
      forall r, q | r in Needed(w.state) && q in rows && r.name == q.name ensures AsksLike(r, q) {
        assert q in Needed(w.state);
        var i :| 0 <= i < |arrived| && arrived[i].row == r;
        var j :| 0 <= j < |arrived| && arrived[j].row == q;
        assert w.plan[|s.matches| + i] == PlanItemOf(rows, arrived[i].found);
        assert w.plan[|s.matches| + j] == PlanItemOf(rows, arrived[j].found);
      }
    }
  }
}
