/** One recipe turn of the agent graph, from the ready-made choice to the cart card: nodes that
    pause and are re-run from their top, parallel ingredient workers, one cart write
    (app/agent/graph.py and app/agent/nodes/). */
module Turn {
  import opened Collections
  import opened Names
  import opened CartMerge
  import opened Checklist
  import opened ScratchChoice
  import VariantSelection

  /** A `MatchResult`: one ingredient, resolved or unavailable. */
  datatype Match = Match(name: string, status: VariantSelection.Status, spinId: Option<string>,
                         quantity: Option<Quantity>, unitPrice: Option<real>)
  {
    predicate Purchasable() {
      spinId.Some? && quantity.Some? && unitPrice.Some?
    }
  }

  /** A row of the closing card. */
  datatype Card = Card(name: string, inCart: bool, quantity: Option<Quantity>)

  /** The checkpointed state a turn runs on; `shown` are the recipes rendered into the transcript. */
  datatype State = State(recipe: Recipe, component: Option<Component>, choice: Option<Choice>, shown: seq<Recipe>,
                         marks: set<string>, rows: seq<Row>, matches: seq<Match>, cards: seq<Card>)

  /** What a resumed client may send. */
  datatype Answer = Choose(choice: Choice) | Have(names: set<string>) | Unreadable

  /** A node's body, run from its top: it finishes, stops at an `interrupt`, or raises. */
  datatype Ran = Finished(state: State) | Interrupted | Raised

  /** What the user's pantry has in stock does not change during a turn. */
  datatype Kitchen = Kitchen(u: Script, stocked: set<string>)

  // ------------------------------------------------------------------- the nodes

  function ChooseNode(u: Script, s: State, resume: Option<Answer>): Ran {
    if s.component.None? then Finished(s.(shown := s.shown + [s.recipe]))
    else if s.choice.Some? then
      Finished(s.(recipe := RecipeForChoice(u, s.recipe, s.component.value, s.choice.value)))
    else if resume.None? then Interrupted
    else if !resume.value.Choose? then Raised
    else
      var recipe := RecipeForChoice(u, s.recipe, s.component.value, resume.value.choice);
      Finished(s.(recipe := recipe, choice := Some(resume.value.choice), shown := s.shown + [recipe]))
  }

  function NormalizeNode(k: Kitchen, s: State): State {
    var listed := Filter(s.recipe.ingredients, Shown(k.u));
    var marks := if s.marks != {} then s.marks else SeedHaveMarks(k.u, listed, k.stocked);
    s.(rows := Grouped(listed, marks), marks := marks)
  }

  function ConfirmNode(s: State, resume: Option<Answer>): Ran {
    if resume.None? then Interrupted
    else if resume.value.Have? then Finished(s.(marks := resume.value.names))
    else Raised
  }

  function Wanted(marks: set<string>): Row -> bool {
    (r: Row) => r.name !in marks
  }

  /** `needed_ingredients`: the user's answer decides, not the status the rows were built with. */
  function Needed(s: State): seq<Row> {
    Filter(s.rows, Wanted(s.marks))
  }

  /** What a compose adds: the matches that can be bought. */
  function Additions(matches: seq<Match>): seq<Line> {
    if matches == [] then [] else
      var m := matches[|matches| - 1];
      Additions(matches[..|matches| - 1]) +
      if m.Purchasable() then [Line(m.spinId.value, m.quantity.value)] else []
  }

  /** The check constraint on plan rows: what was matched must be purchasable. */
  predicate PlanAccepted(matches: seq<Match>) {
    forall m | m in matches :: m.status.Unavailable? || m.Purchasable()
  }

  /** One row of the stored plan: what was found, and what the recipe is taken to have asked for. */
  datatype PlanItem = PlanItem(quantity: Option<real>, unit: Option<string>, found: Match)

  /** `compose_cart_node` looks a row up by its name alone, and the last of a name is found. */
  function PlanRow(rows: seq<Row>, name: string): Option<Row> {
    if rows == [] then None
    else if rows[|rows| - 1].name == name then Some(rows[|rows| - 1])
    else PlanRow(rows[..|rows| - 1], name)
  }

  function PlanItemOf(rows: seq<Row>, m: Match): PlanItem {
    match PlanRow(rows, m.name)
    case None => PlanItem(None, None, m)
    case Some(row) => PlanItem(row.quantity, row.unit, m)
  }

  function PlanOf(rows: seq<Row>, matches: seq<Match>): seq<PlanItem> {
    seq(|matches|, i requires 0 <= i < |matches| => PlanItemOf(rows, matches[i]))
  }

  /** `_report_item`: what Swiggy's cart holds, not what was asked of it. */
  function CardOf(m: Match, held: seq<Line>): Card {
    if m.spinId.GetOr("") != "" && Baseline(held, m.spinId.value) > 0
    then Card(m.name, true, Some(Baseline(held, m.spinId.value)))
    else Card(m.name, false, m.quantity)
  }

  function Cards(matches: seq<Match>, held: seq<Line>): seq<Card> {
    seq(|matches|, i requires 0 <= i < |matches| => CardOf(matches[i], held))
  }

  // ----------------------------------------------------------------- the machine

  datatype Phase = Choosing | Normalizing | Confirming | Matching | Composing | Reporting | Ended | Failed

  /** A worker that has finished, and the row it was sent. */
  datatype Arrival = Arrival(row: Row, found: Match)

  /** What the outside has decided so far: the two answers, the finishing order and the cart read back. */
  datatype Given = Given(choice: Option<Choice>, have: Option<set<string>>, arrived: seq<Arrival>, held: seq<Line>)

  /** `pending` are the workers still running, `plan` the rows stored for the turn, and `written` every
      list of additions sent to the cart. */
  datatype World = World(phase: Phase, state: State, pending: seq<Row>, given: Given, plan: seq<PlanItem>,
                         written: seq<seq<Line>>)

  datatype Event =
    | Run(resume: Option<Answer>)      // the current node runs from its top
    | Replay                           // the choice node runs again on its recorded choice
    | Finish(i: nat, found: Match)     // a worker finishes
    | Break                            // a worker raises
    | Compose(held: seq<Line>)         // the plan is stored, then the cart is written and read
    | ComposeFails(reached: bool)      // Swiggy fails after the plan is stored, before or after the write
    | Report

  function Start(s: State): World {
    World(Choosing, s, [], Given(None, None, [], []), [], [])
  }

  predicate Enabled(w: World, e: Event) {
    match e
    case Run(_) => w.phase in {Choosing, Normalizing, Confirming}
    case Replay => w.phase.Normalizing? && w.state.component.Some? && w.state.choice.Some?
    case Finish(i, found) => w.phase.Matching? && i < |w.pending| && found.name == w.pending[i].name
    case Break => w.phase.Matching?
    case Compose(_) => w.phase.Composing?
    case ComposeFails(_) => w.phase.Composing?
    case Report => w.phase.Reporting?
  }

  /** The fan-out: one worker per needed row, straight on if there is none. */
  function Fan(w: World, s: State, have: set<string>): World {
    w.(phase := if Needed(s) == [] then Composing else Matching, state := s, pending := Needed(s),
       given := w.given.(have := Some(have)))
  }

  function FoundBy(arrived: seq<Arrival>): seq<Match> {
    Map((a: Arrival) => a.found, arrived)
  }

  function Collect(s: State, arrived: seq<Arrival>): State {
    s.(matches := s.matches + FoundBy(arrived))
  }

  function Next(k: Kitchen, w: World, e: Event): World
    requires Enabled(w, e)
  {
    match e
    case Run(resume) =>
      if w.phase.Choosing? then
        var ran := ChooseNode(k.u, w.state, resume);
        if !ran.Finished? then w else
          w.(phase := Normalizing, state := ran.state,
             given := w.given.(choice := if resume.Some? && resume.value.Choose? then Some(resume.value.choice) else None))
      else if w.phase.Normalizing? then w.(phase := Confirming, state := NormalizeNode(k, w.state))
      else
        var ran := ConfirmNode(w.state, resume);
        if ran.Finished? then Fan(w, ran.state, resume.value.names) else w
    case Replay => w.(state := ChooseNode(k.u, w.state, None).state)
    case Finish(i, found) =>
      var pending := w.pending[..i] + w.pending[i + 1..];
      var given := w.given.(arrived := w.given.arrived + [Arrival(w.pending[i], found)]);
      if pending != [] then w.(pending := pending, given := given)
      else World(Composing, Collect(w.state, given.arrived), [], given, w.plan, w.written)
    case Break => w.(phase := Failed)
    case Compose(held) =>
      var additions := Additions(w.state.matches);
      if !PlanAccepted(w.state.matches) then w.(phase := Failed)
      else World(Reporting, w.state, [], w.given.(held := held), PlanOf(w.state.rows, w.state.matches),
            if additions == [] then w.written else w.written + [additions])
    case ComposeFails(reached) =>
      var additions := Additions(w.state.matches);
      if !PlanAccepted(w.state.matches) then w.(phase := Failed)
      else World(Failed, w.state, [], w.given, PlanOf(w.state.rows, w.state.matches),
                 if reached && additions != [] then w.written + [additions] else w.written)
    case Report => w.(phase := Ended, state := w.state.(cards := Cards(w.state.matches, w.given.held)))
  }

  ghost predicate Reaches(k: Kitchen, s: State, w: World) {
    exists run: seq<Event> :: Via(k, s, run, w)
  }

  ghost predicate Via(k: Kitchen, s: State, run: seq<Event>, w: World) {
    if run == [] then w == Start(s)
    else
      var last := run[|run| - 1];
      exists w0 :: Via(k, s, run[..|run| - 1], w0) && Enabled(w0, last) && w == Next(k, w0, last)
  }

  // ---------------------------------------- the turn as it would run uninterrupted

  function Chosen(k: Kitchen, s: State, choice: Option<Choice>): State {
    var ran := ChooseNode(k.u, s, if choice.Some? then Some(Choose(choice.value)) else None);
    if ran.Finished? then ran.state else s
  }

  function Listed(k: Kitchen, s: State, choice: Option<Choice>): State {
    NormalizeNode(k, Chosen(k, s, choice))
  }

  function Confirmed(k: Kitchen, s: State, choice: Option<Choice>, have: set<string>): State {
    Listed(k, s, choice).(marks := have)
  }

  function Matched(k: Kitchen, s: State, g: Given): State {
    Collect(Confirmed(k, s, g.choice, g.have.GetOr({})), g.arrived)
  }

  function Straight(k: Kitchen, s: State, g: Given): State {
    var matched := Matched(k, s, g);
    matched.(cards := Cards(matched.matches, g.held))
  }
}
