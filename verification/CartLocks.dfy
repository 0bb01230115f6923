/** `_user_cart_lock` of app/cart/service.py: the per-user lock table, and every interleaving
    of cart operations under it. */
module CartLocks {
  import opened CartMerge
  import opened CartOps

  // ------------------------------------------------------------- the lock table

  /** The module dictionaries; `made` counts the lock objects created so far, so that
      a lock is named by the order of its creation. */
  datatype Table = Table(locks: map<int, nat>, users: map<int, nat>, made: nat) {

    /** `setdefault` evaluates its default, so a lock object is made on every entry. */
    function Enter(user: int): Table {
      Table(if user in locks then locks else locks[user := made],
            users[user := (if user in users then users[user] else 0) + 1],
            made + 1)
    }

    predicate CanLeave(user: int) {
      user in users && user in locks && users[user] > 0
    }

    function Leave(user: int): Table
      requires CanLeave(user)
    {
      if users[user] == 1 then Table(locks - {user}, users - {user}, made)
      else Table(locks, users[user := users[user] - 1], made)
    }
  }

  /** The two dictionaries, updated in place under their guard. No code under the guard awaits,
      so each method is one step to every other task. */
  class CartLockTable {
    var locks: map<int, nat>
    var users: map<int, nat>
    var made: nat

    function View(): Table
      reads this
    {
      Table(locks, users, made)
    }

    constructor ()
      ensures View() == Table(map[], map[], 0)
    {
      locks, users, made := map[], map[], 0;
    }

    method Enter(user: int) returns (lock: nat)
      modifies this
      ensures View() == old(View()).Enter(user)
      ensures user in locks && lock == locks[user]
    {
      var spare := made;
      made := made + 1;
      if user !in locks {
        locks := locks[user := spare];
      }
      lock := locks[user];
      var count := if user in users then users[user] else 0;
      users := users[user := count + 1];
    }

    method Leave(user: int)
      requires View().CanLeave(user)
      modifies this
      ensures View() == old(View()).Leave(user)
    {
      users := users[user := users[user] - 1];
      if users[user] == 0 {
        assert old(users) - {user} == users - {user};
        users := users - {user};
        locks := locks - {user};
      }
    }
  }

  // ------------------------------------------------------------------ the steps

  datatype Task = Task(user: int, op: Request)

  /** The tasks of one process and the carts their users start with. */
  datatype Setup = Setup(tasks: map<nat, Task>, carts: map<int, seq<Line>>) {
    ghost predicate Valid() {
      forall t | t in tasks :: tasks[t].user in carts
    }
  }

  datatype Phase =
    | Idle
    | Waiting(lock: nat)
    | Inside(lock: nat, pc: Pc)
    | Leaving(lock: nat)
    | Gone
  {
    predicate Registered() {
      Waiting? || Inside? || Leaving?
    }
  }

  /** `held` are the lock objects whose flag is set; `order` lists each user's tasks as they
      acquired the lock, `outs` what Swiggy answered each, `results` what each returned. */
  datatype World = World(
    phases: map<nat, Phase>,
    table: Table,
    held: set<nat>,
    carts: map<int, seq<Line>>,
    order: map<int, seq<nat>>,
    outs: map<nat, seq<Outcome>>,
    results: map<nat, Result>)

  /** What Swiggy has answered a task so far. */
  function Met(outs: map<nat, seq<Outcome>>, t: nat): seq<Outcome> {
    if t in outs then outs[t] else []
  }

  datatype Event =
    | Register(task: nat)
    | Acquire(task: nat)
    | Cancel(task: nat)
    | Act(task: nat, outcome: Outcome)
    | Release(task: nat)
    | Unregister(task: nat)

  function Initial(s: Setup): World {
    World(map t | t in s.tasks :: Idle, Table(map[], map[], 0), {}, s.carts,
          map u | u in s.carts :: [], map[], map[])
  }

  /** The domains of the maps, which no step changes. */
  ghost predicate Shaped(s: Setup, w: World) {
    && s.Valid()
    && w.phases.Keys == s.tasks.Keys
    && w.carts.Keys == w.order.Keys == s.carts.Keys
    && forall t | t in w.phases && w.phases[t].Inside? :: Fits(s.tasks[t].op, w.phases[t].pc)
  }

  ghost predicate Enabled(s: Setup, w: World, e: Event)
    requires Shaped(s, w)
  {
    e.task in s.tasks &&
    var phase := w.phases[e.task];
    match e
    case Register(_) => phase.Idle?
    case Acquire(_) => phase.Waiting? && phase.lock !in w.held
    case Cancel(_) => phase.Waiting?
    case Act(_, _) => phase.Inside? && !phase.pc.Done?
    case Release(_) => phase.Inside? && phase.pc.Done?
    case Unregister(_) => phase.Leaving? && w.table.CanLeave(s.tasks[e.task].user)
  }

  ghost function Next(s: Setup, w: World, e: Event): (w': World)
    requires Shaped(s, w) && Enabled(s, w, e)
    ensures Shaped(s, w')
  {
    var t, task := e.task, s.tasks[e.task];
    var phase := w.phases[t];
    match e
    case Register(_) =>
      var table := w.table.Enter(task.user);
      w.(table := table, phases := w.phases[t := Waiting(table.locks[task.user])])
    case Acquire(_) =>
      w.(phases := w.phases[t := Inside(phase.lock, Start(task.op))], held := w.held + {phase.lock},
         order := w.order[task.user := w.order[task.user] + [t]])
    case Cancel(_) =>
      w.(phases := w.phases[t := Leaving(phase.lock)])
    case Act(_, o) =>
      var c := Step(task.op, Config(phase.pc, w.carts[task.user]), o);
      w.(phases := w.phases[t := Inside(phase.lock, c.pc)], carts := w.carts[task.user := c.cart],
         outs := w.outs[t := Met(w.outs, t) + [o]])
    case Release(_) =>
      w.(phases := w.phases[t := Leaving(phase.lock)], held := w.held - {phase.lock},
         results := w.results[t := phase.pc.result])
    case Unregister(_) =>
      w.(phases := w.phases[t := Gone], table := w.table.Leave(task.user))
  }

  /** A run is a sequence of steps, each enabled where it is taken. */
  ghost predicate Reaches(s: Setup, run: seq<Event>, w: World)
    requires s.Valid()
    decreases |run|, 1
  {
    if run == [] then w == Initial(s)
    else exists v :: ReachesVia(s, run, v, w)
  }

  ghost predicate ReachesVia(s: Setup, run: seq<Event>, v: World, w: World)
    requires s.Valid() && run != []
    decreases |run|, 0
  {
    Reaches(s, run[..|run| - 1], v) && Shaped(s, v) && Enabled(s, v, run[|run| - 1])
    && w == Next(s, v, run[|run| - 1])
  }
}
