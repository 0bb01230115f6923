/** What holds in every interleaving of cart operations: the lock table is exact, at most one
    task per user is inside, and the carts are those of the same operations run one at a time. */
module CartInterleaving {
  import opened Collections
  import opened CartMerge
  import opened CartOps
  import opened CartLocks
  import CartGuarantees

  // ------------------------------------------------------------------ lock table

  type Tasks = map<nat, Task>
  type Phases = map<nat, Phase>

  ghost function Registered(tasks: Tasks, phases: Phases, user: int): set<nat> {
    set t | t in phases && t in tasks && phases[t].Registered() && tasks[t].user == user
  }

  /** Both dictionaries have the same keys and a count is the number of registered tasks. */
  ghost predicate Counted(tasks: Tasks, phases: Phases, table: Table) {
    && table.locks.Keys == table.users.Keys
    && forall u :: var n := |Registered(tasks, phases, u)|;
         (u in table.users <==> n > 0) && (u in table.users ==> table.users[u] == n)
  }

  /** All registered tasks of a user hold that user's one lock object, which nobody else has. */
  ghost predicate Shared(tasks: Tasks, phases: Phases, table: Table) {
    && (forall t | t in phases && t in tasks && phases[t].Registered() ::
          tasks[t].user in table.locks && phases[t].lock == table.locks[tasks[t].user])
    && (forall u | u in table.locks :: table.locks[u] < table.made)
    && (forall u, v | u in table.locks && v in table.locks :: table.locks[u] == table.locks[v] ==> u == v)
  }

  lemma {:induction false} PhaseChange(tasks: Tasks, phases: Phases, t: nat, phase: Phase, u: int)
    requires t in tasks && t in phases
    ensures Registered(tasks, phases[t := phase], u) ==
      if tasks[t].user != u then Registered(tasks, phases, u)
      else if phase.Registered() then Registered(tasks, phases, u) + {t}
      else Registered(tasks, phases, u) - {t}
  {
  }

  /** One count, after a task of user `u` has registered. */
  lemma {:induction false} EnterCounts(tasks: Tasks, phases: Phases, table: Table, t: nat, phase: Phase, v: int)
    requires Counted(tasks, phases, table) && t in tasks && t in phases && phases[t].Idle? && phase.Registered()
    ensures var users, n := table.Enter(tasks[t].user).users, |Registered(tasks, phases[t := phase], v)|;
      (v in users <==> n > 0) && (v in users ==> users[v] == n)
  {
    assert t !in Registered(tasks, phases, v);
    PhaseChange(tasks, phases, t, phase, v);
  }

  lemma {:induction false} EnterKeepsCounted(tasks: Tasks, phases: Phases, table: Table, t: nat, phase: Phase)
    requires Counted(tasks, phases, table) && t in tasks && t in phases && phases[t].Idle? && phase.Registered()
    ensures Counted(tasks, phases[t := phase], table.Enter(tasks[t].user))
  {
    var table' := table.Enter(tasks[t].user);
    assert table'.locks.Keys == table'.users.Keys;
    forall v ensures var n := |Registered(tasks, phases[t := phase], v)|;
      (v in table'.users <==> n > 0) && (v in table'.users ==> table'.users[v] == n)
    {
      EnterCounts(tasks, phases, table, t, phase, v);
    }
  }

  lemma {:induction false} EnterKeepsShared(tasks: Tasks, phases: Phases, table: Table, t: nat)
    requires Shared(tasks, phases, table) && t in tasks && t in phases && phases[t].Idle?
    ensures var table' := table.Enter(tasks[t].user);
      Shared(tasks, phases[t := Waiting(table'.locks[tasks[t].user])], table')
  {
  }

  lemma {:induction false} EnterKeepsTable(tasks: Tasks, phases: Phases, table: Table, t: nat)
    requires Counted(tasks, phases, table) && Shared(tasks, phases, table)
    requires t in tasks && t in phases && phases[t].Idle?
    ensures var u := tasks[t].user;
      var table' := table.Enter(u);
      var phases' := phases[t := Waiting(table'.locks[u])];
      Counted(tasks, phases', table') && Shared(tasks, phases', table')
  {
    var u := tasks[t].user;
    EnterKeepsCounted(tasks, phases, table, t, Waiting(table.Enter(u).locks[u]));
    EnterKeepsShared(tasks, phases, table, t);
  }

  lemma {:induction false} LeaveKeepsTable(tasks: Tasks, phases: Phases, table: Table, t: nat)
    requires Counted(tasks, phases, table) && Shared(tasks, phases, table)
    requires t in tasks && t in phases && phases[t].Leaving?
    ensures table.CanLeave(tasks[t].user)
    ensures var table' := table.Leave(tasks[t].user);
      Counted(tasks, phases[t := Gone], table') && Shared(tasks, phases[t := Gone], table')
  {
    var u := tasks[t].user;
    assert t in Registered(tasks, phases, u);
    var table', phases' := table.Leave(u), phases[t := Gone];
    forall v ensures var n := |Registered(tasks, phases', v)|;
      (v in table'.users <==> n > 0) && (v in table'.users ==> table'.users[v] == n)
    {
      PhaseChange(tasks, phases, t, Gone, v);
    }
    PhaseChange(tasks, phases, t, Gone, u);
    forall r | r in phases' && r in tasks && phases'[r].Registered()
      ensures tasks[r].user in table'.locks
    {
      assert r in Registered(tasks, phases', tasks[r].user);
      assert Registered(tasks, phases', tasks[r].user) != {};
    }
  }

  lemma {:induction false} StayKeepsTable(tasks: Tasks, phases: Phases, table: Table, t: nat, phase: Phase)
    requires Counted(tasks, phases, table) && Shared(tasks, phases, table)
    requires t in tasks && t in phases && phases[t].Registered()
    requires phase.Registered() && phase.lock == phases[t].lock
    ensures Counted(tasks, phases[t := phase], table) && Shared(tasks, phases[t := phase], table)
  {
    forall v ensures Registered(tasks, phases[t := phase], v) == Registered(tasks, phases, v) {
      PhaseChange(tasks, phases, t, phase, v);
    }
  }

  /** A lock's flag is set exactly when one task is inside it. */
  ghost predicate Exclusive(phases: Phases, held: set<nat>) {
    && (forall t | t in phases && phases[t].Inside? :: phases[t].lock in held)
    && (forall l | l in held :: exists t :: t in phases && phases[t].Inside? && phases[t].lock == l)
    && (forall t, t' | t in phases && t' in phases && phases[t].Inside? && phases[t'].Inside? ::
          phases[t].lock == phases[t'].lock ==> t == t')
  }

  ghost predicate LocksExact(s: Setup, w: World) {
    && Counted(s.tasks, w.phases, w.table)
    && Shared(s.tasks, w.phases, w.table)
    && Exclusive(w.phases, w.held)
  }

  lemma {:induction false} AcquireKeepsExclusive(phases: Phases, held: set<nat>, t: nat, lock: nat, pc: Pc)
    requires Exclusive(phases, held) && t in phases && !phases[t].Inside? && lock !in held
    ensures Exclusive(phases[t := Inside(lock, pc)], held + {lock})
  {
    var phases' := phases[t := Inside(lock, pc)];
    forall l | l in held + {lock} ensures exists r :: r in phases' && phases'[r].Inside? && phases'[r].lock == l {
      if l == lock {
        assert phases'[t].Inside? && phases'[t].lock == l;
      } else {
        var r :| r in phases && phases[r].Inside? && phases[r].lock == l;
        assert r in phases' && phases'[r].Inside? && phases'[r].lock == l;
      }
    }
  }

  lemma {:induction false} ReleaseKeepsExclusive(phases: Phases, held: set<nat>, t: nat)
    requires Exclusive(phases, held) && t in phases && phases[t].Inside?
    ensures Exclusive(phases[t := Leaving(phases[t].lock)], held - {phases[t].lock})
  {
    var phases' := phases[t := Leaving(phases[t].lock)];
    forall l | l in held - {phases[t].lock}
      ensures exists r :: r in phases' && phases'[r].Inside? && phases'[r].lock == l
    {
      var r :| r in phases && phases[r].Inside? && phases[r].lock == l;
      assert r in phases' && phases'[r].Inside? && phases'[r].lock == l;
    }
  }

  lemma {:induction false} OutsideKeepsExclusive(phases: Phases, held: set<nat>, t: nat, phase: Phase)
    requires Exclusive(phases, held) && t in phases
    requires phases[t].Inside? == phase.Inside? && (phase.Inside? ==> phase.lock == phases[t].lock)
    ensures Exclusive(phases[t := phase], held)
  {
    var phases' := phases[t := phase];
    forall l | l in held ensures exists r :: r in phases' && phases'[r].Inside? && phases'[r].lock == l {
      var r :| r in phases && phases[r].Inside? && phases[r].lock == l;
      assert r in phases' && phases'[r].Inside? && phases'[r].lock == l;
    }
  }

  lemma {:induction false} StepKeepsLocks(s: Setup, w: World, e: Event)
    requires Shaped(s, w) && LocksExact(s, w) && Enabled(s, w, e)
    ensures LocksExact(s, Next(s, w, e))
  {
    var t := e.task;
    var phase, w' := w.phases[t], Next(s, w, e);
    match e
    case Register(_) =>
      EnterKeepsTable(s.tasks, w.phases, w.table, t);
      OutsideKeepsExclusive(w.phases, w.held, t, w'.phases[t]);
    case Acquire(_) =>
      StayKeepsTable(s.tasks, w.phases, w.table, t, w'.phases[t]);
      AcquireKeepsExclusive(w.phases, w.held, t, phase.lock, Start(s.tasks[t].op));
    case Release(_) =>
      StayKeepsTable(s.tasks, w.phases, w.table, t, w'.phases[t]);
      ReleaseKeepsExclusive(w.phases, w.held, t);
    case Unregister(_) =>
      LeaveKeepsTable(s.tasks, w.phases, w.table, t);
      OutsideKeepsExclusive(w.phases, w.held, t, Gone);
    case _ =>
      StayKeepsTable(s.tasks, w.phases, w.table, t, w'.phases[t]);
      OutsideKeepsExclusive(w.phases, w.held, t, w'.phases[t]);
  }

  // ------------------------------------------------------------- serial history

  type Answers = map<nat, seq<Outcome>>
  type Results = map<nat, Result>

  /** The reference: the operations of `ts`, each run alone and to the end of what it was
      answered, one after the other on one cart. */
  ghost function Replay(tasks: Tasks, cart: seq<Line>, ts: seq<nat>, outs: Answers): seq<Line>
    requires forall t | t in ts :: t in tasks
  {
    if ts == [] then cart else
      var before := Replay(tasks, cart, ts[..|ts| - 1], outs);
      var t := ts[|ts| - 1];
      Exec(tasks[t].op, before, Met(outs, t)).cart
  }

  lemma {:induction false} ReplayFrame(tasks: Tasks, cart: seq<Line>, ts: seq<nat>, outs: Answers, outs': Answers)
    requires forall t | t in ts :: t in tasks
    requires forall t | t in ts :: Met(outs', t) == Met(outs, t)
    ensures Replay(tasks, cart, ts, outs) == Replay(tasks, cart, ts, outs')
  {
    if ts != [] {
      ReplayFrame(tasks, cart, ts[..|ts| - 1], outs, outs');
    }
  }

  /** Where the operation of the i-th task to acquire the lock has got to in the reference. */
  ghost function ReplayPc(tasks: Tasks, cart: seq<Line>, ts: seq<nat>, outs: Answers, i: nat): Pc
    requires forall t | t in ts :: t in tasks
    requires i < |ts|
  {
    Exec(tasks[ts[i]].op, Replay(tasks, cart, ts[..i], outs), Met(outs, ts[i])).pc
  }

  /** The tasks of one user that got the lock, in that order. */
  ghost predicate Entered(tasks: Tasks, user: int, ts: seq<nat>) {
    NoDup(ts) && forall t | t in ts :: t in tasks && tasks[t].user == user
  }

  /** Whose turn it is: the last task to enter is inside, or everyone has answered. */
  ghost predicate Agrees(tasks: Tasks, phases: Phases, results: Results, initial: seq<Line>, ts: seq<nat>,
                         outs: Answers, i: nat)
    requires forall t | t in ts :: t in tasks
    requires i < |ts|
  {
    var t := ts[i];
    if t in phases && phases[t].Inside? then
      i == |ts| - 1 && phases[t].pc == ReplayPc(tasks, initial, ts, outs, i)
    else t in results && Done(results[t]) == ReplayPc(tasks, initial, ts, outs, i)
  }

  /** One user's history: the cart now is the replayed one, and so is how far each task got. */
  ghost predicate History(tasks: Tasks, phases: Phases, results: Results,
                          initial: seq<Line>, cart: seq<Line>, ts: seq<nat>, outs: Answers)
    requires forall t | t in ts :: t in tasks
  {
    && cart == Replay(tasks, initial, ts, outs)
    && (forall i | 0 <= i < |ts| :: Agrees(tasks, phases, results, initial, ts, outs, i))
  }

  lemma {:induction false} HistoryAcquire(tasks: Tasks, phases: Phases, results: Results, user: int, initial: seq<Line>,
                       cart: seq<Line>, ts: seq<nat>, outs: Answers, t: nat, lock: nat)
    requires Entered(tasks, user, ts) && History(tasks, phases, results, initial, cart, ts, outs)
    requires t in tasks && t !in ts && Met(outs, t) == []
    requires forall r | r in ts && r in phases :: !phases[r].Inside?
    ensures History(tasks, phases[t := Inside(lock, Start(tasks[t].op))], results, initial, cart, ts + [t], outs)
  {
    var ts', phases' := ts + [t], phases[t := Inside(lock, Start(tasks[t].op))];
    assert ts'[..|ts|] == ts;
    forall i | 0 <= i < |ts'| ensures Agrees(tasks, phases', results, initial, ts', outs, i) {
      if i < |ts| {
        assert ts'[i] == ts[i] && ts[i] in ts && ts'[..i] == ts[..i];
        assert Agrees(tasks, phases, results, initial, ts, outs, i);
      }
    }
  }

  /** The task inside is the last that entered, and stands where the reference has got to. */
  lemma {:induction false} InsideIsLast(tasks: Tasks, phases: Phases, results: Results, user: int, initial: seq<Line>,
                     cart: seq<Line>, ts: seq<nat>, outs: Answers, t: nat)
    requires Entered(tasks, user, ts) && History(tasks, phases, results, initial, cart, ts, outs)
    requires t in ts && t in phases && phases[t].Inside?
    ensures ts[|ts| - 1] == t && phases[t].pc == ReplayPc(tasks, initial, ts, outs, |ts| - 1)
  {
    var k :| 0 <= k < |ts| && ts[k] == t;
    assert Agrees(tasks, phases, results, initial, ts, outs, k);
  }

  lemma {:induction false} EarlierUnmoved(tasks: Tasks, phases: Phases, results: Results, user: int, initial: seq<Line>,
                       cart: seq<Line>, ts: seq<nat>, outs: Answers, phase: Phase, met: seq<Outcome>, i: nat)
    requires Entered(tasks, user, ts) && History(tasks, phases, results, initial, cart, ts, outs)
    requires i < |ts| - 1
    ensures var t := ts[|ts| - 1]; Agrees(tasks, phases[t := phase], results, initial, ts, outs[t := met], i)
  {
    ReplayFrame(tasks, initial, ts[..i], outs, outs[ts[|ts| - 1] := met]);
    assert Agrees(tasks, phases, results, initial, ts, outs, i);
  }

  lemma {:induction false} HistoryAct(tasks: Tasks, phases: Phases, results: Results, user: int, initial: seq<Line>,
                   cart: seq<Line>, ts: seq<nat>, outs: Answers, t: nat, o: Outcome)
    requires Entered(tasks, user, ts) && History(tasks, phases, results, initial, cart, ts, outs)
    requires t in ts && t in phases && phases[t].Inside? && Fits(tasks[t].op, phases[t].pc)
    ensures var c := Step(tasks[t].op, Config(phases[t].pc, cart), o);
      History(tasks, phases[t := Inside(phases[t].lock, c.pc)], results, initial, c.cart, ts,
              outs[t := Met(outs, t) + [o]])
  {
    var c := Step(tasks[t].op, Config(phases[t].pc, cart), o);
    var phase, met := Inside(phases[t].lock, c.pc), Met(outs, t) + [o];
    InsideIsLast(tasks, phases, results, user, initial, cart, ts, outs, t);
    ReplayAct(tasks, initial, ts, outs, o);
    var phases', outs' := phases[t := phase], outs[t := met];
    forall i | 0 <= i < |ts| ensures Agrees(tasks, phases', results, initial, ts, outs', i) {
      if i < |ts| - 1 {
        EarlierUnmoved(tasks, phases, results, user, initial, cart, ts, outs, phase, met, i);
      }
    }
  }

  /** One more answer to the last task is one more step of its operation. */
  lemma {:induction false} ReplayAct(tasks: Tasks, initial: seq<Line>, ts: seq<nat>, outs: Answers, o: Outcome)
    requires NoDup(ts) && ts != [] && forall t | t in ts :: t in tasks
    ensures var n, t := |ts| - 1, ts[|ts| - 1];
      var outs' := outs[t := Met(outs, t) + [o]];
      Step(tasks[t].op, Config(ReplayPc(tasks, initial, ts, outs, n), Replay(tasks, initial, ts, outs)), o)
        == Config(ReplayPc(tasks, initial, ts, outs', n), Replay(tasks, initial, ts, outs'))
  {
    var n, t := |ts| - 1, ts[|ts| - 1];
    var outs' := outs[t := Met(outs, t) + [o]];
    ReplayFrame(tasks, initial, ts[..n], outs, outs');
    ExecSnoc(tasks[t].op, Replay(tasks, initial, ts[..n], outs), Met(outs, t), o);
  }

  lemma {:induction false} HistoryRelease(tasks: Tasks, phases: Phases, results: Results, user: int, initial: seq<Line>,
                       cart: seq<Line>, ts: seq<nat>, outs: Answers, t: nat)
    requires Entered(tasks, user, ts) && History(tasks, phases, results, initial, cart, ts, outs)
    requires t in ts && t in phases && phases[t].Inside? && phases[t].pc.Done?
    ensures History(tasks, phases[t := Leaving(phases[t].lock)], results[t := phases[t].pc.result], initial,
                    cart, ts, outs)
  {
    var phases', results' := phases[t := Leaving(phases[t].lock)], results[t := phases[t].pc.result];
    forall i | 0 <= i < |ts| ensures Agrees(tasks, phases', results', initial, ts, outs, i) {
      assert Agrees(tasks, phases, results, initial, ts, outs, i);
    }
  }

  /** A step of a task that is not inside this history. */
  lemma {:induction false} HistoryFrame(tasks: Tasks, phases: Phases, results: Results, user: int, initial: seq<Line>,
                     cart: seq<Line>, ts: seq<nat>, outs: Answers, phases': Phases, results': Results, outs': Answers)
    requires Entered(tasks, user, ts) && History(tasks, phases, results, initial, cart, ts, outs)
    requires forall t | t in ts :: Met(outs', t) == Met(outs, t)
    requires forall t | t in ts ::
      if t in phases && phases[t].Inside? then t in phases' && phases'[t] == phases[t]
      else !(t in phases' && phases'[t].Inside?) && (t in results ==> t in results' && results'[t] == results[t])
    ensures History(tasks, phases', results', initial, cart, ts, outs')
  {
    ReplayFrame(tasks, initial, ts, outs, outs');
    forall i | 0 <= i < |ts| ensures Agrees(tasks, phases', results', initial, ts, outs', i) {
      ReplayFrame(tasks, initial, ts[..i], outs, outs');
      assert ts[i] in ts;
      assert Agrees(tasks, phases, results, initial, ts, outs, i);
    }
  }

  /** Where every task stands in the histories. */
  ghost predicate Placed(tasks: Tasks, phases: Phases, order: map<int, seq<nat>>, outs: Answers, results: Results) {
    && (forall t | t in tasks :: tasks[t].user in order && t in phases)
    && (forall u | u in order :: Entered(tasks, u, order[u]))
    && (forall t | t in tasks :: t in order[tasks[t].user] <==> phases[t].Inside? || t in results)
    && (forall t | t in tasks && t !in order[tasks[t].user] :: Met(outs, t) == [])
    && (forall t | t in results :: t in tasks && (phases[t].Leaving? || phases[t].Gone?))
  }

  ghost predicate Replayed(tasks: Tasks, initial: map<int, seq<Line>>, phases: Phases, carts: map<int, seq<Line>>,
                           order: map<int, seq<nat>>, outs: Answers, results: Results) {
    && carts.Keys == order.Keys == initial.Keys
    && (forall u | u in order :: Entered(tasks, u, order[u]))
    && (forall u | u in order :: History(tasks, phases, results, initial[u], carts[u], order[u], outs))
  }

  ghost predicate Serial(s: Setup, w: World) {
    && Placed(s.tasks, w.phases, w.order, w.outs, w.results)
    && Replayed(s.tasks, s.carts, w.phases, w.carts, w.order, w.outs, w.results)
  }

  /** A step of task `t` leaves the histories of the other users alone. */
  lemma {:induction false} OthersReplayed(tasks: Tasks, initial: map<int, seq<Line>>, phases: Phases, carts: map<int, seq<Line>>,
                       order: map<int, seq<nat>>, outs: Answers, results: Results,
                       t: nat, phase: Phase, met: seq<Outcome>, results': Results, u: int)
    requires Replayed(tasks, initial, phases, carts, order, outs, results)
    requires t in tasks && u in order && u != tasks[t].user
    requires forall r | r != t :: r in results ==> r in results' && results'[r] == results[r]
    ensures Entered(tasks, u, order[u])
    ensures History(tasks, phases[t := phase], results', initial[u], carts[u], order[u], outs[t := met])
    ensures History(tasks, phases[t := phase], results', initial[u], carts[u], order[u], outs)
  {
    HistoryFrame(tasks, phases, results, u, initial[u], carts[u], order[u], outs,
                 phases[t := phase], results', outs[t := met]);
    HistoryFrame(tasks, phases, results, u, initial[u], carts[u], order[u], outs,
                 phases[t := phase], results', outs);
  }

  /** A step from outside the lock to outside the lock. */
  lemma {:induction false} OutsideKeepsSerial(s: Setup, w: World, t: nat, phase: Phase)
    requires Serial(s, w) && t in s.tasks && t in w.phases && !w.phases[t].Inside? && !phase.Inside?
    requires t in w.results ==> phase.Leaving? || phase.Gone?
    ensures Placed(s.tasks, w.phases[t := phase], w.order, w.outs, w.results)
    ensures Replayed(s.tasks, s.carts, w.phases[t := phase], w.carts, w.order, w.outs, w.results)
  {
    forall u | u in w.order
      ensures History(s.tasks, w.phases[t := phase], w.results, s.carts[u], w.carts[u], w.order[u], w.outs)
    {
      HistoryFrame(s.tasks, w.phases, w.results, u, s.carts[u], w.carts[u], w.order[u], w.outs,
                   w.phases[t := phase], w.results, w.outs);
    }
  }

  lemma {:induction false} AcquireKeepsPlaced(tasks: Tasks, phases: Phases, order: map<int, seq<nat>>, outs: Answers, results: Results,
                           t: nat, phase: Phase)
    requires Placed(tasks, phases, order, outs, results)
    requires t in tasks && phases[t].Waiting? && phase.Inside?
    ensures t !in order[tasks[t].user] && Met(outs, t) == []
    ensures Placed(tasks, phases[t := phase], order[tasks[t].user := order[tasks[t].user] + [t]], outs, results)
  {
    assert t !in results;
    assert Entered(tasks, tasks[t].user, order[tasks[t].user]);
  }

  lemma {:induction false} EnteredSnoc(tasks: Tasks, user: int, ts: seq<nat>, t: nat)
    requires Entered(tasks, user, ts) && t in tasks && tasks[t].user == user && t !in ts
    ensures Entered(tasks, user, ts + [t])
  {
  }

  lemma {:induction false} AcquireHistory(tasks: Tasks, phases: Phases, results: Results, user: int, initial: seq<Line>,
                                          cart: seq<Line>, ts: seq<nat>, outs: Answers, t: nat, lock: nat)
    requires Entered(tasks, user, ts) && History(tasks, phases, results, initial, cart, ts, outs)
    requires t in tasks && tasks[t].user == user && t !in ts && Met(outs, t) == []
    requires forall r | r in tasks && r in phases && tasks[r].user == user :: !phases[r].Inside?
    ensures Entered(tasks, user, ts + [t])
    ensures History(tasks, phases[t := Inside(lock, Start(tasks[t].op))], results, initial, cart, ts + [t], outs)
  {
    EnteredSnoc(tasks, user, ts, t);
    HistoryAcquire(tasks, phases, results, user, initial, cart, ts, outs, t, lock);
  }

  lemma {:induction false} NotYetEntered(tasks: Tasks, phases: Phases, order: map<int, seq<nat>>, outs: Answers,
                                         results: Results, t: nat)
    requires Placed(tasks, phases, order, outs, results) && t in tasks && phases[t].Waiting?
    ensures tasks[t].user in order && t !in order[tasks[t].user] && Met(outs, t) == []
  {
  }

  lemma {:induction false} AcquireOwn(s: Setup, w: World, t: nat)
    requires Serial(s, w) && t in s.tasks && w.phases[t].Waiting?
    requires forall r | r in s.tasks && r in w.phases && s.tasks[r].user == s.tasks[t].user :: !w.phases[r].Inside?
    ensures var u := s.tasks[t].user;
      && u in w.order && u in w.carts && u in s.carts
      && Entered(s.tasks, u, w.order[u] + [t])
      && History(s.tasks, w.phases[t := Inside(w.phases[t].lock, Start(s.tasks[t].op))], w.results, s.carts[u],
                 w.carts[u], w.order[u] + [t], w.outs)
  {
    var u := s.tasks[t].user;
    NotYetEntered(s.tasks, w.phases, w.order, w.outs, w.results, t);
    assert u in w.order && u in w.carts && u in s.carts;
    AcquireHistory(s.tasks, w.phases, w.results, u, s.carts[u], w.carts[u], w.order[u], w.outs, t, w.phases[t].lock);
  }

  lemma {:induction false} AcquireKeepsReplayed(tasks: Tasks, initial: map<int, seq<Line>>, phases: Phases, carts: map<int, seq<Line>>,
                             order: map<int, seq<nat>>, outs: Answers, results: Results, t: nat, phase: Phase)
    requires Replayed(tasks, initial, phases, carts, order, outs, results)
    requires t in tasks && tasks[t].user in order
    requires var u := tasks[t].user;
      && Entered(tasks, u, order[u] + [t])
      && History(tasks, phases[t := phase], results, initial[u], carts[u], order[u] + [t], outs)
    ensures var user := tasks[t].user;
      Replayed(tasks, initial, phases[t := phase], carts, order[user := order[user] + [t]], outs, results)
  {
    var user := tasks[t].user;
    var order' := order[user := order[user] + [t]];
    forall u | u in order'
      ensures Entered(tasks, u, order'[u])
      ensures History(tasks, phases[t := phase], results, initial[u], carts[u], order'[u], outs)
    {
      if u != user {
        OthersReplayed(tasks, initial, phases, carts, order, outs, results, t, phase, [], results, u);
      }
    }
  }

  lemma {:induction false} ActKeepsPlaced(tasks: Tasks, phases: Phases, order: map<int, seq<nat>>, outs: Answers, results: Results,
                       t: nat, phase: Phase, met: seq<Outcome>)
    requires Placed(tasks, phases, order, outs, results)
    requires t in tasks && phases[t].Inside? && phase.Inside?
    ensures t in order[tasks[t].user] && Entered(tasks, tasks[t].user, order[tasks[t].user])
    ensures Placed(tasks, phases[t := phase], order, outs[t := met], results)
  {
  }

  lemma {:induction false} ActOwn(s: Setup, w: World, t: nat, o: Outcome)
    requires Shaped(s, w) && Serial(s, w) && t in s.tasks && w.phases[t].Inside?
    ensures var user := s.tasks[t].user;
      var c := Step(s.tasks[t].op, Config(w.phases[t].pc, w.carts[user]), o);
      && user in w.order
      && History(s.tasks, w.phases[t := Inside(w.phases[t].lock, c.pc)], w.results, s.carts[user], c.cart,
                 w.order[user], w.outs[t := Met(w.outs, t) + [o]])
  {
    var user := s.tasks[t].user;
    assert t in w.order[user] && Entered(s.tasks, user, w.order[user]);
    HistoryAct(s.tasks, w.phases, w.results, user, s.carts[user], w.carts[user], w.order[user], w.outs, t, o);
  }

  lemma {:induction false} ActElsewhere(tasks: Tasks, initial: map<int, seq<Line>>, phases: Phases, carts: map<int, seq<Line>>,
                     order: map<int, seq<nat>>, outs: Answers, results: Results, t: nat, phase: Phase,
                     cart: seq<Line>, met: seq<Outcome>)
    requires Replayed(tasks, initial, phases, carts, order, outs, results)
    requires t in tasks && tasks[t].user in order
    requires var user := tasks[t].user;
      History(tasks, phases[t := phase], results, initial[user], cart, order[user], outs[t := met])
    ensures Replayed(tasks, initial, phases[t := phase], carts[tasks[t].user := cart], order, outs[t := met], results)
  {
    var user := tasks[t].user;
    forall u | u in order && u != user
      ensures History(tasks, phases[t := phase], results, initial[u], carts[u], order[u], outs[t := met])
    {
      OthersReplayed(tasks, initial, phases, carts, order, outs, results, t, phase, met, results, u);
    }
  }

  lemma {:induction false} ActKeepsReplayed(s: Setup, w: World, t: nat, o: Outcome)
    requires Shaped(s, w) && Serial(s, w) && t in s.tasks && w.phases[t].Inside?
    ensures var user := s.tasks[t].user;
      var c := Step(s.tasks[t].op, Config(w.phases[t].pc, w.carts[user]), o);
      Replayed(s.tasks, s.carts, w.phases[t := Inside(w.phases[t].lock, c.pc)], w.carts[user := c.cart], w.order,
               w.outs[t := Met(w.outs, t) + [o]], w.results)
  {
    var c := Step(s.tasks[t].op, Config(w.phases[t].pc, w.carts[s.tasks[t].user]), o);
    ActOwn(s, w, t, o);
    ActElsewhere(s.tasks, s.carts, w.phases, w.carts, w.order, w.outs, w.results, t,
                 Inside(w.phases[t].lock, c.pc), c.cart, Met(w.outs, t) + [o]);
  }

  lemma {:induction false} ReleaseKeepsPlaced(tasks: Tasks, phases: Phases, order: map<int, seq<nat>>, outs: Answers, results: Results,
                           t: nat, lock: nat, result: Result)
    requires Placed(tasks, phases, order, outs, results)
    requires t in tasks && phases[t].Inside?
    ensures t in order[tasks[t].user] && Entered(tasks, tasks[t].user, order[tasks[t].user])
    ensures Placed(tasks, phases[t := Leaving(lock)], order, outs, results[t := result])
  {
  }

  lemma {:induction false} ReleaseKeepsReplayed(s: Setup, w: World, t: nat)
    requires Shaped(s, w) && Serial(s, w) && t in s.tasks && w.phases[t].Inside? && w.phases[t].pc.Done?
    ensures Replayed(s.tasks, s.carts, w.phases[t := Leaving(w.phases[t].lock)], w.carts, w.order, w.outs,
                     w.results[t := w.phases[t].pc.result])
  {
    var user, phase, results' :=
      s.tasks[t].user, Leaving(w.phases[t].lock), w.results[t := w.phases[t].pc.result];
    ReleaseKeepsPlaced(s.tasks, w.phases, w.order, w.outs, w.results, t, w.phases[t].lock, w.phases[t].pc.result);
    HistoryRelease(s.tasks, w.phases, w.results, user, s.carts[user], w.carts[user], w.order[user], w.outs, t);
    forall u | u in w.order && u != user
      ensures History(s.tasks, w.phases[t := phase], results', s.carts[u], w.carts[u], w.order[u], w.outs)
    {
      OthersReplayed(s.tasks, s.carts, w.phases, w.carts, w.order, w.outs, w.results, t, phase, [], results', u);
    }
  }

  /** Nobody of this user is inside while the user's lock is free. */
  lemma {:induction false} FreeMeansEmpty(s: Setup, w: World, t: nat)
    requires LocksExact(s, w) && t in s.tasks && t in w.phases
    requires w.phases[t].Waiting? && w.phases[t].lock !in w.held
    ensures forall r | r in s.tasks && r in w.phases && s.tasks[r].user == s.tasks[t].user :: !w.phases[r].Inside?
  {
  }

  lemma {:induction false} AcquireKeepsSerial(s: Setup, w: World, t: nat)
    requires Shaped(s, w) && LocksExact(s, w) && Serial(s, w) && Enabled(s, w, Acquire(t))
    ensures Serial(s, Next(s, w, Acquire(t)))
  {
    var phase := Next(s, w, Acquire(t)).phases[t];
    FreeMeansEmpty(s, w, t);
    AcquireKeepsPlaced(s.tasks, w.phases, w.order, w.outs, w.results, t, phase);
    AcquireOwn(s, w, t);
    AcquireKeepsReplayed(s.tasks, s.carts, w.phases, w.carts, w.order, w.outs, w.results, t, phase);
  }

  lemma {:induction false} ActKeepsSerial(s: Setup, w: World, t: nat, o: Outcome)
    requires Shaped(s, w) && Serial(s, w) && Enabled(s, w, Act(t, o))
    ensures Serial(s, Next(s, w, Act(t, o)))
  {
    var w' := Next(s, w, Act(t, o));
    ActKeepsPlaced(s.tasks, w.phases, w.order, w.outs, w.results, t, w'.phases[t], w'.outs[t]);
    ActKeepsReplayed(s, w, t, o);
  }

  lemma {:induction false} ReleaseKeepsSerial(s: Setup, w: World, t: nat)
    requires Shaped(s, w) && Serial(s, w) && Enabled(s, w, Release(t))
    ensures Serial(s, Next(s, w, Release(t)))
  {
    ReleaseKeepsPlaced(s.tasks, w.phases, w.order, w.outs, w.results, t, w.phases[t].lock, w.phases[t].pc.result);
    ReleaseKeepsReplayed(s, w, t);
  }

  lemma {:induction false} StepKeepsSerial(s: Setup, w: World, e: Event)
    requires Shaped(s, w) && LocksExact(s, w) && Serial(s, w) && Enabled(s, w, e)
    ensures Serial(s, Next(s, w, e))
  {
    match e
    case Acquire(t) => AcquireKeepsSerial(s, w, t);
    case Act(t, o) => ActKeepsSerial(s, w, t, o);
    case Release(t) => ReleaseKeepsSerial(s, w, t);
    case _ => OutsideKeepsSerial(s, w, e.task, Next(s, w, e).phases[e.task]);
  }

  // ------------------------------------------------------------------- theorems

  lemma {:induction false} ReachableInvariant(s: Setup, run: seq<Event>, w: World)
    requires s.Valid() && Reaches(s, run, w)
    ensures Shaped(s, w) && LocksExact(s, w) && Serial(s, w)
    decreases |run|
  {
    if run == [] {
      forall u ensures Registered(s.tasks, w.phases, u) == {} {
      }
    } else {
      var v :| ReachesVia(s, run, v, w);
      ReachableInvariant(s, run[..|run| - 1], v);
      StepKeepsLocks(s, v, run[|run| - 1]);
      StepKeepsSerial(s, v, run[|run| - 1]);
    }
  }

  /** In every reachable state both dictionaries name exactly the users with registered tasks, with
      the right counts, and all tasks of a user share one lock object that no other user has. */
  lemma {:induction false} LockTableIsExact(s: Setup, run: seq<Event>, w: World)
    requires s.Valid() && Reaches(s, run, w)
    ensures w.table.locks.Keys == w.table.users.Keys
    ensures forall u :: u in w.table.users <==> Registered(s.tasks, w.phases, u) != {}
    ensures forall u | u in w.table.users :: w.table.users[u] == |Registered(s.tasks, w.phases, u)|
    ensures Shared(s.tasks, w.phases, w.table)
    ensures (forall t | t in w.phases :: !w.phases[t].Registered())
      ==> w.table.locks == map[] && w.table.users == map[] && w.held == {}
  {
    ReachableInvariant(s, run, w);
    forall u ensures u in w.table.users <==> Registered(s.tasks, w.phases, u) != {} {
      assert u in w.table.users <==> |Registered(s.tasks, w.phases, u)| > 0;
    }
    if forall t | t in w.phases :: !w.phases[t].Registered() {
      forall u ensures u !in w.table.users {
        assert Registered(s.tasks, w.phases, u) == {};
      }
      assert w.table.users.Keys == {};
    }
  }

  /** No two tasks of one user are ever inside at once. */
  lemma {:induction false} MutualExclusion(s: Setup, run: seq<Event>, w: World, t: nat, t': nat)
    requires s.Valid() && Reaches(s, run, w)
    requires t in w.phases && t' in w.phases && t in s.tasks && t' in s.tasks
    requires w.phases[t].Inside? && w.phases[t'].Inside? && s.tasks[t].user == s.tasks[t'].user
    ensures t == t'
  {
    ReachableInvariant(s, run, w);
  }

  /** The task inside a lock can always go on. */
  lemma {:induction false} HolderCanMove(s: Setup, w: World, r: nat) returns (e: Event)
    requires Shaped(s, w) && r in s.tasks && r in w.phases && w.phases[r].Inside?
    ensures Enabled(s, w, e) && e.task == r && !e.Cancel?
  {
    e := if w.phases[r].pc.Done? then Release(r) else Act(r, Refuse);
  }

  lemma {:induction false} RegisteredCanMove(s: Setup, w: World, t: nat) returns (e: Event)
    requires Shaped(s, w) && LocksExact(s, w) && t in s.tasks && t in w.phases && w.phases[t].Registered()
    ensures Enabled(s, w, e) && e.task in w.phases && w.phases[e.task].Registered() && !e.Cancel?
    ensures w.phases[t].Leaving? ==> e == Unregister(t)
  {
    if w.phases[t].Leaving? {
      LeaveKeepsTable(s.tasks, w.phases, w.table, t);
      e := Unregister(t);
    } else if w.phases[t].Waiting? && w.phases[t].lock !in w.held {
      e := Acquire(t);
    } else {
      var r :| r in w.phases && w.phases[r].Inside? && w.phases[r].lock == w.phases[t].lock;
      e := HolderCanMove(s, w, r);
    }
  }

  /** The clean-up never fails on a missing key, and no lock is lost: while any task is
      registered, some registered task can take a step. */
  lemma {:induction false} NeverStuck(s: Setup, run: seq<Event>, w: World, t: nat)
    requires s.Valid() && Reaches(s, run, w) && t in s.tasks && t in w.phases && w.phases[t].Registered()
    ensures Shaped(s, w)
    ensures w.phases[t].Leaving? ==> Enabled(s, w, Unregister(t))
    ensures exists e: Event :: Enabled(s, w, e) && w.phases[e.task].Registered() && !e.Cancel?
  {
    ReachableInvariant(s, run, w);
    var e := RegisteredCanMove(s, w, t);
  }

  lemma {:induction false} SerialAnswers(s: Setup, w: World, u: int, i: nat)
    requires Serial(s, w) && u in w.order && Entered(s.tasks, u, w.order[u])
    requires u in s.carts && i < |w.order[u]| && w.order[u][i] in w.results
    ensures ReplayPc(s.tasks, s.carts[u], w.order[u], w.outs, i) == Done(w.results[w.order[u][i]])
  {
    assert History(s.tasks, w.phases, w.results, s.carts[u], w.carts[u], w.order[u], w.outs);
    assert Agrees(s.tasks, w.phases, w.results, s.carts[u], w.order[u], w.outs, i);
  }

  /** Every interleaving is serial: a user's cart is what their operations leave when run one at a
      time in the order they got the lock, and each answer is the one that run gives. */
  lemma {:induction false} InterleavingsAreSerial(s: Setup, run: seq<Event>, w: World, u: int)
    requires s.Valid() && Reaches(s, run, w) && u in s.carts
    ensures Shaped(s, w) && NoDup(w.order[u])
    ensures forall t | t in w.order[u] :: t in s.tasks && s.tasks[t].user == u
    ensures w.carts[u] == Replay(s.tasks, s.carts[u], w.order[u], w.outs)
    ensures forall t | t in w.results :: t in s.tasks && s.tasks[t].user in s.carts && t in w.order[s.tasks[t].user]
    ensures forall i | 0 <= i < |w.order[u]| && w.order[u][i] in w.results ::
      ReplayPc(s.tasks, s.carts[u], w.order[u], w.outs, i) == Done(w.results[w.order[u][i]])
  {
    ReachableInvariant(s, run, w);
    assert Entered(s.tasks, u, w.order[u]);
    assert History(s.tasks, w.phases, w.results, s.carts[u], w.carts[u], w.order[u], w.outs);
    forall i | 0 <= i < |w.order[u]| && w.order[u][i] in w.results
      ensures ReplayPc(s.tasks, s.carts[u], w.order[u], w.outs, i) == Done(w.results[w.order[u][i]])
    {
      SerialAnswers(s, w, u, i);
    }
  }

  // ------------------------------------------------- what the world says of its run

  /** How Swiggy met a task's calls in this run, in order. */
  function MetIn(run: seq<Event>, t: nat): seq<Outcome> {
    if run == [] then [] else
      var last := run[|run| - 1];
      MetIn(run[..|run| - 1], t) + if last.Act? && last.task == t then [last.outcome] else []
  }

  /** A user's tasks in the order in which they got the lock in this run. */
  function EnteredIn(tasks: Tasks, run: seq<Event>, u: int): seq<nat> {
    if run == [] then [] else
      var last := run[|run| - 1];
      EnteredIn(tasks, run[..|run| - 1], u)
      + if last.Acquire? && last.task in tasks && tasks[last.task].user == u then [last.task] else []
  }

  lemma {:induction false} OutcomeIsRecorded(s: Setup, w: World, e: Event, t: nat)
    requires Shaped(s, w) && Enabled(s, w, e)
    ensures Met(Next(s, w, e).outs, t) == Met(w.outs, t) + (if e.Act? && e.task == t then [e.outcome] else [])
  {
  }

  lemma {:induction false} EntryIsRecorded(s: Setup, w: World, e: Event, u: int)
    requires Shaped(s, w) && Enabled(s, w, e) && u in s.carts
    ensures Next(s, w, e).order[u]
      == w.order[u] + (if e.Acquire? && e.task in s.tasks && s.tasks[e.task].user == u then [e.task] else [])
  {
  }

  lemma {:induction false} ReleaseIsRecorded(s: Setup, w: World, e: Event, t: nat)
    requires Shaped(s, w) && Enabled(s, w, e)
    ensures t in Next(s, w, e).results <==> t in w.results || e == Release(t)
  {
  }

  lemma {:induction false} OutcomesOfTheRun(s: Setup, run: seq<Event>, w: World, t: nat)
    requires s.Valid() && Reaches(s, run, w)
    ensures Met(w.outs, t) == MetIn(run, t)
    decreases |run|
  {
    if run != [] {
      var v :| ReachesVia(s, run, v, w);
      OutcomesOfTheRun(s, run[..|run| - 1], v, t);
      OutcomeIsRecorded(s, v, run[|run| - 1], t);
    }
  }

  lemma {:induction false} OrderOfTheRun(s: Setup, run: seq<Event>, w: World, u: int)
    requires s.Valid() && Reaches(s, run, w) && u in s.carts
    ensures u in w.order && w.order[u] == EnteredIn(s.tasks, run, u)
    decreases |run|
  {
    if run != [] {
      var v :| ReachesVia(s, run, v, w);
      OrderOfTheRun(s, run[..|run| - 1], v, u);
      EntryIsRecorded(s, v, run[|run| - 1], u);
    }
  }

  lemma {:induction false} ResultsOfTheRun(s: Setup, run: seq<Event>, w: World, t: nat)
    requires s.Valid() && Reaches(s, run, w)
    ensures t in w.results <==> Release(t) in run
    decreases |run|
  {
    if run != [] {
      var v :| ReachesVia(s, run, v, w);
      var init, last := run[..|run| - 1], run[|run| - 1];
      ResultsOfTheRun(s, init, v, t);
      ReleaseIsRecorded(s, v, last, t);
      assert run == init + [last];
    }
  }

  /** The order, the outcomes and the finished tasks that the serial law speaks of are those of the run itself. */
  lemma {:induction false} WorldIsOfItsRun(s: Setup, run: seq<Event>, w: World)
    requires s.Valid() && Reaches(s, run, w)
    ensures forall u | u in s.carts :: u in w.order && w.order[u] == EnteredIn(s.tasks, run, u)
    ensures forall t: nat :: Met(w.outs, t) == MetIn(run, t) && (t in w.results <==> Release(t) in run)
  {
    forall u | u in s.carts ensures u in w.order && w.order[u] == EnteredIn(s.tasks, run, u) {
      OrderOfTheRun(s, run, w, u);
    }
    forall t: nat ensures Met(w.outs, t) == MetIn(run, t) && (t in w.results <==> Release(t) in run) {
      OutcomesOfTheRun(s, run, w, t);
      ResultsOfTheRun(s, run, w, t);
    }
  }

  /** All items the given adds reported as added, in the order of the adds. */
  ghost function Joined(results: Results, ts: seq<nat>): seq<Line>
    requires forall t | t in ts :: t in results
  {
    if ts == [] then [] else
      Joined(results, ts[..|ts| - 1]) + CartGuarantees.Reported(results[ts[|ts| - 1]])
  }

  /** An add of distinct ids that Swiggy refused or accepted, in whole or in part, but dropped nothing of. */
  ghost predicate CandidAdd(task: Task, outs: seq<Outcome>) {
    task.op.Add? && NoDup(Ids(task.op.items)) && CartGuarantees.Candid(outs)
  }

  lemma {:induction false} OneCandidAdd(tasks: Tasks, initial: seq<Line>, ts: seq<nat>, outs: Answers, results: Results)
    requires ts != [] && forall t | t in ts :: t in tasks
    requires CandidAdd(tasks[ts[|ts| - 1]], Met(outs, ts[|ts| - 1])) && ts[|ts| - 1] in results
    requires ReplayPc(tasks, initial, ts, outs, |ts| - 1) == Done(results[ts[|ts| - 1]])
    ensures Replay(tasks, initial, ts, outs)
      == Onto(Replay(tasks, initial, ts[..|ts| - 1], outs), CartGuarantees.Reported(results[ts[|ts| - 1]]))
  {
    var t := ts[|ts| - 1];
    CartGuarantees.CandidAddKeepsCount(tasks[t].op.items, Replay(tasks, initial, ts[..|ts| - 1], outs), Met(outs, t));
  }

  lemma {:induction false} EarlierAnswers(tasks: Tasks, initial: seq<Line>, ts: seq<nat>, outs: Answers, results: Results)
    requires ts != [] && forall t | t in ts :: t in tasks && t in results
    requires forall i | 0 <= i < |ts| :: ReplayPc(tasks, initial, ts, outs, i) == Done(results[ts[i]])
    ensures var init := ts[..|ts| - 1];
      forall i | 0 <= i < |init| :: ReplayPc(tasks, initial, init, outs, i) == Done(results[init[i]])
  {
    var init := ts[..|ts| - 1];
    forall i | 0 <= i < |init| ensures ReplayPc(tasks, initial, init, outs, i) == Done(results[init[i]]) {
      assert init[..i] == ts[..i] && init[i] == ts[i];
    }
  }

  lemma {:induction false} CandidAddsMerge(tasks: Tasks, initial: seq<Line>, ts: seq<nat>, outs: Answers, results: Results)
    requires forall t | t in ts :: t in tasks && t in results && CandidAdd(tasks[t], Met(outs, t))
    requires forall i | 0 <= i < |ts| :: ReplayPc(tasks, initial, ts, outs, i) == Done(results[ts[i]])
    ensures Replay(tasks, initial, ts, outs) == Onto(initial, Joined(results, ts))
  {
    if ts != [] {
      var n := |ts| - 1;
      EarlierAnswers(tasks, initial, ts, outs, results);
      CandidAddsMerge(tasks, initial, ts[..n], outs, results);
      OneCandidAdd(tasks, initial, ts, outs, results);
      OntoTwice(initial, Joined(results, ts[..n]), CartGuarantees.Reported(results[ts[n]]));
    }
  }

  /** Concurrent adds that Swiggy is candid about all land, refused in part or not: however they interleave,
      the cart is the old one merged with everything they report as added. Each line then holds its old
      quantity plus all that was reported, exactly if the old cart names no id twice or nothing was added. */
  lemma {:induction false} NoAdditionIsLost(s: Setup, run: seq<Event>, w: World, u: int)
    requires s.Valid() && Reaches(s, run, w) && u in s.carts
    requires forall t | t in s.tasks && s.tasks[t].user == u ::
      t in w.results && CandidAdd(s.tasks[t], Met(w.outs, t))
    ensures Shaped(s, w) && forall t | t in s.tasks && s.tasks[t].user == u :: t in w.order[u]
    ensures forall t | t in w.order[u] :: t in w.results
    ensures w.carts[u] == Onto(s.carts[u], Joined(w.results, w.order[u]))
    ensures (forall id :: Total(w.carts[u], id) == Total(s.carts[u], id) + Total(Joined(w.results, w.order[u]), id))
      <==> NoDup(Ids(s.carts[u])) || Joined(w.results, w.order[u]) == []
  {
    InterleavingsAreSerial(s, run, w, u);
    CandidAddsMerge(s.tasks, s.carts[u], w.order[u], w.outs, w.results);
    MergeConservesExactlyDistinctCarts(s.carts[u], Joined(w.results, w.order[u]));
  }

  /** In no run does a task send an empty `update_cart`. */
  lemma {:induction false} NoRunSendsAnEmptyWrite(s: Setup, run: seq<Event>, w: World, t: nat)
    requires s.Valid() && Reaches(s, run, w)
    requires t in s.tasks && t in w.phases && w.phases[t].Inside? && !w.phases[t].pc.Done?
    ensures Fits(s.tasks[t].op, w.phases[t].pc)
    ensures NextCall(s.tasks[t].op, w.phases[t].pc) != UpdateCart([])
  {
    ReachableInvariant(s, run, w);
    CartGuarantees.NoEmptyWrite(s.tasks[t].op, w.phases[t].pc);
  }
}
