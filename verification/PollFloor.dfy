/** The ten-second floor of app/orders/service.py: `list_orders_throttled` and `get_tracking` over
    their caches. A call checks the cache and, unless it is served, asks Swiggy; other calls run
    while it waits; then it stores the answer. */
module PollFloor {
  import opened Collections

  const MIN_POLL_INTERVAL_SECONDS: real := 10.0

  datatype Entry<V> = Entry(at: real, value: V)

  /** An answer stored in the cache, and the live call it came from. */
  datatype Stored<K, V> = Stored(key: K, at: real, value: V, live: nat)

  /** A live call is running, has failed, or was answered and its answer stored. */
  datatype Status = Running | Lost(at: real) | Answered(at: real, store: nat)

  /** `beside` are the live calls that were running when this one checked the cache. */
  datatype Live<K> = Live(key: K, start: real, status: Status, beside: set<nat>)

  datatype World<K(==), V> = World(entries: map<K, Entry<V>>, lives: seq<Live<K>>, stores: seq<Stored<K, V>>,
                                   clock: real)

  datatype Event<K, V> =
    | Check(key: K, now: real)                          // look in the cache, or start a live call
    | Finish(live: nat, now: real, reply: Option<V>)    // a live call returns, or fails

  function Start<K(==), V>(now: real): World<K, V> {
    World(map[], [], [], now)
  }

  /** What the cache serves. */
  function Hit<K(==), V>(entries: map<K, Entry<V>>, key: K, now: real): Option<V> {
    if key in entries && now - entries[key].at < MIN_POLL_INTERVAL_SECONDS then Some(entries[key].value) else None
  }

  function RunningIn<K>(lives: seq<Live<K>>): set<nat> {
    set i: nat | i < |lives| && lives[i].status.Running?
  }

  function Begun<K>(lives: seq<Live<K>>, key: K, now: real): seq<Live<K>> {
    lives + [Live(key, now, Running, RunningIn(lives))]
  }

  function Ended<K>(lives: seq<Live<K>>, i: nat, status: Status): seq<Live<K>>
    requires i < |lives|
  {
    lives[i := lives[i].(status := status)]
  }

  /** The clock never runs backwards. */
  predicate Enabled<K(==), V>(w: World<K, V>, e: Event<K, V>) {
    match e
    case Check(_, now) => w.clock <= now
    case Finish(i, now, _) => w.clock <= now && i < |w.lives| && w.lives[i].status.Running?
  }

  function Next<K(==), V>(w: World<K, V>, e: Event<K, V>): World<K, V>
    requires Enabled(w, e)
  {
    match e
    case Check(key, now) =>
      if Hit(w.entries, key, now).Some? then w.(clock := now)
      else w.(clock := now, lives := Begun(w.lives, key, now))
    case Finish(i, now, None) => w.(clock := now, lives := Ended(w.lives, i, Lost(now)))
    case Finish(i, now, Some(value)) =>
      var key := w.lives[i].key;
      World(w.entries[key := Entry(now, value)], Ended(w.lives, i, Answered(now, |w.stores|)),
            w.stores + [Stored(key, now, value, i)], now)
  }

  ghost predicate Via<K(!new), V(!new)>(now: real, run: seq<Event<K, V>>, w: World<K, V>) {
    if run == [] then w == Start(now)
    else
      var last := run[|run| - 1];
      exists v :: Via(now, run[..|run| - 1], v) && Enabled(v, last) && w == Next(v, last)
  }

  /** The newest stored answer for a key. */
  function Latest<K(==), V>(stores: seq<Stored<K, V>>, key: K): Option<Entry<V>> {
    if stores == [] then None else
      var last := stores[|stores| - 1];
      if last.key == key then Some(Entry(last.at, last.value)) else Latest(stores[..|stores| - 1], key)
  }

  // ------------------------------------------------------------------ invariant

  ghost predicate CacheIsLatest<K(!new), V(!new)>(entries: map<K, Entry<V>>, stores: seq<Stored<K, V>>) {
    forall k :: (if k in entries then Some(entries[k]) else None) == Latest(stores, k)
  }

  ghost predicate StoresInTime<K, V>(stores: seq<Stored<K, V>>, clock: real) {
    && (forall m | 0 <= m < |stores| :: stores[m].at <= clock)
    && (forall m, n | 0 <= m < n < |stores| :: stores[m].at <= stores[n].at)
  }

  ghost predicate LivesInTime<K>(lives: seq<Live<K>>, clock: real) {
    forall i | 0 <= i < |lives| ::
      lives[i].start <= clock && (!lives[i].status.Running? ==> lives[i].start <= lives[i].status.at <= clock)
  }

  /** Every stored answer came from the call it names, and every answered call stored its answer. */
  ghost predicate Recorded<K, V>(lives: seq<Live<K>>, stores: seq<Stored<K, V>>) {
    && (forall m | 0 <= m < |stores| ::
          stores[m].live < |lives| && lives[stores[m].live].key == stores[m].key
          && lives[stores[m].live].status == Answered(stores[m].at, m))
    && (forall i | 0 <= i < |lives| && lives[i].status.Answered? ::
          lives[i].status.store < |stores| && stores[lives[i].status.store].live == i)
  }

  /** A call that found an earlier one of its key answered starts ten seconds after that one's end. */
  ghost predicate Spaced<K>(lives: seq<Live<K>>) {
    forall i, j | 0 <= i < j < |lives| && lives[i].key == lives[j].key && lives[i].status.Answered? ::
      i in lives[j].beside || lives[i].status.at + MIN_POLL_INTERVAL_SECONDS <= lives[j].start
  }

  /** A call that still runs was running when every later one checked. */
  ghost predicate Overlapped<K>(lives: seq<Live<K>>) {
    forall i, j | 0 <= i < j < |lives| && lives[i].status.Running? :: i in lives[j].beside
  }

  ghost predicate InStep<K(!new), V(!new)>(w: World<K, V>) {
    && CacheIsLatest(w.entries, w.stores)
    && StoresInTime(w.stores, w.clock) && LivesInTime(w.lives, w.clock)
    && Recorded(w.lives, w.stores) && Spaced(w.lives) && Overlapped(w.lives)
  }

  lemma {:induction false} LatestIsLast<K, V>(stores: seq<Stored<K, V>>, m: nat)
    requires m < |stores| && forall a, b | 0 <= a < b < |stores| :: stores[a].at <= stores[b].at
    ensures Latest(stores, stores[m].key).Some? && stores[m].at <= Latest(stores, stores[m].key).value.at
  {
    var n := |stores| - 1;
    if stores[n].key != stores[m].key {
      LatestIsLast(stores[..n], m);
    }
  }

  lemma {:induction false} LatestAt<K, V>(stores: seq<Stored<K, V>>, key: K) returns (m: nat)
    requires Latest(stores, key).Some?
    ensures m < |stores| && stores[m].key == key && Latest(stores, key) == Some(Entry(stores[m].at, stores[m].value))
    ensures forall n | m < n < |stores| :: stores[n].key != key
  {
    var n := |stores| - 1;
    if stores[n].key == key {
      m := n;
    } else {
      m := LatestAt(stores[..n], key);
    }
  }

  lemma {:induction false} LatestSnoc<K, V>(stores: seq<Stored<K, V>>, s: Stored<K, V>, key: K)
    ensures Latest(stores + [s], key) == if s.key == key then Some(Entry(s.at, s.value)) else Latest(stores, key)
  {
    assert (stores + [s])[..|stores|] == stores;
  }

  /** A key is served exactly if an answer for it was stored less than ten seconds ago. */
  lemma {:induction false} ServedExactlyWhenStoredLately<K(!new), V(!new)>(w: World<K, V>, key: K, now: real)
    requires CacheIsLatest(w.entries, w.stores) && StoresInTime(w.stores, w.clock)
    ensures Hit(w.entries, key, now).Some? <==>
      exists m :: 0 <= m < |w.stores| && w.stores[m].key == key && now < w.stores[m].at + MIN_POLL_INTERVAL_SECONDS
  {
    assert (if key in w.entries then Some(w.entries[key]) else None) == Latest(w.stores, key);
    if Hit(w.entries, key, now).Some? {
      var m := LatestAt(w.stores, key);
    }
    if m :| 0 <= m < |w.stores| && w.stores[m].key == key && now < w.stores[m].at + MIN_POLL_INTERVAL_SECONDS {
      LatestIsLast(w.stores, m);
    }
  }

  /** The same in terms of the calls that were answered. */
  lemma {:induction false} ServedExactlyWhenAnsweredLately<K(!new), V(!new)>(w: World<K, V>, key: K, now: real)
    requires CacheIsLatest(w.entries, w.stores) && StoresInTime(w.stores, w.clock) && Recorded(w.lives, w.stores)
    ensures Hit(w.entries, key, now).Some? <==>
      exists i :: 0 <= i < |w.lives| && AnsweredLately(w.lives[i], key, now)
  {
    ServedExactlyWhenStoredLately(w, key, now);
    if m :| 0 <= m < |w.stores| && w.stores[m].key == key && now < w.stores[m].at + MIN_POLL_INTERVAL_SECONDS {
      assert AnsweredLately(w.lives[w.stores[m].live], key, now);
    }
    if i :| 0 <= i < |w.lives| && AnsweredLately(w.lives[i], key, now) {
      assert w.stores[w.lives[i].status.store].key == key;
    }
  }

  predicate AnsweredLately<K(==)>(live: Live<K>, key: K, now: real) {
    live.key == key && live.status.Answered? && now < live.status.at + 10.0
  }

  // ----------------------------------------------------------------- the steps

  lemma {:induction false} BeginKeepsSpacing<K>(lives: seq<Live<K>>, key: K, now: real)
    requires Spaced(lives) && Overlapped(lives)
    requires forall i | 0 <= i < |lives| :: !AnsweredLately(lives[i], key, now)
    ensures Spaced(Begun(lives, key, now)) && Overlapped(Begun(lives, key, now))
  {
    var lives' := Begun(lives, key, now);
    forall i, j | 0 <= i < j < |lives'| && lives'[i].key == lives'[j].key && lives'[i].status.Answered?
      ensures i in lives'[j].beside || lives'[i].status.at + MIN_POLL_INTERVAL_SECONDS <= lives'[j].start
    {
      assert lives'[i] == lives[i];
      assert !AnsweredLately(lives[i], key, now);
    }
  }

  lemma {:induction false} BeginKeepsRecords<K, V>(lives: seq<Live<K>>, stores: seq<Stored<K, V>>, key: K, now: real)
    requires Recorded(lives, stores)
    ensures Recorded(Begun(lives, key, now), stores)
  {
  }

  lemma {:induction false} CheckInStep<K(!new), V(!new)>(w: World<K, V>, key: K, now: real)
    requires InStep(w) && w.clock <= now
    ensures InStep(Next(w, Check(key, now)))
  {
    if Hit(w.entries, key, now).None? {
      ServedExactlyWhenAnsweredLately(w, key, now);
      BeginKeepsSpacing(w.lives, key, now);
      BeginKeepsRecords(w.lives, w.stores, key, now);
    }
  }

  /** A call that ends was beside every later one. */
  lemma {:induction false} EndKeepsSpacing<K>(lives: seq<Live<K>>, i: nat, status: Status)
    requires Spaced(lives) && Overlapped(lives) && i < |lives| && lives[i].status.Running? && !status.Running?
    ensures Spaced(Ended(lives, i, status)) && Overlapped(Ended(lives, i, status))
  {
    var lives' := Ended(lives, i, status);
    forall a, b | 0 <= a < b < |lives'| && lives'[a].key == lives'[b].key && lives'[a].status.Answered?
      ensures a in lives'[b].beside || lives'[a].status.at + MIN_POLL_INTERVAL_SECONDS <= lives'[b].start
    {
      assert lives'[b].beside == lives[b].beside && lives'[b].start == lives[b].start && lives'[b].key == lives[b].key;
      assert a == i || lives'[a] == lives[a];
    }
  }

  lemma {:induction false} AnswerKeepsRecords<K, V>(lives: seq<Live<K>>, stores: seq<Stored<K, V>>, i: nat, now: real,
                                                    value: V)
    requires Recorded(lives, stores) && i < |lives| && lives[i].status.Running?
    ensures Recorded(Ended(lives, i, Answered(now, |stores|)), stores + [Stored(lives[i].key, now, value, i)])
  {
  }

  lemma {:induction false} LossKeepsRecords<K, V>(lives: seq<Live<K>>, stores: seq<Stored<K, V>>, i: nat, now: real)
    requires Recorded(lives, stores) && i < |lives| && lives[i].status.Running?
    ensures Recorded(Ended(lives, i, Lost(now)), stores)
  {
  }

  lemma {:induction false} StoreKeepsCache<K(!new), V(!new)>(entries: map<K, Entry<V>>, stores: seq<Stored<K, V>>,
                                                                  s: Stored<K, V>)
    requires CacheIsLatest(entries, stores)
    ensures CacheIsLatest(entries[s.key := Entry(s.at, s.value)], stores + [s])
  {
    var entries' := entries[s.key := Entry(s.at, s.value)];
    forall k ensures (if k in entries' then Some(entries'[k]) else None) == Latest(stores + [s], k) {
      LatestSnoc(stores, s, k);
      assert (if k in entries then Some(entries[k]) else None) == Latest(stores, k);
    }
  }

  lemma {:induction false} FinishInStep<K(!new), V(!new)>(w: World<K, V>, i: nat, now: real, reply: Option<V>)
    requires InStep(w) && Enabled(w, Finish(i, now, reply))
    ensures InStep(Next(w, Finish(i, now, reply)))
  {
    match reply
    case None =>
      EndKeepsSpacing(w.lives, i, Lost(now));
      LossKeepsRecords(w.lives, w.stores, i, now);
    case Some(value) =>
      EndKeepsSpacing(w.lives, i, Answered(now, |w.stores|));
      AnswerKeepsRecords(w.lives, w.stores, i, now, value);
      StoreKeepsCache(w.entries, w.stores, Stored(w.lives[i].key, now, value, i));
  }

  lemma {:induction false} RunsInStep<K(!new), V(!new)>(now: real, run: seq<Event<K, V>>, w: World<K, V>)
    requires Via(now, run, w)
    ensures InStep(w)
  {
    if run != [] {
      var last := run[|run| - 1];
      var v :| Via(now, run[..|run| - 1], v) && Enabled(v, last) && w == Next(v, last);
      RunsInStep(now, run[..|run| - 1], v);
      match last
      case Check(key, t) => CheckInStep(v, key, t);
      case Finish(i, t, reply) => FinishInStep(v, i, t, reply);
    }
  }

  // ------------------------------------------------------------------ theorems

  /** In every interleaving, of two live calls of one key the later starts at least ten seconds after the end,
      and so the start, of the earlier, unless the earlier failed or was still running when the later checked. */
  lemma {:induction false} CloseCallsOverlap<K(!new), V(!new)>(now: real, run: seq<Event<K, V>>, w: World<K, V>,
                                                               i: nat, j: nat)
    requires Via(now, run, w) && i < j < |w.lives| && w.lives[i].key == w.lives[j].key
    ensures i in w.lives[j].beside || w.lives[i].status.Lost? || TenSecondsApart(w.lives[i], w.lives[j])
  {
    RunsInStep(now, run, w);
  }

  predicate TenSecondsApart<K>(earlier: Live<K>, later: Live<K>) {
    !earlier.status.Running? && earlier.start <= earlier.status.at
    && earlier.status.at + 10.0 <= later.start
  }

  /** In every interleaving a check starts a live call within ten seconds of another's start exactly when that
      one has not been answered yet and no other call of the key has in the last ten seconds. */
  lemma {:induction false} StartsCloseExactlyWhen<K(!new), V(!new)>(start: real, run: seq<Event<K, V>>,
                                                                    w: World<K, V>, i: nat, now: real)
    requires Via(start, run, w) && w.clock <= now
    requires i < |w.lives| && now < w.lives[i].start + 10.0
    ensures Next(w, Check(w.lives[i].key, now)).lives == Begun(w.lives, w.lives[i].key, now) <==>
      && !w.lives[i].status.Answered?
      && forall p | 0 <= p < |w.lives| && p != i :: !AnsweredLately(w.lives[p], w.lives[i].key, now)
  {
    RunsInStep(start, run, w);
    ServedExactlyWhenAnsweredLately(w, w.lives[i].key, now);
    assert |Begun(w.lives, w.lives[i].key, now)| > |w.lives|;
    assert w.lives[i].status.Answered? ==> AnsweredLately(w.lives[i], w.lives[i].key, now);
  }

  /** A call that checks while no other runs starts ten seconds after the end of every answered one of its key. */
  lemma {:induction false} LiveCallsAreSpaced<K(!new), V(!new)>(now: real, run: seq<Event<K, V>>, w: World<K, V>,
                                                                i: nat, j: nat)
    requires Via(now, run, w) && i < j < |w.lives| && w.lives[i].key == w.lives[j].key
    requires w.lives[j].beside == {} && !w.lives[i].status.Lost?
    ensures TenSecondsApart(w.lives[i], w.lives[j])
  {
    CloseCallsOverlap(now, run, w, i, j);
  }

  /** In every interleaving an answer from the cache is the newest stored one for its key, stored less than ten
      seconds ago, and nothing else is ever served. */
  lemma {:induction false} ServedAnswersAreFresh<K(!new), V(!new)>(start: real, run: seq<Event<K, V>>,
                                                                       w: World<K, V>, key: K, now: real)
    returns (m: nat)
    requires Via(start, run, w) && w.clock <= now && Hit(w.entries, key, now).Some?
    ensures m < |w.stores| && w.stores[m].key == key && Hit(w.entries, key, now) == Some(w.stores[m].value)
    ensures forall n | m < n < |w.stores| :: w.stores[n].key != key
    ensures 0.0 <= now - w.stores[m].at < 10.0
  {
    RunsInStep(start, run, w);
    assert (if key in w.entries then Some(w.entries[key]) else None) == Latest(w.stores, key);
    m := LatestAt(w.stores, key);
  }

  class PollCache<K(!new, ==), V(!new)> {
    var entries: map<K, Entry<V>>
    ghost var lives: seq<Live<K>>
    ghost var stores: seq<Stored<K, V>>
    ghost var clock: real

    ghost function View(): World<K, V>
      reads this
    {
      World(entries, lives, stores, clock)
    }

    constructor (ghost now: real)
      ensures View() == Start(now)
    {
      entries := map[];
      lives, stores, clock := [], [], now;
    }

    /** The first part of a call: serve from the cache, or go to Swiggy as live call `live`. */
    method Look(key: K, now: real) returns (served: Option<V>, ghost live: nat)
      requires clock <= now
      modifies this
      ensures served == Hit(old(entries), key, now) && live == |old(lives)|
      ensures served == if key in old(entries) && now - old(entries)[key].at < 10.0 then Some(old(entries)[key].value) else None
      ensures entries == old(entries) && stores == old(stores) && (served.Some? ==> lives == old(lives))
      ensures View() == Next(old(View()), Check(key, now))
    {
      live := |lives|;
      clock := now;
      if key in entries {
        var entry := entries[key];
        if now - entry.at < MIN_POLL_INTERVAL_SECONDS {
          return Some(entry.value), live;
        }
      }
      served := None;
      lives := Begun(lives, key, now);
    }

    /** The second part: an answer is stored with the time it came; a failure is not. */
    method Keep(key: K, ghost live: nat, now: real, reply: Option<V>)
      requires clock <= now && live < |lives| && lives[live].status.Running? && lives[live].key == key
      modifies this
      ensures View() == Next(old(View()), Finish(live, now, reply))
      ensures entries == if reply.None? then old(entries) else old(entries)[key := Entry(now, reply.value)]
    {
      clock := now;
      match reply {
        case None =>
          lives := Ended(lives, live, Lost(now));
        case Some(value) =>
          entries := entries[key := Entry(now, value)];
          lives := Ended(lives, live, Answered(now, |stores|));
          stores := stores + [Stored(key, now, value, live)];
      }
    }
  }
}
