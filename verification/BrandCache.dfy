/** `BrandPreferenceCache` of app/tags/cache.py: a bounded dictionary of expiring brand sets,
    proved to answer like the head of a plain most-recently-set-first list. */
module BrandCache {
  import opened Collections

  datatype Key = Key(userId: int, addressId: string)

  datatype Entry = Entry(expiresAt: real, brands: set<string>)

  /** One call of `set`: `at` is the clock when the entry was stored. */
  datatype Stored = Stored(key: Key, at: real, brands: set<string>)

  // ------------------------------------------------------------- the reference

  function Other(key: Key): Stored -> bool {
    (s: Stored) => s.key != key
  }

  /** The last `set` of every key, most recent first. */
  function Recency(history: seq<Stored>): seq<Stored> {
    if history == [] then [] else
      var last := history[|history| - 1];
      [last] + Filter(Recency(history[..|history| - 1]), Other(last.key))
  }

  /** What the first `n` of a recency list still remember of `key` at time `now`. */
  function Recall(recent: seq<Stored>, n: nat, ttl: real, key: Key, now: real): Option<Entry> {
    if recent == [] || n == 0 then None
    else if recent[0].key == key then
      if now < recent[0].at + ttl then Some(Entry(recent[0].at + ttl, recent[0].brands)) else None
    else Recall(recent[1..], n - 1, ttl, key, now)
  }

  ghost predicate Ordered(recent: seq<Stored>) {
    forall i, j | 0 <= i < j < |recent| :: recent[i].key != recent[j].key && recent[j].at <= recent[i].at
  }

  /** The clock never runs backwards. */
  ghost predicate Monotone(history: seq<Stored>) {
    forall i, j | 0 <= i < j < |history| :: history[i].at <= history[j].at
  }

  lemma {:induction false} FilterOrdered(recent: seq<Stored>, p: Stored -> bool)
    requires Ordered(recent)
    ensures Ordered(Filter(recent, p))
  {
    if recent != [] {
      var init, x := recent[..|recent| - 1], recent[|recent| - 1];
      FilterOrdered(init, p);
      FilterMembers(init, p);
      forall i | 0 <= i < |Filter(init, p)|
        ensures Filter(init, p)[i].key != x.key && x.at <= Filter(init, p)[i].at
      {
        assert Filter(init, p)[i] in Filter(init, p);
        var j :| 0 <= j < |init| && init[j] == Filter(init, p)[i];
        assert recent[j] == init[j];
      }
    }
  }

  /** Time only makes a recency list forget. */
  lemma {:induction false} RecallLater(recent: seq<Stored>, n: nat, ttl: real, key: Key, now: real, later: real)
    requires now <= later
    ensures var before := Recall(recent, n, ttl, key, now);
      Recall(recent, n, ttl, key, later) ==
        if before.Some? && later < before.value.expiresAt then before else None
  {
    if recent != [] && n > 0 && recent[0].key != key {
      RecallLater(recent[1..], n - 1, ttl, key, now, later);
    }
  }

  lemma {:induction false} RecallAt(recent: seq<Stored>, n: nat, ttl: real, i: nat, now: real)
    requires Ordered(recent) && i < n && i < |recent|
    ensures Recall(recent, n, ttl, recent[i].key, now) ==
      if now < recent[i].at + ttl then Some(Entry(recent[i].at + ttl, recent[i].brands)) else None
  {
    if i > 0 {
      RecallAt(recent[1..], n - 1, ttl, i - 1, now);
    }
  }

  /** What is remembered stands somewhere in the first `n`. */
  lemma {:induction false} RecallFound(recent: seq<Stored>, n: nat, ttl: real, key: Key, now: real) returns (i: nat)
    requires Recall(recent, n, ttl, key, now).Some?
    ensures i < n && i < |recent| && recent[i].key == key && now < recent[i].at + ttl
  {
    if recent[0].key == key {
      i := 0;
    } else {
      i := RecallFound(recent[1..], n - 1, ttl, key, now);
      i := i + 1;
    }
  }

  /** The `n`-th place only matters for its own key. */
  lemma {:induction false} RecallOneMore(recent: seq<Stored>, n: nat, ttl: real, key: Key, now: real)
    requires Ordered(recent)
    ensures Recall(recent, n + 1, ttl, key, now) ==
      if n < |recent| && recent[n].key == key
      then (if now < recent[n].at + ttl then Some(Entry(recent[n].at + ttl, recent[n].brands)) else None)
      else Recall(recent, n, ttl, key, now)
  {
    if n > 0 && recent != [] {
      if recent[0].key != key {
        RecallOneMore(recent[1..], n - 1, ttl, key, now);
      }
    }
  }

  lemma {:induction false} WithoutHead(recent: seq<Stored>, gone: Key)
    requires Ordered(recent) && recent != []
    ensures Filter(recent, Other(gone)) ==
      if recent[0].key == gone then recent[1..] else [recent[0]] + Filter(recent[1..], Other(gone))
  {
    var rest := recent[1..];
    assert recent == [recent[0]] + rest;
    FilterConcat([recent[0]], rest, Other(gone));
    if recent[0].key == gone {
      forall s | s in rest ensures Other(gone)(s) {
        var i :| 0 <= i < |rest| && rest[i] == s;
        assert recent[i + 1] == s;
      }
      FilterAll(rest, Other(gone));
    }
  }

  lemma {:induction false} RecallCons(head: Stored, rest: seq<Stored>, n: nat, ttl: real, key: Key, now: real)
    requires n > 0
    ensures Recall([head] + rest, n, ttl, key, now) ==
      if head.key == key then
        if now < head.at + ttl then Some(Entry(head.at + ttl, head.brands)) else None
      else Recall(rest, n - 1, ttl, key, now)
  {
    assert ([head] + rest)[1..] == rest;
  }

  lemma {:induction false} TailOrdered(recent: seq<Stored>)
    requires recent != [] && Ordered(recent)
    ensures Ordered(recent[1..])
  {
  }

  /** Taking a key out of the first `n + 1` places lets everything behind it move up. */
  lemma {:induction false} RecallWithout(recent: seq<Stored>, n: nat, ttl: real, gone: Key, i: nat, key: Key, now: real)
    requires Ordered(recent) && key != gone && i <= n && i < |recent| && recent[i].key == gone
    ensures Recall(Filter(recent, Other(gone)), n, ttl, key, now) == Recall(recent, n + 1, ttl, key, now)
  {
    var head, rest := recent[0], recent[1..];
    WithoutHead(recent, gone);
    assert recent == [head] + rest;
    RecallCons(head, rest, n + 1, ttl, key, now);
    if i == 0 {
      assert head.key == gone;
    } else {
      assert head.key != gone;
      assert Ordered(rest) by {
        TailOrdered(recent);
      }
      RecallCons(head, Filter(rest, Other(gone)), n, ttl, key, now);
      RecallWithout(rest, n - 1, ttl, gone, i - 1, key, now);
    }
  }

  /** Taking out a key that stands behind the first `n` places changes nothing there. */
  lemma {:induction false} RecallWithoutLater(recent: seq<Stored>, n: nat, ttl: real, gone: Key, key: Key, now: real)
    requires Ordered(recent) && key != gone && forall i | 0 <= i < n && i < |recent| :: recent[i].key != gone
    ensures Recall(Filter(recent, Other(gone)), n, ttl, key, now) == Recall(recent, n, ttl, key, now)
  {
    if recent != [] && n > 0 {
      var head, rest := recent[0], recent[1..];
      WithoutHead(recent, gone);
      assert recent == [head] + rest && Ordered(rest);
      RecallCons(head, rest, n, ttl, key, now);
      RecallCons(head, Filter(rest, Other(gone)), n, ttl, key, now);
      RecallWithoutLater(rest, n - 1, ttl, gone, key, now);
    }
  }

  // ------------------------------------------------------------ the dictionary

  function Expired(entries: Dict<Key, Entry>, now: real): set<Key> {
    set k | k in entries.at && entries.at[k].expiresAt <= now
  }

  function Stale(entries: Dict<Key, Entry>, now: real): Key -> bool {
    (k: Key) => k in entries.at && entries.at[k].expiresAt <= now
  }

  lemma {:induction false} StaleKeys(entries: Dict<Key, Entry>, now: real)
    requires entries.Valid()
    ensures Elements(Filter(entries.keys, Stale(entries, now))) == Expired(entries, now)
  {
    FilterMembers(entries.keys, Stale(entries, now));
  }

  lemma {:induction false} WithoutNothing(entries: Dict<Key, Entry>)
    ensures entries.Without({}) == entries
  {
    FilterAll(entries.keys, NotIn({}));
    assert entries.at - {} == entries.at;
  }

  function Swept(entries: Dict<Key, Entry>, now: real): Dict<Key, Entry> {
    entries.Without(Expired(entries, now))
  }

  lemma {:induction false} NothingDeletedYet(before: Dict<Key, Entry>, expired: seq<Key>)
    ensures before.Without(Elements(expired[..0])) == before
  {
    WithoutNothing(before);
    assert Elements(expired[..0]) == {};
  }

  lemma {:induction false} OneMoreDeleted(before: Dict<Key, Entry>, expired: seq<Key>, i: nat)
    requires i < |expired|
    ensures before.Without(Elements(expired[..i])).Without({expired[i]}) == before.Without(Elements(expired[..i + 1]))
  {
    WithoutOneMore(before, Elements(expired[..i]), expired[i]);
    assert Elements(expired[..i + 1]) == Elements(expired[..i]) + {expired[i]};
  }

  lemma {:induction false} AllDeleted(before: Dict<Key, Entry>, expired: seq<Key>, now: real)
    requires before.Valid() && expired == Filter(before.keys, Stale(before, now))
    ensures before.Without(Elements(expired[..|expired|])) == Swept(before, now)
  {
    StaleKeys(before, now);
    assert expired[..|expired|] == expired;
  }

  /** What a sweep leaves: the entries that have not expired, as they were. */
  lemma {:induction false} SweptExactly(entries: Dict<Key, Entry>, now: real)
    ensures var at := Swept(entries, now).at;
      && (forall k :: k in at <==> k in entries.at && now < entries.at[k].expiresAt)
      && forall k | k in at :: at[k] == entries.at[k]
  {
  }

  /** Python's `min`: the first of the keys with the least expiry. */
  function Oldest(keys: seq<Key>, at: map<Key, Entry>): Key
    requires keys != [] && forall i | 0 <= i < |keys| :: keys[i] in at
    ensures Oldest(keys, at) in keys
  {
    var n := |keys| - 1;
    if n == 0 then keys[0] else
      var best := Oldest(keys[..n], at);
      if at[keys[n]].expiresAt < at[best].expiresAt then keys[n] else best
  }

  lemma {:induction false} OldestOfOneMore(keys: seq<Key>, at: map<Key, Entry>, i: nat)
    requires 0 < i < |keys| && forall k | 0 <= k < |keys| :: keys[k] in at
    ensures var best := Oldest(keys[..i], at);
      Oldest(keys[..i + 1], at) == if at[keys[i]].expiresAt < at[best].expiresAt then keys[i] else best
  {
    assert keys[..i + 1][..i] == keys[..i];
  }

  /** Room for `key`: a full dictionary gives up the entry nearest to expiry. */
  function WithRoom(live: Dict<Key, Entry>, maxEntries: nat, key: Key): Dict<Key, Entry>
    requires live.Valid() && 0 < maxEntries
  {
    if |live.keys| >= maxEntries && key !in live.at then live.Without({Oldest(live.keys, live.at)}) else live
  }

  function AfterSet(entries: Dict<Key, Entry>, maxEntries: nat, ttl: real, sweepAt: real, s: Stored): Dict<Key, Entry>
    requires entries.Valid() && 0 < maxEntries
  {
    WithoutValid(entries, Expired(entries, sweepAt));
    WithRoom(Swept(entries, sweepAt), maxEntries, s.key).Put(s.key, Entry(s.at + ttl, s.brands))
  }

  function Visible(at: map<Key, Entry>, key: Key, now: real): Option<Entry> {
    if key in at && now < at[key].expiresAt then Some(at[key]) else None
  }

  ghost predicate Agrees(at: map<Key, Entry>, recent: seq<Stored>, n: nat, ttl: real, now: real) {
    forall k :: Visible(at, k, now) == Recall(recent, n, ttl, k, now)
  }

  lemma {:induction false} AgreesLater(at: map<Key, Entry>, recent: seq<Stored>, n: nat, ttl: real, now: real, later: real)
    requires Agrees(at, recent, n, ttl, now) && now <= later
    ensures Agrees(at, recent, n, ttl, later)
  {
    forall k ensures Visible(at, k, later) == Recall(recent, n, ttl, k, later) {
      RecallLater(recent, n, ttl, k, now, later);
      assert Visible(at, k, now) == Recall(recent, n, ttl, k, now);
    }
  }

  lemma {:induction false} OldestLeast(keys: seq<Key>, at: map<Key, Entry>)
    requires keys != [] && forall i | 0 <= i < |keys| :: keys[i] in at
    ensures forall k | k in keys :: at[Oldest(keys, at)].expiresAt <= at[k].expiresAt
  {
    var n := |keys| - 1;
    if n > 0 {
      OldestLeast(keys[..n], at);
      assert keys == keys[..n] + [keys[n]];
    }
  }

  lemma {:induction false} DistinctCount<T>(s: seq<T>)
    requires NoDup(s)
    ensures |Elements(s)| == |s|
  {
    if s != [] {
      var init, x := s[..|s| - 1], s[|s| - 1];
      DistinctCount(init);
      assert Elements(s) == Elements(init) + {x};
      assert x !in init;
    }
  }

  lemma {:induction false} SubsetOfSameSize<T>(small: set<T>, large: set<T>)
    requires small <= large && |small| >= |large|
    ensures small == large
  {
    if x :| x in large && x !in small {
      var rest := large - {x};
      SubsetCount(small, rest);
    }
  }

  lemma {:induction false} SubsetCount<T>(small: set<T>, large: set<T>)
    requires small <= large
    ensures |small| <= |large|
  {
    var rest := large - small;
    assert large == small + rest;
  }

  function Heads(recent: seq<Stored>, n: nat): seq<Key> {
    seq(if n < |recent| then n else |recent|, i requires 0 <= i < n && i < |recent| => recent[i].key)
  }

  /** A swept dictionary is full exactly when the first `n` keys of the list are all live. */
  lemma {:induction false} FullMeansAllLive(live: Dict<Key, Entry>, recent: seq<Stored>, n: nat, ttl: real, now: real)
    requires live.Valid() && Ordered(recent) && Agrees(live.at, recent, n, ttl, now)
    requires forall k | k in live.at :: now < live.at[k].expiresAt
    ensures |live.keys| <= n
    ensures |live.keys| == n <==> n <= |recent| && forall i | 0 <= i < n :: now < recent[i].at + ttl
    ensures |live.keys| == n ==> forall k | k in live.keys :: k in Heads(recent, n)
  {
    var heads := Heads(recent, n);
    DistinctCount(live.keys);
    DistinctCount(heads);
    var mine, all := Elements(live.keys), Elements(heads);
    forall k | k in live.keys ensures k in heads {
      assert Visible(live.at, k, now) == Recall(recent, n, ttl, k, now);
      var i := RecallFound(recent, n, ttl, k, now);
      assert heads[i] == k;
    }
    assert mine <= all;
    SubsetCount(mine, all);
    if |live.keys| == n {
      SubsetOfSameSize(mine, all);
      forall i | 0 <= i < n ensures now < recent[i].at + ttl {
        assert heads[i] in all;
        assert heads[i] in mine;
        RecallAt(recent, n, ttl, i, now);
        assert Visible(live.at, heads[i], now) == Recall(recent, n, ttl, heads[i], now);
      }
    }
    if n <= |recent| && forall i | 0 <= i < n :: now < recent[i].at + ttl {
      forall k | k in all ensures k in mine {
        var i :| 0 <= i < |heads| && heads[i] == k;
        RecallAt(recent, n, ttl, i, now);
        assert Visible(live.at, k, now) == Recall(recent, n, ttl, k, now);
      }
      SubsetCount(all, mine);
    }
  }

  /** Of the entries that expire first, the one whose key was inserted first goes: exactly when no
      key ahead of it expires at the same moment is it the one at place `i`. */
  lemma {:induction false} VictimAmongTies(keys: seq<Key>, at: map<Key, Entry>, i: nat)
    requires NoDup(keys) && i < |keys| && forall j | 0 <= j < |keys| :: keys[j] in at
    requires forall j | 0 <= j < |keys| :: at[keys[i]].expiresAt <= at[keys[j]].expiresAt
    ensures Oldest(keys, at) == keys[i] <==> forall j | 0 <= j < i :: at[keys[i]].expiresAt < at[keys[j]].expiresAt
  {
    var n := |keys| - 1;
    if n > 0 {
      if i < n {
        VictimAmongTies(keys[..n], at, i);
        OldestLeast(keys[..n], at);
        assert keys[i] in keys[..n];
      } else {
        OldestLeast(keys[..n], at);
        var best := Oldest(keys[..n], at);
        var j :| 0 <= j < n && keys[..n][j] == best;
      }
    }
  }

  /** A full dictionary gives up the least recently set key, exactly if none ahead of it expires with it. */
  lemma {:induction false} VictimIsLast(live: Dict<Key, Entry>, recent: seq<Stored>, n: nat, ttl: real, now: real, j: nat)
    requires live.Valid() && Ordered(recent) && Agrees(live.at, recent, n, ttl, now)
    requires forall k | k in live.at :: now < live.at[k].expiresAt
    requires |live.keys| >= n > 0 && n <= |recent| && j < |live.keys| && live.keys[j] == recent[n - 1].key
    ensures var victim := Oldest(live.keys, live.at);
      && victim in live.at && live.at[victim].expiresAt == recent[n - 1].at + ttl
      && live.at[live.keys[j]].expiresAt == recent[n - 1].at + ttl
      && (victim == recent[n - 1].key <==> forall i | 0 <= i < j :: live.at[live.keys[i]].expiresAt != recent[n - 1].at + ttl)
  {
    var last := recent[n - 1];
    forall i | 0 <= i < |live.keys|
      ensures live.keys[i] in live.at && last.at + ttl <= live.at[live.keys[i]].expiresAt
      ensures live.keys[i] == last.key ==> live.at[live.keys[i]].expiresAt == last.at + ttl
    {
      var k := live.keys[i];
      assert k in live.keys;
      assert Visible(live.at, k, now) == Recall(recent, n, ttl, k, now);
      var p := RecallFound(recent, n, ttl, k, now);
      RecallAt(recent, n, ttl, p, now);
    }
    OldestLeast(live.keys, live.at);
    assert live.keys[j] in live.keys;
    VictimAmongTies(live.keys, live.at, j);
  }

  lemma {:induction false} NothingPushedOut(live: Dict<Key, Entry>, recent: seq<Stored>, n: nat, ttl: real, now: real,
                                            key: Key, k: Key)
    requires live.Valid() && Ordered(recent) && Agrees(live.at, recent, n, ttl, now)
    requires forall k | k in live.at :: now < live.at[k].expiresAt
    requires 0 < n && k != key && !(|live.keys| >= n && key !in live.at)
    ensures Visible(live.at, k, now) == Recall(Filter(recent, Other(key)), n - 1, ttl, k, now)
  {
    FullMeansAllLive(live, recent, n, ttl, now);
    RecallOneMore(recent, n - 1, ttl, k, now);
    assert Visible(live.at, k, now) == Recall(recent, n, ttl, k, now);
    if i :| 0 <= i <= n - 1 && i < |recent| && recent[i].key == key {
      RecallWithout(recent, n - 1, ttl, key, i, k, now);
    } else {
      RecallWithoutLater(recent, n - 1, ttl, key, k, now);
      NewKeyMeansRoom(live, recent, n, ttl, now, key);
    }
  }

  /** A dictionary that has room for a key outside the first `n` forgets the last of them by itself. */
  lemma {:induction false} NewKeyMeansRoom(live: Dict<Key, Entry>, recent: seq<Stored>, n: nat, ttl: real, now: real,
                                           key: Key)
    requires live.Valid() && Ordered(recent) && Agrees(live.at, recent, n, ttl, now)
    requires forall k | k in live.at :: now < live.at[k].expiresAt
    requires 0 < n && !(|live.keys| >= n && key !in live.at)
    requires forall i | 0 <= i < n && i < |recent| :: recent[i].key != key
    ensures n <= |recent| ==>
      recent[n - 1].at + ttl <= now && Recall(recent, n - 1, ttl, recent[n - 1].key, now) == None
  {
    FullMeansAllLive(live, recent, n, ttl, now);
    assert Visible(live.at, key, now) == Recall(recent, n, ttl, key, now);
    NotRecalled(recent, n, ttl, key, now);
    if n <= |recent| {
      LastIsStale(live, recent, n, ttl, now);
      NotBefore(recent, n - 1, ttl, now);
    }
  }

  lemma {:induction false} NotRecalled(recent: seq<Stored>, n: nat, ttl: real, key: Key, now: real)
    requires forall i | 0 <= i < n && i < |recent| :: recent[i].key != key
    ensures Recall(recent, n, ttl, key, now) == None
  {
    if Recall(recent, n, ttl, key, now).Some? {
      var i := RecallFound(recent, n, ttl, key, now);
    }
  }

  /** A new key in a full dictionary: the list forgets the last of its first `n`, and only that. */
  lemma {:induction false} LastPushedOut(live: Dict<Key, Entry>, recent: seq<Stored>, n: nat, ttl: real, now: real,
                                         key: Key, k: Key)
    requires live.Valid() && Ordered(recent) && Agrees(live.at, recent, n, ttl, now)
    requires forall k | k in live.at :: now < live.at[k].expiresAt
    requires 0 < n && k != key && |live.keys| >= n && key !in live.at
    ensures |live.keys| == n <= |recent| && recent[n - 1].key in live.at && recent[n - 1].key != key
    ensures Recall(Filter(recent, Other(key)), n - 1, ttl, k, now)
      == if k == recent[n - 1].key then None else Visible(live.at, k, now)
  {
    FullMeansAllLive(live, recent, n, ttl, now);
    forall i | 0 <= i < n ensures recent[i].key in live.at {
      RecallAt(recent, n, ttl, i, now);
      assert Visible(live.at, recent[i].key, now) == Recall(recent, n, ttl, recent[i].key, now);
    }
    RecallWithoutLater(recent, n - 1, ttl, key, k, now);
    RecallOneMore(recent, n - 1, ttl, k, now);
    NotBefore(recent, n - 1, ttl, now);
    assert Visible(live.at, k, now) == Recall(recent, n, ttl, k, now);
  }

  lemma {:induction false} NotBefore(recent: seq<Stored>, n: nat, ttl: real, now: real)
    requires Ordered(recent) && n < |recent|
    ensures Recall(recent, n, ttl, recent[n].key, now) == None
  {
    NotRecalled(recent, n, ttl, recent[n].key, now);
  }

  lemma {:induction false} LastIsStale(live: Dict<Key, Entry>, recent: seq<Stored>, n: nat, ttl: real, now: real)
    requires live.Valid() && Ordered(recent) && Agrees(live.at, recent, n, ttl, now)
    requires forall k | k in live.at :: now < live.at[k].expiresAt
    requires 0 < n <= |recent| && |live.keys| < n
    ensures recent[n - 1].at + ttl <= now
  {
    FullMeansAllLive(live, recent, n, ttl, now);
    var i :| 0 <= i < n && recent[i].at + ttl <= now;
    assert i < n - 1 ==> recent[n - 1].at <= recent[i].at;
  }

  lemma {:induction false} SweptAgrees(entries: Dict<Key, Entry>, recent: seq<Stored>, n: nat, ttl: real, now: real)
    requires entries.Valid() && Agrees(entries.at, recent, n, ttl, now)
    ensures Swept(entries, now).Valid() && Agrees(Swept(entries, now).at, recent, n, ttl, now)
    ensures forall k | k in Swept(entries, now).at :: now < Swept(entries, now).at[k].expiresAt
  {
    WithoutValid(entries, Expired(entries, now));
    var live := Swept(entries, now);
    forall k ensures Visible(live.at, k, now) == Recall(recent, n, ttl, k, now) {
      assert Visible(entries.at, k, now) == Recall(recent, n, ttl, k, now);
    }
  }

  /** A full dictionary, a new key, and a key ahead of the least recently set one that expires with it,
      while both are still live. */
  ghost predicate Tied(live: Dict<Key, Entry>, recent: seq<Stored>, n: nat, s: Stored)
    requires live.Valid() && 0 < n
  {
    && |live.keys| >= n && s.key !in live.at && n <= |recent|
    && exists i, j :: 0 <= i < j < |live.keys| && live.keys[j] == recent[n - 1].key
         && SameExpiry(live, live.keys[i], live.keys[j]) && s.at < live.at[live.keys[j]].expiresAt
  }

  ghost predicate SameExpiry(live: Dict<Key, Entry>, k: Key, l: Key)
    requires k in live.at && l in live.at
  {
    live.at[k].expiresAt == live.at[l].expiresAt
  }

  lemma {:induction false} AgreesWithRoom(live: Dict<Key, Entry>, recent: seq<Stored>, n: nat, ttl: real, sweepAt: real,
                                          s: Stored)
    requires live.Valid() && 0 < n && sweepAt <= s.at
    requires Ordered(recent) && Agrees(live.at, recent, n, ttl, sweepAt)
    requires forall k | k in live.at :: sweepAt < live.at[k].expiresAt
    requires !(|live.keys| >= n && s.key !in live.at)
    ensures Agrees(WithRoom(live, n, s.key).Put(s.key, Entry(s.at + ttl, s.brands)).at,
                   [s] + Filter(recent, Other(s.key)), n, ttl, s.at)
  {
    var kept := Filter(recent, Other(s.key));
    var after := live.Put(s.key, Entry(s.at + ttl, s.brands)).at;
    forall k ensures Visible(after, k, s.at) == Recall([s] + kept, n, ttl, k, s.at) {
      assert ([s] + kept)[1..] == kept;
      if k != s.key {
        NothingPushedOut(live, recent, n, ttl, sweepAt, s.key, k);
        RecallLater(kept, n - 1, ttl, k, sweepAt, s.at);
      }
    }
  }

  lemma {:induction false} LastIsThere(live: Dict<Key, Entry>, recent: seq<Stored>, n: nat, ttl: real, now: real)
    requires live.Valid() && Ordered(recent) && Agrees(live.at, recent, n, ttl, now)
    requires forall k | k in live.at :: now < live.at[k].expiresAt
    requires |live.keys| >= n > 0
    ensures n <= |recent| && recent[n - 1].key in live.at
  {
    FullMeansAllLive(live, recent, n, ttl, now);
    RecallAt(recent, n, ttl, n - 1, now);
    assert Visible(live.at, recent[n - 1].key, now) == Recall(recent, n, ttl, recent[n - 1].key, now);
  }

  /** What the list recalls of another key once a new one is in front. */
  lemma {:induction false} FullRecalls(live: Dict<Key, Entry>, recent: seq<Stored>, n: nat, ttl: real, sweepAt: real,
                                       s: Stored, k: Key)
    requires live.Valid() && 0 < n && sweepAt <= s.at && k != s.key
    requires Ordered(recent) && Agrees(live.at, recent, n, ttl, sweepAt)
    requires forall k | k in live.at :: sweepAt < live.at[k].expiresAt
    requires |live.keys| >= n && s.key !in live.at
    ensures n <= |recent|
    ensures Recall([s] + Filter(recent, Other(s.key)), n, ttl, k, s.at) ==
      if k == recent[n - 1].key then None else Visible(live.at, k, s.at)
  {
    var kept := Filter(recent, Other(s.key));
    assert ([s] + kept)[1..] == kept;
    LastPushedOut(live, recent, n, ttl, sweepAt, s.key, k);
    RecallLater(kept, n - 1, ttl, k, sweepAt, s.at);
  }

  lemma {:induction false} NewKeyRecalled(recent: seq<Stored>, n: nat, ttl: real, s: Stored)
    requires 0 < n
    ensures Recall([s] + recent, n, ttl, s.key, s.at)
      == if s.at < s.at + ttl then Some(Entry(s.at + ttl, s.brands)) else None
  {
  }

  /** What the dictionary shows once one key has made way for another. */
  lemma {:induction false} FullShows(live: Dict<Key, Entry>, ttl: real, s: Stored, victim: Key, k: Key)
    requires s.key !in live.at
    ensures var after := live.Without({victim}).Put(s.key, Entry(s.at + ttl, s.brands)).at;
      Visible(after, k, s.at) ==
        if k == s.key then (if s.at < s.at + ttl then Some(Entry(s.at + ttl, s.brands)) else None)
        else if k == victim then None
        else Visible(live.at, k, s.at)
  {
  }

  lemma {:induction false} AgreesIfLastGoes(live: Dict<Key, Entry>, recent: seq<Stored>, n: nat, ttl: real,
                                            sweepAt: real, s: Stored, victim: Key)
    requires live.Valid() && 0 < n && sweepAt <= s.at
    requires Ordered(recent) && Agrees(live.at, recent, n, ttl, sweepAt)
    requires forall k | k in live.at :: sweepAt < live.at[k].expiresAt
    requires |live.keys| >= n && s.key !in live.at && victim in live.at && n <= |recent| && recent[n - 1].key in live.at
    requires victim == recent[n - 1].key || (SameExpiry(live, victim, recent[n - 1].key) && live.at[victim].expiresAt <= s.at)
    ensures Agrees(live.Without({victim}).Put(s.key, Entry(s.at + ttl, s.brands)).at,
                   [s] + Filter(recent, Other(s.key)), n, ttl, s.at)
  {
    var after := live.Without({victim}).Put(s.key, Entry(s.at + ttl, s.brands)).at;
    var recent' := [s] + Filter(recent, Other(s.key));
    forall k ensures Visible(after, k, s.at) == Recall(recent', n, ttl, k, s.at) {
      FullShows(live, ttl, s, victim, k);
      if k == s.key {
        NewKeyRecalled(Filter(recent, Other(s.key)), n, ttl, s);
      } else {
        FullRecalls(live, recent, n, ttl, sweepAt, s, k);
      }
    }
  }

  lemma {:induction false} DisagreesIfAnotherGoes(live: Dict<Key, Entry>, recent: seq<Stored>, n: nat, ttl: real,
                                                  sweepAt: real, s: Stored, victim: Key)
    requires live.Valid() && 0 < n && sweepAt <= s.at
    requires Ordered(recent) && Agrees(live.at, recent, n, ttl, sweepAt)
    requires forall k | k in live.at :: sweepAt < live.at[k].expiresAt
    requires |live.keys| >= n && s.key !in live.at && victim in live.at && n <= |recent| && recent[n - 1].key in live.at
    requires victim != recent[n - 1].key && s.at < live.at[recent[n - 1].key].expiresAt
    ensures !Agrees(live.Without({victim}).Put(s.key, Entry(s.at + ttl, s.brands)).at,
                    [s] + Filter(recent, Other(s.key)), n, ttl, s.at)
  {
    var last := recent[n - 1].key;
    var after := live.Without({victim}).Put(s.key, Entry(s.at + ttl, s.brands)).at;
    FullShows(live, ttl, s, victim, last);
    FullRecalls(live, recent, n, ttl, sweepAt, s, last);
    assert Visible(after, last, s.at) != Recall([s] + Filter(recent, Other(s.key)), n, ttl, last, s.at);
  }

  lemma {:induction false} AgreesExactlyUntied(live: Dict<Key, Entry>, recent: seq<Stored>, n: nat, ttl: real,
                                               sweepAt: real, s: Stored)
    requires live.Valid() && 0 < n && sweepAt <= s.at
    requires Ordered(recent) && Agrees(live.at, recent, n, ttl, sweepAt)
    requires forall k | k in live.at :: sweepAt < live.at[k].expiresAt
    requires |live.keys| >= n && s.key !in live.at
    ensures var after := WithRoom(live, n, s.key).Put(s.key, Entry(s.at + ttl, s.brands)).at;
      Agrees(after, [s] + Filter(recent, Other(s.key)), n, ttl, s.at) <==> !Tied(live, recent, n, s)
  {
    LastIsThere(live, recent, n, ttl, sweepAt);
    var victim, last := Oldest(live.keys, live.at), recent[n - 1].key;
    var j :| 0 <= j < |live.keys| && live.keys[j] == last;
    VictimIsLast(live, recent, n, ttl, sweepAt, j);
    if victim == last || live.at[last].expiresAt <= s.at {
      AgreesIfLastGoes(live, recent, n, ttl, sweepAt, s, victim);
      OnlyOnePlace(live, j);
    } else {
      DisagreesIfAnotherGoes(live, recent, n, ttl, sweepAt, s, victim);
      var i :| 0 <= i < j && live.at[live.keys[i]].expiresAt == recent[n - 1].at + ttl;
      assert SameExpiry(live, live.keys[i], live.keys[j]);
    }
  }

  lemma {:induction false} OnlyOnePlace(live: Dict<Key, Entry>, j: nat)
    requires live.Valid() && j < |live.keys|
    ensures forall i | 0 <= i < |live.keys| && live.keys[i] == live.keys[j] :: i == j
  {
  }

  /** One `set` keeps the dictionary in step with the list, whatever the readings of a monotone clock, exactly
      unless the dictionary is full, the key is new, and a key inserted before the least recently set one
      expires together with it and not yet. */
  lemma {:induction false} SetAgreesExactlyUntied(entries: Dict<Key, Entry>, history: seq<Stored>, n: nat, ttl: real,
                                                  sweepAt: real, s: Stored)
    requires entries.Valid() && 0 < n && sweepAt <= s.at
    requires Ordered(Recency(history)) && Agrees(entries.at, Recency(history), n, ttl, sweepAt)
    ensures Swept(entries, sweepAt).Valid()
    ensures Agrees(AfterSet(entries, n, ttl, sweepAt, s).at, Recency(history + [s]), n, ttl, s.at)
      <==> !Tied(Swept(entries, sweepAt), Recency(history), n, s)
  {
    var recent, live := Recency(history), Swept(entries, sweepAt);
    SweptAgrees(entries, recent, n, ttl, sweepAt);
    RecencySnoc(history, s);
    assert AfterSet(entries, n, ttl, sweepAt, s) == WithRoom(live, n, s.key).Put(s.key, Entry(s.at + ttl, s.brands));
    if |live.keys| >= n && s.key !in live.at {
      AgreesExactlyUntied(live, recent, n, ttl, sweepAt, s);
    } else {
      AgreesWithRoom(live, recent, n, ttl, sweepAt, s);
    }
  }

  /** A clock that never reads the same twice leaves no ties. */
  lemma {:induction false} NewReadingsNeverTie(live: Dict<Key, Entry>, recent: seq<Stored>, n: nat, ttl: real, now: real,
                                               s: Stored)
    requires live.Valid() && 0 < n && Ordered(recent) && Agrees(live.at, recent, n, ttl, now)
    requires forall k | k in live.at :: now < live.at[k].expiresAt
    requires forall i, j | 0 <= i < j < |recent| :: recent[i].at != recent[j].at
    ensures !Tied(live, recent, n, s)
  {
    if |live.keys| >= n && s.key !in live.at && n <= |recent| {
      forall i, j | 0 <= i < j < |live.keys| && live.keys[j] == recent[n - 1].key
        ensures !SameExpiry(live, live.keys[i], live.keys[j])
      {
        assert live.keys[i] in live.keys && live.keys[j] in live.keys;
        assert Visible(live.at, live.keys[i], now) == Recall(recent, n, ttl, live.keys[i], now);
        assert Visible(live.at, live.keys[j], now) == Recall(recent, n, ttl, live.keys[j], now);
        var p := RecallFound(recent, n, ttl, live.keys[i], now);
        RecallAt(recent, n, ttl, p, now);
        RecallAt(recent, n, ttl, n - 1, now);
      }
    }
  }

  // ---------------------------------------------------- what ties cannot break

  /** Whatever is visible is the last thing stored under its key: the cache forgets, it never misremembers. */
  ghost predicate Sound(at: map<Key, Entry>, recent: seq<Stored>, ttl: real, now: real) {
    forall k :: Visible(at, k, now).Some? ==> Visible(at, k, now) == Recall(recent, |recent|, ttl, k, now)
  }

  lemma {:induction false} SoundLater(at: map<Key, Entry>, recent: seq<Stored>, ttl: real, now: real, later: real)
    requires Sound(at, recent, ttl, now) && now <= later
    ensures Sound(at, recent, ttl, later)
  {
    forall k ensures Visible(at, k, later).Some? ==> Visible(at, k, later) == Recall(recent, |recent|, ttl, k, later) {
      RecallLater(recent, |recent|, ttl, k, now, later);
      assert Visible(at, k, now).Some? ==> Visible(at, k, now) == Recall(recent, |recent|, ttl, k, now);
    }
  }

  lemma {:induction false} RecallAll(recent: seq<Stored>, n: nat, ttl: real, key: Key, now: real)
    requires n >= |recent|
    ensures Recall(recent, n, ttl, key, now) == Recall(recent, |recent|, ttl, key, now)
  {
    if recent != [] && recent[0].key != key {
      RecallAll(recent[1..], n - 1, ttl, key, now);
    }
  }

  lemma {:induction false} RecallOfOthers(recent: seq<Stored>, ttl: real, s: Stored, key: Key, now: real)
    requires Ordered(recent) && key != s.key
    ensures var recent' := [s] + Filter(recent, Other(s.key));
      Recall(recent', |recent'|, ttl, key, now) == Recall(recent, |recent|, ttl, key, now)
  {
    var kept, n := Filter(recent, Other(s.key)), |recent|;
    FilterMembers(recent, Other(s.key));
    assert ([s] + kept)[1..] == kept;
    RecallAll(kept, n, ttl, key, now);
    if i :| 0 <= i < n && recent[i].key == s.key {
      RecallWithout(recent, n, ttl, s.key, i, key, now);
      RecallAll(recent, n + 1, ttl, key, now);
    } else {
      RecallWithoutLater(recent, n, ttl, s.key, key, now);
    }
  }

  lemma {:induction false} SetSound(entries: Dict<Key, Entry>, history: seq<Stored>, n: nat, ttl: real, sweepAt: real,
                                    s: Stored)
    requires entries.Valid() && 0 < n && Ordered(Recency(history)) && Sound(entries.at, Recency(history), ttl, s.at)
    ensures Sound(AfterSet(entries, n, ttl, sweepAt, s).at, Recency(history + [s]), ttl, s.at)
  {
    var recent := Recency(history);
    var after := AfterSet(entries, n, ttl, sweepAt, s);
    WithoutValid(entries, Expired(entries, sweepAt));
    RecencySnoc(history, s);
    var recent' := [s] + Filter(recent, Other(s.key));
    forall k ensures Visible(after.at, k, s.at).Some? ==> Visible(after.at, k, s.at) == Recall(recent', |recent'|, ttl, k, s.at)
    {
      if k != s.key {
        RecallOfOthers(recent, ttl, s, k, s.at);
        assert Visible(after.at, k, s.at).Some? ==> Visible(after.at, k, s.at) == Visible(entries.at, k, s.at);
      }
    }
  }

  lemma {:induction false} RecencyFromHistory(history: seq<Stored>)
    ensures forall s | s in Recency(history) :: s in history
  {
    if history != [] {
      var init, last := history[..|history| - 1], history[|history| - 1];
      RecencyFromHistory(init);
      FilterMembers(Recency(init), Other(last.key));
      assert history == init + [last];
    }
  }

  lemma {:induction false} OrderedBehind(last: Stored, rest: seq<Stored>)
    requires Ordered(rest) && forall s | s in rest :: s.key != last.key && s.at <= last.at
    ensures Ordered([last] + rest)
  {
    assert forall j | 0 <= j < |rest| :: rest[j] in rest;
  }

  lemma {:induction false} RecencyOrdered(history: seq<Stored>)
    requires Monotone(history)
    ensures Ordered(Recency(history))
  {
    if history != [] {
      var init, last := history[..|history| - 1], history[|history| - 1];
      RecencyOrdered(init);
      RecencyFromHistory(init);
      FilterOrdered(Recency(init), Other(last.key));
      FilterMembers(Recency(init), Other(last.key));
      forall s | s in init ensures s.at <= last.at {
        var i :| 0 <= i < |init| && init[i] == s;
        assert history[i] == s;
      }
      OrderedBehind(last, Filter(Recency(init), Other(last.key)));
    }
  }

  // --------------------------------------------- what is remembered, told from the history

  /** Nothing has been set under this key since. */
  ghost predicate LastSet(history: seq<Stored>, i: nat) {
    i < |history| && forall j | i < j < |history| :: history[j].key != history[i].key
  }

  function KeysOf(sets: seq<Stored>): set<Key> {
    set i | 0 <= i < |sets| :: sets[i].key
  }

  lemma {:induction false} KeysSplit(a: seq<Stored>, b: seq<Stored>)
    ensures KeysOf(a + b) == KeysOf(a) + KeysOf(b)
  {
    forall k | k in KeysOf(b) ensures k in KeysOf(a + b) {
      var i :| 0 <= i < |b| && b[i].key == k;
      assert (a + b)[|a| + i].key == k;
    }
    forall k | k in KeysOf(a) ensures k in KeysOf(a + b) {
      var i :| 0 <= i < |a| && a[i].key == k;
      assert (a + b)[i].key == k;
    }
  }

  lemma {:induction false} KeysOfOne(s: Stored)
    ensures KeysOf([s]) == {s.key}
  {
    assert [s][0] == s;
  }

  lemma {:induction false} KeysFiltered(sets: seq<Stored>, gone: Key)
    ensures KeysOf(Filter(sets, Other(gone))) == KeysOf(sets) - {gone}
  {
    var kept := Filter(sets, Other(gone));
    FilterMembers(sets, Other(gone));
    forall k ensures k in KeysOf(kept) <==> k in KeysOf(sets) && k != gone {
      if k in KeysOf(kept) {
        var i :| 0 <= i < |kept| && kept[i].key == k;
        assert kept[i] in kept;
      }
      if k in KeysOf(sets) && k != gone {
        var i :| 0 <= i < |sets| && sets[i].key == k;
        assert sets[i] in kept;
      }
    }
  }

  /** Behind one more set, and without what its key held. */
  lemma {:induction false} PlaceBehind(recent: seq<Stored>, p: nat, s: Stored) returns (q: nat)
    requires p < |recent| && recent[p].key != s.key
    ensures var after := [s] + Filter(recent, Other(s.key));
      q < |after| && after[q] == recent[p] && KeysOf(after[..q]) == KeysOf(recent[..p]) + {s.key}
  {
    var ahead, behind := Filter(recent[..p], Other(s.key)), Filter(recent[p + 1..], Other(s.key));
    var after := [s] + Filter(recent, Other(s.key));
    assert recent == recent[..p] + ([recent[p]] + recent[p + 1..]);
    FilterConcat(recent[..p], [recent[p]] + recent[p + 1..], Other(s.key));
    FilterConcat([recent[p]], recent[p + 1..], Other(s.key));
    FilterAll([recent[p]], Other(s.key));
    assert after == [s] + ahead + [recent[p]] + behind;
    q := 1 + |ahead|;
    assert after[..q] == [s] + ahead;
    KeysSplit([s], ahead);
    KeysOfOne(s);
    KeysFiltered(recent[..p], s.key);
  }

  /** The last set of a key stands behind exactly the keys set since. */
  lemma {:induction false} PlaceOfLast(history: seq<Stored>, i: nat) returns (p: nat)
    requires LastSet(history, i)
    ensures p < |Recency(history)| && Recency(history)[p] == history[i]
    ensures KeysOf(Recency(history)[..p]) == KeysOf(history[i + 1..])
  {
    var n := |history| - 1;
    var init, last := history[..n], history[n];
    if i == n {
      p := 0;
    } else {
      var before := PlaceOfLast(init, i);
      p := PlaceBehind(Recency(init), before, last);
      assert history[i + 1..] == init[i + 1..] + [last];
      KeysSplit(init[i + 1..], [last]);
    }
  }

  lemma {:induction false} CountKeys(recent: seq<Stored>, p: nat)
    requires Ordered(recent) && p <= |recent|
    ensures |KeysOf(recent[..p])| == p
  {
    if p > 0 {
      CountKeys(recent, p - 1);
      assert recent[..p] == recent[..p - 1] + [recent[p - 1]];
      KeysSplit(recent[..p - 1], [recent[p - 1]]);
      KeysOfOne(recent[p - 1]);
    }
  }

  /** What a cache of `n` should know of a key: what was last set under it, if that has not expired and fewer than `n`
      other keys have been set since. */
  lemma {:induction false} RecalledExactlyWhen(history: seq<Stored>, i: nat, n: nat, ttl: real, now: real)
    requires Monotone(history) && LastSet(history, i)
    ensures Recall(Recency(history), n, ttl, history[i].key, now) ==
      if |KeysOf(history[i + 1..])| < n && now < history[i].at + ttl
      then Some(Entry(history[i].at + ttl, history[i].brands)) else None
  {
    var recent := Recency(history);
    RecencyOrdered(history);
    var p := PlaceOfLast(history, i);
    CountKeys(recent, p);
    if p < n {
      RecallAt(recent, n, ttl, p, now);
    } else {
      NotRecalled(recent, n, ttl, history[i].key, now);
    }
  }

  /** Nothing is known of a key that was never set. */
  lemma {:induction false} NeverSetNeverRecalled(history: seq<Stored>, n: nat, ttl: real, key: Key, now: real)
    requires key !in KeysOf(history)
    ensures Recall(Recency(history), n, ttl, key, now) == None
  {
    RecencyFromHistory(history);
    forall q | 0 <= q < |Recency(history)| ensures Recency(history)[q].key != key {
      assert Recency(history)[q] in Recency(history);
    }
    NotRecalled(Recency(history), n, ttl, key, now);
  }

  /** An answer that was last set under the key, and has not expired. */
  ghost predicate Known(history: seq<Stored>, ttl: real, key: Key, now: real, brands: Option<set<string>>) {
    brands.Some? ==>
      exists i: nat :: LastSet(history, i) && history[i].key == key
        && brands.value == history[i].brands && now < history[i].at + ttl
  }

  /** The answer of a cache of `n` that forgets nothing it has room for. */
  ghost predicate Kept(history: seq<Stored>, n: nat, ttl: real, key: Key, now: real, brands: Option<set<string>>) {
    brands.Some? <==>
      exists i: nat :: LastSet(history, i) && history[i].key == key
        && now < history[i].at + ttl && |KeysOf(history[i + 1..])| < n
  }

  lemma {:induction false} SetHasLast(history: seq<Stored>, key: Key) returns (i: nat)
    requires key in KeysOf(history)
    ensures LastSet(history, i) && history[i].key == key
  {
    var n := |history| - 1;
    if history[n].key == key {
      i := n;
    } else {
      assert history == history[..n] + [history[n]];
      KeysSplit(history[..n], [history[n]]);
      KeysOfOne(history[n]);
      i := SetHasLast(history[..n], key);
    }
  }

  lemma {:induction false} AnswerKnown(history: seq<Stored>, n: nat, ttl: real, key: Key, now: real,
                                       brands: Option<set<string>>)
    requires Monotone(history)
    ensures var stored := Recall(Recency(history), |Recency(history)|, ttl, key, now);
      (brands.Some? ==> stored.Some? && brands.value == stored.value.brands) ==> Known(history, ttl, key, now, brands)
    ensures var remembered := Recall(Recency(history), n, ttl, key, now);
      (brands == if remembered.Some? then Some(remembered.value.brands) else None) ==>
        Kept(history, n, ttl, key, now, brands)
  {
    if key in KeysOf(history) {
      var i := SetHasLast(history, key);
      RecalledExactlyWhen(history, i, n, ttl, now);
      RecalledExactlyWhen(history, i, |Recency(history)|, ttl, now);
      forall j: nat | LastSet(history, j) && history[j].key == key ensures j == i {
      }
    } else {
      NeverSetNeverRecalled(history, n, ttl, key, now);
      NeverSetNeverRecalled(history, |Recency(history)|, ttl, key, now);
    }
  }

  /** Deleting a key that is there makes room for one. */
  lemma {:induction false} OneFewer(live: Dict<Key, Entry>, victim: Key)
    requires live.Valid() && victim in live.keys
    ensures live.Without({victim}).Valid() && |live.Without({victim}).keys| < |live.keys|
  {
    var room := live.Without({victim});
    WithoutValid(live, {victim});
    FilterMembers(live.keys, NotIn({victim}));
    DistinctCount(live.keys);
    DistinctCount(room.keys);
    assert victim !in room.keys;
    SubsetCount(Elements(room.keys) + {victim}, Elements(live.keys));
  }

  lemma {:induction false} RoomSize(live: Dict<Key, Entry>, n: nat, key: Key)
    requires live.Valid() && 0 < n && |live.keys| <= n
    ensures var room := WithRoom(live, n, key); room.Valid() && (|room.keys| < n || (|room.keys| == n && key in room.at))
  {
    if |live.keys| >= n && key !in live.at {
      OneFewer(live, Oldest(live.keys, live.at));
    }
  }

  lemma {:induction false} SetSize(entries: Dict<Key, Entry>, n: nat, ttl: real, sweepAt: real, s: Stored)
    requires entries.Valid() && 0 < n && |entries.keys| <= n
    ensures var after := AfterSet(entries, n, ttl, sweepAt, s); after.Valid() && |after.keys| <= n
  {
    var live := Swept(entries, sweepAt);
    WithoutValid(entries, Expired(entries, sweepAt));
    FilterMembers(entries.keys, NotIn(Expired(entries, sweepAt)));
    RoomSize(live, n, s.key);
    WithRoom(live, n, s.key).PutValid(s.key, Entry(s.at + ttl, s.brands));
  }

  // ------------------------------------------------------- clock readings that tie

  lemma {:induction false} RecencySnoc(history: seq<Stored>, s: Stored)
    ensures Recency(history + [s]) == [s] + Filter(Recency(history), Other(s.key))
  {
    assert (history + [s])[..|history|] == history;
  }

  lemma {:induction false} FilterPair(x: Stored, y: Stored, p: Stored -> bool)
    ensures Filter([x, y], p) == (if p(x) then [x] else []) + (if p(y) then [y] else [])
  {
    assert [x, y] == [x] + [y];
    FilterSnoc([x], y, p);
    FilterSnoc([], x, p);
    assert [] + [x] == [x];
  }

  function Remembered(s: Stored, ttl: real, now: real): Option<Entry> {
    if now < s.at + ttl then Some(Entry(s.at + ttl, s.brands)) else None
  }

  lemma {:induction false} RecallPair(recent: seq<Stored>, ttl: real, key: Key, now: real)
    requires |recent| >= 2
    ensures Recall(recent, 2, ttl, key, now) ==
      if recent[0].key == key then Remembered(recent[0], ttl, now)
      else if recent[1].key == key then Remembered(recent[1], ttl, now) else None
  {
    var rest := recent[1..];
    assert rest[0] == recent[1] && Recall(rest[1..], 0, ttl, key, now) == None;
    assert Recall(rest, 1, ttl, key, now) == if rest[0].key == key then Remembered(rest[0], ttl, now) else None;
  }

  lemma {:induction false} TiedRecencyOfThree(s: Stored, t: Stored)
    requires s.key != t.key
    ensures Recency([s, t, s]) == [s, t]
  {
    assert [] + [s] == [s] && [s] + [t] == [s, t] && [s, t] + [s] == [s, t, s];
    RecencySnoc([], s);
    RecencySnoc([s], t);
    FilterSnoc([], s, Other(t.key));
    assert Recency([s, t]) == [t, s];
    RecencySnoc([s, t], s);
    FilterPair(t, s, Other(s.key));
  }

  lemma {:induction false} NothingSwept(entries: Dict<Key, Entry>, now: real)
    requires entries.Valid() && forall k | k in entries.at :: now < entries.at[k].expiresAt
    ensures Swept(entries, now) == entries
  {
    assert Expired(entries, now) == {};
    WithoutNothing(entries);
  }

  /** A key there is room for, or that is there, is just put in while nothing has expired. */
  lemma {:induction false} PlainlyPut(entries: Dict<Key, Entry>, n: nat, ttl: real, s: Stored)
    requires entries.Valid() && 0 < n && (|entries.keys| < n || s.key in entries.at)
    requires forall k | k in entries.at :: s.at < entries.at[k].expiresAt
    ensures AfterSet(entries, n, ttl, s.at, s) == entries.Put(s.key, Entry(s.at + ttl, s.brands))
  {
    NothingSwept(entries, s.at);
  }

  /** One key stored, and a second one after it. */
  function One(s: Stored, ttl: real): Dict<Key, Entry> {
    Dict([s.key], map[s.key := Entry(s.at + ttl, s.brands)])
  }

  function Two(s: Stored, t: Stored, ttl: real): Dict<Key, Entry> {
    Dict([s.key, t.key], map[s.key := Entry(s.at + ttl, s.brands), t.key := Entry(t.at + ttl, t.brands)])
  }

  lemma {:induction false} FirstSet(none: Dict<Key, Entry>, s: Stored, ttl: real)
    requires none.keys == [] && none.at == map[]
    ensures none.Valid() && One(s, ttl).Valid() && AfterSet(none, 2, ttl, s.at, s) == One(s, ttl)
  {
    PlainlyPut(none, 2, ttl, s);
    assert none.at[s.key := Entry(s.at + ttl, s.brands)] == One(s, ttl).at;
  }

  lemma {:induction false} PutSecond(s: Stored, t: Stored, ttl: real)
    requires s.key != t.key
    ensures One(s, ttl).Valid() && Two(s, t, ttl).Valid()
    ensures One(s, ttl).Put(t.key, Entry(t.at + ttl, t.brands)) == Two(s, t, ttl)
  {
    var x, y := Entry(s.at + ttl, s.brands), Entry(t.at + ttl, t.brands);
    assert map[s.key := x][t.key := y] == map[s.key := x, t.key := y];
    assert [s.key] + [t.key] == [s.key, t.key];
  }

  lemma {:induction false} SecondSet(one: Dict<Key, Entry>, s: Stored, t: Stored, ttl: real)
    requires one == One(s, ttl) && s.key != t.key && s.at == t.at && 0.0 < ttl
    ensures one.Valid() && AfterSet(one, 2, ttl, t.at, t) == Two(s, t, ttl)
  {
    PutSecond(s, t, ttl);
    assert one.at[s.key].expiresAt == s.at + ttl;
    PlainlyPut(one, 2, ttl, t);
  }

  /** Storing the first key again leaves it where it was. */
  lemma {:induction false} FirstSetAgain(two: Dict<Key, Entry>, s: Stored, t: Stored, ttl: real)
    requires two == Two(s, t, ttl) && s.key != t.key && s.at == t.at && 0.0 < ttl
    ensures two.Valid() && AfterSet(two, 2, ttl, s.at, s) == two
  {
    PlainlyPut(two, 2, ttl, s);
    assert two.at[s.key := Entry(s.at + ttl, s.brands)] == two.at;
  }

  lemma {:induction false} TwoAgree(two: Dict<Key, Entry>, s: Stored, t: Stored, ttl: real, recent: seq<Stored>)
    requires two == Two(s, t, ttl) && s.key != t.key && s.at == t.at && recent == [s, t]
    ensures Agrees(two.at, recent, 2, ttl, s.at)
  {
    forall k ensures Visible(two.at, k, s.at) == Recall(recent, 2, ttl, k, s.at) {
      RecallPair(recent, ttl, k, s.at);
    }
  }

  lemma {:induction false} TwoAreTied(two: Dict<Key, Entry>, s: Stored, t: Stored, u: Stored, ttl: real, recent: seq<Stored>)
    requires two == Two(s, t, ttl) && recent == [s, t] && two.Valid()
    requires s.key != t.key && t.key != u.key && s.key != u.key && s.at == t.at == u.at && 0.0 < ttl
    ensures Swept(two, u.at) == two && Tied(two, recent, 2, u)
  {
    NothingSwept(two, u.at);
    assert two.keys[0] == s.key && two.keys[1] == t.key && SameExpiry(two, s.key, t.key);
  }

  /** Equal readings: a key set twice keeps its old place, so it goes before one set earlier. Of four calls on
      an empty cache of two at one reading, the first three keep it in step and the last leaves it out. */
  lemma {:induction false} TiedReadingsForgetTheWrongKey(none: Dict<Key, Entry>, s: Stored, t: Stored, u: Stored, ttl: real)
    requires none == EmptyDict() && 0.0 < ttl
    requires s.key != t.key && t.key != u.key && s.key != u.key && s.at == t.at == u.at
    ensures none.Valid() && One(s, ttl).Valid() && Two(s, t, ttl).Valid()
    ensures AfterSet(none, 2, ttl, s.at, s) == One(s, ttl)
    ensures AfterSet(One(s, ttl), 2, ttl, t.at, t) == Two(s, t, ttl)
    ensures AfterSet(Two(s, t, ttl), 2, ttl, s.at, s) == Two(s, t, ttl)
    ensures Agrees(Two(s, t, ttl).at, Recency([s, t, s]), 2, ttl, s.at)
    ensures !Agrees(AfterSet(Two(s, t, ttl), 2, ttl, u.at, u).at, Recency([s, t, s] + [u]), 2, ttl, u.at)
  {
    FirstSet(none, s, ttl);
    SecondSet(One(s, ttl), s, t, ttl);
    FirstSetAgain(Two(s, t, ttl), s, t, ttl);
    PutSecond(s, t, ttl);
    TiedRecencyOfThree(s, t);
    TwoAgree(Two(s, t, ttl), s, t, ttl, Recency([s, t, s]));
    LastSetBreaks(Two(s, t, ttl), [s, t, s], s, t, u, ttl);
  }

  lemma {:induction false} LastSetBreaks(two: Dict<Key, Entry>, sets: seq<Stored>, s: Stored, t: Stored, u: Stored, ttl: real)
    requires two == Two(s, t, ttl) && two.Valid() && Recency(sets) == [s, t]
    requires s.key != t.key && t.key != u.key && s.key != u.key && s.at == t.at == u.at && 0.0 < ttl
    requires Agrees(two.at, Recency(sets), 2, ttl, u.at)
    ensures !Agrees(AfterSet(two, 2, ttl, u.at, u).at, Recency(sets + [u]), 2, ttl, u.at)
  {
    TwoAreTied(two, s, t, u, ttl, Recency(sets));
    SetAgreesExactlyUntied(two, sets, 2, ttl, u.at, u);
  }

  ghost predicate NoTwoReadingsEqual(history: seq<Stored>) {
    forall i, j | 0 <= i < j < |history| :: history[i].at != history[j].at
  }

  lemma {:induction false} RecencyUnequal(history: seq<Stored>)
    requires NoTwoReadingsEqual(history)
    ensures forall i, j | 0 <= i < j < |Recency(history)| :: Recency(history)[i].at != Recency(history)[j].at
  {
    if history != [] {
      var init, last := history[..|history| - 1], history[|history| - 1];
      RecencyUnequal(init);
      RecencyFromHistory(init);
      FilterUnequal(Recency(init), Other(last.key));
      FilterMembers(Recency(init), Other(last.key));
      var kept := Filter(Recency(init), Other(last.key));
      forall j | 0 <= j < |kept| ensures kept[j].at != last.at {
        assert kept[j] in kept;
        var i :| 0 <= i < |init| && init[i] == kept[j];
        assert history[i] == kept[j];
      }
    }
  }

  lemma {:induction false} FilterUnequal(recent: seq<Stored>, p: Stored -> bool)
    requires forall i, j | 0 <= i < j < |recent| :: recent[i].at != recent[j].at
    ensures forall i, j | 0 <= i < j < |Filter(recent, p)| :: Filter(recent, p)[i].at != Filter(recent, p)[j].at
  {
    if recent != [] {
      var init, x := recent[..|recent| - 1], recent[|recent| - 1];
      FilterUnequal(init, p);
      FilterMembers(init, p);
      forall i | 0 <= i < |Filter(init, p)| ensures Filter(init, p)[i].at != x.at {
        assert Filter(init, p)[i] in Filter(init, p);
        var j :| 0 <= j < |init| && init[j] == Filter(init, p)[i];
        assert recent[j] == init[j];
      }
    }
  }

  lemma {:induction false} UnequalReadingsNeverTie(entries: Dict<Key, Entry>, history: seq<Stored>, n: nat, ttl: real,
                                                   sweepAt: real, s: Stored)
    requires entries.Valid() && 0 < n
    requires Ordered(Recency(history)) && Agrees(entries.at, Recency(history), n, ttl, sweepAt)
    ensures Swept(entries, sweepAt).Valid()
    ensures NoTwoReadingsEqual(history) ==> !Tied(Swept(entries, sweepAt), Recency(history), n, s)
  {
    SweptAgrees(entries, Recency(history), n, ttl, sweepAt);
    if NoTwoReadingsEqual(history) {
      RecencyUnequal(history);
      NewReadingsNeverTie(Swept(entries, sweepAt), Recency(history), n, ttl, sweepAt, s);
    }
  }

  /** Deleting what is expired changes no view. */
  lemma {:induction false} SameView(at: map<Key, Entry>, before: map<Key, Entry>, recent: seq<Stored>, n: nat, ttl: real,
                                    now: real)
    requires forall k :: Visible(at, k, now) == Visible(before, k, now)
    ensures Sound(before, recent, ttl, now) ==> Sound(at, recent, ttl, now)
    ensures Agrees(before, recent, n, ttl, now) ==> Agrees(at, recent, n, ttl, now)
  {
  }

  /** Python's `min` over the dictionary's keys. */
  method NearestToExpiry(keys: seq<Key>, at: map<Key, Entry>) returns (oldest: Key)
    requires keys != [] && forall i | 0 <= i < |keys| :: keys[i] in at
    ensures oldest == Oldest(keys, at)
  {
    oldest := keys[0];
    for i := 1 to |keys|
      invariant oldest == Oldest(keys[..i], at)
    {
      OldestOfOneMore(keys, at, i);
      if at[keys[i]].expiresAt < at[oldest].expiresAt {
        oldest := keys[i];
      }
    }
    assert keys[..|keys|] == keys;
  }

  class BrandPreferenceCache {
    const ttl: real
    const maxEntries: nat
    var entries: Dict<Key, Entry>
    /** Every `set` since the cache was last cleared, and the last clock reading. */
    ghost var history: seq<Stored>
    ghost var clock: real

    ghost predicate Valid()
      reads this
    {
      && 0 < maxEntries
      && entries.Valid()
      && |entries.keys| <= maxEntries
      && Monotone(history)
      && (forall i | 0 <= i < |history| :: history[i].at <= clock)
      && Sound(entries.at, Recency(history), ttl, clock)
    }

    /** The cache answers like the list, for every key. */
    ghost predicate InStep()
      reads this
    {
      Agrees(entries.at, Recency(history), maxEntries, ttl, clock)
    }

    constructor (ttl: real, maxEntries: nat, ghost now: real)
      requires 0 < maxEntries
      ensures Valid() && InStep() && history == [] && clock == now && this.ttl == ttl && this.maxEntries == maxEntries
    {
      this.ttl, this.maxEntries := ttl, maxEntries;
      entries := EmptyDict();
      history, clock := [], now;
    }

    /** An answer is the last set stored under its key, and not expired. In step, it is given exactly if fewer than
        the bound of other keys have been set since: what the recency list remembers, whatever the dictionary was
        left holding. */
    method Get(key: Key, now: real) returns (brands: Option<set<string>>)
      requires Valid() && clock <= now
      modifies this
      ensures Valid() && history == old(history) && clock == now
      ensures Known(history, ttl, key, now, brands)
      ensures old(InStep()) ==> InStep() && Kept(history, maxEntries, ttl, key, now, brands)
      ensures var remembered := Recall(Recency(history), maxEntries, ttl, key, now);
        old(InStep()) ==> brands == if remembered.Some? then Some(remembered.value.brands) else None
    {
      brands := LookUp(key, now);
      AnswerKnown(history, maxEntries, ttl, key, now, brands);
    }

    /** The dictionary's own answer; an expired entry is deleted. */
    method LookUp(key: Key, now: real) returns (brands: Option<set<string>>)
      requires Valid() && clock <= now
      modifies this
      ensures Valid() && history == old(history) && clock == now
      ensures var stored := Recall(Recency(history), |Recency(history)|, ttl, key, now);
        brands.Some? ==> stored.Some? && brands.value == stored.value.brands
      ensures var remembered := Recall(Recency(history), maxEntries, ttl, key, now);
        old(InStep()) ==> InStep() && brands == if remembered.Some? then Some(remembered.value.brands) else None
    {
      clock := now;
      ghost var before, recent := entries.at, Recency(history);
      SoundLater(before, recent, ttl, old(clock), now);
      if old(InStep()) {
        AgreesLater(before, recent, maxEntries, ttl, old(clock), now);
        assert Visible(before, key, now) == Recall(recent, maxEntries, ttl, key, now);
      }
      assert Visible(before, key, now).Some? ==> Visible(before, key, now) == Recall(recent, |recent|, ttl, key, now);
      if key !in entries.at {
        return None;
      }
      var entry := entries.at[key];
      if entry.expiresAt <= now {
        WithoutValid(entries, {key});
        FilterMembers(entries.keys, NotIn({key}));
        entries := entries.Without({key});
        SameView(entries.at, before, recent, maxEntries, ttl, now);
        return None;
      }
      return Some(entry.brands);
    }

    method Sweep(now: real)
      requires entries.Valid()
      modifies this`entries
      ensures entries == Swept(old(entries), now)
    {
      var before := entries;
      var expired := Filter(before.keys, Stale(before, now));
      NothingDeletedYet(before, expired);
      for i := 0 to |expired|
        invariant entries == before.Without(Elements(expired[..i]))
      {
        OneMoreDeleted(before, expired, i);
        entries := entries.Without({expired[i]});
      }
      AllDeleted(before, expired, now);
    }

    lemma {:induction false} SetKeepsStep(sweepAt: real, s: Stored)
      requires Valid() && clock <= sweepAt <= s.at
      ensures var after := AfterSet(entries, maxEntries, ttl, sweepAt, s);
        && after.Valid() && |after.keys| <= maxEntries
        && Monotone(history + [s]) && (forall i | 0 <= i < |history + [s]| :: (history + [s])[i].at <= s.at)
        && Sound(after.at, Recency(history + [s]), ttl, s.at)
        && Swept(entries, sweepAt).Valid()
        && (InStep() ==>
              (Agrees(after.at, Recency(history + [s]), maxEntries, ttl, s.at)
               <==> !Tied(Swept(entries, sweepAt), Recency(history), maxEntries, s)))
        && (InStep() && NoTwoReadingsEqual(history) ==>
              Agrees(after.at, Recency(history + [s]), maxEntries, ttl, s.at))
    {
      RecencyOrdered(history);
      SetSize(entries, maxEntries, ttl, sweepAt, s);
      SoundLater(entries.at, Recency(history), ttl, clock, s.at);
      SetSound(entries, history, maxEntries, ttl, sweepAt, s);
      WithoutValid(entries, Expired(entries, sweepAt));
      if InStep() {
        AgreesLater(entries.at, Recency(history), maxEntries, ttl, clock, sweepAt);
        SetAgreesExactlyUntied(entries, history, maxEntries, ttl, sweepAt, s);
        UnequalReadingsNeverTie(entries, history, maxEntries, ttl, sweepAt, s);
      }
    }

    /** The dictionary's own change; the clock is read once to sweep and once to store. */
    method Store(s: Stored, sweepAt: real)
      requires entries.Valid() && 0 < maxEntries
      modifies this`entries
      ensures entries == AfterSet(old(entries), maxEntries, ttl, sweepAt, s)
    {
      WithoutValid(entries, Expired(entries, sweepAt));
      Sweep(sweepAt);
      if |entries.keys| >= maxEntries && s.key !in entries.at {
        var oldest := NearestToExpiry(entries.keys, entries.at);
        entries := entries.Without({oldest});
      }
      entries := entries.Put(s.key, Entry(s.at + ttl, s.brands));
    }

    /** Any readings of a monotone clock: the cache stays within its bound and true to what was stored. If it
        was in step it stays so exactly unless tied, and it is never tied while no two readings are equal. */
    method Set(key: Key, brands: set<string>, sweepAt: real, storeAt: real)
      requires Valid() && clock <= sweepAt <= storeAt
      modifies this
      ensures Valid() && history == old(history) + [Stored(key, storeAt, brands)] && clock == storeAt
      ensures entries == AfterSet(old(entries), maxEntries, ttl, sweepAt, Stored(key, storeAt, brands))
      ensures Swept(old(entries), sweepAt).Valid()
      ensures old(InStep()) ==>
        (InStep() <==>
         !Tied(Swept(old(entries), sweepAt), Recency(old(history)), maxEntries, Stored(key, storeAt, brands)))
      ensures old(InStep()) && NoTwoReadingsEqual(old(history)) ==> InStep()
    {
      var s := Stored(key, storeAt, brands);
      SetKeepsStep(sweepAt, s);
      Store(s, sweepAt);
      history, clock := history + [s], storeAt;
    }

    method Clear()
      requires Valid()
      modifies this
      ensures Valid() && InStep() && history == [] && clock == old(clock)
    {
      entries := EmptyDict();
      history := [];
    }
  }
}
