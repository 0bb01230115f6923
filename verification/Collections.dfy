/** Sequence vocabulary shared by every module: optional values, filtering,
    first appearances and duplicate-freedom. */
module Collections {

  datatype Option<+T> = None | Some(value: T) {
    function GetOr(default: T): T {
      match this
      case Some(v) => v
      case None => default
    }
  }

  ghost predicate NoDup<T>(s: seq<T>) {
    forall i, j | 0 <= i < j < |s| :: s[i] != s[j]
  }

  /** The distinct elements of `s`, in order of first appearance: the keys of a
      Python dictionary into which `s` was inserted from left to right. */
  function FirstSeen<T(==)>(s: seq<T>): seq<T> {
    if s == [] then [] else
      var prefix := FirstSeen(s[..|s| - 1]);
      var x := s[|s| - 1];
      if x in prefix then prefix else prefix + [x]
  }

  lemma {:induction false} FirstSeenMembers<T(!new)>(s: seq<T>)
    ensures NoDup(FirstSeen(s))
    ensures forall x :: x in FirstSeen(s) <==> x in s
  {
    if s != [] {
      FirstSeenMembers(s[..|s| - 1]);
      assert s == s[..|s| - 1] + [s[|s| - 1]];
    }
  }

  /** Of two first appearances the earlier one comes where the later one has not been seen. */
  lemma {:induction false} FirstSeenInOrder<T(!new)>(s: seq<T>, i: nat, j: nat) returns (p: nat)
    requires i < j < |FirstSeen(s)|
    ensures p < |s| && s[p] == FirstSeen(s)[i] && FirstSeen(s)[j] !in s[..p + 1]
  {
    var n := |s| - 1;
    var before := FirstSeen(s[..n]);
    FirstSeenMembers(s[..n]);
    if j < |before| {
      p := FirstSeenInOrder(s[..n], i, j);
      assert s[..n][..p + 1] == s[..p + 1];
    } else {
      assert before[i] in s[..n];
      p :| 0 <= p < n && s[..n][p] == before[i];
      assert forall k | 0 <= k <= p :: s[k] == s[..n][k] && s[..n][k] in s[..n];
    }
  }

  lemma {:induction false} FirstSeenSnoc<T(!new)>(s: seq<T>, x: T)
    ensures FirstSeen(s + [x]) == if x in s then FirstSeen(s) else FirstSeen(s) + [x]
  {
    assert (s + [x])[..|s|] == s;
    FirstSeenMembers(s);
  }

  lemma {:induction false} FirstSeenFixed<T(!new)>(s: seq<T>)
    requires NoDup(s)
    ensures FirstSeen(s) == s
  {
    if s != [] {
      FirstSeenFixed(s[..|s| - 1]);
      assert s == s[..|s| - 1] + [s[|s| - 1]];
    }
  }

  /** Inserting a batch of keys twice over changes nothing. */
  lemma {:induction false} FirstSeenAbsorb<T(!new)>(a: seq<T>, b: seq<T>)
    ensures FirstSeen(FirstSeen(a) + b) == FirstSeen(a + b)
  {
    if b == [] {
      assert FirstSeen(a) + b == FirstSeen(a) && a + b == a;
      FirstSeenMembers(a);
      FirstSeenFixed(FirstSeen(a));
    } else {
      var c, x := b[..|b| - 1], b[|b| - 1];
      FirstSeenAbsorb(a, c);
      assert FirstSeen(a) + b == (FirstSeen(a) + c) + [x];
      assert a + b == (a + c) + [x];
      FirstSeenSnoc(FirstSeen(a) + c, x);
      FirstSeenSnoc(a + c, x);
      FirstSeenMembers(a);
    }
  }

  /** Keys already present keep their places; new ones only go after them. */
  lemma {:induction false} FirstSeenPrefix<T(!new)>(a: seq<T>, b: seq<T>)
    ensures FirstSeen(a) <= FirstSeen(a + b)
  {
    if b == [] {
      assert a + b == a;
    } else {
      var c, x := b[..|b| - 1], b[|b| - 1];
      FirstSeenPrefix(a, c);
      assert a + b == (a + c) + [x];
      FirstSeenSnoc(a + c, x);
    }
  }

  function Filter<T>(s: seq<T>, p: T -> bool): seq<T> {
    if s == [] then [] else
      var prefix := Filter(s[..|s| - 1], p);
      if p(s[|s| - 1]) then prefix + [s[|s| - 1]] else prefix
  }

  lemma {:induction false} FilterMembers<T(!new)>(s: seq<T>, p: T -> bool)
    ensures |Filter(s, p)| <= |s|
    ensures forall x :: x in Filter(s, p) <==> x in s && p(x)
  {
    if s != [] {
      FilterMembers(s[..|s| - 1], p);
      assert s == s[..|s| - 1] + [s[|s| - 1]];
    }
  }

  lemma {:induction false} FilterSnoc<T(!new)>(s: seq<T>, x: T, p: T -> bool)
    ensures Filter(s + [x], p) == if p(x) then Filter(s, p) + [x] else Filter(s, p)
  {
    assert (s + [x])[..|s|] == s;
  }

  lemma {:induction false} FilterConcat<T(!new)>(a: seq<T>, b: seq<T>, p: T -> bool)
    ensures Filter(a + b, p) == Filter(a, p) + Filter(b, p)
  {
    if b == [] {
      assert a + b == a;
    } else {
      var c, x := b[..|b| - 1], b[|b| - 1];
      FilterConcat(a, c, p);
      assert a + b == (a + c) + [x] && b == c + [x];
      FilterSnoc(a + c, x, p);
      FilterSnoc(c, x, p);
      assert Filter(a, p) + Filter(c, p) + [x] == Filter(a, p) + (Filter(c, p) + [x]);
    }
  }

  lemma {:induction false} FilterAll<T(!new)>(s: seq<T>, p: T -> bool)
    requires forall x | x in s :: p(x)
    ensures Filter(s, p) == s
  {
    if s != [] {
      FilterAll(s[..|s| - 1], p);
      assert s == s[..|s| - 1] + [s[|s| - 1]];
    }
  }

  lemma {:induction false} FilterAlike<T(!new)>(s: seq<T>, p: T -> bool, q: T -> bool)
    requires forall x | x in s :: p(x) == q(x)
    ensures Filter(s, p) == Filter(s, q)
  {
    if s != [] {
      FilterAlike(s[..|s| - 1], p, q);
    }
  }

  lemma {:induction false} FilterNone<T(!new)>(s: seq<T>, p: T -> bool)
    requires forall x | x in s :: !p(x)
    ensures Filter(s, p) == []
  {
    if s != [] {
      FilterNone(s[..|s| - 1], p);
    }
  }

  lemma {:induction false} FilterTwice<T(!new)>(s: seq<T>, p: T -> bool, q: T -> bool, both: T -> bool)
    requires forall x :: both(x) <==> p(x) && q(x)
    ensures Filter(Filter(s, p), q) == Filter(s, both)
  {
    if s != [] {
      var init, x := s[..|s| - 1], s[|s| - 1];
      FilterTwice(init, p, q, both);
      if p(x) {
        FilterSnoc(Filter(init, p), x, q);
      }
    }
  }

  lemma {:induction false} FilterNoDup<T(!new)>(s: seq<T>, p: T -> bool)
    requires NoDup(s)
    ensures NoDup(Filter(s, p))
  {
    if s != [] {
      var init, x := s[..|s| - 1], s[|s| - 1];
      FilterNoDup(init, p);
      FilterMembers(init, p);
      if x in init {
        assert false;
      }
    }
  }

  function Map<S, T>(f: S -> T, s: seq<S>): (r: seq<T>)
    ensures |r| == |s|
    ensures forall i | 0 <= i < |s| :: r[i] == f(s[i])
  {
    seq(|s|, i requires 0 <= i < |s| => f(s[i]))
  }

  function NotIn<K(==)>(gone: set<K>): K -> bool {
    (k: K) => k !in gone
  }

  function Elements<T>(s: seq<T>): set<T> {
    set x | x in s
  }

  /** A Python dictionary: overwriting a key keeps its place in the iteration
      order, a new key goes last. */
  datatype Dict<K(==), V> = Dict(keys: seq<K>, at: map<K, V>) {
    ghost predicate Valid() {
      && NoDup(keys)
      && (forall k | k in keys :: k in at)
      && (forall k | k in at :: k in keys)
    }

    function Put(k: K, v: V): Dict<K, V> {
      Dict(if k in at then keys else keys + [k], at[k := v])
    }

    /** The dictionary once every key of `gone` is deleted. */
    function Without(gone: set<K>): Dict<K, V> {
      Dict(Filter(keys, NotIn(gone)), at - gone)
    }

    lemma {:induction false} PutValid(k: K, v: V)
      requires Valid()
      ensures Put(k, v).Valid()
    {
    }
  }

  lemma {:induction false} WithoutValid<K(!new), V>(d: Dict<K, V>, gone: set<K>)
    requires d.Valid()
    ensures d.Without(gone).Valid()
  {
    FilterNoDup(d.keys, NotIn(gone));
    FilterMembers(d.keys, NotIn(gone));
  }

  lemma {:induction false} WithoutOneMore<K(!new), V>(d: Dict<K, V>, gone: set<K>, k: K)
    ensures d.Without(gone).Without({k}) == d.Without(gone + {k})
  {
    FilterTwice(d.keys, NotIn(gone), NotIn({k}), NotIn(gone + {k}));
    assert d.at - gone - {k} == d.at - (gone + {k});
  }

  function EmptyDict<K(==), V>(): Dict<K, V> {
    Dict([], map[])
  }

  /** The last of one sequence, found and taken out of another with the same elements. */
  lemma {:induction false} Pluck<T>(a: seq<T>, b: seq<T>) returns (j: nat)
    requires a != [] && multiset(a) == multiset(b)
    ensures j < |b| && b[j] == a[|a| - 1] && b == b[..j] + [b[j]] + b[j + 1..]
    ensures multiset(a[..|a| - 1]) == multiset(b[..j] + b[j + 1..])
  {
    var n := |a| - 1;
    assert a == a[..n] + [a[n]];
    assert a[n] in multiset(b);
    j :| 0 <= j < |b| && b[j] == a[n];
    assert b == b[..j] + [b[j]] + b[j + 1..];
    assert multiset(a[..n]) == multiset(a) - multiset{a[n]};
    assert multiset(b[..j] + b[j + 1..]) == multiset(b) - multiset{b[j]};
  }

  /** The sum of a weight over a sequence. */
  function Tally<T>(s: seq<T>, weight: T -> real): real {
    if s == [] then 0.0 else Tally(s[..|s| - 1], weight) + weight(s[|s| - 1])
  }

  lemma {:induction false} TallySnoc<T>(s: seq<T>, x: T, weight: T -> real)
    ensures Tally(s + [x], weight) == Tally(s, weight) + weight(x)
  {
    assert (s + [x])[..|s|] == s;
  }

  lemma {:induction false} TallyConcat<T>(a: seq<T>, b: seq<T>, weight: T -> real)
    ensures Tally(a + b, weight) == Tally(a, weight) + Tally(b, weight)
  {
    if b == [] {
      assert a + b == a;
    } else {
      var c, x := b[..|b| - 1], b[|b| - 1];
      TallyConcat(a, c, weight);
      assert a + b == (a + c) + [x];
      TallySnoc(a + c, x, weight);
    }
  }

  lemma {:induction false} TallyUpdate<T>(s: seq<T>, j: nat, x: T, weight: T -> real)
    requires j < |s|
    ensures Tally(s[j := x], weight) == Tally(s, weight) - weight(s[j]) + weight(x)
  {
    var n := |s| - 1;
    if j == n {
      assert s[j := x][..n] == s[..n];
    } else {
      TallyUpdate(s[..n], j, x, weight);
      assert s[j := x][..n] == s[..n][j := x];
    }
  }

  lemma {:induction false} TallyZero<T>(s: seq<T>, weight: T -> real)
    requires forall i | 0 <= i < |s| :: weight(s[i]) == 0.0
    ensures Tally(s, weight) == 0.0
  {
    if s != [] {
      TallyZero(s[..|s| - 1], weight);
    }
  }
}
