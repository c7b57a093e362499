/** The whole table, over every run of sets and deletions. */
module HashRuns {
  import opened HashModel

  type Table<V> = seq<seq<Slot<V>>>

  /** Every bucket has an array, and holds only keys whose hash is its index among n. */
  ghost predicate Homed<V>(t: Table<V>, n: nat) {
    0 < n && forall b | 0 <= b < |t| :: AllHome(t[b], n, b)
  }

  ghost predicate Good<V>(t: Table<V>) {
    |t| > 0 && Homed(t, |t|) && forall b | 0 <= b < |t| :: |t[b]| > 0
  }

  ghost function AllPairs<V>(t: Table<V>): multiset<(Key, V)> {
    if t == [] then multiset{} else AllPairs(t[..|t| - 1]) + Pairs(t[|t| - 1])
  }

  /** `tablec_init` */
  function Empty<V>(n: nat): (t: Table<V>)
    ensures |t| == n && forall b | 0 <= b < n :: t[b] == [Hole]
  {
    if n == 0 then [] else Empty(n - 1) + [[Hole]]
  }

  ghost function SetIn<V>(t: Table<V>, key: Key, value: V): (t': Table<V>)
    requires Good(t)
    ensures |t'| == |t|
  {
    var b := Home(key, |t|);
    t[b := Set(t[b], key, value)]
  }

  function DelIn<V>(t: Table<V>, key: Key): (t': Table<V>)
    requires |t| > 0
    ensures |t'| == |t|
  {
    var b := Home(key, |t|);
    t[b := Del(t[b], key)]
  }

  function GetIn<V>(t: Table<V>, key: Key): Slot<V>
    requires |t| > 0
  {
    Get(t[Home(key, |t|)], key)
  }

  // ---------------------------------------------------------------- pairs of the table

  lemma {:induction false} AllAppend<V>(t: Table<V>, u: Table<V>)
    ensures AllPairs(t + u) == AllPairs(t) + AllPairs(u)
    decreases |u|
  {
    if u == [] {
      assert t + u == t;
    } else {
      assert (t + u)[..|t + u| - 1] == t + u[..|u| - 1];
      AllAppend(t, u[..|u| - 1]);
    }
  }

  lemma AllMiddle<V>(u: Table<V>, s: seq<Slot<V>>, w: Table<V>)
    ensures AllPairs(u + [s] + w) == AllPairs(u) + Pairs(s) + AllPairs(w)
  {
    AllAppend(u + [s], w);
    AllLast(u + [s], u, s);
  }

  lemma AllLast<V>(t: Table<V>, front: Table<V>, last: seq<Slot<V>>)
    requires t == front + [last]
    ensures AllPairs(t) == AllPairs(front) + Pairs(last)
  {
    assert t[..|t| - 1] == front;
  }

  lemma AllUpdate<V>(t: Table<V>, b: nat, s: seq<Slot<V>>)
    requires b < |t|
    ensures AllPairs(t[b := s]) + Pairs(t[b]) == AllPairs(t) + Pairs(s)
  {
    var u, w := t[..b], t[b + 1..];
    AllMiddle(u, t[b], w);
    AllMiddle(u, s, w);
    SplitAt(t, b, s);
  }

  /** A key's pairs are all in its home bucket. */
  lemma {:induction false} HomeCount<V>(t: Table<V>, n: nat, key: Key, value: V)
    requires Homed(t, n)
    ensures AllPairs(t)[(key, value)] == if Home(key, n) < |t| then Pairs(t[Home(key, n)])[(key, value)] else 0
    decreases |t|
  {
    if t != [] {
      var b := |t| - 1;
      var front, last := t[..b], t[b];
      assert Homed(front, n);
      HomeCount(front, n, key, value);
      if Home(key, n) != b {
        InPairs(last, key, value);
        assert AllHome(last, n, b);
        assert Full(key, value) !in last;
      }
    }
  }

  /** `tablec_set` adds one pair, whatever is there already, and every pair is still in its home bucket. */
  lemma SetAddsOne<V>(t: Table<V>, key: Key, value: V)
    requires Good(t)
    ensures Good(SetIn(t, key, value)) && AllPairs(SetIn(t, key, value)) == AllPairs(t) + multiset{(key, value)}
  {
    var b := Home(key, |t|);
    var s, s' := t[b], Set(t[b], key, value);
    SetAdds(s, key, value);
    AllUpdate(t, b, s');
    AllHomeKept(s, |t|, key, value);
    GoodUpdate(t, b, s');
    AddOne(AllPairs(t[b := s']), Pairs(s), AllPairs(t), Pairs(s'), (key, value));
  }

  lemma AddOne<T>(all': multiset<T>, some: multiset<T>, all: multiset<T>, some': multiset<T>, e: T)
    requires all' + some == all + some' && some' == some + multiset{e}
    ensures all' == all + multiset{e}
  {
    var left, right, more := all' + some, all + some', all + multiset{e};
    forall x ensures all'[x] == more[x] {
      assert left[x] == all'[x] + some[x] && right[x] == all[x] + some'[x];
    }
  }

  lemma GoodUpdate<V>(t: Table<V>, b: nat, s: seq<Slot<V>>)
    requires Good(t) && b < |t| && |s| > 0 && AllHome(s, |t|, b)
    ensures Good(t[b := s])
  {
    var t' := t[b := s];
    assert forall c | 0 <= c < |t'| && c != b :: t'[c] == t[c];
  }

  lemma TakeOne<T>(all': multiset<T>, some: multiset<T>, all: multiset<T>, some': multiset<T>, e: T)
    requires all' + some == all + some' && some' == some - multiset{e} && e in some && e in all
    ensures all' == all - multiset{e}
  {
    var left, right, rest := all' + some, all + some', all - multiset{e};
    forall x ensures all'[x] == rest[x] {
      assert left[x] == all'[x] + some[x] && right[x] == all[x] + some'[x];
    }
  }

  /** `tablec_del` removes the pair that `tablec_get` finds, and no other; without one it changes nothing. */
  lemma DelRemovesOne<V>(t: Table<V>, key: Key)
    requires Good(t)
    ensures Good(DelIn(t, key))
    ensures var found := GetIn(t, key);
      if found.Full? then
        (key, found.value) in AllPairs(t) && AllPairs(DelIn(t, key)) == AllPairs(t) - multiset{(key, found.value)}
      else DelIn(t, key) == t
  {
    var b := Home(key, |t|);
    var s, s', found := t[b], Del(t[b], key), GetIn(t, key);
    DelRemoves(s, key);
    AllHomeDel(s, |t|, key);
    GoodUpdate(t, b, s');
    if found.Full? {
      AllUpdate(t, b, s');
      HomeCount(t, |t|, key, found.value);
      TakeOne(AllPairs(t[b := s']), Pairs(s), AllPairs(t), Pairs(s'), (key, found.value));
    } else {
      assert t[b := s] == t;
    }
  }

  /** `tablec_get` finds a pair with the key exactly when the table has one. */
  lemma GetFindsIff<V>(t: Table<V>, key: Key)
    requires Good(t)
    ensures var r := GetIn(t, key);
      if r.Full? then r.key == key && (key, r.value) in AllPairs(t) else forall v :: (key, v) !in AllPairs(t)
  {
    var r := GetIn(t, key);
    GetFinds(t[Home(key, |t|)], key);
    if r.Full? {
      HomeCount(t, |t|, key, r.value);
    } else {
      forall v ensures (key, v) !in AllPairs(t) {
        HomeCount(t, |t|, key, v);
      }
    }
  }

  lemma {:induction false} EmptyIsEmpty<V>(n: nat)
    ensures AllPairs(Empty<V>(n)) == multiset{}
  {
    if n > 0 {
      EmptyIsEmpty<V>(n - 1);
      assert Empty<V>(n)[..n - 1] == Empty<V>(n - 1);
      PairsOne<V>(Hole);
    }
  }

  // ---------------------------------------------------------------- runs

  datatype Op<V> = SetOp(key: Key, value: V) | DelOp(key: Key)

  ghost function Apply<V>(t: Table<V>, op: Op<V>): Table<V>
    requires Good(t)
  {
    match op
    case SetOp(key, value) => SetIn(t, key, value)
    case DelOp(key) => DelIn(t, key)
  }

  lemma ApplyGood<V>(t: Table<V>, op: Op<V>)
    requires Good(t)
    ensures Good(Apply(t, op)) && |Apply(t, op)| == |t|
  {
    match op
    case SetOp(key, value) => SetAddsOne(t, key, value);
    case DelOp(key) => DelRemovesOne(t, key);
  }

  ghost function Run<V>(t: Table<V>, ops: seq<Op<V>>): (t': Table<V>)
    requires Good(t)
    ensures Good(t') && |t'| == |t|
    decreases |ops|
  {
    if ops == [] then t else
      ApplyGood(t, ops[0]);
      Run(Apply(t, ops[0]), ops[1..])
  }

  // ---------------------------------------------------------------- as a map

  /** Only keys that are absent are set. */
  predicate AbsentOnly<V>(m: map<Key, V>, ops: seq<Op<V>>)
    decreases |ops|
  {
    ops == [] || ((ops[0].SetOp? ==> ops[0].key !in m) && AbsentOnly(ApplyMap(m, ops[0]), ops[1..]))
  }

  function ApplyMap<V>(m: map<Key, V>, op: Op<V>): map<Key, V> {
    match op
    case SetOp(key, value) => m[key := value]
    case DelOp(key) => m - {key}
  }

  function RunMap<V>(m: map<Key, V>, ops: seq<Op<V>>): map<Key, V>
    decreases |ops|
  {
    if ops == [] then m else RunMap(ApplyMap(m, ops[0]), ops[1..])
  }

  /** The pairs of the map, once each. */
  ghost predicate IsMap<V(!new)>(t: Table<V>, m: map<Key, V>) { ArePairs(AllPairs(t), m) }

  ghost predicate ArePairs<V(!new)>(all: multiset<(Key, V)>, m: map<Key, V>) {
    forall k: Key, v: V :: all[(k, v)] == if k in m && m[k] == v then 1 else 0
  }

  lemma MapGet<V(!new)>(t: Table<V>, m: map<Key, V>, key: Key)
    requires Good(t) && IsMap(t, m)
    ensures GetIn(t, key) == if key in m then Full(key, m[key]) else Hole
  {
    GetFindsIff(t, key);
    if key in m {
      assert (key, m[key]) in AllPairs(t);
    }
  }

  lemma PairsPut<V(!new)>(all: multiset<(Key, V)>, m: map<Key, V>, key: Key, value: V)
    requires ArePairs(all, m) && key !in m
    ensures ArePairs(all + multiset{(key, value)}, m[key := value])
  {
    var all', m' := all + multiset{(key, value)}, m[key := value];
    forall k: Key, v: V ensures all'[(k, v)] == if k in m' && m'[k] == v then 1 else 0 {
      assert all[(k, v)] == if k in m && m[k] == v then 1 else 0;
    }
  }

  lemma PairsDrop<V(!new)>(all: multiset<(Key, V)>, m: map<Key, V>, key: Key)
    requires ArePairs(all, m) && key in m
    ensures ArePairs(all - multiset{(key, m[key])}, m - {key})
  {
    var all', m' := all - multiset{(key, m[key])}, m - {key};
    forall k: Key, v: V ensures all'[(k, v)] == if k in m' && m'[k] == v then 1 else 0 {
      assert all[(k, v)] == if k in m && m[k] == v then 1 else 0;
    }
  }

  lemma MapStep<V(!new)>(t: Table<V>, m: map<Key, V>, op: Op<V>)
    requires Good(t) && IsMap(t, m) && (op.SetOp? ==> op.key !in m)
    ensures Good(Apply(t, op)) && IsMap(Apply(t, op), ApplyMap(m, op))
  {
    match op
    case SetOp(key, value) =>
      SetAddsOne(t, key, value);
      PairsPut(AllPairs(t), m, key, value);
    case DelOp(key) =>
      DelRemovesOne(t, key);
      MapGet(t, m, key);
      if key in m {
        PairsDrop(AllPairs(t), m, key);
      } else {
        assert m - {key} == m;
      }
  }

  lemma {:induction false} MapRun<V(!new)>(t: Table<V>, m: map<Key, V>, ops: seq<Op<V>>, key: Key)
    requires Good(t) && IsMap(t, m) && AbsentOnly(m, ops)
    ensures GetIn(Run(t, ops), key) == if key in RunMap(m, ops) then Full(key, RunMap(m, ops)[key]) else Hole
    decreases |ops|
  {
    if ops == [] {
      MapGet(t, m, key);
    } else {
      MapStep(t, m, ops[0]);
      MapRun(Apply(t, ops[0]), ApplyMap(m, ops[0]), ops[1..], key);
    }
  }

  lemma EmptyIsMap<V(!new)>(n: nat)
    requires n > 0
    ensures Good(Empty<V>(n)) && IsMap(Empty<V>(n), map[])
  {
    EmptyIsEmpty<V>(n);
  }

  /** As long as only absent keys are set, the table is a map, after any run from `tablec_init`. */
  lemma TableIsMap<V(!new)>(n: nat, ops: seq<Op<V>>, key: Key)
    requires n > 0 && AbsentOnly(map[], ops)
    ensures Good(Empty<V>(n))
    ensures GetIn(Run(Empty(n), ops), key) ==
      if key in RunMap(map[], ops) then Full(key, RunMap(map[], ops)[key]) else Hole
  {
    EmptyIsMap<V>(n);
    MapRun(Empty(n), map[], ops, key);
  }

  // ---------------------------------------------------------------- a key set twice

  /** The one bucket of a table: set k1, set k2, delete k1, set k2 again. The last pair goes in the hole below. */
  lemma BelowTheOld<V>(k1: Key, k2: Key, v1: V, v2: V, v3: V)
    requires k1 != k2
    ensures var s1 := Set([Hole], k1, v1);
      && s1 == [Full(k1, v1)] && Set(s1, k2, v2) == [Full(k1, v1), Full(k2, v2)]
      && Del([Full(k1, v1), Full(k2, v2)], k1) == [Hole, Full(k2, v2)]
      && Set([Hole, Full(k2, v2)], k2, v3) == [Full(k2, v3), Full(k2, v2)]
  {
    var f1, f2 := Full(k1, v1), Full(k2, v2);
    PairsOne<V>(Hole);
    PairsOne(f1);
    assert [f1] + Holes(1) == [f1, Hole];
    TopMatchIs([f1, f2], k1, 0);
    InPairs([Hole, f2], k2, v2);
  }

  lemma OneBucket<V>(s: seq<Slot<V>>, op: Op<V>, s': seq<Slot<V>>, rest: seq<Op<V>>)
    requires |s| > 0 && Good([s])
    requires s' == match op case SetOp(key, value) => Set(s, key, value) case DelOp(key) => Del(s, key)
    ensures Good([s']) && Run([s], [op] + rest) == Run([s'], rest)
  {
    var ops := [op] + rest;
    ApplyGood([s], op);
    assert Home(op.key, 1) == 0;
    assert [s][0 := s'] == [s'] == Apply([s], op);
    assert ops[1..] == rest;
  }

  /** Then a lookup of k2 gives the value set first. */
  lemma OldValueFound<V>(k1: Key, k2: Key, v1: V, v2: V, v3: V)
    requires k1 != k2
    ensures Good(Empty<V>(1))
    ensures GetIn(Run(Empty<V>(1), [SetOp(k1, v1), SetOp(k2, v2), DelOp(k1), SetOp(k2, v3)]), k2) == Full(k2, v2)
  {
    var a, b, c, d := SetOp(k1, v1), SetOp(k2, v2), DelOp(k1), SetOp(k2, v3);
    var s1, s2 := [Full(k1, v1)], [Full(k1, v1), Full(k2, v2)];
    var s3, s4 := [Hole, Full(k2, v2)], [Full(k2, v3), Full(k2, v2)];
    assert Empty<V>(1) == [[Hole]] && Good(Empty<V>(1));
    BelowTheOld(k1, k2, v1, v2, v3);
    FourOps(a, b, c, d);
    OneBucket([Hole], a, s1, [b] + ([c] + ([d] + [])));
    OneBucket(s1, b, s2, [c] + ([d] + []));
    OneBucket(s2, c, s3, [d] + []);
    OneBucket(s3, d, s4, []);
    LastOfTwo(s4, k2);
  }

  lemma FourOps<V>(a: Op<V>, b: Op<V>, c: Op<V>, d: Op<V>)
    ensures [a] + ([b] + ([c] + ([d] + []))) == [a, b, c, d]
  {}

  lemma LastOfTwo<V>(s: seq<Slot<V>>, key: Key)
    requires |s| == 2 && Matches(s[1], key)
    ensures GetIn([s], key) == s[1]
  {
    assert Home(key, 1) == 0;
    TopMatchIs(s, key, 1);
  }
}
