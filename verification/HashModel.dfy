/** The chained table of shell_in_c/fs/src/common/hash.c, as buckets of slots. */
module HashModel {
  import opened Bytes

  /** A C string. */
  type Key = k: seq<byte> | 0 !in k witness []

  /** A slot of a bucket's array; its key is NULL in a hole. */
  datatype Slot<V> = Hole | Full(key: Key, value: V)

  /** The hash of the first n bytes, in 16 bits. */
  function Hash(key: Key, n: nat): word
    requires n <= |key|
  {
    if n == 0 then 0 else (Hash(key, n - 1) * 37 + key[n - 1]) % 0x1_0000
  }

  function Power37(n: nat): nat { if n == 0 then 1 else 37 * Power37(n - 1) }

  /** The sum of the bytes from i to n, each times 37 to the number of bytes after it. */
  function Weighted(key: seq<byte>, i: nat, n: nat): nat
    requires i <= n <= |key|
    decreases n - i
  {
    if i == n then 0 else key[i] * Power37(n - 1 - i) + Weighted(key, i + 1, n)
  }

  lemma {:induction false} WeightedStep(key: seq<byte>, i: nat, n: nat)
    requires i <= n < |key|
    ensures Weighted(key, i, n + 1) == 37 * Weighted(key, i, n) + key[n]
    decreases n - i
  {
    if i == n {
      assert Weighted(key, n + 1, n + 1) == 0 && Power37(0) == 1;
    } else {
      WeightedStep(key, i + 1, n);
      var c: nat, p := key[i], Power37(n - 1 - i);
      assert Power37(n - i) == 37 * p;
      assert c * (37 * p) == 37 * (c * p);
    }
  }

  lemma HashDigit(v: nat, c: byte)
    ensures ((v % 65536) * 37 + c) % 65536 == (37 * v + c) % 65536
  {
    var q, r := v / 65536, v % 65536;
    assert v == 65536 * q + r;
    SameRemainder(37 * v + c, 37 * q, 37 * r + c);
  }

  lemma SameRemainder(n: nat, q: nat, r: nat)
    requires n == 65536 * q + r
    ensures n % 65536 == r % 65536
  {
    var a, b := r / 65536, r % 65536;
    assert n == 65536 * (q + a) + b;
  }

  /** The hash is the polynomial in 37 of the key's bytes, modulo 65536. */
  lemma {:induction false} HashIsPolynomial(key: Key, n: nat)
    requires n <= |key|
    ensures Hash(key, n) == Weighted(key, 0, n) % 65536
  {
    if n > 0 {
      HashIsPolynomial(key, n - 1);
      WeightedStep(key, 0, n - 1);
      HashDigit(Weighted(key, 0, n - 1), key[n - 1]);
    }
  }

  /** "ab" in 128 buckets goes to bucket 103. */
  lemma HomeOfAb()
    ensures Home([0x61, 0x62], 128) == 103
  {
    var ab: Key := [0x61, 0x62];
    assert Hash(ab, 1) == 97;
    assert Hash(ab, 2) == 3687;
  }

  function Home(key: Key, buckets: nat): (b: nat)
    requires buckets > 0
    ensures b < buckets
  {
    Hash(key, |key|) % buckets
  }

  /** What a bucket holds. */
  ghost function Pairs<V>(s: seq<Slot<V>>): multiset<(Key, V)> {
    if s == [] then multiset{}
    else
      var last := s[|s| - 1];
      Pairs(s[..|s| - 1]) + if last.Full? then multiset{(last.key, last.value)} else multiset{}
  }

  /** The highest hole, or -1. */
  function TopHole<V>(s: seq<Slot<V>>): (i: int)
    ensures -1 <= i < |s|
    ensures 0 <= i ==> s[i].Hole?
    ensures forall j | i < j < |s| :: s[j].Full?
  {
    if s == [] then -1 else if s[|s| - 1].Hole? then |s| - 1 else TopHole(s[..|s| - 1])
  }

  predicate Matches<V>(slot: Slot<V>, key: Key) { slot.Full? && slot.key == key }

  /** The highest slot with this key, or -1. */
  function TopMatch<V>(s: seq<Slot<V>>, key: Key): (i: int)
    ensures -1 <= i < |s|
    ensures 0 <= i ==> Matches(s[i], key)
    ensures forall j | i < j < |s| :: !Matches(s[j], key)
  {
    if s == [] then -1 else if Matches(s[|s| - 1], key) then |s| - 1 else TopMatch(s[..|s| - 1], key)
  }

  function Holes<V>(n: nat): (s: seq<Slot<V>>)
    ensures |s| == n && forall i | 0 <= i < n :: s[i] == Hole
  {
    if n == 0 then [] else Holes(n - 1) + [Hole]
  }

  /** Where the next pair goes: slot 0 of an empty bucket, else the highest hole, else past the end. */
  ghost function Place<V>(s: seq<Slot<V>>): (i: nat)
    requires |s| > 0
    ensures i <= |s|
  {
    if Pairs(s) == multiset{} then 0 else if TopHole(s) >= 0 then TopHole(s) else |s|
  }

  /** An array of twice the size if there is no hole. */
  ghost function Roomy<V>(s: seq<Slot<V>>): (s': seq<Slot<V>>)
    requires |s| > 0
    ensures Place(s) < |s'|
  {
    if Place(s) == |s| then s + Holes(|s|) else s
  }

  ghost function Set<V>(s: seq<Slot<V>>, key: Key, value: V): seq<Slot<V>>
    requires |s| > 0
  {
    Roomy(s)[Place(s) := Full(key, value)]
  }

  function Del<V>(s: seq<Slot<V>>, key: Key): seq<Slot<V>> {
    if TopMatch(s, key) < 0 then s else s[TopMatch(s, key) := Hole]
  }

  function Get<V>(s: seq<Slot<V>>, key: Key): (r: Slot<V>)
  {
    if TopMatch(s, key) < 0 then Hole else s[TopMatch(s, key)]
  }

  // ---------------------------------------------------------------- a bucket

  lemma {:induction false} PairsAppend<V>(s: seq<Slot<V>>, t: seq<Slot<V>>)
    ensures Pairs(s + t) == Pairs(s) + Pairs(t)
    decreases |t|
  {
    if t == [] {
      assert s + t == s;
    } else {
      assert (s + t)[..|s + t| - 1] == s + t[..|t| - 1];
      PairsAppend(s, t[..|t| - 1]);
    }
  }

  lemma {:induction false} HolesEmpty<V>(n: nat)
    ensures Pairs(Holes<V>(n)) == multiset{}
  {
    if n > 0 {
      assert Holes<V>(n)[..n - 1] == Holes<V>(n - 1);
      HolesEmpty<V>(n - 1);
    }
  }

  lemma SplitAt<T>(s: seq<T>, i: nat, x: T)
    requires i < |s|
    ensures s == s[..i] + [s[i]] + s[i + 1..] && s[i := x] == s[..i] + [x] + s[i + 1..]
  {}

  lemma PairsMiddle<V>(a: seq<Slot<V>>, b: seq<Slot<V>>, c: seq<Slot<V>>)
    ensures Pairs(a + b + c) == Pairs(a) + Pairs(b) + Pairs(c)
  {
    PairsAppend(a + b, c);
    PairsAppend(a, b);
  }

  lemma PairsUpdate<V>(s: seq<Slot<V>>, i: nat, slot: Slot<V>)
    requires i < |s|
    ensures Pairs(s[i := slot]) + Pairs([s[i]]) == Pairs(s) + Pairs([slot])
  {
    SplitAt(s, i, slot);
    PairsMiddle(s[..i], [s[i]], s[i + 1..]);
    PairsMiddle(s[..i], [slot], s[i + 1..]);
  }

  lemma PairsOne<V>(slot: Slot<V>)
    ensures Pairs([slot]) == if slot.Full? then multiset{(slot.key, slot.value)} else multiset{}
  {
    assert [slot][..0] == [];
  }

  /** A bucket holds a pair exactly when one of its slots does. */
  lemma {:induction false} InPairs<V>(s: seq<Slot<V>>, key: Key, value: V)
    ensures (key, value) in Pairs(s) <==> Full(key, value) in s
  {
    if s != [] {
      InPairs(s[..|s| - 1], key, value);
      assert s == s[..|s| - 1] + [s[|s| - 1]];
    }
  }

  lemma EmptyBucket<V>(s: seq<Slot<V>>, i: nat)
    requires Pairs(s) == multiset{} && i < |s|
    ensures s[i].Hole?
  {
    if s[i].Full? {
      InPairs(s, s[i].key, s[i].value);
    }
  }

  lemma RoomySame<V>(s: seq<Slot<V>>)
    requires |s| > 0
    ensures Pairs(Roomy(s)) == Pairs(s) && Roomy(s)[Place(s)].Hole? && s <= Roomy(s)
    ensures forall j | |s| <= j < |Roomy(s)| :: Roomy(s)[j].Hole?
  {
    if Pairs(s) == multiset{} {
      EmptyBucket(s, 0);
    }
    HolesEmpty<V>(|s|);
    PairsAppend(s, Holes(|s|));
  }

  /** Nothing moves, and exactly one pair is added, whether in a hole or in a larger array. */
  lemma SetAdds<V>(s: seq<Slot<V>>, key: Key, value: V)
    requires |s| > 0
    ensures Pairs(Set(s, key, value)) == Pairs(s) + multiset{(key, value)}
    ensures forall j | 0 <= j < |s| && s[j].Full? :: Set(s, key, value)[j] == s[j]
  {
    var i, r := Place(s), Roomy(s);
    RoomySame(s);
    PairsUpdate(r, i, Full(key, value));
    PairsOne(r[i]);
    PairsOne(Full(key, value));
  }

  /** Removes the pair that a lookup would find, if there is one. */
  lemma DelRemoves<V>(s: seq<Slot<V>>, key: Key)
    ensures var found := Get(s, key);
      if found.Full? then
        (key, found.value) in Pairs(s) && Pairs(Del(s, key)) == Pairs(s) - multiset{(key, found.value)}
      else Del(s, key) == s
  {
    var i := TopMatch(s, key);
    if i >= 0 {
      var found, d := s[i], s[i := Hole];
      PairsUpdate(s, i, Hole);
      PairsOne(found);
      PairsOne<V>(Hole);
      InPairs(s, key, found.value);
      assert Pairs(d) + multiset{(key, found.value)} == Pairs(s);
    }
  }

  /** A lookup finds a pair that is there, and fails only if there is none. */
  lemma GetFinds<V>(s: seq<Slot<V>>, key: Key)
    ensures var r := Get(s, key);
      if r.Full? then r.key == key && (key, r.value) in Pairs(s) else forall v :: (key, v) !in Pairs(s)
  {
    var r := Get(s, key);
    if r.Full? {
      InPairs(s, key, r.value);
    } else {
      forall v ensures (key, v) !in Pairs(s) {
        InPairs(s, key, v);
      }
    }
  }

  /** The highest match is the only index that is one. */
  lemma TopMatchIs<V>(s: seq<Slot<V>>, key: Key, i: int)
    requires -1 <= i < |s| && (0 <= i ==> Matches(s[i], key))
    requires forall j | i < j < |s| :: !Matches(s[j], key)
    ensures TopMatch(s, key) == i
  {}

  /** Which slot a set takes: slot 0 of an empty bucket, the highest hole of a bucket that has pairs and holes, and
      the first slot past a full bucket, whose array doubles. */
  lemma SetTakes<V>(s: seq<Slot<V>>, key: Key, value: V, i: nat)
    requires i < |s|
    ensures (forall j | 0 <= j < |s| :: s[j].Hole?) ==> Set(s, key, value) == s[0 := Full(key, value)]
    ensures s[i].Hole? && (forall j | i < j < |s| :: s[j].Full?) && (exists j :: 0 <= j < |s| && s[j].Full?) ==>
      Set(s, key, value) == s[i := Full(key, value)]
    ensures (forall j | 0 <= j < |s| :: s[j].Full?) ==>
      var s' := Set(s, key, value);
      && |s'| == 2 * |s| && s'[..|s|] == s && s'[|s|] == Full(key, value)
      && forall j | |s| < j < 2 * |s| :: s'[j].Hole?
  {
    if forall j | 0 <= j < |s| :: s[j].Hole? {
      NoPairs(s);
    } else {
      var j :| 0 <= j < |s| && s[j].Full?;
      InPairs(s, s[j].key, s[j].value);
    }
  }

  lemma {:induction false} NoPairs<V>(s: seq<Slot<V>>)
    requires forall j | 0 <= j < |s| :: s[j].Hole?
    ensures Pairs(s) == multiset{}
  {
    if s != [] {
      NoPairs(s[..|s| - 1]);
    }
  }

  /** An older pair with the key lies above the holes of the bucket, and there are some. */
  ghost predicate Shadowed<V>(s: seq<Slot<V>>, key: Key) {
    && (exists h :: 0 <= h < |s| && s[h].Hole?)
    && exists m :: 0 <= m < |s| && Matches(s[m], key) && forall h | m < h < |s| :: s[h].Full?
  }

  /** A lookup after a set finds the new pair, unless an older pair with the key lies above the holes: then it finds
      what it found before. */
  lemma GetAfterSet<V>(s: seq<Slot<V>>, key: Key, value: V)
    requires |s| > 0
    ensures Get(Set(s, key, value), key) == if Shadowed(s, key) then Get(s, key) else Full(key, value)
  {
    GetByPlace(s, key, value);
    ShadowedIff(s, key);
  }

  lemma ShadowedIff<V>(s: seq<Slot<V>>, key: Key)
    requires |s| > 0
    ensures Shadowed(s, key) <==> TopMatch(s, key) > Place(s)
  {
    var t, i := TopMatch(s, key), TopHole(s);
    if t > Place(s) {
      InPairs(s, s[t].key, s[t].value);
      assert Matches(s[t], key) && s[i].Hole?;
    }
    if Shadowed(s, key) {
      var m :| 0 <= m < |s| && Matches(s[m], key) && forall h | m < h < |s| :: s[h].Full?;
      var h :| 0 <= h < |s| && s[h].Hole?;
      InPairs(s, s[m].key, s[m].value);
      assert h <= i && i != m && !(i > m);
      assert !(m > t);
    }
  }

  lemma GetByPlace<V>(s: seq<Slot<V>>, key: Key, value: V)
    requires |s| > 0
    ensures Get(Set(s, key, value), key) == if TopMatch(s, key) > Place(s) then Get(s, key) else Full(key, value)
  {
    var r, i, m := Roomy(s), Place(s), TopMatch(s, key);
    RoomySame(s);
    var s' := r[i := Full(key, value)];
    forall j | (if m > i then m else i) < j < |s'| ensures !Matches(s'[j], key) {
      assert s'[j] == if j < |s| then s[j] else Hole;
    }
    if m > i {
      assert s'[m] == s[m];
    }
    TopMatchIs(s', key, if m > i then m else i);
  }

  /** A key set twice in an emptied bucket of two slots: slot 0 first, then the slot above it, and the lookup finds the
      second value. */
  lemma EmptiedBucket<V>(key: Key, v1: V, v2: V)
    ensures Set([Hole, Hole], key, v1) == [Full(key, v1), Hole]
    ensures Set([Full(key, v1), Hole], key, v2) == [Full(key, v1), Full(key, v2)]
    ensures Get([Full(key, v1), Full(key, v2)], key) == Full(key, v2)
  {
    var none, one, two := [Hole, Hole], [Full(key, v1), Hole], [Full(key, v1), Full(key, v2)];
    SetTakes(none, key, v1, 0);
    assert none[0 := Full(key, v1)] == one;
    assert one[0].Full? && one[1 := Full(key, v2)] == two;
    SetTakes(one, key, v2, 1);
    TopMatchIs(two, key, 1);
  }

  /** Other keys are found as before. */
  lemma GetOther<V>(s: seq<Slot<V>>, key: Key, value: V, other: Key)
    requires |s| > 0 && other != key
    ensures Get(Set(s, key, value), other) == Get(s, other)
    ensures Get(Del(s, key), other) == Get(s, other)
  {
    var r, i, m, d := Roomy(s), Place(s), TopMatch(s, other), TopMatch(s, key);
    RoomySame(s);
    var s' := r[i := Full(key, value)];
    forall j | 0 <= j < |s'| ensures Matches(s'[j], other) == (j < |s| && Matches(s[j], other)) {
      assert r[j] == if j < |s| then s[j] else Hole;
    }
    if m >= 0 {
      assert Matches(s'[m], other) && s'[m] == s[m];
    }
    TopMatchIs(s', other, m);
    if d >= 0 {
      TopMatchIs(s[d := Hole], other, m);
    }
  }

  /** Every key in the bucket has this home. */
  ghost predicate AllHome<V>(s: seq<Slot<V>>, n: nat, b: nat)
    requires n > 0
  {
    forall i | 0 <= i < |s| :: s[i].Full? ==> Home(s[i].key, n) == b
  }

  lemma AllHomeKept<V>(s: seq<Slot<V>>, n: nat, key: Key, value: V)
    requires n > 0 && |s| > 0 && AllHome(s, n, Home(key, n))
    ensures AllHome(Set(s, key, value), n, Home(key, n)) && |Set(s, key, value)| > 0
  {
    var r, i := Roomy(s), Place(s);
    RoomySame(s);
    forall j | 0 <= j < |r| ensures r[j].Full? ==> j < |s| && r[j] == s[j] {}
    assert AllHome(r, n, Home(key, n));
    assert AllHome(r[i := Full(key, value)], n, Home(key, n));
  }

  lemma AllHomeDel<V>(s: seq<Slot<V>>, n: nat, key: Key)
    requires n > 0 && AllHome(s, n, Home(key, n))
    ensures AllHome(Del(s, key), n, Home(key, n)) && |Del(s, key)| == |s|
  {
    var d := TopMatch(s, key);
    if d >= 0 {
      assert AllHome(s[d := Hole], n, Home(key, n));
    }
  }
}
