/** The table as the C code changes it: an array of buckets, each with its own array of slots. */
module HashTables {
  import opened Bytes
  import opened HashModel
  import opened HashRuns

  datatype Bucket<V> = Bucket(slots: array<Slot<V>>, length: nat, capacity: nat)

  /** Removing from a size keeps 16 bits. */
  function Less(n: word): word { if n == 0 then 0xFFFF else n - 1 }

  function More(n: word): word { if n == 0xFFFF then 0 else n + 1 }

  class HashTable<V> {
    var buckets: array<Bucket<V>>
    var length: word
    /** What the arrays hold. */
    ghost var view: Table<V>
    /** The arrays. */
    ghost var repr: set<object>

    /** Bucket b, with the length of its array, and its length the number of pairs in it. */
    ghost predicate Holds(b: nat)
      requires b < buckets.Length && |view| == buckets.Length
      reads `view, `buckets, buckets, buckets[b].slots
    {
      && buckets[b].slots[..] == view[b] && buckets[b].capacity == |view[b]|
      && buckets[b].length == |Pairs(view[b])|
    }

    ghost predicate Apart()
      reads `buckets, buckets
    {
      forall b, c | 0 <= b < buckets.Length && 0 <= c < buckets.Length && b != c ::
        buckets[b].slots != buckets[c].slots
    }

    ghost predicate Valid()
      reads `view, `buckets, `repr, repr, buckets, set b | 0 <= b < buckets.Length :: buckets[b].slots
    {
      && buckets in repr && (forall b | 0 <= b < buckets.Length :: buckets[b].slots in repr)
      && |view| == buckets.Length && Apart() && (forall b | 0 <= b < buckets.Length :: Holds(b))
      && (|view| > 0 ==> Good(view))
    }

    /** `tablec_init` */
    constructor (maxCapacity: nat)
      ensures Valid() && view == Empty(maxCapacity) && fresh(repr)
    {
      var none := new Slot<V>[0];
      buckets := new Bucket<V>[maxCapacity](_ => Bucket(none, 0, 0));
      length := 0;
      view := Empty(maxCapacity);
      new;
      repr := {buckets};
      var i := maxCapacity;
      while i > 0
        invariant 0 <= i <= maxCapacity && fresh(repr) && buckets in repr && buckets.Length == maxCapacity
        invariant view == Empty(maxCapacity) && ReadyFrom(i)
      {
        i := i - 1;
        InitBucket(i);
      }
      assert maxCapacity > 0 ==> Good(view);
    }

    /** The buckets from i on are as they should be. */
    ghost predicate ReadyFrom(i: nat)
      reads `view, `buckets, `repr, repr, buckets, set b | 0 <= b < buckets.Length :: buckets[b].slots
    {
      && |view| == buckets.Length
      && (forall b | i <= b < buckets.Length :: buckets[b].slots in repr && Holds(b))
      && (forall b, c | i <= b < buckets.Length && i <= c < buckets.Length && b != c ::
        buckets[b].slots != buckets[c].slots)
    }

    /** The body of its loop. */
    method InitBucket(i: nat)
      requires i < buckets.Length == |view| && view[i] == [Hole] && ReadyFrom(i + 1) && buckets in repr
      modifies `repr, buckets
      ensures buckets == old(buckets) && ReadyFrom(i) && buckets in repr && fresh(repr - old(repr))
    {
      ghost var was := buckets[..];
      var slots := new Slot<V>[1](_ => Hole);
      assert forall b | i < b < buckets.Length :: Holds(b);
      PairsOne<V>(Hole);
      assert slots[..] == [Hole];
      buckets[i] := Bucket(slots, 0, 1);
      repr := repr + {slots};
      assert forall b | i < b < buckets.Length :: buckets[b] == was[b] && Holds(b);
    }

    /** `_tablec_hash` */
    method HashKey(key: Key) returns (b: nat)
      requires buckets.Length > 0
      ensures b == Home(key, buckets.Length)
    {
      var hash: word, i := 0, 0;
      while i < |key|
        invariant 0 <= i <= |key| && hash == Hash(key, i)
      {
        hash := (hash * 37 + key[i]) % 0x1_0000;
        i := i + 1;
      }
      b := hash % buckets.Length;
    }

    /** A slot and the bucket's length are overwritten. */
    method Fill(b: nat, i: nat, slot: Slot<V>, n: nat)
      requires Valid() && b < buckets.Length && i < |view[b]| && n == |Pairs(view[b][i := slot])|
      requires Good(view[b := view[b][i := slot]])
      modifies `view, buckets, buckets[b].slots
      ensures Valid() && buckets == old(buckets) && view == old(view)[b := old(view[b])[i := slot]]
    {
      assert Holds(b);
      assert forall c | 0 <= c < buckets.Length :: Holds(c);
      var slots := buckets[b].slots;
      slots[i] := slot;
      assert forall c | 0 <= c < buckets.Length && c != b :: Holds(c);
      assert slots[..] == view[b][i := slot];
      Relabel(b, slots, n, slots[..]);
    }

    /** The entry of a bucket is overwritten; its array is the old one or a new one. */
    method Relabel(b: nat, slots: array<Slot<V>>, n: nat, ghost s: seq<Slot<V>>)
      requires b < buckets.Length == |view| && Apart() && slots[..] == s && n == |Pairs(s)|
      requires forall c | 0 <= c < buckets.Length && c != b :: Holds(c) && buckets[c].slots != slots
      requires Good(view[b := s]) && buckets in repr && slots in repr
      requires forall c | 0 <= c < buckets.Length :: buckets[c].slots in repr
      modifies `view, buckets
      ensures Valid() && buckets == old(buckets) && view == old(view)[b := s]
    {
      ghost var was := buckets[..];
      buckets[b] := Bucket(slots, n, slots.Length);
      view := view[b := s];
      assert forall c | 0 <= c < buckets.Length && c != b :: buckets[c] == was[c];
      assert forall c | 0 <= c < buckets.Length && c != b :: Holds(c);
      assert Holds(b);
    }

    /** A larger array takes the place of a bucket's. */
    method Replace(b: nat, slots: array<Slot<V>>, n: nat)
      requires Valid() && b < buckets.Length && slots !in repr && n == |Pairs(slots[..])|
      requires Good(view[b := slots[..]])
      modifies `view, `repr, buckets
      ensures Valid() && buckets == old(buckets) && repr == old(repr) + {slots}
      ensures view == old(view)[b := slots[..]]
    {
      assert forall c | 0 <= c < buckets.Length :: Holds(c);
      repr := repr + {slots};
      Relabel(b, slots, n, slots[..]);
    }

    /** The array of twice the size, with the slots of a full bucket in their places. */
    method Grow(b: nat, slot: Slot<V>) returns (slots: array<Slot<V>>)
      requires Valid() && b < buckets.Length && TopHole(view[b]) < 0 && Pairs(view[b]) != multiset{}
      ensures fresh(slots) && slots[..] == Roomy(view[b])[Place(view[b]) := slot]
    {
      assert Holds(b);
      ghost var s := view[b];
      FullBucket(s);
      var i := buckets[b].capacity;
      slots := new Slot<V>[2 * i](_ => Hole);
      while i > 0
        invariant 0 <= i <= |s| && slots.Length == 2 * |s|
        invariant forall j | i <= j < |s| :: slots[j] == s[j]
        invariant forall j | 0 <= j < i || |s| <= j < 2 * |s| :: slots[j] == Hole
      {
        i := i - 1;
        slots[i] := if buckets[b].slots[i].Hole? then Hole else buckets[b].slots[i];
      }
      slots[buckets[b].length] := slot;
      assert slots[..] == (s + Holes(|s|))[|s| := slot];
    }

    /** From the top of a bucket down: the first hole, or -1. */
    method FindHole(b: nat) returns (i: int)
      requires Valid() && b < buckets.Length
      ensures i == TopHole(view[b])
    {
      assert Holds(b);
      i := buckets[b].capacity - 1;
      while i >= 0
        invariant -1 <= i < |view[b]|
        invariant forall j | i < j < |view[b]| :: view[b][j].Full?
      {
        if buckets[b].slots[i].Hole? {
          break;
        }
        i := i - 1;
      }
      TopHoleIs(view[b], i);
    }

    /** From the top of a bucket down: the first slot with the key, or -1. */
    method FindMatch(b: nat, key: Key) returns (i: int)
      requires Valid() && b < buckets.Length
      ensures i == TopMatch(view[b], key)
    {
      assert Holds(b);
      i := buckets[b].capacity - 1;
      while i >= 0
        invariant -1 <= i < |view[b]|
        invariant forall j | i < j < |view[b]| :: !Matches(view[b][j], key)
      {
        if buckets[b].slots[i].Full? && buckets[b].slots[i].key == key {
          break;
        }
        i := i - 1;
      }
      TopMatchIs(view[b], key, i);
    }

    /** The bucket has no hole. */
    method Extend(b: nat, slot: Slot<V>)
      requires Valid() && b < buckets.Length && TopHole(view[b]) < 0 && Pairs(view[b]) != multiset{}
      requires var s' := Roomy(view[b])[Place(view[b]) := slot];
        |Pairs(s')| == |Pairs(view[b])| + 1 && Good(view[b := s'])
      modifies `view, `repr, buckets
      ensures Valid() && buckets == old(buckets) && (forall o | o in repr :: o in old(repr) || fresh(o))
      ensures view == old(view)[b := Roomy(old(view)[b])[Place(old(view)[b]) := slot]]
    {
      assert Holds(b);
      var n := buckets[b].length;
      var slots := Grow(b, slot);
      Replace(b, slots, n + 1);
    }

    /** The bucket is not empty, and slot i is its highest hole. */
    method FillHole(b: nat, i: nat, key: Key, value: V)
      requires Valid() && b < buckets.Length && Pairs(view[b]) != multiset{} && i == TopHole(view[b])
      requires Good(view[b := HashModel.Set(view[b], key, value)])
      modifies `view, `length, buckets, buckets[b].slots
      ensures Valid() && buckets == old(buckets)
      ensures view == old(view)[b := HashModel.Set(old(view)[b], key, value)]
    {
      assert Holds(b);
      SetIsFill(view[b], key, value);
      length := More(length);
      Fill(b, i, Full(key, value), buckets[b].length + 1);
    }

    /** The bucket is not empty: the highest hole, or a larger array. */
    method Add(b: nat, key: Key, value: V)
      requires Valid() && b < buckets.Length && Pairs(view[b]) != multiset{}
      requires Good(view[b := HashModel.Set(view[b], key, value)])
      modifies this, repr
      ensures Valid() && buckets == old(buckets) && (forall o | o in repr :: o in old(repr) || fresh(o))
      ensures view == old(view)[b := HashModel.Set(old(view)[b], key, value)]
    {
      var i := FindHole(b);
      if i >= 0 {
        FillHole(b, i, key, value);
      } else {
        SetIsFill(view[b], key, value);
        Extend(b, Full(key, value));
      }
    }

    /** `tablec_set` */
    method Set(key: Key, value: V)
      requires Valid() && buckets.Length > 0
      modifies this, repr
      ensures Valid() && buckets == old(buckets) && (forall o | o in repr :: o in old(repr) || fresh(o))
      ensures view == SetIn(old(view), key, value)
    {
      var b := HashKey(key);
      assert Holds(b);
      assert Good(SetIn(view, key, value)) by {
        SetAddsOne(view, key, value);
      }
      if buckets[b].length == 0 {
        EmptyBucket(view[b], 0);
        SetIsFill(view[b], key, value);
        if buckets[b].slots[0].Hole? {
          length := More(length);
          Fill(b, 0, Full(key, value), 1);
        } else {
          assert false;
        }
      } else {
        Add(b, key, value);
      }
    }

    /** `tablec_get`: the slot found, or a hole for NULL. */
    method Get(key: Key) returns (r: Slot<V>)
      requires Valid() && buckets.Length > 0
      ensures r == GetIn(view, key)
    {
      var b := HashKey(key);
      assert Holds(b);
      if buckets[b].length == 0 {
        NoMatch(view[b], key);
        return Hole;
      }
      var i := FindMatch(b, key);
      r := if i >= 0 then buckets[b].slots[i] else Hole;
    }

    /** `tablec_del` */
    method Del(key: Key)
      requires Valid() && buckets.Length > 0
      modifies this, repr
      ensures Valid() && buckets == old(buckets) && repr == old(repr) && view == DelIn(old(view), key)
    {
      var b := HashKey(key);
      assert Holds(b);
      ghost var s := view[b];
      assert view[b := s] == view;
      if buckets[b].length == 0 {
        NoMatch(s, key);
        return;
      }
      var i := FindMatch(b, key);
      if i >= 0 {
        assert Good(DelIn(view, key)) by {
          DelRemovesOne(view, key);
        }
        DelIsFill(s, key);
        length := Less(length);
        Fill(b, i, Hole, buckets[b].length - 1);
      }
    }
  }

  lemma SetIsFill<V>(s: seq<Slot<V>>, key: Key, value: V)
    requires |s| > 0
    ensures |Pairs(Set(s, key, value))| == |Pairs(s)| + 1
    ensures Place(s) < |s| ==> Set(s, key, value) == s[Place(s) := Full(key, value)]
  {
    SetAdds(s, key, value);
  }

  lemma DelIsFill<V>(s: seq<Slot<V>>, key: Key)
    requires TopMatch(s, key) >= 0
    ensures |Pairs(s[TopMatch(s, key) := Hole])| == |Pairs(s)| - 1
  {
    DelRemoves(s, key);
  }

  lemma NoMatch<V>(s: seq<Slot<V>>, key: Key)
    requires |Pairs(s)| == 0
    ensures TopMatch(s, key) == -1
  {
    assert Pairs(s) == multiset{};
    if TopMatch(s, key) >= 0 {
      EmptyBucket(s, TopMatch(s, key));
    }
  }

  lemma TopHoleIs<V>(s: seq<Slot<V>>, i: int)
    requires -1 <= i < |s| && (0 <= i ==> s[i].Hole?) && forall j | i < j < |s| :: s[j].Full?
    ensures TopHole(s) == i
  {}

  /** A bucket without a hole holds as many pairs as it has slots. */
  lemma {:induction false} FullBucket<V>(s: seq<Slot<V>>)
    requires forall i | 0 <= i < |s| :: s[i].Full?
    ensures |Pairs(s)| == |s|
  {
    if s != [] {
      FullBucket(s[..|s| - 1]);
    }
  }
}
