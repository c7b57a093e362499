/** What the file system keeps true, over every run of its operations, and what each operation achieves. */
module FsTheorems {
  import opened Bytes
  import opened Layout
  import opened Links
  import opened FsModel

  // ---------------------------------------------------------------- 16-bit block arithmetic

  /** The C expression for the blocks to add, in 16-bit unsigned arithmetic. */
  function WrappedTotal(length: word, offset: word, have: nat): word
    requires have <= POINTERS_PER_INODE
  {
    var offsetAllocations := (offset / BLOCK_SIZE + 1 - have) % WORD_SIZE;
    var room := BLOCK_SIZE - offset % BLOCK_SIZE;
    var lengthAllocations := if length <= room then 0 else (length - room) / BLOCK_SIZE + 1;
    (offsetAllocations + lengthAllocations) % WORD_SIZE
  }

  /** The number of blocks needed, in closed form. */
  lemma {:induction false} NeededFormula(length: nat, offset: nat)
    ensures var room := BLOCK_SIZE - offset % BLOCK_SIZE;
      Needed(length, offset) ==
        offset / BLOCK_SIZE + 1 + (if length <= room then 0 else (length - room) / BLOCK_SIZE + 1)
    decreases length, offset
  {
    if offset >= BLOCK_SIZE {
      NeededFormula(length, offset - BLOCK_SIZE);
    } else if length > BLOCK_SIZE - offset {
      OverflowFormula(length - (BLOCK_SIZE - offset));
    }
  }

  lemma {:induction false} OverflowFormula(n: nat)
    ensures Overflow(n) == n / BLOCK_SIZE + 1
  {
    if n >= BLOCK_SIZE {
      OverflowFormula(n - BLOCK_SIZE);
    }
  }

  lemma {:induction false} InBlockFormula(offset: nat)
    ensures InBlock(offset) == offset % BLOCK_SIZE
  {
    if offset >= BLOCK_SIZE {
      InBlockFormula(offset - BLOCK_SIZE);
    }
  }

  /** The wrapped sum still decides "too many blocks" correctly, but it is the number of blocks to add
      exactly when the write needs at least the blocks the file has; otherwise it is huge. */
  lemma WrappedArithmetic(length: word, offset: word, have: nat)
    requires 1 <= have <= POINTERS_PER_INODE
    ensures var n, total := Needed(length, offset), WrappedTotal(length, offset, have);
      && ((total + have) % WORD_SIZE > POINTERS_PER_INODE <==> n > POINTERS_PER_INODE)
      && (total == n - have <==> n >= have)
      && (n < have ==> total == WORD_SIZE - (have - n) > BLOCK_NUM)
  {
    NeededFormula(length, offset);
    var n := Needed(length, offset);
    var a, l := offset / BLOCK_SIZE + 1, n - (offset / BLOCK_SIZE + 1);
    assert 1 <= a <= 128 && 0 <= l <= 128;
    if a >= have {
      assert (a - have) % WORD_SIZE == a - have;
    } else {
      assert (a - have) % WORD_SIZE == WORD_SIZE + a - have;
    }
  }

  /** A file of three blocks and a write that fits in one: the loop bound is 65534. */
  lemma ShrinkingWriteWraps()
    ensures Needed(10, 0) == 1 && WrappedTotal(10, 0, 3) == 65534
  {
    WrappedArithmetic(10, 0, 3);
  }

  /** The blocks needed cover the write, with at most one to spare; so do they from the offset within its
      block, which is where the data goes. */
  lemma NeededCovers(length: nat, offset: nat)
    ensures var n := Needed(length, offset);
      && offset + length <= BLOCK_SIZE * n
      && InBlock(offset) + length <= BLOCK_SIZE * n
      && (length > 0 ==> BLOCK_SIZE * (n - 2) < offset + length)
  {
    NeededFormula(length, offset);
  }

  // ---------------------------------------------------------------- free lists

  /** `fs_find_empty_block` returns the head of the free list, and clearing it leaves the tail. */
  lemma {:induction false} TakeHead(free: seq<bool>, lo: nat)
    requires |free| == BLOCK_NUM && lo <= BLOCK_NUM && FreeFrom(free, lo) != []
    ensures var b := FreeFrom(free, lo)[0];
      b in FreeFrom(free, lo) && FreeFrom(free[b := false], lo) == FreeFrom(free, lo)[1..]
    decreases BLOCK_NUM - lo
  {
    var list := FreeFrom(free, lo);
    var b := list[0];
    assert b in list;
    if free[lo] {
      var free' := free[lo := false];
      SameFrom(free, free', lo + 1);
      assert list[1..] == FreeFrom(free, lo + 1) == FreeFrom(free', lo);
    } else {
      TakeHead(free, lo + 1);
      assert !free[b := false][lo];
    }
  }

  lemma {:induction false} SameFrom(f: seq<bool>, g: seq<bool>, lo: nat)
    requires |f| == |g| == BLOCK_NUM && lo <= BLOCK_NUM
    requires forall b | lo <= b < BLOCK_NUM :: f[b] == g[b]
    ensures FreeFrom(f, lo) == FreeFrom(g, lo)
    decreases BLOCK_NUM - lo
  {
    if lo < BLOCK_NUM {
      SameFrom(f, g, lo + 1);
    }
  }

  lemma InPrefix(list: seq<uint32>, i: nat, c: uint32)
    requires i < |list|
    ensures c in list[..i + 1] <==> c in list[..i] || c == list[i]
  {
    assert list[..i + 1] == list[..i] + [list[i]];
  }

  lemma TakeOneMore(free: seq<bool>, i: nat)
    requires |free| == BLOCK_NUM && i < |FreeList(free)|
    ensures FreeList(free)[i] < BLOCK_NUM
    ensures Take(free, i + 1) == Take(free, i)[FreeList(free)[i] := false]
  {
    var list := FreeList(free);
    assert list[i] in list;
    var before, after := Take(free, i), Take(free, i + 1);
    forall c | 0 <= c < BLOCK_NUM ensures after[c] == before[list[i] := false][c] {
      InPrefix(list, i, c);
    }
  }

  /** One more iteration of the allocation loop. */
  lemma TakeStep(free: seq<bool>, i: nat)
    requires |free| == BLOCK_NUM && i < |FreeList(free)|
    requires FreeList(Take(free, i)) == FreeList(free)[i..]
    ensures FreeList(Take(free, i + 1)) == FreeList(free)[i + 1..]
  {
    TakeOneMore(free, i);
    TakeHead(Take(free, i), 0);
    assert FreeList(free)[i..][1..] == FreeList(free)[i + 1..];
  }

  lemma {:induction false} TakeLeaves(free: seq<bool>, i: nat)
    requires |free| == BLOCK_NUM && i <= |FreeList(free)|
    ensures FreeList(Take(free, i)) == FreeList(free)[i..]
  {
    if i == 0 {
      SameFrom(free, Take(free, 0), 0);
    } else {
      TakeLeaves(free, i - 1);
      TakeStep(free, i - 1);
    }
  }

  lemma TakeFirst(free: seq<bool>)
    requires |free| == BLOCK_NUM && FreeList(free) != []
    ensures FreeList(free)[0] < BLOCK_NUM && Take(free, 1) == free[FreeList(free)[0] := false]
  {
    TakeOneMore(free, 0);
    assert Take(free, 0) == free;
  }

  lemma NothingLeft(free: seq<bool>)
    requires |free| == BLOCK_NUM && FreeList(free) == []
    ensures free == NoneFree()
  {
    forall b | 0 <= b < BLOCK_NUM ensures !free[b] {
      assert b !in FreeList(free);
    }
  }

  // ---------------------------------------------------------------- counting: 10 x 5 < 58

  /** The pointers stored in the first m of the 50 pointer slots. */
  ghost function Used(v: Volume, m: nat): (u: set<nat>)
    requires v.Sized() && m <= INODES * POINTERS_PER_INODE
    ensures |u| <= m
    ensures forall n | 0 <= n < m :: v.inodes[n / POINTERS_PER_INODE].direct[n % POINTERS_PER_INODE] in u
  {
    if m == 0 then {} else
      Used(v, m - 1) + {v.inodes[(m - 1) / POINTERS_PER_INODE].direct[(m - 1) % POINTERS_PER_INODE] as nat}
  }

  lemma ReferencedIsUsed(v: Volume, b: nat)
    requires v.Sized() && Referenced(v, b)
    ensures b in Used(v, INODES * POINTERS_PER_INODE)
  {
    var k, i :| 0 <= k < INODES && 0 <= i < POINTERS_PER_INODE && Slot(v, k, i) == b;
    var n := k * POINTERS_PER_INODE + i;
    assert n / POINTERS_PER_INODE == k && n % POINTERS_PER_INODE == i;
  }

  ghost function Range(lo: nat, hi: nat): (r: set<nat>)
    requires lo <= hi
    ensures |r| == hi - lo
    ensures forall b :: b in r <==> lo <= b < hi
    decreases hi - lo
  {
    if lo == hi then {} else {lo} + Range(lo + 1, hi)
  }

  ghost function Elements(s: seq<uint32>): (r: set<nat>)
    ensures |r| <= |s|
    ensures forall b: nat :: b in r <==> b in s
  {
    if s == [] then {} else {s[0] as nat} + Elements(s[1..])
  }

  /** There are always at least eight free blocks: the inodes have pointers for at most fifty of 58. */
  lemma EnoughFree(s: Fs)
    requires Coherent(s)
    ensures |FreeList(s.free)| >= 8
  {
    var used, free := Used(s.vol, INODES * POINTERS_PER_INODE), Elements(FreeList(s.free));
    var all := Range(FIRST_DATA_BLOCK, BLOCK_NUM);
    forall b | b in all ensures b in used + free {
      if Referenced(s.vol, b) {
        ReferencedIsUsed(s.vol, b);
      } else {
        assert s.free[b];
        assert b in FreeList(s.free);
      }
    }
    SubsetSize(all, used + free);
    assert |used + free| <= |used| + |free|;
  }

  lemma {:induction false} SubsetSize(a: set<nat>, b: set<nat>)
    requires a <= b
    ensures |a| <= |b|
    decreases |a|
  {
    if a != {} {
      var x :| x in a;
      SubsetSize(a - {x}, b - {x});
    }
  }

  // ---------------------------------------------------------------- growing one inode

  /** A list of distinct data blocks. */
  predicate GoodPtrs(ptrs: seq<uint32>) {
    && (forall i | 0 <= i < |ptrs| :: FIRST_DATA_BLOCK <= ptrs[i] < BLOCK_NUM)
    && (forall i, j | 0 <= i < j < |ptrs| :: ptrs[i] != ptrs[j])
  }

  lemma IndexOfDistinct(ptrs: seq<uint32>, i: nat)
    requires GoodPtrs(ptrs) && i < |ptrs|
    ensures IndexOf(ptrs, ptrs[i]) == i
  {}

  /** A good inode's pointers are a list of data blocks followed by zeros. */
  lemma PtrsOfInode(v: Volume, k: nat)
    requires Good(v) && k < INODES
    ensures var x := v.inodes[k];
      && GoodPtrs(Ptrs(x)) && x.direct == Pad(Ptrs(x))
      && (x.valid != 0 <==> Ptrs(x) != [])
      && forall i | 0 <= i < |Ptrs(x)| :: Referenced(v, Ptrs(x)[i])
  {
    var x := v.inodes[k];
    assert GoodInode(x);
    var ptrs := Ptrs(x);
    forall i | 0 <= i < |ptrs| ensures Referenced(v, ptrs[i]) {
      assert Slot(v, k, i) == ptrs[i];
    }
    forall i, j | 0 <= i < j < |ptrs| ensures ptrs[i] != ptrs[j] {
      assert Slot(v, k, i) == ptrs[i] && Slot(v, k, j) == ptrs[j];
    }
  }

  lemma FreeAt(s: Fs, i: nat)
    requires Safe(s) && i < |FreeList(s.free)|
    ensures var b := FreeList(s.free)[i]; FIRST_DATA_BLOCK <= b < BLOCK_NUM && !Referenced(s.vol, b)
  {
    assert FreeList(s.free)[i] in FreeList(s.free);
  }

  lemma GrownPtrsGood(s: Fs, k: nat, n: nat)
    requires Safe(s) && k < INODES && n <= |FreeList(s.free)|
    ensures GoodPtrs(GrownPtrs(s, k, n))
  {
    var held, list := Ptrs(s.vol.inodes[k]), FreeList(s.free);
    PtrsOfInode(s.vol, k);
    forall i | 0 <= i < n ensures FIRST_DATA_BLOCK <= list[i] < BLOCK_NUM && list[i] !in held {
      FreeAt(s, i);
    }
    AppendGoodPtrs(held, list[..n]);
  }

  lemma AppendGoodPtrs(a: seq<uint32>, b: seq<uint32>)
    requires GoodPtrs(a) && GoodPtrs(b) && forall j | 0 <= j < |b| :: b[j] !in a
    ensures GoodPtrs(a + b)
  {
    forall i, j | 0 <= i < j < |a + b| ensures (a + b)[i] != (a + b)[j] {
      if i < |a| <= j { assert a[i] in a; }
    }
  }

  predicate SameButInode(v: Volume, k: nat, x: Inode, v': Volume) {
    v.Sized() && k < INODES && x.Fits() && WellSized(v'.data) && v' == Volume(v.super, v.inodes[k := x], v'.data)
  }

  /** A block is referenced afterwards iff it was before or was just added. */
  lemma ReferencedAfter(v: Volume, k: nat, held: seq<uint32>, more: seq<uint32>, x: Inode, v': Volume, b: nat)
    requires SameButInode(v, k, x, v') && |held + more| <= POINTERS_PER_INODE && b != 0
    requires v.inodes[k].direct == Pad(held) && x.direct == Pad(held + more)
    ensures Referenced(v', b) <==> Referenced(v, b) || b in more
  {
    if Referenced(v', b) {
      var m, i :| 0 <= m < INODES && 0 <= i < POINTERS_PER_INODE && Slot(v', m, i) == b;
      if m == k && i >= |held| {
        assert more[i - |held|] == b;
      } else {
        assert Slot(v, m, i) == b;
      }
    }
    if Referenced(v, b) {
      var m, i :| 0 <= m < INODES && 0 <= i < POINTERS_PER_INODE && Slot(v, m, i) == b;
      assert Slot(v', m, i) == b;
    }
    if b in more {
      var j :| 0 <= j < |more| && more[j] == b;
      assert Slot(v', k, |held| + j) == b;
    }
  }

  lemma DisjointAfter(v: Volume, k: nat, held: seq<uint32>, more: seq<uint32>, x: Inode, v': Volume)
    requires SameButInode(v, k, x, v') && Disjoint(v) && |held + more| <= POINTERS_PER_INODE
    requires v.inodes[k].direct == Pad(held) && x.direct == Pad(held + more) && GoodPtrs(held + more)
    requires forall j | 0 <= j < |more| :: !Referenced(v, more[j])
    ensures v'.Sized() && Disjoint(v')
  {
    forall a, i, m, j | && 0 <= a < INODES && 0 <= m < INODES
                        && 0 <= i < POINTERS_PER_INODE && 0 <= j < POINTERS_PER_INODE
                        && Slot(v', a, i) == Slot(v', m, j) != 0
      ensures a == m && i == j
    {
      if a == k && m == k {
        assert Slot(v', a, i) == (held + more)[i] && Slot(v', m, j) == (held + more)[j];
      } else if a == k {
        OtherSlot(v, k, held, more, x, v', i, m, j);
      } else if m == k {
        OtherSlot(v, k, held, more, x, v', j, a, i);
      } else {
        assert Slot(v, a, i) == Slot(v', a, i) && Slot(v, m, j) == Slot(v', m, j);
      }
    }
  }

  lemma OtherSlot(v: Volume, k: nat, held: seq<uint32>, more: seq<uint32>, x: Inode, v': Volume,
                  i: nat, m: nat, j: nat)
    requires SameButInode(v, k, x, v') && Disjoint(v) && |held + more| <= POINTERS_PER_INODE
    requires v.inodes[k].direct == Pad(held) && x.direct == Pad(held + more)
    requires forall j | 0 <= j < |more| :: !Referenced(v, more[j])
    requires m < INODES && m != k && i < POINTERS_PER_INODE && j < POINTERS_PER_INODE && Slot(v', k, i) != 0
    ensures Slot(v', k, i) != Slot(v', m, j)
  {
    assert Slot(v', m, j) == Slot(v, m, j);
    if i < |held| {
      assert Slot(v', k, i) == Slot(v, k, i);
    } else {
      assert Slot(v', k, i) == more[i - |held|];
    }
  }

  /** Giving inode k the first n free blocks keeps the volume good and the free map sound, and exact if it
      was exact. This is all that `fs_create` and `fs_write` do to the inode table. */
  lemma GrowKeeps(s: Fs, k: nat, n: nat, x: Inode, v': Volume)
    requires Safe(s) && SameButInode(s.vol, k, x, v') && n <= |FreeList(s.free)|
    requires 1 <= |GrownPtrs(s, k, n)| <= POINTERS_PER_INODE && x.direct == Pad(GrownPtrs(s, k, n))
    requires x.valid != 0 && x.size <= BLOCK_SIZE * |GrownPtrs(s, k, n)|
    ensures Safe(Fs(v', Take(s.free, n)))
    ensures Coherent(s) ==> Coherent(Fs(v', Take(s.free, n)))
  {
    var held, more := Ptrs(s.vol.inodes[k]), FreeList(s.free)[..n];
    GrownPtrsGood(s, k, n);
    PtrsOfInode(s.vol, k);
    forall j | 0 <= j < |more| ensures !Referenced(s.vol, more[j]) { FreeAt(s, j); }
    DisjointAfter(s.vol, k, held, more, x, v');
    GrownInodeGood(x, held + more);
    forall m | 0 <= m < INODES ensures GoodInode(v'.inodes[m]) {}
    var s' := Fs(v', Take(s.free, n));
    forall b | 0 <= b < BLOCK_NUM
      ensures s'.free[b] ==> FIRST_DATA_BLOCK <= b && !Referenced(v', b)
      ensures Coherent(s) ==> s'.free[b] == FreeMap(v')[b]
    {
      if FIRST_DATA_BLOCK <= b {
        ReferencedAfter(s.vol, k, held, more, x, v', b);
      }
    }
  }

  lemma FirstZeroUnique(direct: seq<uint32>, n: nat)
    requires n <= |direct| && (n < |direct| ==> direct[n] == 0)
    requires forall i | 0 <= i < n :: direct[i] != 0
    ensures PtrCount(direct) == n
  {}

  lemma GrownInodeGood(x: Inode, ptrs: seq<uint32>)
    requires 1 <= |ptrs| <= POINTERS_PER_INODE && GoodPtrs(ptrs) && x.Fits() && x.direct == Pad(ptrs)
    requires x.valid != 0 && x.size <= BLOCK_SIZE * |ptrs|
    ensures GoodInode(x) && Ptrs(x) == ptrs
  {
    FirstZeroUnique(x.direct, |ptrs|);
  }
}
