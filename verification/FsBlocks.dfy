/** How the volume is laid out in the blocks of a disk. */
module FsBlocks {
  import opened Bytes
  import opened Layout
  import opened Hosts
  import opened Links
  import opened FsModel
  import opened FsTheorems
  import opened FsRuns

  function InodeBlock(k: nat): nat { FIRST_INODE_BLOCK + k / INODES_PER_BLOCK }

  function InodeAt(blocks: Blocks, k: nat): (x: Inode)
    requires WellSized(blocks) && k < INODES
    ensures x.Fits()
  {
    GetInode(blocks[InodeBlock(k)], k % INODES_PER_BLOCK)
  }

  function DataBlock(blocks: Blocks, b: nat): (block: seq<byte>)
    requires WellSized(blocks) && b < SECTORS
    ensures |block| == BLOCK_SIZE
  {
    if b < FIRST_DATA_BLOCK then Zeros(BLOCK_SIZE) else blocks[b]
  }

  function DataOf(blocks: Blocks): (data: Blocks)
    requires WellSized(blocks)
    ensures WellSized(data)
  {
    seq(SECTORS, b requires 0 <= b < SECTORS => DataBlock(blocks, b))
  }

  function InodesOf(blocks: Blocks): (inodes: seq<Inode>)
    requires WellSized(blocks)
    ensures |inodes| == INODES && forall k | 0 <= k < INODES :: inodes[k].Fits()
  {
    seq(INODES, k requires 0 <= k < INODES => InodeAt(blocks, k))
  }

  /** What the bytes on disk mean. */
  function VolumeOf(blocks: Blocks): (v: Volume)
    requires WellSized(blocks)
    ensures v.Sized()
  {
    Volume(GetSuper(blocks[0]), InodesOf(blocks), DataOf(blocks))
  }

  /** The j-th inode of inode block i. */
  lemma InodeInBlock(blocks: Blocks, i: nat, j: nat)
    requires WellSized(blocks) && FIRST_INODE_BLOCK <= i < FIRST_DATA_BLOCK && j < INODES_PER_BLOCK
    ensures var k := INODES_PER_BLOCK * (i - FIRST_INODE_BLOCK) + j;
      && InodeBlock(k) == i && k % INODES_PER_BLOCK == j
      && VolumeOf(blocks).inodes[k] == GetInode(blocks[i], j)
  {
  }

  /** The search of `fs_create` moves past an inode in use. */
  lemma ScanStep(blocks: Blocks, i: nat, j: nat)
    requires WellSized(blocks) && FIRST_INODE_BLOCK <= i < FIRST_DATA_BLOCK && j < INODES_PER_BLOCK
    ensures var k, inodes := INODES_PER_BLOCK * (i - FIRST_INODE_BLOCK) + j, VolumeOf(blocks).inodes;
      FirstInvalid(inodes, k) == if GetInode(blocks[i], j).valid == 0 then k else FirstInvalid(inodes, k + 1)
  {
    InodeInBlock(blocks, i, j);
  }

  /** The blocks with the j-th inode of inode block i replaced. */
  function PutInodeAt(blocks: Blocks, i: nat, j: nat, x: Inode): (blocks': Blocks)
    requires WellSized(blocks) && i < SECTORS && j < INODES_PER_BLOCK && x.Fits()
    ensures WellSized(blocks')
  {
    blocks[i := PutInode(blocks[i], j, x)]
  }

  /** Writing back a block with one inode changed changes that inode and nothing else. */
  lemma WriteInodeBlock(blocks: Blocks, k: nat, x: Inode)
    requires WellSized(blocks) && k < INODES && x.Fits()
    ensures var n := InodeBlock(k); var v := VolumeOf(blocks);
      VolumeOf(PutInodeAt(blocks, n, k % INODES_PER_BLOCK, x)) == Volume(v.super, v.inodes[k := x], v.data)
  {
    var n := InodeBlock(k);
    var blocks' := PutInodeAt(blocks, n, k % INODES_PER_BLOCK, x);
    forall m | 0 <= m < INODES ensures InodeAt(blocks', m) == if m == k then x else InodeAt(blocks, m) {
      if InodeBlock(m) == n {
        PutGet(blocks[n], k % INODES_PER_BLOCK, x, m % INODES_PER_BLOCK);
      }
    }
  }

  /** The first n blocks are formatted, the others as they were. */
  predicate FormattedBelow(was: Blocks, blocks: Blocks, n: nat)
    requires WellSized(was) && WellSized(blocks) && 0 < n <= FIRST_DATA_BLOCK
  {
    && blocks[0] == PutSuper(Zeros(BLOCK_SIZE), SUPER)
    && (forall b | 0 < b < n :: blocks[b] == Zeros(BLOCK_SIZE))
    && (forall b | n <= b < SECTORS :: blocks[b] == was[b])
  }

  lemma FormattedBlocks(was: Blocks, blocks: Blocks)
    requires WellSized(was) && WellSized(blocks) && FormattedBelow(was, blocks, FIRST_DATA_BLOCK)
    ensures VolumeOf(blocks) == Format(VolumeOf(was))
  {
    SuperRoundTrip(Zeros(BLOCK_SIZE), SUPER);
    forall k | 0 <= k < INODES ensures InodeAt(blocks, k) == BlankInode() {
      ZeroInode(blocks[InodeBlock(k)], k % INODES_PER_BLOCK);
    }
  }

  // ---------------------------------------------------------------- steps of the loops in fs.c

  /** Slot n of the fifty pointer slots, inode by inode. */
  predicate ReferencedBelow(v: Volume, n: nat, b: nat)
    requires v.Sized() && n <= INODES * POINTERS_PER_INODE
  {
    exists k, i | 0 <= k < INODES && 0 <= i < POINTERS_PER_INODE :: POINTERS_PER_INODE * k + i < n && Slot(v, k, i) == b
  }

  /** The map built from the first n slots. */
  predicate MapBelow(bitmap: seq<bool>, v: Volume, n: nat)
    requires v.Sized() && n <= INODES * POINTERS_PER_INODE
  {
    && |bitmap| == BLOCK_NUM
    && forall b | 0 <= b < BLOCK_NUM :: bitmap[b] == (FIRST_DATA_BLOCK <= b && !ReferencedBelow(v, n, b))
  }

  lemma OneMoreSlot(v: Volume, k: nat, i: nat, b: nat)
    requires v.Sized() && k < INODES && i < POINTERS_PER_INODE
    ensures var n := POINTERS_PER_INODE * k + i;
      ReferencedBelow(v, n + 1, b) <==> ReferencedBelow(v, n, b) || Slot(v, k, i) == b
  {
    var n := POINTERS_PER_INODE * k + i;
    if ReferencedBelow(v, n + 1, b) {
      var m, j :| 0 <= m < INODES && 0 <= j < POINTERS_PER_INODE && POINTERS_PER_INODE * m + j < n + 1
                  && Slot(v, m, j) == b;
      assert POINTERS_PER_INODE * m + j == n ==> m == k && j == i;
    }
  }

  /** Clearing the entry of one more slot's block. */
  lemma MapStep(bitmap: seq<bool>, v: Volume, k: nat, i: nat)
    requires v.Sized() && k < INODES && i < POINTERS_PER_INODE && Slot(v, k, i) < BLOCK_NUM
    requires MapBelow(bitmap, v, POINTERS_PER_INODE * k + i)
    ensures MapBelow(bitmap[Slot(v, k, i) := false], v, POINTERS_PER_INODE * k + i + 1)
  {
    var after, n := bitmap[Slot(v, k, i) := false], POINTERS_PER_INODE * k + i + 1;
    forall b | 0 <= b < BLOCK_NUM ensures after[b] == (FIRST_DATA_BLOCK <= b && !ReferencedBelow(v, n, b)) {
      OneMoreSlot(v, k, i, b);
    }
  }

  /** An inode not in use refers to no data block. */
  lemma MapSkip(bitmap: seq<bool>, v: Volume, k: nat)
    requires v.Sized() && k < INODES && GoodInode(v.inodes[k]) && v.inodes[k].valid == 0
    requires MapBelow(bitmap, v, POINTERS_PER_INODE * k)
    ensures MapBelow(bitmap, v, POINTERS_PER_INODE * (k + 1))
  {
    forall b | FIRST_DATA_BLOCK <= b < BLOCK_NUM
      ensures ReferencedBelow(v, POINTERS_PER_INODE * (k + 1), b) <==> ReferencedBelow(v, POINTERS_PER_INODE * k, b)
    {
      OneMoreSlot(v, k, 0, b);
      OneMoreSlot(v, k, 1, b);
      OneMoreSlot(v, k, 2, b);
      OneMoreSlot(v, k, 3, b);
      OneMoreSlot(v, k, 4, b);
    }
  }

  lemma MapDone(bitmap: seq<bool>, v: Volume)
    requires v.Sized() && MapBelow(bitmap, v, INODES * POINTERS_PER_INODE)
    ensures bitmap == FreeMap(v)
  {
    var n := INODES * POINTERS_PER_INODE;
    forall b | 0 <= b < BLOCK_NUM ensures ReferencedBelow(v, n, b) <==> Referenced(v, b) {
      if Referenced(v, b) {
        var k, i :| 0 <= k < INODES && 0 <= i < POINTERS_PER_INODE && Slot(v, k, i) == b;
        assert POINTERS_PER_INODE * k + i < INODES * POINTERS_PER_INODE;
      }
    }
  }

  /** One chunk of the write loop: the part of `data` that falls into the i-th block of the file. */
  lemma PlaceStep(blocks: Blocks, ptrs: seq<uint32>, data: seq<byte>, at: nat, w: nat, n: nat, i: nat, rel: nat)
    requires WellSized(blocks) && GoodPtrs(ptrs) && i < |ptrs| && w + n <= |data|
    requires at + w == BLOCK_SIZE * i + rel && rel + n <= BLOCK_SIZE && rel < BLOCK_SIZE
    ensures var before := Place(blocks, ptrs, data[..w], at);
      Place(blocks, ptrs, data[..w + n], at) ==
        before[ptrs[i] := Splice(before[ptrs[i]], rel, data[w..w + n])]
  {
    var before, after := Place(blocks, ptrs, data[..w], at), Place(blocks, ptrs, data[..w + n], at);
    forall b | 0 <= b < SECTORS && b != ptrs[i] ensures after[b] == before[b] {
      PlaceOther(blocks, ptrs, data, at, w, n, i, rel, b);
    }
    PlaceHere(blocks, ptrs, data, at, w, n, i, rel);
  }

  lemma PlaceOther(blocks: Blocks, ptrs: seq<uint32>, data: seq<byte>, at: nat, w: nat, n: nat, i: nat, rel: nat,
                   b: nat)
    requires WellSized(blocks) && GoodPtrs(ptrs) && i < |ptrs| && w + n <= |data| && b < SECTORS && b != ptrs[i]
    requires at + w == BLOCK_SIZE * i + rel && rel + n <= BLOCK_SIZE && rel < BLOCK_SIZE
    ensures PatchedAt(blocks, ptrs, data[..w + n], at, b) == PatchedAt(blocks, ptrs, data[..w], at, b)
  {
    var j := IndexOf(ptrs, b);
    if j >= 0 {
      var p, q := Patched(blocks[b], j, data[..w], at), Patched(blocks[b], j, data[..w + n], at);
      forall o | 0 <= o < BLOCK_SIZE ensures p[o] == q[o] {}
    }
  }

  lemma PlaceHere(blocks: Blocks, ptrs: seq<uint32>, data: seq<byte>, at: nat, w: nat, n: nat, i: nat, rel: nat)
    requires WellSized(blocks) && GoodPtrs(ptrs) && i < |ptrs| && w + n <= |data|
    requires at + w == BLOCK_SIZE * i + rel && rel + n <= BLOCK_SIZE && rel < BLOCK_SIZE
    ensures PatchedAt(blocks, ptrs, data[..w + n], at, ptrs[i]) ==
      Splice(PatchedAt(blocks, ptrs, data[..w], at, ptrs[i]), rel, data[w..w + n])
  {
    IndexOfDistinct(ptrs, i);
    var block := blocks[ptrs[i]];
    var p, q := Patched(block, i, data[..w], at), Patched(block, i, data[..w + n], at);
    var r := Splice(p, rel, data[w..w + n]);
    forall o | 0 <= o < BLOCK_SIZE ensures q[o] == r[o] {}
  }

  lemma OffsetInBlock(offset: nat, w: nat, i: nat, rel: nat)
    requires InBlock(offset) + w == BLOCK_SIZE * i + rel && rel < BLOCK_SIZE
    ensures (offset + w) % BLOCK_SIZE == rel
  {
    InBlockFormula(offset);
  }

  lemma PlaceNothing(blocks: Blocks, ptrs: seq<uint32>, at: nat)
    requires WellSized(blocks)
    ensures Place(blocks, ptrs, [], at) == blocks
  {
    forall b | 0 <= b < SECTORS ensures PatchedAt(blocks, ptrs, [], at, b) == blocks[b] {
      var i := IndexOf(ptrs, b);
      if i >= 0 { assert Patched(blocks[b], i, [], at) == blocks[b]; }
    }
  }

  /** What `fs_create` does to the bytes and to the map is `Create`. */
  lemma ClaimEffect(blocks: Blocks, free: seq<bool>, i: nat, j: nat)
    requires WellSized(blocks) && |free| == BLOCK_NUM
    requires FIRST_INODE_BLOCK <= i < FIRST_DATA_BLOCK && j < INODES_PER_BLOCK
    requires FirstInvalid(VolumeOf(blocks).inodes, 0) == INODES_PER_BLOCK * (i - FIRST_INODE_BLOCK) + j
    requires FreeList(free) != [] && 0 < FreeList(free)[0] < BLOCK_NUM
    ensures var b, k := FreeList(free)[0], INODES_PER_BLOCK * (i - FIRST_INODE_BLOCK) + j;
      var s' := Fs(VolumeOf(PutInodeAt(blocks, i, j, Fresh(GetInode(blocks[i], j), b))), free[b := false]);
      Create(Fs(VolumeOf(blocks), free)) == (k as int, s')
  {
    var s, b, k := Fs(VolumeOf(blocks), free), FreeList(free)[0], INODES_PER_BLOCK * (i - FIRST_INODE_BLOCK) + j;
    InodeInBlock(blocks, i, j);
    WriteInodeBlock(blocks, k, Fresh(GetInode(blocks[i], j), b));
    TakeFirst(free);
  }

  /** Laying data over data blocks of the disk changes no inode, and the data blocks as `Place` says. */
  lemma PlaceOnDisk(blocks: Blocks, ptrs: seq<uint32>, data: seq<byte>, at: nat)
    requires WellSized(blocks) && GoodPtrs(ptrs)
    ensures var blocks', v := Place(blocks, ptrs, data, at), VolumeOf(blocks);
      && (forall b | 0 <= b < FIRST_DATA_BLOCK :: blocks'[b] == blocks[b])
      && VolumeOf(blocks') == Volume(v.super, v.inodes, Place(v.data, ptrs, data, at))
  {
    var blocks', v := Place(blocks, ptrs, data, at), VolumeOf(blocks);
    forall b | 0 <= b < FIRST_DATA_BLOCK ensures blocks'[b] == blocks[b] {
      assert b !in ptrs;
    }
    assert InodesOf(blocks') == v.inodes;
    forall b | 0 <= b < SECTORS ensures DataOf(blocks')[b] == Place(v.data, ptrs, data, at)[b] {
      if b < FIRST_DATA_BLOCK {
        assert b !in ptrs;
      }
    }
  }

  /** The allocation loop's pointer array once i blocks have been added. */
  predicate Allocated(direct: seq<uint32>, was: seq<uint32>, have: nat, list: seq<uint32>, i: nat)
    requires |was| == POINTERS_PER_INODE && i <= |list|
  {
    && |direct| == POINTERS_PER_INODE
    && forall j | 0 <= j < POINTERS_PER_INODE :: direct[j] == if have <= j < have + i then list[j - have] else was[j]
  }

  lemma AllocatedStep(direct: seq<uint32>, was: seq<uint32>, have: nat, list: seq<uint32>, i: nat)
    requires |was| == POINTERS_PER_INODE && i < |list| && Allocated(direct, was, have, list, i)
    ensures var next := if have + i < POINTERS_PER_INODE then direct[have + i := list[i]] else direct;
      Allocated(next, was, have, list, i + 1)
  {}

  lemma AllocatedAll(direct: seq<uint32>, x: Inode, list: seq<uint32>, i: nat)
    requires GoodInode(x) && i <= |list| && PtrCount(x.direct) + i <= POINTERS_PER_INODE
    requires Allocated(direct, x.direct, PtrCount(x.direct), list, i)
    ensures direct == Pad(Ptrs(x) + list[..i])
  {
    var have := PtrCount(x.direct);
    forall j | 0 <= j < POINTERS_PER_INODE ensures direct[j] == Pad(Ptrs(x) + list[..i])[j] {
      if have + i <= j { assert x.direct[have] == 0; }
    }
  }

  /** A write that got past the size test, with `total` blocks to add: `Write` decides by the free list. */
  predicate Proceeds(s: Fs, k: nat, data: seq<byte>, offset: word, total: nat)
    requires s.Sized() && k < INODES && |data| < WORD_SIZE
  {
    if total > |FreeList(s.free)| then Write(s, k, data, offset) == (-4, Fs(s.vol, NoneFree()))
    else Suits(s, k, |data|, offset) && total == More(s, k, |data|, offset) &&
         Write(s, k, data, offset) == (0, Written(s, k, data, offset))
  }

  /** The tests of `fs_write` pick the case of `Write`. */
  lemma WriteCases(s: Fs, k: nat, data: seq<byte>, offset: word, total: nat)
    requires s.Sized() && k < INODES && |data| < WORD_SIZE
    ensures var n, have := Needed(|data|, offset), PtrCount(s.vol.inodes[k].direct);
      && (have == 0 ==> Write(s, k, data, offset) == (-2, s))
      && (have > 0 && n > POINTERS_PER_INODE ==> Write(s, k, data, offset) == (-3, s))
      && (0 < have && n <= POINTERS_PER_INODE && RightCount(total, n, have) ==> Proceeds(s, k, data, offset, total))
  {}

  /** The number of blocks to add, or when the file has too many already, more than there are. */
  predicate RightCount(total: nat, n: nat, have: nat) {
    if n >= have then total == n - have else total > BLOCK_NUM
  }

  lemma NewPointers(s: Fs, k: nat, data: seq<byte>, offset: word, direct: seq<uint32>)
    requires Safe(s) && k < INODES && |data| < WORD_SIZE && Suits(s, k, |data|, offset)
    requires Allocated(direct, s.vol.inodes[k].direct, PtrCount(s.vol.inodes[k].direct), FreeList(s.free),
                       More(s, k, |data|, offset))
    ensures direct == Pad(GrownPtrs(s, k, More(s, k, |data|, offset)))
  {
    assert GoodInode(s.vol.inodes[k]);
    AllocatedAll(direct, s.vol.inodes[k], FreeList(s.free), More(s, k, |data|, offset));
  }

  /** Data placed and the inode stored, block by block, and on the volume. */
  lemma StoredVolume(blocks: Blocks, k: nat, ptrs: seq<uint32>, data: seq<byte>, at: nat, x: Inode)
    requires WellSized(blocks) && GoodPtrs(ptrs) && k < INODES && x.Fits()
    ensures var v := VolumeOf(blocks);
      VolumeOf(PutInodeAt(Place(blocks, ptrs, data, at), InodeBlock(k), k % INODES_PER_BLOCK, x)) ==
        Volume(v.super, v.inodes[k := x], Place(v.data, ptrs, data, at))
  {
    PlaceOnDisk(blocks, ptrs, data, at);
    WriteInodeBlock(Place(blocks, ptrs, data, at), k, x);
  }

  /** What `fs_write` does to the bytes and to the map, when it gets as far as storing the inode. */
  lemma WriteEffect(blocks: Blocks, free: seq<bool>, k: nat, data: seq<byte>, offset: word)
    requires WellSized(blocks) && Safe(Fs(VolumeOf(blocks), free)) && k < INODES && |data| < WORD_SIZE
    requires Suits(Fs(VolumeOf(blocks), free), k, |data|, offset)
    ensures var s, x, i := Fs(VolumeOf(blocks), free), InodeAt(blocks, k), InodeBlock(k);
      var more := More(s, k, |data|, offset);
      var ptrs := GrownPtrs(s, k, more);
      GoodPtrs(ptrs) && |ptrs| <= POINTERS_PER_INODE && InBlock(offset) + |data| <= BLOCK_SIZE * |ptrs| &&
      Fs(VolumeOf(PutInodeAt(Place(blocks, ptrs, data, InBlock(offset)), i, k % INODES_PER_BLOCK,
                             Grown(x, ptrs, offset + |data|))),
         Take(free, more)) == Written(s, k, data, offset)
  {
    var s := Fs(VolumeOf(blocks), free);
    var more := More(s, k, |data|, offset);
    var ptrs := GrownPtrs(s, k, more);
    GrownPtrsGood(s, k, more);
    NeededCovers(|data|, offset);
    StoredVolume(blocks, k, ptrs, data, InBlock(offset), Grown(InodeAt(blocks, k), ptrs, offset + |data|));
  }
}
