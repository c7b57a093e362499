/**
 The file system as operations on a volume (inode table and data blocks) and the in-memory map of free
 blocks. FileSystem.dfy proves that the block-by-block code does exactly this to the bytes on disk;
 FsTheorems.dfy says what it is good for.
 */
module FsModel {
  import opened Bytes
  import opened Layout
  import opened Hosts
  import opened Links

  const BLOCK_NUM: nat := 64
  const INODE_BLOCKS: nat := 5
  const FIRST_INODE_BLOCK: nat := 1
  const FIRST_DATA_BLOCK: nat := 6
  const INODES: nat := 10
  const WORD_SIZE: nat := 0x1_0000

  /** What the blocks on disk mean. `data` has one entry a sector; those before the first data block are
      not file data and stay zero. */
  datatype Volume = Volume(super: Super, inodes: seq<Inode>, data: Blocks)
  {
    predicate Sized() {
      |inodes| == INODES && WellSized(data) && forall k | 0 <= k < INODES :: inodes[k].Fits()
    }
  }

  /** The volume, and the cached map of its free blocks. */
  datatype Fs = Fs(vol: Volume, free: seq<bool>)
  {
    predicate Sized() { vol.Sized() && |free| == BLOCK_NUM }
  }

  /** How many pointers come before the first zero: `direct_pointers_len`. */
  function PtrCount(direct: seq<uint32>): (n: nat)
    ensures n <= |direct|
    ensures forall i | 0 <= i < n :: direct[i] != 0
    ensures n < |direct| ==> direct[n] == 0
  {
    if direct == [] || direct[0] == 0 then 0 else 1 + PtrCount(direct[1..])
  }

  /** The pointers an inode uses. */
  function Ptrs(x: Inode): seq<uint32> { x.direct[..PtrCount(x.direct)] }

  // ---------------------------------------------------------------- free blocks

  /** The numbers of the free blocks from lo on, ascending. */
  function FreeFrom(free: seq<bool>, lo: nat): (list: seq<uint32>)
    requires |free| == BLOCK_NUM && lo <= BLOCK_NUM
    ensures forall b :: b in list <==> lo <= b < BLOCK_NUM && free[b]
    ensures forall i, j | 0 <= i < j < |list| :: list[i] < list[j]
    ensures |list| <= BLOCK_NUM - lo
    decreases BLOCK_NUM - lo
  {
    if lo == BLOCK_NUM then [] else
    var rest := FreeFrom(free, lo + 1);
    assert forall j | 0 <= j < |rest| :: rest[j] in rest;
    if free[lo] then [lo] + rest else rest
  }

  function FreeList(free: seq<bool>): seq<uint32>
    requires |free| == BLOCK_NUM
  {
    FreeFrom(free, 0)
  }

  /** The map once the first n free blocks are taken. */
  function Take(free: seq<bool>, n: nat): (free': seq<bool>)
    requires |free| == BLOCK_NUM && n <= |FreeList(free)|
    ensures |free'| == BLOCK_NUM
  {
    seq(BLOCK_NUM, b requires 0 <= b < BLOCK_NUM => free[b] && b !in FreeList(free)[..n])
  }

  function NoneFree(): (free: seq<bool>)
    ensures |free| == BLOCK_NUM
  {
    seq(BLOCK_NUM, b => false)
  }

  /** The i-th pointer of inode k. */
  function Slot(v: Volume, k: nat, i: nat): uint32
    requires v.Sized() && k < INODES && i < POINTERS_PER_INODE
  {
    v.inodes[k].direct[i]
  }

  predicate Referenced(v: Volume, b: nat)
    requires v.Sized()
  {
    exists k, i | 0 <= k < INODES && 0 <= i < POINTERS_PER_INODE :: Slot(v, k, i) == b
  }

  /** The map `fs_get_blocks_bitmap` builds from the inodes. */
  function FreeMap(v: Volume): (free: seq<bool>)
    requires v.Sized()
    ensures |free| == BLOCK_NUM
  {
    seq(BLOCK_NUM, b requires 0 <= b < BLOCK_NUM => FIRST_DATA_BLOCK <= b && !Referenced(v, b))
  }

  // ---------------------------------------------------------------- data placement

  function IndexOf(ptrs: seq<uint32>, b: nat): (i: int)
    ensures -1 <= i < |ptrs|
    ensures i >= 0 ==> ptrs[i] == b
    ensures i < 0 ==> b !in ptrs
  {
    if ptrs == [] then -1 else if ptrs[0] == b then 0 else
    var i := IndexOf(ptrs[1..], b);
    if i < 0 then -1 else i + 1
  }

  /** Byte p of a file holding `was` there, after `data` is laid over the file from byte `at` on. */
  function Over(was: byte, p: nat, data: seq<byte>, at: nat): byte {
    if at <= p < at + |data| then data[p - at] else was
  }

  /** The i-th block of a file after `data` is laid over the file from byte `at` on. */
  function Patched(block: seq<byte>, i: nat, data: seq<byte>, at: nat): (r: seq<byte>)
    requires |block| == BLOCK_SIZE
    ensures |r| == BLOCK_SIZE
  {
    seq(BLOCK_SIZE, q requires 0 <= q < BLOCK_SIZE => Over(block[q], BLOCK_SIZE * i + q, data, at))
  }

  function PatchedAt(blocks: Blocks, ptrs: seq<uint32>, data: seq<byte>, at: nat, b: nat): (r: seq<byte>)
    requires WellSized(blocks) && b < SECTORS
    ensures |r| == BLOCK_SIZE
  {
    var i := IndexOf(ptrs, b);
    if i < 0 then blocks[b] else Patched(blocks[b], i, data, at)
  }

  /** The disk after `data` is laid over the concatenation of the blocks `ptrs`, from byte `at` on. */
  function Place(blocks: Blocks, ptrs: seq<uint32>, data: seq<byte>, at: nat): (r: Blocks)
    requires WellSized(blocks)
    ensures WellSized(r)
  {
    seq(SECTORS, b requires 0 <= b < SECTORS => PatchedAt(blocks, ptrs, data, at, b))
  }

  // ---------------------------------------------------------------- the operations

  /** Blocks a file needs for `length` bytes written at `offset`: one for each whole block skipped, the
      block the write begins in, and one more for every block begun, or just filled, after that. */
  function Needed(length: nat, offset: nat): (n: nat)
    ensures n >= 1
    decreases length, offset
  {
    if offset >= BLOCK_SIZE then 1 + Needed(length, offset - BLOCK_SIZE)
    else if length <= BLOCK_SIZE - offset then 1
    else 1 + Overflow(length - (BLOCK_SIZE - offset))
  }

  function Overflow(n: nat): (k: nat)
    ensures k >= 1
  {
    if n < BLOCK_SIZE then 1 else 1 + Overflow(n - BLOCK_SIZE)
  }

  /** An offset within its block. */
  function InBlock(offset: nat): (rel: nat)
    ensures rel < BLOCK_SIZE && rel <= offset
  {
    if offset < BLOCK_SIZE then offset else InBlock(offset - BLOCK_SIZE)
  }

  const SUPER: Super := Super(MAGIC_NUMBER, BLOCK_NUM, INODE_BLOCKS, 0)

  function BlankInode(): (x: Inode)
    ensures x.Fits()
  {
    Inode(Zeros(INODE_NAME_MAX), 0, 0, [0, 0, 0, 0, 0], 0)
  }

  function Format(v: Volume): (v': Volume)
    requires v.Sized()
    ensures v'.Sized()
  {
    Volume(SUPER, seq(INODES, k => BlankInode()), v.data)
  }

  function Mount(v: Volume): (s: Fs)
    requires v.Sized()
    ensures s.Sized()
  {
    Fs(v, FreeMap(v))
  }

  /** The least invalid inode from k on; INODES when there is none. */
  function FirstInvalid(inodes: seq<Inode>, k: nat): (r: nat)
    requires |inodes| == INODES && k <= INODES
    ensures k <= r <= INODES
    ensures forall m | k <= m < r :: inodes[m].valid != 0
    ensures r < INODES ==> inodes[r].valid == 0
    decreases INODES - k
  {
    if k == INODES || inodes[k].valid == 0 then k else FirstInvalid(inodes, k + 1)
  }

  const ROOT: seq<byte> := [0x72, 0x6F, 0x6F, 0x74]  // "root", stored without its terminator

  function Fresh(x: Inode, b: uint32): (x': Inode)
    requires x.Fits()
    ensures x'.Fits()
  {
    Inode(ROOT + x.name[|ROOT|..], 1, 0, [b, 0, 0, 0, 0], x.kind)
  }

  function Create(s: Fs): (r: (int, Fs))
    requires s.Sized()
    ensures r.1.Sized()
  {
    var k, list := FirstInvalid(s.vol.inodes, 0), FreeList(s.free);
    if k == INODES || list == [] || list[0] == 0 then (-1, s)
    else (k as int, Fs(Volume(s.vol.super, s.vol.inodes[k := Fresh(s.vol.inodes[k], list[0])], s.vol.data),
                Take(s.free, 1)))
  }

  function Pad(ptrs: seq<uint32>): (direct: seq<uint32>)
    requires |ptrs| <= POINTERS_PER_INODE
    ensures |direct| == POINTERS_PER_INODE
  {
    seq(POINTERS_PER_INODE, i requires 0 <= i < POINTERS_PER_INODE => if i < |ptrs| then ptrs[i] else 0)
  }

  function Grown(x: Inode, ptrs: seq<uint32>, size: uint32): (x': Inode)
    requires x.Fits() && |ptrs| <= POINTERS_PER_INODE
    ensures x'.Fits()
  {
    Inode(x.name, x.valid, size, Pad(ptrs), x.kind)
  }

  /** The file has a block, and the write needs at least the blocks the file has, at most five, and no
      more new ones than are free. */
  predicate Suits(s: Fs, k: nat, length: nat, offset: nat)
    requires s.Sized() && k < INODES
  {
    var have, n := PtrCount(s.vol.inodes[k].direct), Needed(length, offset);
    0 < have <= n <= POINTERS_PER_INODE && n - have <= |FreeList(s.free)|
  }

  /** The pointers of inode k, extended by the first n free blocks. */
  function GrownPtrs(s: Fs, k: nat, n: nat): seq<uint32>
    requires s.Sized() && k < INODES && n <= |FreeList(s.free)|
  {
    Ptrs(s.vol.inodes[k]) + FreeList(s.free)[..n]
  }

  /** After a write that suits: data is placed from the start of the file, at `offset` within a block. */
  function Written(s: Fs, k: nat, data: seq<byte>, offset: word): (s': Fs)
    requires s.Sized() && k < INODES && |data| < WORD_SIZE && Suits(s, k, |data|, offset)
    ensures s'.Sized()
  {
    var more := Needed(|data|, offset) - PtrCount(s.vol.inodes[k].direct);
    var ptrs := GrownPtrs(s, k, more);
    Fs(Volume(s.vol.super, s.vol.inodes[k := Grown(s.vol.inodes[k], ptrs, offset + |data|)],
              Place(s.vol.data, ptrs, data, InBlock(offset))),
       Take(s.free, more))
  }

  /** `fs_write`. When the file has more blocks than the write needs, the wrapped count makes the
      allocation loop take every free block before it gives up; so does a write that really runs out. */
  function Write(s: Fs, k: nat, data: seq<byte>, offset: word): (r: (int, Fs))
    requires s.Sized() && k < INODES && |data| < WORD_SIZE
    ensures r.1.Sized()
  {
    if PtrCount(s.vol.inodes[k].direct) == 0 then (-2, s)
    else if Needed(|data|, offset) > POINTERS_PER_INODE then (-3, s)
    else if !Suits(s, k, |data|, offset) then (-4, Fs(s.vol, NoneFree()))
    else (0, Written(s, k, data, offset))
  }

  function Min(a: int, b: int): int { if a <= b then a else b }

  function Stat(v: Volume, k: nat): int
    requires v.Sized() && k < INODES
  {
    if v.inodes[k].valid == 0 then -1 else v.inodes[k].size
  }

  // ---------------------------------------------------------------- what is true of every volume in use

  predicate GoodInode(x: Inode) {
    && x.Fits()
    && (x.valid == 0 <==> x.direct[0] == 0)
    && (forall i | 0 <= i < POINTERS_PER_INODE && x.direct[i] != 0 :: FIRST_DATA_BLOCK <= x.direct[i] < BLOCK_NUM)
    && (forall i, j | 0 <= i < j < POINTERS_PER_INODE && x.direct[i] == 0 :: x.direct[j] == 0)
    && x.size <= BLOCK_SIZE * PtrCount(x.direct)
  }

  /** No block belongs to two files, or twice to one. */
  predicate Disjoint(v: Volume)
    requires v.Sized()
  {
    forall k, i, m, j |
      && 0 <= k < INODES && 0 <= m < INODES && 0 <= i < POINTERS_PER_INODE && 0 <= j < POINTERS_PER_INODE
      && Slot(v, k, i) == Slot(v, m, j) != 0 :: k == m && i == j
  }

  predicate Good(v: Volume) {
    && v.Sized()
    && v.super == SUPER
    && (forall k | 0 <= k < INODES :: GoodInode(v.inodes[k]))
    && Disjoint(v)
  }

  /** `fs_read` into a buffer. `offset` has no effect, and the destination pointer never moves, so at most
      one block's worth of the buffer is filled. */
  function Read(v: Volume, k: nat, buf: seq<byte>, length: word): (r: (int, seq<byte>))
    requires Good(v) && k < INODES && length <= |buf|
    ensures |r.1| == |buf|
  {
    var x := v.inodes[k];
    if x.valid == 0 || x.size == 0 then (0, buf)
    else if x.size < length then (-3, buf)
    else (0, Splice(buf, 0, v.data[x.direct[0]][..Min(BLOCK_SIZE, length)]))
  }

  /** A block marked free is a data block no inode refers to. */
  predicate Safe(s: Fs) {
    && Good(s.vol) && |s.free| == BLOCK_NUM
    && forall b | 0 <= b < BLOCK_NUM && s.free[b] :: FIRST_DATA_BLOCK <= b && !Referenced(s.vol, b)
  }

  /** The cached map is the one mounting would build. */
  predicate Coherent(s: Fs) {
    Good(s.vol) && s.free == FreeMap(s.vol)
  }
}
