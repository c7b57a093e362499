/**
 The file system code, block by block, over the serial block device. Each method is proved to do to the
 bytes on disk, and to the cached map, what the operation of the same name in FsModel.dfy says.
 */
module FileSystems {
  import opened Bytes
  import opened Frames
  import opened Layout
  import opened Hosts
  import opened Links
  import opened McuDisks
  import opened FsModel
  import opened FsTheorems
  import opened FsBlocks
  import opened FsRuns
  import opened FsHistory

  class FileSystem {
    const disk: McuDisk
    var freeBlocks: array<bool>
    var metaData: Super

    ghost predicate Separate()
      reads this
    {
      this !in disk.Repr() && freeBlocks !in disk.Repr()
    }

    /** The disk is idle, and the cached superblock and map have the right shape. */
    ghost predicate Valid()
      reads this, freeBlocks, disk.Repr()
    {
      Separate() && disk.Device().Holding? && freeBlocks.Length == BLOCK_NUM && metaData == SUPER
    }

    /** The blocks as they are once the host has caught up, and the cached map. */
    ghost function View(): (s: Fs)
      requires Valid()
      reads this, freeBlocks, disk.Repr()
      ensures s.Sized()
    {
      Fs(VolumeOf(disk.Device().blocks), freeBlocks[..])
    }

    /** Mounts the disk. */
    constructor (disk: McuDisk)
      requires disk.Device().Holding? && Good(VolumeOf(disk.Device().blocks))
      modifies disk.Repr()
      ensures Valid() && this.disk == disk && fresh(freeBlocks)
      ensures View() == Mount(old(VolumeOf(disk.Device().blocks)))
    {
      var meta, bitmap := ReadMetadata(disk);
      this.disk, metaData, freeBlocks := disk, meta, bitmap;
    }

    /** Mounts the disk again: `fs_mount` on a file system in use. */
    method Remount()
      requires Valid() && Safe(View())
      modifies this, disk.Repr()
      ensures Valid() && fresh(freeBlocks)
      ensures View() == Mount(old(View().vol))
    {
      var meta, bitmap := ReadMetadata(disk);
      metaData, freeBlocks := meta, bitmap;
    }

    /** `fs_find_empty_block` */
    method FindEmptyBlock() returns (b: int)
      requires freeBlocks.Length == BLOCK_NUM && metaData == SUPER
      ensures -1 <= b < BLOCK_NUM
      ensures b == if FreeList(freeBlocks[..]) == [] then -1 else FreeList(freeBlocks[..])[0]
    {
      var i := 0;
      while i < metaData.blocks
        invariant 0 <= i <= BLOCK_NUM
        invariant FreeList(freeBlocks[..]) == FreeFrom(freeBlocks[..], i)
      {
        if freeBlocks[i] {
          return i;
        }
        i := i + 1;
      }
      b := -1;
    }

    /** Marks a block used. */
    method UseBlock(b: nat)
      requires b < freeBlocks.Length
      modifies freeBlocks
      ensures freeBlocks[..] == old(freeBlocks[..])[b := false]
    {
      freeBlocks[b] := false;
    }

    /** The rest of `fs_write` once the blocks are allocated: the data, then the inode. */
    method Finish(k: nat, data: seq<byte>, offset: word, inodeBlock: Block, inode: Inode, direct: seq<uint32>,
                  ghost s: Fs, ghost blocks: Blocks) returns (r: int)
      requires Valid() && k < INODES && |data| < WORD_SIZE && Safe(s) && Suits(s, k, |data|, offset)
      requires disk.Device() == Holding(blocks) && s.vol == VolumeOf(blocks)
      requires inodeBlock == blocks[InodeBlock(k)] && inode == s.vol.inodes[k]
      requires freeBlocks[..] == Take(s.free, More(s, k, |data|, offset))
      requires direct == Pad(GrownPtrs(s, k, More(s, k, |data|, offset)))
      modifies disk.Repr()
      ensures Valid() && r == 0 && View() == Written(s, k, data, offset)
    {
      ghost var ptrs := GrownPtrs(s, k, More(s, k, |data|, offset));
      WriteEffect(blocks, s.free, k, data, offset);
      StoreFile(disk, k, data, offset, inodeBlock,
                Inode(inode.name, inode.valid, offset + |data|, direct, inode.kind), ptrs);
      r := 0;
    }

    /** The loop of `fs_write` that allocates blocks. Past the pointer array a store lands in the rest of
        the block buffer, which is given up in that case. */
    method Allocate(x: Inode, blocksAvailable: nat, total: word) returns (ok: bool, direct: seq<uint32>)
      requires freeBlocks.Length == BLOCK_NUM && metaData == SUPER && x.Fits()
      modifies freeBlocks
      ensures ok <==> total <= |FreeList(old(freeBlocks[..]))|
      ensures ok ==> freeBlocks[..] == Take(old(freeBlocks[..]), total)
      ensures ok ==> Allocated(direct, x.direct, blocksAvailable, FreeList(old(freeBlocks[..])), total)
      ensures !ok ==> freeBlocks[..] == NoneFree()
    {
      ghost var free, list := freeBlocks[..], FreeList(freeBlocks[..]);
      direct := x.direct;
      var i := 0;
      TakeLeaves(free, 0);
      assert Take(free, 0) == free;
      while i < total
        invariant i <= total && i <= |list|
        invariant freeBlocks[..] == Take(free, i) && FreeList(Take(free, i)) == list[i..]
        invariant Allocated(direct, x.direct, blocksAvailable, list, i)
      {
        var emptyBlockNum := FindEmptyBlock();
        if emptyBlockNum < 0 {
          NothingLeft(freeBlocks[..]);
          return false, direct;
        }
        TakeOneMore(free, i);
        TakeStep(free, i);
        AllocatedStep(direct, x.direct, blocksAvailable, list, i);
        if blocksAvailable + i < POINTERS_PER_INODE {
          direct := direct[blocksAvailable + i := emptyBlockNum];
        }
        UseBlock(emptyBlockNum);
        i := i + 1;
      }
      ok := true;
    }

    /** `fs_write` */
    method Write(k: nat, data: seq<byte>, offset: word) returns (r: int)
      requires Valid() && Safe(View()) && k < INODES && |data| < WORD_SIZE
      modifies freeBlocks, disk.Repr()
      ensures Valid() && (r, View()) == FsModel.Write(old(View()), k, data, offset)
    {
      ghost var s, blocks := View(), disk.Device().blocks;
      Trace(disk);
      var inodeBlock, inode := FetchInode(disk, k);
      var blocksAvailable := DirectPointersLen(inode.direct);
      if blocksAvailable == 0 {
        return -2;
      }
      Trace(disk);
      r := WriteSized(k, data, offset, inodeBlock, inode, blocksAvailable, s, blocks);
    }

    /** The size test of `fs_write`, for a file that has blocks, and what follows it. */
    method WriteSized(k: nat, data: seq<byte>, offset: word, inodeBlock: Block, inode: Inode,
                      blocksAvailable: nat, ghost s: Fs, ghost blocks: Blocks) returns (r: int)
      requires Valid() && k < INODES && |data| < WORD_SIZE && View() == s && Safe(s)
      requires disk.Device() == Holding(blocks)
      requires inodeBlock == blocks[InodeBlock(k)] && inode == s.vol.inodes[k]
      requires 0 < blocksAvailable == PtrCount(inode.direct)
      modifies freeBlocks, disk.Repr()
      ensures Valid() && (r, View()) == FsModel.Write(s, k, data, offset)
    {
      var total, tooMany := BlocksToAdd(|data|, offset, blocksAvailable);
      WriteCases(s, k, data, offset, total);
      if tooMany {
        return -3;
      }
      Trace(disk);
      r := AllocateAndWrite(k, data, offset, inodeBlock, inode, blocksAvailable, total, s, blocks);
    }

    /** The second half of `fs_write`: `total` blocks are added, then the data and the inode are written. */
    method AllocateAndWrite(k: nat, data: seq<byte>, offset: word, inodeBlock: Block, inode: Inode,
                            blocksAvailable: nat, total: word, ghost s: Fs, ghost blocks: Blocks) returns (r: int)
      requires Valid() && k < INODES && |data| < WORD_SIZE && View() == s && Safe(s)
      requires disk.Device() == Holding(blocks)
      requires inodeBlock == blocks[InodeBlock(k)] && inode == s.vol.inodes[k]
      requires blocksAvailable == PtrCount(inode.direct) && Proceeds(s, k, data, offset, total)
      modifies freeBlocks, disk.Repr()
      ensures Valid() && (r, View()) == FsModel.Write(s, k, data, offset)
    {
      var ok, direct := Allocate(inode, blocksAvailable, total);
      if !ok {
        return -4;
      }
      NewPointers(s, k, data, offset, direct);
      r := Finish(k, data, offset, inodeBlock, inode, direct, s, blocks);
    }

    /** `fs_create` */
    method Create() returns (r: int)
      requires Valid()
      modifies freeBlocks, disk.Repr()
      ensures Valid() && (r, View()) == FsModel.Create(old(View()))
    {
      var found, i, j, block := FindInvalidInode(disk);
      if !found {
        return -1;
      }
      r := Claim(i, j, block);
    }

    /** The part of `fs_create` that takes inode j of inode block i, which is not in use. */
    method Claim(i: word, j: nat, block: Block) returns (r: int)
      requires Valid() && FIRST_INODE_BLOCK <= i < FIRST_DATA_BLOCK && j < INODES_PER_BLOCK
      requires block == disk.Device().blocks[i]
      requires FirstInvalid(View().vol.inodes, 0) == INODES_PER_BLOCK * (i - FIRST_INODE_BLOCK) + j
      modifies freeBlocks, disk.Repr()
      ensures Valid() && (r, View()) == FsModel.Create(old(View()))
    {
      var emptyBlockNum := FindEmptyBlock();
      if emptyBlockNum <= 0 {
        return -1;
      }
      r := ClaimWith(i, j, block, emptyBlockNum);
    }

    /** The inode becomes a file with one block, and both are stored. */
    method ClaimWith(i: word, j: nat, block: Block, emptyBlockNum: nat) returns (r: int)
      requires Valid() && FIRST_INODE_BLOCK <= i < FIRST_DATA_BLOCK && j < INODES_PER_BLOCK
      requires block == disk.Device().blocks[i]
      requires FirstInvalid(View().vol.inodes, 0) == INODES_PER_BLOCK * (i - FIRST_INODE_BLOCK) + j
      requires 0 < emptyBlockNum < BLOCK_NUM
      requires FreeList(freeBlocks[..]) != [] && FreeList(freeBlocks[..])[0] == emptyBlockNum
      modifies freeBlocks, disk.Repr()
      ensures Valid() && (r, View()) == FsModel.Create(old(View()))
    {
      ghost var blocks, free := disk.Device().blocks, freeBlocks[..];
      ClaimEffect(blocks, free, i, j);
      StoreClaim(i, j, block, emptyBlockNum);
      r := INODES_PER_BLOCK * (i - FIRST_INODE_BLOCK) + j;
    }

    /** What `fs_create` changes: the inode on disk, and the map. */
    method StoreClaim(i: word, j: nat, block: Block, emptyBlockNum: nat)
      requires Valid() && FIRST_INODE_BLOCK <= i < FIRST_DATA_BLOCK && j < INODES_PER_BLOCK
      requires block == disk.Device().blocks[i] && 0 < emptyBlockNum < BLOCK_NUM
      modifies freeBlocks, disk.Repr()
      ensures Valid() && freeBlocks[..] == old(freeBlocks[..])[emptyBlockNum := false]
      ensures disk.Device() ==
        Holding(PutInodeAt(old(disk.Device().blocks), i, j, Fresh(GetInode(block, j), emptyBlockNum)))
    {
      StoreInode(disk, i, j, block, Fresh(GetInode(block, j), emptyBlockNum));
      UseBlock(emptyBlockNum);
    }
  }

  /** `fs_debug_print`: some text without `@`, on the same line as the disk commands. */
  method Trace(disk: McuDisk)
    requires disk.Device().Holding?
    modifies disk.Repr()
    ensures disk.Device() == old(disk.Device())
  {
    var text: seq<byte> := *;
    if MAGIC[0] !in text {
      PlainTextIsClean(text);
      disk.DebugPrint(text);
    }
  }

  lemma PlainTextIsClean(text: seq<byte>)
    requires MAGIC[0] !in text
    ensures CleanText(text)
  {
    forall p | 0 <= p < |text| ensures !MagicAt(text, p) {
      assert text[p] in text;
      assert p + |MAGIC| <= |text| ==> text[p..p + |MAGIC|][0] == text[p];
    }
    forall k | 1 <= k <= |MAGIC| && k <= |text| ensures text[|text| - k..] != MAGIC[..k] {
      assert text[|text| - k..][0] == text[|text| - k] && text[|text| - k] in text;
    }
  }

  /** `fs_format`: a superblock, and inode blocks of inodes not in use. */
  method FormatDisk(disk: McuDisk)
    requires disk.Device().Holding?
    modifies disk.Repr()
    ensures disk.Device().Holding? && FormattedBelow(old(disk.Device().blocks), disk.Device().blocks, FIRST_DATA_BLOCK)
    ensures VolumeOf(disk.Device().blocks) == Format(VolumeOf(old(disk.Device().blocks)))
  {
    ghost var was := disk.Device().blocks;
    var block := PutSuper(Zeros(BLOCK_SIZE), SUPER);
    disk.DiskWrite(0, block);
    var i: word := FIRST_INODE_BLOCK;
    while i < FIRST_DATA_BLOCK
      invariant FIRST_INODE_BLOCK <= i <= FIRST_DATA_BLOCK && disk.Device().Holding?
      invariant FormattedBelow(was, disk.Device().blocks, i)
    {
      block := BlankInodeBlock();
      disk.DiskWrite(i, block);
      i := i + 1;
    }
    FormattedBlocks(was, disk.Device().blocks);
  }

  /** The inner loops of `fs_format`: the fields are cleared in a block that was cleared before. */
  method BlankInodeBlock() returns (block: Block)
    ensures block == Zeros(BLOCK_SIZE)
  {
    block := Zeros(BLOCK_SIZE);
    for j := 0 to INODES_PER_BLOCK
      invariant block == Zeros(BLOCK_SIZE)
    {
      ZeroInode(block, j);
      GetPut(block, j);
      var inode := GetInode(block, j);
      inode := inode.(valid := 0, size := 0, name := inode.name[0 := 0]);
      for k := 0 to POINTERS_PER_INODE
        invariant inode == GetInode(block, j)
      {
        inode := inode.(direct := inode.direct[k := 0]);
      }
      block := PutInode(block, j, inode);
    }
  }

  /** `fs_read` */
  method ReadFile(disk: McuDisk, k: nat, data: array<byte>, length: word) returns (r: int)
    requires disk.Device().Holding? && Good(VolumeOf(disk.Device().blocks)) && k < INODES
    requires length <= data.Length && data !in disk.Repr()
    modifies disk.Repr(), data
    ensures disk.Device() == old(disk.Device())
    ensures (r, data[..]) == Read(VolumeOf(disk.Device().blocks), k, old(data[..]), length)
  {
    ghost var v := VolumeOf(disk.Device().blocks);
    Trace(disk);
    var block, inode := FetchInode(disk, k);
    ReadCases(v, k, data[..], length);
    if inode.valid == 0 || inode.size == 0 {
      return 0;
    }
    if inode.size < length {
      return -3;
    }
    var directLength := DirectPointersLen(inode.direct);
    if directLength > 0 && length > 0 {
      CopyFirstBlock(disk, inode.direct[0], data, length);
    }
    r := 0;
  }

  /** The round of the outer loop of `fs_read` in which everything happens. */
  method CopyFirstBlock(disk: McuDisk, b: word, data: array<byte>, length: word)
    requires disk.Device().Holding? && FIRST_DATA_BLOCK <= b < BLOCK_NUM
    requires length <= data.Length && data !in disk.Repr()
    modifies disk.Repr(), data
    ensures disk.Device() == old(disk.Device())
    ensures data[..] == Splice(old(data[..]), 0, VolumeOf(disk.Device().blocks).data[b][..Min(BLOCK_SIZE, length)])
  {
    Trace(disk);
    var block := FetchBlock(disk, b);
    assert block == VolumeOf(disk.Device().blocks).data[b];
    CopyOut(data, block, length);
  }

  /** The copying loop of `fs_read`. The destination never moves, so every round copies the start of the
      same block to the start of the buffer. */
  method CopyOut(data: array<byte>, block: Block, length: word)
    requires length <= data.Length
    modifies data
    ensures data[..] == Splice(old(data[..]), 0, block[..Min(BLOCK_SIZE, length)])
  {
    var remaining := length;
    while remaining > 0
      invariant 0 <= remaining <= length
      invariant data[..] ==
        if remaining == length then old(data[..]) else Splice(old(data[..]), 0, block[..Min(BLOCK_SIZE, length)])
    {
      var dataToRead := Min(BLOCK_SIZE, remaining);
      ghost var before := data[..];
      forall q | 0 <= q < dataToRead {
        data[q] := block[q];
      }
      assert data[..] == Splice(before, 0, block[..dataToRead]);
      remaining := remaining - dataToRead;
    }
  }

  /** `fs_stat` */
  method StatFile(disk: McuDisk, k: nat) returns (r: int)
    requires disk.Device().Holding? && k < INODES
    modifies disk.Repr()
    ensures disk.Device() == old(disk.Device()) && r == Stat(VolumeOf(disk.Device().blocks), k)
  {
    var block, inode := FetchInode(disk, k);
    if inode.valid == 0 {
      return -1;
    }
    r := inode.size;
  }

  /** `fs_find_inode_2`, and the inode in the block it finds. */
  method FetchInode(disk: McuDisk, k: nat) returns (block: Block, inode: Inode)
    requires disk.Device().Holding? && k < INODES
    modifies disk.Repr()
    ensures disk.Device() == old(disk.Device())
    ensures block == disk.Device().blocks[InodeBlock(k)] && inode == VolumeOf(disk.Device().blocks).inodes[k]
  {
    block := FetchBlock(disk, FIRST_INODE_BLOCK + k / INODES_PER_BLOCK);
    inode := GetInode(block, k % INODES_PER_BLOCK);
  }

  /** `direct_pointers_len`, by way of `find_first` */
  method DirectPointersLen(direct: seq<uint32>) returns (n: nat)
    requires |direct| == POINTERS_PER_INODE
    ensures n == PtrCount(direct)
  {
    var found, i := false, 0;
    while i < POINTERS_PER_INODE && !found
      invariant i <= POINTERS_PER_INODE
      invariant forall j | 0 <= j < (if found then i - 1 else i) :: direct[j] != 0
      invariant found ==> i > 0 && direct[i - 1] == 0
    {
      if direct[i] == 0 {
        found := true;
      }
      i := i + 1;
    }
    n := if found then i - 1 else POINTERS_PER_INODE;
    FirstZeroUnique(direct, n);
  }

  /** The block arithmetic of `fs_write`, in 16-bit unsigned integers. */
  method BlocksToAdd(length: word, offset: word, blocksAvailable: nat) returns (total: word, tooMany: bool)
    requires 1 <= blocksAvailable <= POINTERS_PER_INODE
    ensures tooMany <==> Needed(length, offset) > POINTERS_PER_INODE
    ensures RightCount(total, Needed(length, offset), blocksAvailable)
  {
    var offsetAllocations := (offset / BLOCK_SIZE + 1 - blocksAvailable) % WORD_SIZE;
    var remainingFromOffset := BLOCK_SIZE - offset % BLOCK_SIZE;
    var lengthAllocations := 0;
    if length > remainingFromOffset {
      lengthAllocations := (length - remainingFromOffset) / BLOCK_SIZE + 1;
    }
    total := (offsetAllocations + lengthAllocations) % WORD_SIZE;
    tooMany := (total + blocksAvailable) % WORD_SIZE > POINTERS_PER_INODE;
    assert total == WrappedTotal(length, offset, blocksAvailable);
    WrappedArithmetic(length, offset, blocksAvailable);
  }

  /** `fs_write_data_block` */
  method WriteDataBlock(disk: McuDisk, blockNum: word, data: seq<byte>, offset: nat)
    requires disk.Device().Holding? && blockNum < SECTORS && offset + |data| <= BLOCK_SIZE
    modifies disk.Repr()
    ensures var blocks := old(disk.Device().blocks);
      disk.Device() == Holding(blocks[blockNum := Splice(blocks[blockNum], offset, data)])
  {
    var block := FetchBlock(disk, blockNum);
    block := Splice(block, offset, data);
    disk.DiskWrite(blockNum, block);
  }

  /** One round of that loop: the part of the data that belongs in block i of the file. */
  method WriteChunk(disk: McuDisk, direct: seq<uint32>, data: seq<byte>, offset: word, dataWritten: nat, remaining: nat,
                    i: nat, ghost blocks: Blocks, ghost ptrs: seq<uint32>)
    requires WellSized(blocks) && |data| < WORD_SIZE && dataWritten + remaining <= |data|
    requires GoodPtrs(ptrs) && i < |ptrs| <= POINTERS_PER_INODE && direct == Pad(ptrs)
    requires var rel := if dataWritten == 0 then InBlock(offset) else 0;
      InBlock(offset) + dataWritten == BLOCK_SIZE * i + rel && rel + remaining <= BLOCK_SIZE
    requires disk.Device() == Holding(Place(blocks, ptrs, data[..dataWritten], InBlock(offset)))
    modifies disk.Repr()
    ensures disk.Device() == Holding(Place(blocks, ptrs, data[..dataWritten + remaining], InBlock(offset)))
  {
    ghost var rel := if dataWritten == 0 then InBlock(offset) else 0;
    var currentBlock := direct[i];
    var offsetRelativeToBlockStart := (offset + dataWritten) % BLOCK_SIZE;
    Trace(disk);
    OffsetInBlock(offset, dataWritten, i, rel);
    PlaceStep(blocks, ptrs, data, InBlock(offset), dataWritten, remaining, i, rel);
    WriteDataBlock(disk, currentBlock, data[dataWritten..dataWritten + remaining], offsetRelativeToBlockStart);
  }

  /** How much of the data goes in the block the write begins in. */
  method FirstChunk(length: nat, offset: word) returns (remaining: nat)
    ensures remaining == Min(length, BLOCK_SIZE - InBlock(offset))
  {
    InBlockFormula(offset);
    remaining := Min(length, BLOCK_SIZE - offset % BLOCK_SIZE);
  }

  /** The loop of `fs_write` that writes the content to the blocks. */
  method WriteContent(disk: McuDisk, direct: seq<uint32>, data: seq<byte>, offset: word, ghost ptrs: seq<uint32>)
    requires disk.Device().Holding? && |data| < WORD_SIZE
    requires GoodPtrs(ptrs) && |ptrs| <= POINTERS_PER_INODE && direct == Pad(ptrs)
    requires InBlock(offset) + |data| <= BLOCK_SIZE * |ptrs|
    modifies disk.Repr()
    ensures disk.Device() == Holding(Place(old(disk.Device().blocks), ptrs, data, InBlock(offset)))
  {
    ghost var blocks, at := disk.Device().blocks, InBlock(offset);
    var dataWritten, i := 0, 0;
    var remaining := FirstChunk(|data|, offset);
    PlaceNothing(blocks, ptrs, at);
    assert data[..0] == [];
    while dataWritten < |data|
      invariant dataWritten <= |data|
      invariant dataWritten == 0 ==> i == 0 && remaining == Min(|data|, BLOCK_SIZE - at)
      invariant 0 < dataWritten < |data| ==>
        at + dataWritten == BLOCK_SIZE * i && remaining == Min(|data| - dataWritten, BLOCK_SIZE)
      invariant disk.Device() == Holding(Place(blocks, ptrs, data[..dataWritten], at))
      decreases |data| - dataWritten
    {
      WriteChunk(disk, direct, data, offset, dataWritten, remaining, i, blocks, ptrs);
      dataWritten := dataWritten + remaining;
      remaining := Min(|data| - dataWritten, BLOCK_SIZE);
      i := i + 1;
    }
    assert data[..dataWritten] == data;
  }

  /** The content, and then the inode. */
  method StoreFile(disk: McuDisk, k: nat, data: seq<byte>, offset: word, inodeBlock: Block, x: Inode,
                   ghost ptrs: seq<uint32>)
    requires disk.Device().Holding? && k < INODES && |data| < WORD_SIZE && x.Fits()
    requires inodeBlock == disk.Device().blocks[InodeBlock(k)]
    requires GoodPtrs(ptrs) && |ptrs| <= POINTERS_PER_INODE && x.direct == Pad(ptrs)
    requires InBlock(offset) + |data| <= BLOCK_SIZE * |ptrs|
    modifies disk.Repr()
    ensures disk.Device() == Holding(PutInodeAt(Place(old(disk.Device().blocks), ptrs, data, InBlock(offset)),
                                                InodeBlock(k), k % INODES_PER_BLOCK, x))
  {
    PlaceOnDisk(disk.Device().blocks, ptrs, data, InBlock(offset));
    WriteContent(disk, x.direct, data, offset, ptrs);
    StoreInode(disk, FIRST_INODE_BLOCK + k / INODES_PER_BLOCK, k % INODES_PER_BLOCK, inodeBlock, x);
  }

  /** The search of `fs_create` for an inode not in use. */
  method FindInvalidInode(disk: McuDisk) returns (found: bool, i: word, j: nat, block: Block)
    requires disk.Device().Holding?
    modifies disk.Repr()
    ensures disk.Device() == old(disk.Device())
    ensures var k := FirstInvalid(VolumeOf(disk.Device().blocks).inodes, 0);
      && (found <==> k < INODES)
      && (found ==>
          && FIRST_INODE_BLOCK <= i < FIRST_DATA_BLOCK && j < INODES_PER_BLOCK
          && k == INODES_PER_BLOCK * (i - FIRST_INODE_BLOCK) + j && block == disk.Device().blocks[i])
  {
    ghost var blocks := disk.Device().blocks;
    ghost var inodes := VolumeOf(blocks).inodes;
    i, j, found, block := FIRST_INODE_BLOCK, 0, false, Zeros(BLOCK_SIZE);
    while i < FIRST_DATA_BLOCK
      invariant FIRST_INODE_BLOCK <= i <= FIRST_DATA_BLOCK
      invariant disk.Device() == old(disk.Device())
      invariant FirstInvalid(inodes, 0) == FirstInvalid(inodes, INODES_PER_BLOCK * (i - FIRST_INODE_BLOCK))
    {
      block := FetchBlock(disk, i);
      found, j := ScanBlock(block, blocks, i);
      if found {
        return;
      }
      i := i + 1;
    }
  }

  /** The inner loop of the search: the inodes of one block. */
  method ScanBlock(block: Block, ghost blocks: Blocks, ghost i: nat) returns (found: bool, j: nat)
    requires WellSized(blocks) && FIRST_INODE_BLOCK <= i < FIRST_DATA_BLOCK && block == blocks[i]
    ensures var inodes, k := VolumeOf(blocks).inodes, INODES_PER_BLOCK * (i - FIRST_INODE_BLOCK);
      && (found ==> j < INODES_PER_BLOCK && FirstInvalid(inodes, k) == k + j)
      && (!found ==> FirstInvalid(inodes, k) == FirstInvalid(inodes, k + INODES_PER_BLOCK))
  {
    ghost var inodes, k := VolumeOf(blocks).inodes, INODES_PER_BLOCK * (i - FIRST_INODE_BLOCK);
    j, found := 0, false;
    while j < INODES_PER_BLOCK
      invariant j <= INODES_PER_BLOCK && FirstInvalid(inodes, k) == FirstInvalid(inodes, k + j)
    {
      ScanStep(blocks, i, j);
      if GetInode(block, j).valid == 0 {
        found := true;
        return;
      }
      j := j + 1;
    }
  }

  /** Updates one inode in a block that was read, and writes the block back. */
  method StoreInode(disk: McuDisk, i: word, j: nat, block: Block, x: Inode)
    requires disk.Device().Holding? && i < SECTORS && j < INODES_PER_BLOCK && x.Fits()
    requires block == disk.Device().blocks[i]
    modifies disk.host.Repr()
    ensures disk.Device() == Holding(PutInodeAt(old(disk.Device().blocks), i, j, x))
  {
    disk.DiskWrite(i, PutInode(block, j, x));
  }

  /** `fs_read_block` */
  method FetchBlock(disk: McuDisk, n: word) returns (block: Block)
    requires disk.Device().Holding? && n < SECTORS
    modifies disk.Repr()
    ensures disk.Device() == old(disk.Device())
    ensures block == disk.Device().blocks[n]
  {
    var data := new byte[BLOCK_SIZE](i => 0);
    disk.DiskRead(n, data);
    assert data[..] == data[..BLOCK_SIZE];
    block := data[..];
  }

  /** Blocks before the first data block in use, all others free. */
  method InitialMap() returns (bitmap: array<bool>)
    ensures fresh(bitmap) && bitmap.Length == BLOCK_NUM
    ensures forall b | 0 <= b < BLOCK_NUM :: bitmap[b] == (FIRST_DATA_BLOCK <= b)
  {
    bitmap := new bool[BLOCK_NUM];
    for i := 0 to FIRST_DATA_BLOCK
      invariant forall b | 0 <= b < i :: !bitmap[b]
    {
      bitmap[i] := false;
    }
    for i := FIRST_DATA_BLOCK to BLOCK_NUM
      invariant forall b | 0 <= b < i :: bitmap[b] == (FIRST_DATA_BLOCK <= b)
    {
      bitmap[i] := true;
    }
  }

  /** `fs_get_blocks_bitmap` */
  method GetBlocksBitmap(disk: McuDisk) returns (bitmap: array<bool>)
    requires disk.Device().Holding? && Good(VolumeOf(disk.Device().blocks))
    modifies disk.Repr()
    ensures disk.Device() == old(disk.Device())
    ensures fresh(bitmap) && bitmap.Length == BLOCK_NUM && bitmap[..] == FreeMap(VolumeOf(disk.Device().blocks))
  {
    ghost var v := VolumeOf(disk.Device().blocks);
    bitmap := InitialMap();
    for currBlock: word := FIRST_INODE_BLOCK to FIRST_DATA_BLOCK
      invariant disk.Device() == old(disk.Device())
      invariant MapBelow(bitmap[..], v, POINTERS_PER_INODE * INODES_PER_BLOCK * (currBlock - FIRST_INODE_BLOCK))
    {
      var block := FetchBlock(disk, currBlock);
      MarkBlock(bitmap, block, disk.Device().blocks, currBlock);
    }
    MapDone(bitmap[..], v);
  }

  /** The two inodes of one block. */
  method MarkBlock(bitmap: array<bool>, block: Block, ghost blocks: Blocks, ghost currBlock: nat)
    requires WellSized(blocks) && FIRST_INODE_BLOCK <= currBlock < FIRST_DATA_BLOCK && block == blocks[currBlock]
    requires forall k | 0 <= k < INODES :: GoodInode(VolumeOf(blocks).inodes[k])
    requires MapBelow(bitmap[..], VolumeOf(blocks),
                      POINTERS_PER_INODE * INODES_PER_BLOCK * (currBlock - FIRST_INODE_BLOCK))
    modifies bitmap
    ensures MapBelow(bitmap[..], VolumeOf(blocks),
                     POINTERS_PER_INODE * INODES_PER_BLOCK * (currBlock + 1 - FIRST_INODE_BLOCK))
  {
    ghost var v := VolumeOf(blocks);
    for i := 0 to INODES_PER_BLOCK
      invariant MapBelow(bitmap[..], v, POINTERS_PER_INODE * (INODES_PER_BLOCK * (currBlock - FIRST_INODE_BLOCK) + i))
    {
      ghost var k := INODES_PER_BLOCK * (currBlock - FIRST_INODE_BLOCK) + i;
      var inode := GetInode(block, i);
      InodeInBlock(blocks, currBlock, i);
      assert GoodInode(v.inodes[k]);
      MarkInode(bitmap, inode, v, k);
    }
  }

  /** One inode's turn in `fs_get_blocks_bitmap`. */
  method MarkInode(bitmap: array<bool>, inode: Inode, ghost v: Volume, ghost k: nat)
    requires v.Sized() && k < INODES && inode == v.inodes[k] && GoodInode(inode)
    requires MapBelow(bitmap[..], v, POINTERS_PER_INODE * k)
    modifies bitmap
    ensures MapBelow(bitmap[..], v, POINTERS_PER_INODE * (k + 1))
  {
    if inode.valid != 0 {
      for currDirect := 0 to POINTERS_PER_INODE
        invariant MapBelow(bitmap[..], v, POINTERS_PER_INODE * k + currDirect)
      {
        ghost var before := bitmap[..];
        assert inode.direct[currDirect] == Slot(v, k, currDirect);
        bitmap[inode.direct[currDirect]] := false;
        MapStep(before, v, k, currDirect);
        assert bitmap[..] == before[Slot(v, k, currDirect) := false];
      }
    } else {
      MapSkip(bitmap[..], v, k);
    }
  }

  method ReadMetadata(disk: McuDisk) returns (meta: Super, bitmap: array<bool>)
    requires disk.Device().Holding? && Good(VolumeOf(disk.Device().blocks))
    modifies disk.Repr()
    ensures disk.Device() == old(disk.Device())
    ensures meta == VolumeOf(disk.Device().blocks).super
    ensures fresh(bitmap) && bitmap.Length == BLOCK_NUM && bitmap[..] == FreeMap(VolumeOf(disk.Device().blocks))
  {
    var block := FetchBlock(disk, 0);
    meta := GetSuper(block);
    bitmap := GetBlocksBitmap(disk);
  }
}
