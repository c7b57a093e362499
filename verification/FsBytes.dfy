/** Where everything is on the disk, byte by byte: the structures of fs.h as the compiler lays them out. */
module FsBytes {
  import opened Bytes
  import opened Layout
  import opened Links
  import opened FsModel
  import opened FsBlocks

  /** A 32-bit word, least significant byte first. */
  function WordAt(b: seq<byte>, at: nat): nat
    requires at + 4 <= |b|
  {
    var b0: nat, b1: nat, b2: nat, b3: nat := b[at], b[at + 1], b[at + 2], b[at + 3];
    b0 + 256 * b1 + 65536 * b2 + 16777216 * b3
  }

  /** Inode k is in block 1 + k / 2, at 96 times k mod 2: a name of 64 bytes, and eight words. */
  lemma InodeOnDisk(blocks: Blocks, k: nat)
    requires WellSized(blocks) && k < 10
    ensures var x, b, at := VolumeOf(blocks).inodes[k], blocks[1 + k / 2], 96 * (k % 2);
      && x.name == b[at..at + 64]
      && x.valid == WordAt(b, at + 64) && x.size == WordAt(b, at + 68) && x.kind == WordAt(b, at + 92)
      && forall i | 0 <= i < 5 :: x.direct[i] == WordAt(b, at + 72 + 4 * i)
  {
    var b, at := blocks[1 + k / 2], 96 * (k % 2);
    var bs := b[at..at + 96];
    assert VolumeOf(blocks).inodes[k] == DecodeInode(bs);
    SliceWord(b, at, 64);
    SliceWord(b, at, 68);
    SliceWord(b, at, 72);
    SliceWord(b, at, 76);
    SliceWord(b, at, 80);
    SliceWord(b, at, 84);
    SliceWord(b, at, 88);
    SliceWord(b, at, 92);
    assert bs[..64] == b[at..at + 64];
  }

  lemma SliceWord(b: seq<byte>, at: nat, n: nat)
    requires at + 96 <= |b| && n <= 92
    ensures DecodeWord(b[at..at + 96][n..n + 4]) == WordAt(b, at + n)
  {
    var bs := b[at..at + 96][n..n + 4];
    assert bs[0] == b[at + n] && bs[1] == b[at + n + 1] && bs[2] == b[at + n + 2] && bs[3] == b[at + n + 3];
  }

  /** The superblock is four words at the start of block 0. */
  lemma SuperOnDisk(blocks: Blocks)
    requires WellSized(blocks)
    ensures var x, b := VolumeOf(blocks).super, blocks[0];
      && x.magicNumber == WordAt(b, 0) && x.blocks == WordAt(b, 4)
      && x.inodeBlocks == WordAt(b, 8) && x.inodes == WordAt(b, 12)
  {}

  /** A formatted disk: the magic number, 64 blocks, 5 inode blocks, no inodes, and then zeros up to the first data
      block, which with the rest is as it was. */
  lemma FormattedOnDisk(was: Blocks, blocks: Blocks, b: nat, n: nat)
    requires WellSized(was) && WellSized(blocks) && FormattedBelow(was, blocks, FIRST_DATA_BLOCK)
    requires b < 256 && n < 512
    ensures blocks[0][..12] == [0x10, 0x34, 0xF0, 0xF0, 64, 0, 0, 0, 5, 0, 0, 0]
    ensures blocks[b][n] == if b >= 6 then was[b][n] else if b == 0 && n < 12 then blocks[0][n] else 0
  {
    var w := EncodeSuper(SUPER);
    assert w == [0x10, 0x34, 0xF0, 0xF0, 64, 0, 0, 0, 5, 0, 0, 0, 0, 0, 0, 0];
    assert blocks[0] == Splice(Zeros(BLOCK_SIZE), 0, w);
  }
}
