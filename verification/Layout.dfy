/**
 The bytes of a block as the `Block` union of fs.h sees them: a superblock of four 32-bit words, or two
 inodes of 96 bytes. Words are little-endian, as the 6502 compiler lays them out.
 */
module Layout {
  import opened Bytes

  const INODES_PER_BLOCK: nat := 2
  const POINTERS_PER_INODE: nat := 5
  const INODE_NAME_MAX: nat := 64
  const INODE_BYTES: nat := 96
  const MAGIC_NUMBER: nat := 0xf0f03410

  type uint32 = v: int | 0 <= v < 0x1_0000_0000

  type Block = b: seq<byte> | |b| == BLOCK_SIZE witness seq(BLOCK_SIZE, i => 0)

  function Zeros(n: nat): (z: seq<byte>)
    ensures |z| == n
  {
    seq(n, i => 0)
  }

  function EncodeWord(v: uint32): (bs: seq<byte>)
    ensures |bs| == 4
  {
    [v % 0x100, v / 0x100 % 0x100, v / 0x1_0000 % 0x100, v / 0x100_0000]
  }

  function DecodeWord(bs: seq<byte>): (v: uint32)
    requires |bs| == 4
  {
    var b0: int, b1: int, b2: int, b3: int := bs[0], bs[1], bs[2], bs[3];
    b0 + 0x100 * b1 + 0x1_0000 * b2 + 0x100_0000 * b3
  }

  lemma WordRoundTrip(v: uint32)
    ensures DecodeWord(EncodeWord(v)) == v
  {
    var q1, q2, q3 := v / 0x100, v / 0x1_0000, v / 0x100_0000;
    Quotient(v, 0x100);
    Quotient(v, 0x1_0000);
    assert v == 0x100 * q1 + v % 0x100;
    assert q1 == 0x100 * q2 + q1 % 0x100;
    assert q2 == 0x100 * q3 + q2 % 0x100;
  }

  lemma Quotient(v: nat, d: nat)
    requires d == 0x100 || d == 0x1_0000
    ensures v / d / 0x100 == v / (d * 0x100)
  {}

  lemma WordBytesRoundTrip(bs: seq<byte>)
    requires |bs| == 4
    ensures EncodeWord(DecodeWord(bs)) == bs
  {
    var v := DecodeWord(bs);
    var b1: int, b2: int, b3: int := bs[1], bs[2], bs[3];
    assert v / 0x100 == b1 + 0x100 * b2 + 0x1_0000 * b3;
    assert v / 0x1_0000 == b2 + 0x100 * b3;
  }

  datatype Inode = Inode(name: seq<byte>, valid: uint32, size: uint32, direct: seq<uint32>, kind: uint32)
  {
    predicate Fits() { |name| == INODE_NAME_MAX && |direct| == POINTERS_PER_INODE }
  }

  function EncodeInode(x: Inode): (bs: seq<byte>)
    requires x.Fits()
    ensures |bs| == INODE_BYTES
  {
    x.name + EncodeWord(x.valid) + EncodeWord(x.size) +
    EncodeWord(x.direct[0]) + EncodeWord(x.direct[1]) + EncodeWord(x.direct[2]) +
    EncodeWord(x.direct[3]) + EncodeWord(x.direct[4]) + EncodeWord(x.kind)
  }

  function DecodeInode(bs: seq<byte>): (x: Inode)
    requires |bs| == INODE_BYTES
    ensures x.Fits()
  {
    Inode(bs[..64], DecodeWord(bs[64..68]), DecodeWord(bs[68..72]),
          [DecodeWord(bs[72..76]), DecodeWord(bs[76..80]), DecodeWord(bs[80..84]),
           DecodeWord(bs[84..88]), DecodeWord(bs[88..92])],
          DecodeWord(bs[92..96]))
  }

  lemma InodeRoundTrip(x: Inode)
    requires x.Fits()
    ensures DecodeInode(EncodeInode(x)) == x
  {
    var bs := EncodeInode(x);
    assert bs[..64] == x.name;
    assert bs[64..68] == EncodeWord(x.valid) && bs[68..72] == EncodeWord(x.size);
    assert bs[72..76] == EncodeWord(x.direct[0]) && bs[76..80] == EncodeWord(x.direct[1]);
    assert bs[80..84] == EncodeWord(x.direct[2]) && bs[84..88] == EncodeWord(x.direct[3]);
    assert bs[88..92] == EncodeWord(x.direct[4]) && bs[92..96] == EncodeWord(x.kind);
    WordRoundTrip(x.valid); WordRoundTrip(x.size); WordRoundTrip(x.kind);
    WordRoundTrip(x.direct[0]); WordRoundTrip(x.direct[1]); WordRoundTrip(x.direct[2]);
    WordRoundTrip(x.direct[3]); WordRoundTrip(x.direct[4]);
  }

  /** Storing back an inode that was not changed changes no byte: updating a field through a pointer into
      the block and storing an updated inode are the same. */
  lemma InodeBytesRoundTrip(bs: seq<byte>)
    requires |bs| == INODE_BYTES
    ensures EncodeInode(DecodeInode(bs)) == bs
  {
    WordBytesRoundTrip(bs[64..68]); WordBytesRoundTrip(bs[68..72]); WordBytesRoundTrip(bs[72..76]);
    WordBytesRoundTrip(bs[76..80]); WordBytesRoundTrip(bs[80..84]); WordBytesRoundTrip(bs[84..88]);
    WordBytesRoundTrip(bs[88..92]); WordBytesRoundTrip(bs[92..96]);
    assert bs == bs[..64] + bs[64..68] + bs[68..72] + bs[72..76] + bs[76..80] + bs[80..84] + bs[84..88]
              + bs[88..92] + bs[92..96];
  }

  /** The j-th inode of a block. */
  function GetInode(b: Block, j: nat): (x: Inode)
    requires j < INODES_PER_BLOCK
    ensures x.Fits()
  {
    DecodeInode(b[INODE_BYTES * j..INODE_BYTES * (j + 1)])
  }

  function PutInode(b: Block, j: nat, x: Inode): Block
    requires j < INODES_PER_BLOCK && x.Fits()
  {
    Splice(b, INODE_BYTES * j, EncodeInode(x))
  }

  lemma PutBytes(b: Block, j: nat, bs: seq<byte>)
    requires j < INODES_PER_BLOCK && |bs| == INODE_BYTES
    ensures Splice(b, INODE_BYTES * j, bs)[INODE_BYTES * j..INODE_BYTES * (j + 1)] == bs
  {}

  lemma PutGet(b: Block, j: nat, x: Inode, m: nat)
    requires j < INODES_PER_BLOCK && m < INODES_PER_BLOCK && x.Fits()
    ensures GetInode(PutInode(b, j, x), m) == if m == j then x else GetInode(b, m)
  {
    var b', bs := PutInode(b, j, x), EncodeInode(x);
    if m == j {
      PutBytes(b, j, bs);
      InodeRoundTrip(x);
    } else {
      assert b'[INODE_BYTES * m..INODE_BYTES * (m + 1)] == b[INODE_BYTES * m..INODE_BYTES * (m + 1)];
    }
  }

  lemma GetPut(b: Block, j: nat)
    requires j < INODES_PER_BLOCK
    ensures PutInode(b, j, GetInode(b, j)) == b
  {
    InodeBytesRoundTrip(b[INODE_BYTES * j..INODE_BYTES * (j + 1)]);
  }

  // ---------------------------------------------------------------- superblock

  datatype Super = Super(magicNumber: uint32, blocks: uint32, inodeBlocks: uint32, inodes: uint32)

  function GetSuper(b: Block): Super {
    Super(DecodeWord(b[..4]), DecodeWord(b[4..8]), DecodeWord(b[8..12]), DecodeWord(b[12..16]))
  }

  function EncodeSuper(x: Super): (bs: seq<byte>)
    ensures |bs| == 16
  {
    EncodeWord(x.magicNumber) + EncodeWord(x.blocks) + EncodeWord(x.inodeBlocks) + EncodeWord(x.inodes)
  }

  function PutSuper(b: Block, x: Super): Block {
    Splice(b, 0, EncodeSuper(x))
  }

  lemma SuperRoundTrip(b: Block, x: Super)
    ensures GetSuper(PutSuper(b, x)) == x
  {
    var b' := PutSuper(b, x);
    assert b'[..4] == EncodeWord(x.magicNumber) && b'[4..8] == EncodeWord(x.blocks);
    assert b'[8..12] == EncodeWord(x.inodeBlocks) && b'[12..16] == EncodeWord(x.inodes);
    WordRoundTrip(x.magicNumber); WordRoundTrip(x.blocks);
    WordRoundTrip(x.inodeBlocks); WordRoundTrip(x.inodes);
  }

  lemma ZeroWord(bs: seq<byte>, n: nat)
    requires n + 4 <= |bs| && forall i | 0 <= i < |bs| :: bs[i] == 0
    ensures DecodeWord(bs[n..n + 4]) == 0
  {}

  lemma ZeroInode(b: Block, j: nat)
    requires b == Zeros(BLOCK_SIZE) && j < INODES_PER_BLOCK
    ensures var x := GetInode(b, j);
      x.valid == 0 && x.size == 0 && x.direct == [0, 0, 0, 0, 0] && x.name == Zeros(INODE_NAME_MAX) && x.kind == 0
  {
    var bs := b[INODE_BYTES * j..INODE_BYTES * (j + 1)];
    ZeroWord(bs, 64); ZeroWord(bs, 68); ZeroWord(bs, 72); ZeroWord(bs, 76);
    ZeroWord(bs, 80); ZeroWord(bs, 84); ZeroWord(bs, 88); ZeroWord(bs, 92);
    assert bs[..64] == Zeros(64);
  }
}
