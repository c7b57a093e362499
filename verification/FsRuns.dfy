/** Files: what they contain, and what every run of the file system's operations does to them. */
module FsRuns {
  import opened Bytes
  import opened Layout
  import opened Hosts
  import opened Links
  import opened FsModel
  import opened FsTheorems

  // ---------------------------------------------------------------- contents

  /** The concatenation of the given blocks. */
  function Concat(data: Blocks, ptrs: seq<uint32>): (bs: seq<byte>)
    requires WellSized(data) && GoodPtrs(ptrs)
    ensures |bs| == BLOCK_SIZE * |ptrs|
  {
    if ptrs == [] then [] else data[ptrs[0]] + Concat(data, ptrs[1..])
  }

  lemma {:induction false} ConcatAt(data: Blocks, ptrs: seq<uint32>, p: nat)
    requires WellSized(data) && GoodPtrs(ptrs) && p < BLOCK_SIZE * |ptrs|
    ensures p / BLOCK_SIZE < |ptrs| && Concat(data, ptrs)[p] == data[ptrs[p / BLOCK_SIZE]][p % BLOCK_SIZE]
  {
    if p >= BLOCK_SIZE {
      ConcatAt(data, ptrs[1..], p - BLOCK_SIZE);
      assert p / BLOCK_SIZE == (p - BLOCK_SIZE) / BLOCK_SIZE + 1 && p % BLOCK_SIZE == (p - BLOCK_SIZE) % BLOCK_SIZE;
    }
  }

  /** The bytes in the blocks of file k, including any beyond its size. */
  function Contents(v: Volume, k: nat): seq<byte>
    requires Good(v) && k < INODES
  {
    PtrsOfInode(v, k);
    Concat(v.data, Ptrs(v.inodes[k]))
  }

  lemma PlaceOverlaysAt(data: Blocks, ptrs: seq<uint32>, d: seq<byte>, at: nat, p: nat)
    requires WellSized(data) && GoodPtrs(ptrs) && p < BLOCK_SIZE * |ptrs|
    ensures Concat(Place(data, ptrs, d, at), ptrs)[p] == Over(Concat(data, ptrs)[p], p, d, at)
  {
    ConcatAt(data, ptrs, p);
    ConcatAt(Place(data, ptrs, d, at), ptrs, p);
    IndexOfDistinct(ptrs, p / BLOCK_SIZE);
    assert BLOCK_SIZE * (p / BLOCK_SIZE) + p % BLOCK_SIZE == p;
  }

  /** Placing data overlays the file and touches no other block. */
  lemma PlaceOverlays(data: Blocks, ptrs: seq<uint32>, d: seq<byte>, at: nat)
    requires WellSized(data) && GoodPtrs(ptrs)
    ensures var data' := Place(data, ptrs, d, at);
      && (forall p | 0 <= p < BLOCK_SIZE * |ptrs| :: Concat(data', ptrs)[p] == Over(Concat(data, ptrs)[p], p, d, at))
      && (forall b | 0 <= b < SECTORS && b !in ptrs :: data'[b] == data[b])
  {
    forall p | 0 <= p < BLOCK_SIZE * |ptrs|
      ensures Concat(Place(data, ptrs, d, at), ptrs)[p] == Over(Concat(data, ptrs)[p], p, d, at)
    {
      PlaceOverlaysAt(data, ptrs, d, at, p);
    }
  }

  lemma {:induction false} ConcatSame(a: Blocks, b: Blocks, ptrs: seq<uint32>)
    requires WellSized(a) && WellSized(b) && GoodPtrs(ptrs)
    requires forall i | 0 <= i < |ptrs| :: a[ptrs[i]] == b[ptrs[i]]
    ensures Concat(a, ptrs) == Concat(b, ptrs)
    decreases |ptrs|
  {
    if ptrs != [] {
      ConcatSame(a, b, ptrs[1..]);
    }
  }

  // ---------------------------------------------------------------- fs_write

  /** The result code, in a volume whose free map is exact: whether the file is in use and the two block counts
      decide it. A write never runs out of blocks. Only a write that returns 0 changes the disk. */
  lemma WriteResult(s: Fs, k: nat, d: seq<byte>, offset: word)
    requires Coherent(s) && k < INODES && |d| < WORD_SIZE
    ensures var (r, s') := Write(s, k, d, offset); r != 0 ==> s'.vol == s.vol
    ensures var r, n, have := Write(s, k, d, offset).0, Needed(|d|, offset), |Ptrs(s.vol.inodes[k])|;
      && (r == -2 <==> s.vol.inodes[k].valid == 0)
      && (r == -3 <==> s.vol.inodes[k].valid != 0 && n > POINTERS_PER_INODE)
      && (r == -4 <==> s.vol.inodes[k].valid != 0 && n < have)
      && (r == 0 <==> s.vol.inodes[k].valid != 0 && have <= n <= POINTERS_PER_INODE)
  {
    PtrsOfInode(s.vol, k);
    EnoughFree(s);
  }

  /** A write succeeds exactly when it suits; otherwise it leaves the disk alone, and the free map too
      except that -4 marks every block used. */
  lemma SucceedsIff(s: Fs, k: nat, d: seq<byte>, offset: word)
    requires s.Sized() && k < INODES && |d| < WORD_SIZE
    ensures var (r, s') := Write(s, k, d, offset);
      && (r == 0 <==> Suits(s, k, |d|, offset))
      && (r == 0 ==> s' == Written(s, k, d, offset))
      && (r != 0 ==> r in {-2, -3, -4} && s' == Fs(s.vol, if r == -4 then NoneFree() else s.free))
  {}

  function More(s: Fs, k: nat, length: nat, offset: nat): nat
    requires s.Sized() && k < INODES && Suits(s, k, length, offset)
  {
    Needed(length, offset) - PtrCount(s.vol.inodes[k].direct)
  }

  /** The volume stays good, the free map sound, and exact if it was exact. */
  lemma WrittenSafe(s: Fs, k: nat, d: seq<byte>, offset: word)
    requires Safe(s) && k < INODES && |d| < WORD_SIZE && Suits(s, k, |d|, offset)
    ensures var s' := Written(s, k, d, offset);
      && Safe(s') && (Coherent(s) ==> Coherent(s'))
      && GoodPtrs(Ptrs(s'.vol.inodes[k]))
      && Ptrs(s'.vol.inodes[k]) == GrownPtrs(s, k, More(s, k, |d|, offset))
  {
    var s', more := Written(s, k, d, offset), More(s, k, |d|, offset);
    PtrsOfInode(s.vol, k);
    GrownPtrsGood(s, k, more);
    NeededCovers(|d|, offset);
    GrowKeeps(s, k, more, s'.vol.inodes[k], s'.vol);
    GrownInodeGood(s'.vol.inodes[k], GrownPtrs(s, k, more));
  }

  /** `now` is `was`, perhaps longer, with `d` laid over it from byte `at` on. */
  predicate Overwritten(was: seq<byte>, now: seq<byte>, d: seq<byte>, at: nat) {
    && |was| <= |now| && at + |d| <= |now|
    && now[at..at + |d|] == d
    && forall p | 0 <= p < |was| && !(at <= p < at + |d|) :: now[p] == was[p]
  }

  /** A successful write puts the data at `offset` within the first block of the file and on from there,
      keeps the other bytes the file had, and sets its size. For offsets in the first block that is where
      the caller asked for. */
  lemma WriteContents(s: Fs, k: nat, d: seq<byte>, offset: word)
    requires Safe(s) && k < INODES && |d| < WORD_SIZE && Suits(s, k, |d|, offset)
    ensures var v := Written(s, k, d, offset).vol;
      && Good(v) && Stat(v, k) == offset + |d|
      && |Contents(v, k)| == BLOCK_SIZE * Needed(|d|, offset)
      && Overwritten(Contents(s.vol, k), Contents(v, k), d, InBlock(offset))
  {
    WrittenSafe(s, k, d, offset);
    NeededCovers(|d|, offset);
    PtrsOfInode(s.vol, k);
    var v := Written(s, k, d, offset).vol;
    PlaceInFile(s.vol.data, Ptrs(s.vol.inodes[k]), Ptrs(v.inodes[k]), d, InBlock(offset));
  }

  lemma PlaceInFile(data: Blocks, held: seq<uint32>, ptrs: seq<uint32>, d: seq<byte>, at: nat)
    requires WellSized(data) && GoodPtrs(held) && GoodPtrs(ptrs) && held <= ptrs && at + |d| <= BLOCK_SIZE * |ptrs|
    ensures Overwritten(Concat(data, held), Concat(Place(data, ptrs, d, at), ptrs), d, at)
  {
    var was, raw, now := Concat(data, held), Concat(data, ptrs), Concat(Place(data, ptrs, d, at), ptrs);
    PlaceOverlays(data, ptrs, d, at);
    assert ptrs == held + ptrs[|held|..];
    ConcatPrefix(data, held, ptrs[|held|..]);
    Overlaid(was, raw, now, d, at);
  }

  lemma {:induction false} ConcatPrefix(data: Blocks, a: seq<uint32>, b: seq<uint32>)
    requires WellSized(data) && GoodPtrs(a) && GoodPtrs(a + b)
    ensures Concat(data, a) <= Concat(data, a + b)
    decreases |a|
  {
    if a != [] {
      assert (a + b)[1..] == a[1..] + b;
      ConcatPrefix(data, a[1..], b);
    }
  }

  lemma Overlaid(was: seq<byte>, raw: seq<byte>, now: seq<byte>, d: seq<byte>, at: nat)
    requires was <= raw && |now| == |raw| && at + |d| <= |now|
    requires forall p | 0 <= p < |raw| :: now[p] == Over(raw[p], p, d, at)
    ensures Overwritten(was, now, d, at)
  {}

  /** Blocks of one file are not blocks of another. */
  lemma FilesApart(v: Volume, k: nat, m: nat, i: nat)
    requires Good(v) && k < INODES && m < INODES && k != m && i < |Ptrs(v.inodes[m])|
    ensures Ptrs(v.inodes[m])[i] !in Ptrs(v.inodes[k])
  {
    var mine, theirs := Ptrs(v.inodes[m]), Ptrs(v.inodes[k]);
    assert Slot(v, m, i) == mine[i];
    forall j | 0 <= j < |theirs| ensures theirs[j] != mine[i] {
      assert Slot(v, k, j) == theirs[j];
    }
  }

  /** Laying data over the blocks of file k changes no other file. */
  lemma OthersKept(v: Volume, v': Volume, k: nat, m: nat, d: seq<byte>, at: nat)
    requires Good(v) && Good(v') && k < INODES && m < INODES && k != m
    requires v'.inodes[m] == v.inodes[m] && v'.data == Place(v.data, Ptrs(v'.inodes[k]), d, at)
    ensures Contents(v', m) == Contents(v, m)
  {
    var ptrs, others := Ptrs(v'.inodes[k]), Ptrs(v.inodes[m]);
    PtrsOfInode(v, m);
    PtrsOfInode(v', k);
    PlaceOverlays(v.data, ptrs, d, at);
    forall i | 0 <= i < |others| ensures v'.data[others[i]] == v.data[others[i]] {
      FilesApart(v', k, m, i);
    }
    ConcatSame(v.data, v'.data, others);
  }

  /** Writing file k, successfully or not, leaves every other file as it was. */
  lemma WriteIsolation(s: Fs, k: nat, d: seq<byte>, offset: word, m: nat)
    requires Safe(s) && k < INODES && m < INODES && m != k && |d| < WORD_SIZE
    ensures var s' := Write(s, k, d, offset).1;
      && Safe(s')
      && s'.vol.inodes[m] == s.vol.inodes[m] && Contents(s'.vol, m) == Contents(s.vol, m)
  {
    SucceedsIff(s, k, d, offset);
    if Suits(s, k, |d|, offset) {
      WrittenIsolation(s, k, d, offset, m);
    }
  }

  lemma WrittenIsolation(s: Fs, k: nat, d: seq<byte>, offset: word, m: nat)
    requires Safe(s) && k < INODES && m < INODES && m != k && |d| < WORD_SIZE && Suits(s, k, |d|, offset)
    ensures var s' := Written(s, k, d, offset);
      Safe(s') && s'.vol.inodes[m] == s.vol.inodes[m] && Contents(s'.vol, m) == Contents(s.vol, m)
  {
    WrittenSafe(s, k, d, offset);
    OthersKept(s.vol, Written(s, k, d, offset).vol, k, m, d, InBlock(offset));
  }

  // ---------------------------------------------------------------- exactly when data lands

  /** A write that suits puts `d` where the caller asked for. */
  predicate Lands(s: Fs, k: nat, d: seq<byte>, offset: word)
    requires s.Sized() && k < INODES && |d| < WORD_SIZE && Suits(s, k, |d|, offset)
  {
    var v := Written(s, k, d, offset).vol;
    Good(v) && offset + |d| <= |Contents(v, k)| && Contents(v, k)[offset..offset + |d|] == d
  }

  lemma LandsInFirstBlock(s: Fs, k: nat, d: seq<byte>, offset: word)
    requires Safe(s) && k < INODES && |d| < WORD_SIZE && Suits(s, k, |d|, offset) && offset < BLOCK_SIZE
    ensures Lands(s, k, d, offset)
  {
    WriteContents(s, k, d, offset);
  }

  /** Exactly when a write that succeeds puts every data of its length in the right place. */
  lemma PlacementExact(s: Fs, k: nat, length: word, offset: word)
    requires Safe(s) && k < INODES && length > 0 && Suits(s, k, length, offset)
    ensures (forall d | |d| == length :: Lands(s, k, d, offset)) <==> offset < BLOCK_SIZE
  {
    if offset < BLOCK_SIZE {
      forall d | |d| == length ensures Lands(s, k, d, offset) {
        LandsInFirstBlock(s, k, d, offset);
      }
    } else {
      var d0: seq<byte>, d1: seq<byte> := seq(length, i => 0), seq(length, i => 1);
      NotBothLand(s, k, d0, d1, offset);
    }
  }

  /** Past the first block, the last byte asked for is never written: data that differ there cannot both
      have landed. */
  lemma NotBothLand(s: Fs, k: nat, d0: seq<byte>, d1: seq<byte>, offset: word)
    requires Safe(s) && k < INODES && 0 < |d0| == |d1| < WORD_SIZE && offset >= BLOCK_SIZE
    requires Suits(s, k, |d0|, offset) && d0[|d0| - 1] != d1[|d1| - 1]
    ensures !Lands(s, k, d0, offset) || !Lands(s, k, d1, offset)
  {
    LastByteNotPlaced(s, k, d0, offset);
    LastByteNotPlaced(s, k, d1, offset);
    var v0, v1 := Written(s, k, d0, offset).vol, Written(s, k, d1, offset).vol;
    DifferInside(Contents(v0, k), Contents(v1, k), d0, d1, offset);
  }

  lemma DifferInside(c0: seq<byte>, c1: seq<byte>, d0: seq<byte>, d1: seq<byte>, at: nat)
    requires 0 < |d0| == |d1| && at + |d0| <= |c0| && at + |d0| <= |c1|
    requires c0[at + |d0| - 1] == c1[at + |d0| - 1] && d0[|d0| - 1] != d1[|d0| - 1]
    ensures c0[at..at + |d0|] != d0 || c1[at..at + |d1|] != d1
  {
    assert c0[at..at + |d0|][|d0| - 1] == c1[at..at + |d0|][|d0| - 1];
  }

  lemma LastByteNotPlaced(s: Fs, k: nat, d: seq<byte>, offset: word)
    requires Safe(s) && k < INODES && 0 < |d| < WORD_SIZE && offset >= BLOCK_SIZE && Suits(s, k, |d|, offset)
    ensures var v, ptrs := Written(s, k, d, offset).vol, GrownPtrs(s, k, More(s, k, |d|, offset));
      var last := offset + |d| - 1;
      && Good(v) && GoodPtrs(ptrs)
      && last < |Contents(v, k)| == |Concat(s.vol.data, ptrs)|
      && Contents(v, k)[last] == Concat(s.vol.data, ptrs)[last]
  {
    var v, ptrs := Written(s, k, d, offset).vol, GrownPtrs(s, k, More(s, k, |d|, offset));
    WrittenSafe(s, k, d, offset);
    NeededCovers(|d|, offset);
    assert Contents(v, k) == Concat(Place(s.vol.data, ptrs, d, InBlock(offset)), ptrs);
    PlaceOverlaysAt(s.vol.data, ptrs, d, InBlock(offset), offset + |d| - 1);
  }
}
