/** Inputs on which the file system does not do what its callers ask, each reached from a freshly formatted disk. */
module FsWitnesses {
  import opened Bytes
  import opened Layout
  import opened FsModel
  import opened FsTheorems
  import opened FsRuns
  import opened FsHistory

  /** Any disk, formatted and mounted, with its first file. */
  function OneFile(s: Fs): (s': Fs)
    requires s.Sized()
    ensures s'.Sized()
  {
    Exec(Exec(Exec(s, FormatDisk), MountDisk), CreateFile)
  }

  lemma OneFileIs(s: Fs)
    requires s.Sized()
    ensures var s' := OneFile(s);
      Coherent(s') && Safe(s') && s'.vol.inodes[0].valid != 0 && |Ptrs(s'.vol.inodes[0])| == 1
  {
    var mounted := Mount(Format(s.vol));
    FormatMountCoherent(s.vol);
    CreateResult(mounted);
    assert mounted.vol.inodes[0].valid == 0;
    CreatedSafe(mounted);
  }

  const TEXT: nat := 600

  /** The same with 600 zero bytes written to the file, which then has two blocks. */
  function TwoBlocks(s: Fs): (s': Fs)
    requires s.Sized()
    ensures s'.Sized()
  {
    Exec(OneFile(s), WriteFile(0, Zeros(TEXT), 0))
  }

  lemma Counts()
    ensures Needed(TEXT, 0) == 2 && Needed(10, 0) == 1 && Needed(1, BLOCK_SIZE) == 2 && InBlock(BLOCK_SIZE) == 0
  {
    NeededFormula(TEXT, 0);
    NeededFormula(1, BLOCK_SIZE);
  }

  /** A first write to a file of one block, which needs two. */
  lemma FirstSuits(s: Fs, d: seq<byte>)
    requires Coherent(s) && s.vol.inodes[0].valid != 0 && |Ptrs(s.vol.inodes[0])| == 1
    requires |d| < WORD_SIZE && Needed(|d|, 0) == 2
    ensures Suits(s, 0, |d|, 0) && More(s, 0, |d|, 0) == 1 && Exec(s, WriteFile(0, d, 0)) == Written(s, 0, d, 0)
  {
    WriteResult(s, 0, d, 0);
    SucceedsIff(s, 0, d, 0);
  }

  lemma FirstWritten(s: Fs, d: seq<byte>)
    requires Coherent(s) && Safe(s) && |Ptrs(s.vol.inodes[0])| == 1
    requires |d| < WORD_SIZE && Suits(s, 0, |d|, 0) && More(s, 0, |d|, 0) == 1
    ensures var s' := Written(s, 0, d, 0);
      Coherent(s') && Stores(s', 0, d) && |Ptrs(s'.vol.inodes[0])| == 2
  {
    JustWritten(s, 0, d);
    WrittenSafe(s, 0, d, 0);
  }

  lemma TwoBlocksIs(s: Fs)
    requires s.Sized()
    ensures var s', v := TwoBlocks(s), TwoBlocks(s).vol;
      && Coherent(s') && Safe(s') && v.inodes[0].valid != 0 && |Ptrs(v.inodes[0])| == 2
      && Stat(v, 0) == TEXT && Zeros(TEXT) <= Contents(v, 0)
  {
    OneFileIs(s);
    Counts();
    FirstSuits(OneFile(s), Zeros(TEXT));
    FirstWritten(OneFile(s), Zeros(TEXT));
  }

  /** Ten bytes to a file of two blocks: -4, with every block marked used. */
  lemma ShrinkingWriteFails(s: Fs)
    requires s.Sized()
    ensures var (r, s') := Write(TwoBlocks(s), 0, Zeros(10), 0);
      r == -4 && s'.free == NoneFree() && !Coherent(s')
  {
    TwoBlocksIs(s);
    Counts();
    WriteResult(TwoBlocks(s), 0, Zeros(10), 0);
    SucceedsIff(TwoBlocks(s), 0, Zeros(10), 0);
    CoherentIff(TwoBlocks(s), WriteFile(0, Zeros(10), 0));
  }

  /** A format of a disk with one file, without a mount: its block stays marked used. */
  lemma FormatLosesBlock(s: Fs)
    requires s.Sized()
    ensures !Coherent(Exec(OneFile(s), FormatDisk))
  {
    OneFileIs(s);
    CoherentIff(OneFile(s), FormatDisk);
  }

  /** One byte written at offset 512: the write returns 0, byte 512 of the file is what it was, and byte 0 is not. */
  lemma FarWriteMisplaced(s: Fs)
    requires s.Sized()
    ensures var before, d := TwoBlocks(s), [1];
      && Write(before, 0, d, BLOCK_SIZE).0 == 0 && Suits(before, 0, |d|, BLOCK_SIZE) && !Lands(before, 0, d, BLOCK_SIZE)
      && var v := Write(before, 0, d, BLOCK_SIZE).1.vol;
         Good(v) && |Contents(v, 0)| > BLOCK_SIZE && Contents(v, 0)[BLOCK_SIZE] == 0 && Contents(v, 0)[0] == 1
  {
    var before, d: seq<byte> := TwoBlocks(s), [1];
    TwoBlocksIs(s);
    Counts();
    WriteResult(before, 0, d, BLOCK_SIZE);
    SucceedsIff(before, 0, d, BLOCK_SIZE);
    WriteContents(before, 0, d, BLOCK_SIZE);
    var was, now := Contents(before.vol, 0), Contents(Written(before, 0, d, BLOCK_SIZE).vol, 0);
    assert was[BLOCK_SIZE] == Zeros(TEXT)[BLOCK_SIZE] == 0;
    assert now[0..0 + 1][0] == d[0];
    assert now[BLOCK_SIZE..BLOCK_SIZE + 1][0] == now[BLOCK_SIZE];
  }

  /** 600 bytes read from a file of 600 zeros: the buffer keeps what it held from byte 512 on. */
  lemma LongReadStops(s: Fs)
    requires s.Sized()
    ensures var v, buf := TwoBlocks(s).vol, seq(TEXT, i => 1 as byte);
      && Good(v) && TEXT <= |Contents(v, 0)| && Read(v, 0, buf, TEXT).0 == 0
      && Read(v, 0, buf, TEXT).1[BLOCK_SIZE] == 1 != Contents(v, 0)[BLOCK_SIZE]
  {
    var v, buf := TwoBlocks(s).vol, seq(TEXT, i => 1 as byte);
    TwoBlocksIs(s);
    ReadExact(v, 0, TEXT);
    ReadPastFirstBlock(v, 0, buf, TEXT);
    assert Contents(v, 0)[BLOCK_SIZE] == Zeros(TEXT)[BLOCK_SIZE];
  }
}
