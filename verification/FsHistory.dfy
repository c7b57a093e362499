/** Every run of the file system: formats, mounts, creates and writes in any order. */
module FsHistory {
  import opened Bytes
  import opened Layout
  import opened FsModel
  import opened FsTheorems
  import opened FsRuns

  // ---------------------------------------------------------------- the other operations

  /** An inode not in use has no pointers; giving it one free block makes it the fresh inode. */
  lemma FreshPtrs(s: Fs, k: nat)
    requires Safe(s) && k < INODES && s.vol.inodes[k].valid == 0 && FreeList(s.free) != []
    ensures var b := FreeList(s.free)[0];
      FIRST_DATA_BLOCK <= b && GrownPtrs(s, k, 1) == [b] && Fresh(s.vol.inodes[k], b).direct == Pad([b])
  {
    FreeAt(s, 0);
    PtrsOfInode(s.vol, k);
    assert FreeList(s.free)[..1] == [FreeList(s.free)[0]];
  }

  lemma CreatedSafe(s: Fs)
    requires Safe(s) && FirstInvalid(s.vol.inodes, 0) < INODES && FreeList(s.free) != []
    ensures var (r, s') := Create(s);
      && r == FirstInvalid(s.vol.inodes, 0)
      && s'.vol == Volume(s.vol.super, s.vol.inodes[r := Fresh(s.vol.inodes[r], FreeList(s.free)[0])], s.vol.data)
      && Safe(s') && (Coherent(s) ==> Coherent(s'))
      && Ptrs(s'.vol.inodes[r]) == [FreeList(s.free)[0]] && !Referenced(s.vol, FreeList(s.free)[0])
  {
    var k, b := FirstInvalid(s.vol.inodes, 0), FreeList(s.free)[0];
    FreshPtrs(s, k);
    FreeAt(s, 0);
    var x, v' := Fresh(s.vol.inodes[k], b), Create(s).1.vol;
    GrowKeeps(s, k, 1, x, v');
    FirstZeroUnique(x.direct, 1);
  }

  /** What a successful `fs_create` gives. */
  predicate NewFile(s: Fs, r: int, s': Fs)
    requires s.Sized() && s'.Sized()
  {
    && 0 <= r < INODES && s.vol.inodes[r].valid == 0
    && (forall m | 0 <= m < r :: s.vol.inodes[m].valid != 0)
    && Stat(s'.vol, r) == 0 && |Ptrs(s'.vol.inodes[r])| == 1
    && !Referenced(s.vol, Ptrs(s'.vol.inodes[r])[0])
  }

  /** `fs_create` gives the least inode not in use, as an empty file of one block nobody else has. It fails exactly
      when all ten inodes are in use or the map has lost every free block; with an exact map, only the former. */
  lemma CreateResult(s: Fs)
    requires Safe(s)
    ensures var (r, s') := Create(s);
      && Safe(s') && (Coherent(s) ==> Coherent(s') && FreeList(s.free) != [])
      && (r == -1 <==> FreeList(s.free) == [] || forall m | 0 <= m < INODES :: s.vol.inodes[m].valid != 0)
      && (if r == -1 then s' == s else NewFile(s, r, s'))
  {
    if Coherent(s) {
      EnoughFree(s);
    }
    var k := FirstInvalid(s.vol.inodes, 0);
    if FreeList(s.free) != [] && k < INODES {
      CreatedSafe(s);
      assert s.vol.inodes[k].valid == 0;
    }
  }

  lemma CreateSafe(s: Fs)
    requires Safe(s)
    ensures Safe(Create(s).1) && (Coherent(s) ==> Coherent(Create(s).1))
  {
    if FirstInvalid(s.vol.inodes, 0) < INODES && FreeList(s.free) != [] {
      CreatedSafe(s);
    }
  }

  lemma FormatGood(v: Volume)
    requires v.Sized()
    ensures Good(Format(v)) && forall b | FIRST_DATA_BLOCK <= b < BLOCK_NUM :: !Referenced(Format(v), b)
  {
    var v' := Format(v);
    forall k, i | 0 <= k < INODES && 0 <= i < POINTERS_PER_INODE ensures Slot(v', k, i) == 0 {}
  }

  lemma MountCoherent(v: Volume)
    requires Good(v)
    ensures Coherent(Mount(v)) && Safe(Mount(v))
  {}

  // ---------------------------------------------------------------- runs

  /** A command at the shell. Formatting does not rebuild the cached map; mounting does. */
  datatype Command = FormatDisk | MountDisk | CreateFile | WriteFile(k: nat, data: seq<byte>, offset: word)
  {
    predicate Valid() { WriteFile? ==> k < INODES && |data| < WORD_SIZE }
  }

  predicate AllCommands(cs: seq<Command>) {
    forall i | 0 <= i < |cs| :: cs[i].Valid()
  }

  function Exec(s: Fs, c: Command): (s': Fs)
    requires s.Sized() && c.Valid()
    ensures s'.Sized()
  {
    match c
    case FormatDisk => Fs(Format(s.vol), s.free)
    case MountDisk => Mount(s.vol)
    case CreateFile => Create(s).1
    case WriteFile(k, data, offset) => Write(s, k, data, offset).1
  }

  function ExecAll(s: Fs, cs: seq<Command>): (s': Fs)
    requires s.Sized() && AllCommands(cs)
    ensures s'.Sized()
    decreases |cs|
  {
    if cs == [] then s else ExecAll(Exec(s, cs[0]), cs[1..])
  }

  /** The command keeps an exact map exact: not a write that needs fewer blocks than the file has, and not a format
      of a disk with files. */
  predicate KeepsMap(s: Fs, c: Command)
    requires s.Sized() && c.Valid()
  {
    match c
    case FormatDisk => NoFiles(s.vol)
    case WriteFile(k, data, offset) => PtrCount(s.vol.inodes[k].direct) <= Needed(|data|, offset)
    case _ => true
  }

  predicate NoFiles(v: Volume)
    requires v.Sized()
  {
    forall k | 0 <= k < INODES :: v.inodes[k].valid == 0
  }

  /** Since the last mount, or since the beginning if the map was exact then, every command has kept the map. */
  predicate KeptSinceMount(s: Fs, cs: seq<Command>, exact: bool)
    requires s.Sized() && AllCommands(cs)
    decreases |cs|
  {
    if cs == [] then exact
    else KeptSinceMount(Exec(s, cs[0]), cs[1..], cs[0].MountDisk? || (exact && KeepsMap(s, cs[0])))
  }

  lemma ExecSafe(s: Fs, c: Command)
    requires Safe(s) && c.Valid()
    ensures Safe(Exec(s, c))
  {
    match c
    case FormatDisk => FormatGood(s.vol);
    case MountDisk => MountCoherent(s.vol);
    case CreateFile => CreateSafe(s);
    case WriteFile(k, data, offset) =>
      SucceedsIff(s, k, data, offset);
      if Suits(s, k, |data|, offset) {
        WrittenSafe(s, k, data, offset);
      }
  }

  /** Over every run whatsoever, even after writes that fail and formats without a mount: no block belongs
      to two files, and the cached map never calls a block free that a file uses. */
  lemma {:induction false} EveryRunSafe(s: Fs, cs: seq<Command>)
    requires Safe(s) && AllCommands(cs)
    ensures Safe(ExecAll(s, cs))
    decreases |cs|
  {
    if cs != [] {
      ExecSafe(s, cs[0]);
      EveryRunSafe(Exec(s, cs[0]), cs[1..]);
    }
  }

  lemma ExecCoherent(s: Fs, c: Command)
    requires Coherent(s) && c.Valid() && KeepsMap(s, c)
    ensures Coherent(Exec(s, c))
  {
    match c
    case FormatDisk => FormatIff(s);
    case MountDisk => MountCoherent(s.vol);
    case CreateFile => CreateSafe(s);
    case WriteFile(k, data, offset) =>
      EnoughFree(s);
      SucceedsIff(s, k, data, offset);
      if Suits(s, k, |data|, offset) {
        WrittenSafe(s, k, data, offset);
      }
  }

  /** A format keeps the cached map exact if and only if there were no files: it does not touch the map. */
  lemma FormatIff(s: Fs)
    requires Coherent(s)
    ensures Coherent(Exec(s, FormatDisk)) <==> NoFiles(s.vol)
  {
    FormatGood(s.vol);
    if NoFiles(s.vol) {
      forall b | FIRST_DATA_BLOCK <= b < BLOCK_NUM ensures !Referenced(s.vol, b) {
        NoFilesNoBlocks(s.vol, b);
      }
    } else {
      var k :| 0 <= k < INODES && s.vol.inodes[k].valid != 0;
      PtrsOfInode(s.vol, k);
      LostBlock(Exec(s, FormatDisk), Ptrs(s.vol.inodes[k])[0]);
    }
  }

  lemma NoFilesNoBlocks(v: Volume, b: nat)
    requires Good(v) && NoFiles(v) && b != 0
    ensures !Referenced(v, b)
  {
    forall k, i | 0 <= k < INODES && 0 <= i < POINTERS_PER_INODE ensures Slot(v, k, i) == 0 {
      assert GoodInode(v.inodes[k]);
    }
  }

  // ---------------------------------------------------------------- lost blocks

  /** No file uses the block, but the map says it is used. */
  predicate Lost(s: Fs, b: nat)
    requires s.Sized()
  {
    FIRST_DATA_BLOCK <= b < BLOCK_NUM && !s.free[b] && !Referenced(s.vol, b)
  }

  lemma LostBlock(s: Fs, b: nat)
    requires s.Sized() && Lost(s, b)
    ensures !Coherent(s)
  {
    assert FreeMap(s.vol)[b];
  }

  /** A sound map that is not exact has lost a block. */
  lemma SomeLost(s: Fs) returns (b: nat)
    requires Safe(s) && !Coherent(s)
    ensures Lost(s, b)
  {
    b :| 0 <= b < BLOCK_NUM && s.free[b] != FreeMap(s.vol)[b];
  }

  /** Giving free blocks to an inode finds no lost one. */
  lemma GrowKeepsLost(s: Fs, k: nat, n: nat, x: Inode, v': Volume, b: nat)
    requires Safe(s) && SameButInode(s.vol, k, x, v') && n <= |FreeList(s.free)| && Lost(s, b)
    requires |GrownPtrs(s, k, n)| <= POINTERS_PER_INODE && x.direct == Pad(GrownPtrs(s, k, n))
    ensures v'.Sized() && Lost(Fs(v', Take(s.free, n)), b)
  {
    PtrsOfInode(s.vol, k);
    var more := FreeList(s.free)[..n];
    assert b !in FreeList(s.free);
    ReferencedAfter(s.vol, k, Ptrs(s.vol.inodes[k]), more, x, v', b);
  }

  lemma CreateKeepsLost(s: Fs, b: nat)
    requires Safe(s) && Lost(s, b)
    ensures Lost(Create(s).1, b)
  {
    var k := FirstInvalid(s.vol.inodes, 0);
    if k < INODES && FreeList(s.free) != [] {
      CreatedSafe(s);
      FreshPtrs(s, k);
      GrowKeepsLost(s, k, 1, Fresh(s.vol.inodes[k], FreeList(s.free)[0]), Create(s).1.vol, b);
    }
  }

  lemma WriteKeepsLost(s: Fs, k: nat, data: seq<byte>, offset: word, b: nat)
    requires Safe(s) && k < INODES && |data| < WORD_SIZE && Lost(s, b)
    ensures Lost(Write(s, k, data, offset).1, b)
  {
    SucceedsIff(s, k, data, offset);
    if Suits(s, k, |data|, offset) {
      var v' := Written(s, k, data, offset).vol;
      GrowKeepsLost(s, k, More(s, k, |data|, offset), v'.inodes[k], v', b);
    }
  }

  /** Only a mount finds a lost block again. */
  lemma ExecKeepsLost(s: Fs, c: Command, b: nat)
    requires Safe(s) && c.Valid() && !c.MountDisk? && Lost(s, b)
    ensures Lost(Exec(s, c), b)
  {
    match c
    case FormatDisk => FormatGood(s.vol);
    case CreateFile => CreateKeepsLost(s, b);
    case WriteFile(k, data, offset) => WriteKeepsLost(s, k, data, offset, b);
  }

  /** One command keeps the cached map exact if and only if it is neither a write that needs fewer blocks than the
      file has nor a format of a disk with files. */
  lemma CoherentIff(s: Fs, c: Command)
    requires Coherent(s) && c.Valid()
    ensures Coherent(Exec(s, c)) <==> KeepsMap(s, c)
  {
    if KeepsMap(s, c) {
      ExecCoherent(s, c);
    } else if c.FormatDisk? {
      FormatIff(s);
    } else {
      // -4: every block is marked used, though at least eight are not
      EnoughFree(s);
      SucceedsIff(s, c.k, c.data, c.offset);
      WriteResult(s, c.k, c.data, c.offset);
      PtrsOfInode(s.vol, c.k);
      assert FreeList(s.free)[0] in FreeList(s.free);
      assert s.free[FreeList(s.free)[0]];
    }
  }

  lemma StepCoherent(s: Fs, c: Command)
    requires Safe(s) && c.Valid()
    ensures Coherent(Exec(s, c)) <==> c.MountDisk? || (Coherent(s) && KeepsMap(s, c))
  {
    if c.MountDisk? {
      MountCoherent(s.vol);
    } else if Coherent(s) {
      CoherentIff(s, c);
    } else {
      var b := SomeLost(s);
      ExecKeepsLost(s, c, b);
      LostBlock(Exec(s, c), b);
    }
  }

  /** Over every run whatsoever, with formats and failed writes in it: the cached map is exactly the one a remount
      would build, so that a remount changes nothing, if and only if every command since the last mount kept it. */
  lemma {:induction false} EveryRunCoherent(s: Fs, cs: seq<Command>)
    requires Safe(s) && AllCommands(cs)
    ensures Coherent(ExecAll(s, cs)) <==> KeptSinceMount(s, cs, Coherent(s))
    ensures Coherent(ExecAll(s, cs)) <==> Mount(ExecAll(s, cs).vol) == ExecAll(s, cs)
    decreases |cs|
  {
    if cs == [] {
    } else {
      ExecSafe(s, cs[0]);
      StepCoherent(s, cs[0]);
      EveryRunCoherent(Exec(s, cs[0]), cs[1..]);
    }
  }

  /** Any disk, formatted and mounted, is where such runs begin. */
  lemma FormatMountCoherent(v: Volume)
    requires v.Sized()
    ensures Coherent(Mount(Format(v)))
  {
    FormatGood(v);
    MountCoherent(Format(v));
  }

  // ---------------------------------------------------------------- fs_stat

  /** -1 exactly for an inode that has no block; otherwise its size, and zero is one. */
  lemma StatExact(v: Volume, k: nat)
    requires Good(v) && k < INODES
    ensures Stat(v, k) == -1 <==> Ptrs(v.inodes[k]) == []
    ensures Stat(v, k) != -1 ==> 0 <= Stat(v, k) == v.inodes[k].size <= 512 * |Ptrs(v.inodes[k])|
  {
    PtrsOfInode(v, k);
    assert GoodInode(v.inodes[k]);
  }

  /** After a format all ten inodes give -1. */
  lemma StatFormatted(v: Volume, k: nat)
    requires v.Sized() && k < 10
    ensures Stat(Format(v), k) == -1 && Stat(Mount(Format(v)).vol, k) == -1
  {
    assert Format(v).inodes[k] == BlankInode();
  }

  /** A create turns the least inode that gives -1 into one that gives 0, and no other changes; it fails, with an exact
      map, exactly when none gives -1. */
  lemma StatCreated(s: Fs, k: nat)
    requires Coherent(s) && k < INODES
    ensures var (r, s') := Create(s);
      && (k == r ==> Stat(s.vol, k) == -1 && Stat(s'.vol, k) == 0)
      && (k < r ==> Stat(s.vol, k) != -1)
      && (k != r ==> Stat(s'.vol, k) == Stat(s.vol, k))
      && (r == -1 ==> Stat(s.vol, k) != -1)
  {
    EnoughFree(s);
    StatExact(s.vol, k);
    PtrsOfInode(s.vol, k);
    CreateResult(s);
    if FirstInvalid(s.vol.inodes, 0) < INODES {
      CreatedSafe(s);
    }
  }

  /** A write gives its own inode offset + length, if it returns 0, and changes no other size. */
  lemma StatWritten(s: Fs, k: nat, d: seq<byte>, offset: word, m: nat)
    requires Safe(s) && k < INODES && m < INODES && |d| < WORD_SIZE
    ensures var (r, s') := Write(s, k, d, offset);
      Stat(s'.vol, m) == if r == 0 && m == k then offset + |d| else Stat(s.vol, m)
  {
    SucceedsIff(s, k, d, offset);
    if Suits(s, k, |d|, offset) {
      WriteContents(s, k, d, offset);
    }
  }

  // ---------------------------------------------------------------- the other fields of an inode

  /** A new file is called "root", whatever followed in the name stays, and its type stays. */
  lemma CreatedInode(s: Fs)
    requires Safe(s) && Create(s).0 != -1
    ensures var (r, s') := Create(s);
      var x, x' := s.vol.inodes[r], s'.vol.inodes[r];
      && x'.name[..4] == [0x72, 0x6F, 0x6F, 0x74] && x'.name[4..] == x.name[4..]
      && x'.valid == 1 && x'.size == 0 && x'.kind == x.kind
      && x'.direct[0] == FreeList(s.free)[0] && (forall i | 1 <= i < 5 :: x'.direct[i] == 0)
  {
    CreatedSafe(s);
    assert ROOT == [0x72, 0x6F, 0x6F, 0x74];
    var x := s.vol.inodes[Create(s).0];
    assert (ROOT + x.name[4..])[..4] == ROOT && (ROOT + x.name[4..])[4..] == x.name[4..];
  }

  /** A write changes size and pointers of its inode, and the pointers only past those it had. */
  lemma WrittenInode(s: Fs, k: nat, d: seq<byte>, offset: word)
    requires Safe(s) && k < INODES && |d| < WORD_SIZE && Suits(s, k, |d|, offset)
    ensures var x, x' := s.vol.inodes[k], Written(s, k, d, offset).vol.inodes[k];
      && x'.name == x.name && x'.valid == x.valid && x'.kind == x.kind
      && x'.size == offset + |d| && Ptrs(x) <= Ptrs(x')
  {
    WrittenSafe(s, k, d, offset);
  }

  // ---------------------------------------------------------------- persistence

  predicate Leaves(c: Command, k: nat) {
    match c
    case FormatDisk => false
    case WriteFile(m, _, _) => m != k
    case _ => true
  }

  lemma ExecKeepsFile(s: Fs, c: Command, k: nat)
    requires Safe(s) && c.Valid() && k < INODES && s.vol.inodes[k].valid != 0 && Leaves(c, k)
    ensures var s' := Exec(s, c);
      Safe(s') && s'.vol.inodes[k] == s.vol.inodes[k] && Contents(s'.vol, k) == Contents(s.vol, k)
  {
    ExecSafe(s, c);
    match c
    case MountDisk =>
    case CreateFile =>
      if FirstInvalid(s.vol.inodes, 0) < INODES && FreeList(s.free) != [] {
        CreatedSafe(s);
      }
    case WriteFile(m, data, offset) => WriteIsolation(s, m, data, offset, k);
  }

  lemma {:induction false} RunKeepsFile(s: Fs, cs: seq<Command>, k: nat)
    requires Safe(s) && AllCommands(cs) && k < INODES && s.vol.inodes[k].valid != 0
    requires forall i | 0 <= i < |cs| :: Leaves(cs[i], k)
    ensures var s' := ExecAll(s, cs);
      Safe(s') && s'.vol.inodes[k] == s.vol.inodes[k] && Contents(s'.vol, k) == Contents(s.vol, k)
    decreases |cs|
  {
    if cs != [] {
      ExecKeepsFile(s, cs[0], k);
      RunKeepsFile(Exec(s, cs[0]), cs[1..], k);
    }
  }

  /** Reading n bytes of a file that has that many fills the buffer with the start of the file for every
      buffer exactly when n is at most one block. */
  lemma ReadExact(v: Volume, k: nat, n: word)
    requires Good(v) && k < INODES && 0 < n <= v.inodes[k].size && v.inodes[k].valid != 0
    ensures n <= |Contents(v, k)|
    ensures (forall buf | |buf| == n :: Read(v, k, buf, n).1 == Contents(v, k)[..n]) <==> n <= BLOCK_SIZE
    ensures forall buf | |buf| == n :: Read(v, k, buf, n).0 == 0
  {
    PtrsOfInode(v, k);
    assert GoodInode(v.inodes[k]);
    var file := Contents(v, k);
    if n <= BLOCK_SIZE {
      forall buf | |buf| == n ensures Read(v, k, buf, n).1 == file[..n] {
        ReadFirstBlock(v, k, buf, n);
      }
    } else {
      var buf: seq<byte> := seq(n, i => if file[BLOCK_SIZE] == 0 then 1 else 0);
      ReadPastFirstBlock(v, k, buf, n);
      assert file[..n][BLOCK_SIZE] == file[BLOCK_SIZE];
    }
  }

  /** The cases of `fs_read`. */
  lemma ReadCases(v: Volume, k: nat, buf: seq<byte>, n: word)
    requires Good(v) && k < INODES && n <= |buf|
    ensures var x, r := v.inodes[k], Read(v, k, buf, n);
      && (x.valid == 0 || x.size == 0 ==> r == (0, buf))
      && (x.valid != 0 && x.size != 0 && x.size < n ==> r == (-3, buf))
      && (x.valid != 0 && x.size != 0 && n <= x.size ==>
          && PtrCount(x.direct) > 0 && FIRST_DATA_BLOCK <= x.direct[0] < BLOCK_NUM
          && r == (0, Splice(buf, 0, v.data[x.direct[0]][..Min(BLOCK_SIZE, n)])))
      && (n == 0 ==> r == (0, buf))
  {
    PtrsOfInode(v, k);
    assert GoodInode(v.inodes[k]);
    assert forall d: seq<byte> | |d| == 0 :: Splice(buf, 0, d) == buf;
  }

  lemma ReadFirstBlock(v: Volume, k: nat, buf: seq<byte>, n: word)
    requires Good(v) && k < INODES && 0 < n <= v.inodes[k].size && v.inodes[k].valid != 0
    requires |buf| == n <= BLOCK_SIZE
    ensures n <= |Contents(v, k)| && Read(v, k, buf, n) == (0, Contents(v, k)[..n])
  {
    PtrsOfInode(v, k);
    assert GoodInode(v.inodes[k]);
    var ptrs := Ptrs(v.inodes[k]);
    var block := v.data[ptrs[0]];
    assert Contents(v, k) == block + Concat(v.data, ptrs[1..]);
    assert Contents(v, k)[..n] == block[..n];
    assert v.inodes[k].direct[0] == ptrs[0];
    assert Splice(buf, 0, block[..n]) == block[..n];
  }

  /** Bytes of the buffer past the first block keep what they held. */
  lemma ReadPastFirstBlock(v: Volume, k: nat, buf: seq<byte>, n: word)
    requires Good(v) && k < INODES && n <= v.inodes[k].size && v.inodes[k].valid != 0
    requires |buf| == n > BLOCK_SIZE
    ensures Read(v, k, buf, n).1[BLOCK_SIZE] == buf[BLOCK_SIZE]
  {
  }

  /** What was written at the start of a file is read back after any run that does not write that file or
      format: creates, writes to other files that succeed or fail, and remounts. */
  lemma WriteReadPersistence(s: Fs, k: nat, d: seq<byte>, cs: seq<Command>, buf: seq<byte>)
    requires Safe(s) && k < INODES && |d| < WORD_SIZE && Suits(s, k, |d|, 0) && AllCommands(cs)
    requires forall i | 0 <= i < |cs| :: Leaves(cs[i], k)
    requires 0 < |buf| <= |d| && |buf| <= BLOCK_SIZE
    ensures var s' := ExecAll(Written(s, k, d, 0), cs);
      Good(s'.vol) && Stat(s'.vol, k) == |d| && Read(s'.vol, k, buf, |buf|) == (0, d[..|buf|])
  {
    JustWritten(s, k, d);
    StaysReadable(Written(s, k, d, 0), k, d, cs, buf);
  }

  /** File k begins with d and has its length. */
  predicate Stores(s: Fs, k: nat, d: seq<byte>)
    requires k < INODES
  {
    Safe(s) && s.vol.inodes[k].valid != 0 && s.vol.inodes[k].size == |d| && d <= Contents(s.vol, k)
  }

  lemma StaysReadable(s: Fs, k: nat, d: seq<byte>, cs: seq<Command>, buf: seq<byte>)
    requires k < INODES && |d| < WORD_SIZE && Stores(s, k, d) && AllCommands(cs)
    requires forall i | 0 <= i < |cs| :: Leaves(cs[i], k)
    requires 0 < |buf| <= |d| && |buf| <= BLOCK_SIZE
    ensures var s' := ExecAll(s, cs);
      Good(s'.vol) && Stat(s'.vol, k) == |d| && Read(s'.vol, k, buf, |buf|) == (0, d[..|buf|])
  {
    RunKeepsFile(s, cs, k);
    ReadBack(ExecAll(s, cs), k, d, buf);
  }

  lemma ReadBack(s: Fs, k: nat, d: seq<byte>, buf: seq<byte>)
    requires k < INODES && |d| < WORD_SIZE && Stores(s, k, d) && 0 < |buf| <= |d| && |buf| <= BLOCK_SIZE
    ensures Stat(s.vol, k) == |d| && Read(s.vol, k, buf, |buf|) == (0, d[..|buf|])
  {
    ReadFirstBlock(s.vol, k, buf, |buf|);
    assert d[..|buf|] == Contents(s.vol, k)[..|buf|];
  }

  lemma JustWritten(s: Fs, k: nat, d: seq<byte>)
    requires Safe(s) && k < INODES && |d| < WORD_SIZE && Suits(s, k, |d|, 0)
    ensures Stores(Written(s, k, d, 0), k, d)
  {
    WriteContents(s, k, d, 0);
    WrittenSafe(s, k, d, 0);
    var s' := Written(s, k, d, 0);
    PtrsOfInode(s'.vol, k);
    assert Contents(s'.vol, k)[0..0 + |d|] == d;
  }
}
