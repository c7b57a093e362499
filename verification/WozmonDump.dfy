/** A dump printed by the monitor is a program for the monitor: typed back in, it restores the memory. */
module WozmonDump {
  import opened Bytes
  import opened WozmonModel
  import opened WozmonTheorems

  // ---------------------------------------------------------------- the dump command

  function Command(a: word, b: word): seq<byte> { Hex4(a) + [DOT] + Hex4(b) }

  lemma HexIsPlain(w: word)
    ensures Plain(Hex4(w)) && Hex4(w)[0] > DOT && Hex4(w)[0] != COLON && Hex4(w)[0] != RUN_KEY
    ensures forall i | 0 <= i < 4 :: IsHex(Hex4(w)[i])
  {}

  /** The line `AAAA.BBBB`, for any two addresses. */
  lemma CommandLine(m: Mon, a: word, b: word)
    requires m.Valid() && m.mode == Xam
    ensures var m1 := Opened(m.(ysav := 0, hl := a, st := a, xam := a));
      Items(Command(a, b) + [CR], 0, m) == Done(Examine(m1.(ysav := 5, hl := b, mode := Block)))
  {
    var line := Command(a, b) + [CR];
    var m1 := Opened(m.(ysav := 0, hl := a, st := a, xam := a));
    HexIsPlain(a);
    HexIsPlain(b);
    assert line[0..4] == Hex4(a) && line[4] == DOT && line[5..9] == Hex4(b) && line[9] == CR;
    ExamineOne(line, 0, m, a);
    ExamineTo(line, 4, m1, b);
    assert Items(line, 9, Examine(m1.(ysav := 5, hl := b, mode := Block))) ==
      Done(Examine(m1.(ysav := 5, hl := b, mode := Block)));
  }

  /** What `AAAA.BBBB` prints, before the final CR and LF. */
  function PrintedText(mem: seq<byte>, a: word, b: word): seq<byte>
    requires |mem| == MEMORY
  {
    HeaderText(a) + [BLANK] + Hex2(ByteAt(Mon(mem, a, a, a, 0, Xam, []), a))
    + Rest(Mon(mem, a, a, b, 5, Xam, []), a + 1, b)
  }

  /** Typing `AAAA.BBBB` prints the first address with its byte, then each address up to the second once,
      in ascending order, and changes no user memory. */
  lemma DumpAny(s: Session, a: word, b: word)
    requires s.Valid() && s.status == Prompt && s.y == 0
    ensures var s' := Type(s, Command(a, b) + [CR]);
      var mem := Splice(s.m.mem, IN, Command(a, b) + [CR]);
      && s'.status == Prompt && s'.y == 0 && s'.m.mem == mem
      && s'.m.out == s.m.out + Command(a, b) + [CR] + PrintedText(mem, a, b) + [CR, LF]
  {
    var t := Command(a, b);
    HexIsPlain(a);
    HexIsPlain(b);
    assert Plain(t);
    TypeLine(s, t);
    assert s.Line() + t + [CR] == t + [CR];
    var m := s.m.(mem := Splice(s.m.mem, IN, t + [CR]), out := s.m.out + t + [CR], mode := Xam);
    CommandLine(m, a, b);
    var m1 := m.(ysav := 0, hl := a, st := a, xam := a);
    CommandOutput(m1, b);
  }

  lemma CommandOutput(m1: Mon, b: word)
    requires m1.Valid() && m1.mode == Xam && m1.ysav == 0 && m1.hl == m1.st == m1.xam
    ensures var a := m1.xam;
      var s' := NewLine(Examine(Opened(m1).(ysav := 5, hl := b, mode := Block)));
      && s'.status == Prompt && s'.y == 0 && s'.m.mem == m1.mem
      && s'.m.out == m1.out + PrintedText(m1.mem, a, b) + [CR, LF]
  {
    var a: nat := m1.xam;
    var m2 := Opened(m1).(ysav := 5, hl := b, mode := Block);
    var h, d, r := HeaderText(a), Hex2(ByteAt(m1, a)), Rest(m2, a + 1, b);
    ExaminePrints(m2);
    RestSame(m2, Mon(m1.mem, a, a, b, 5, Xam, []), a + 1, b);
    assert m2.out == m1.out + h + [BLANK] + d;
    assert PrintedText(m1.mem, a, b) == h + [BLANK] + d + r;
    Join(m1.out, h, d, r);
  }

  lemma Join(o: seq<byte>, h: seq<byte>, d: seq<byte>, r: seq<byte>)
    ensures o + h + [BLANK] + d + r == o + (h + [BLANK] + d + r)
  {}

  lemma {:induction false} PairsSame(a: seq<byte>, b: seq<byte>, p: nat, q: nat)
    requires |a| == |b| == MEMORY && p <= q <= MEMORY && forall i | p <= i < q :: a[i] == b[i]
    ensures Pairs(a, p, q) == Pairs(b, p, q)
    decreases q - p
  {
    if p < q {
      PairsSame(a, b, p + 1, q);
    }
  }

  lemma {:induction false} DumpLinesSame(x: seq<byte>, z: seq<byte>, a: nat, b: word)
    requires |x| == |z| == MEMORY && forall i | a <= i <= b :: x[i] == z[i]
    ensures DumpLines(x, a, b) == DumpLines(z, a, b)
    decreases b + 1 - a
  {
    if a <= b {
      PairsSame(x, z, a, LineEnd(a, b));
      DumpLinesSame(x, z, LineEnd(a, b), b);
    }
  }

  /** For a range of user memory, what is printed is CR, LF and the lines of the dump. */
  lemma DumpUser(s: Session, a: word, b: word)
    requires s.Valid() && s.status == Prompt && s.y == 0 && UserRange(a, b)
    ensures var s' := Type(s, Command(a, b) + [CR]);
      && s'.status == Prompt && s'.y == 0
      && (forall p | User(p) :: s'.m.mem[p] == s.m.mem[p])
      && s'.m.out == s.m.out + Command(a, b) + [CR] + ([CR, LF] + DumpLines(s.m.mem, a, b))
  {
    DumpAny(s, a, b);
    var mem := Splice(s.m.mem, IN, Command(a, b) + [CR]);
    forall p | User(p) ensures mem[p] == s.m.mem[p] {}
    forall p | a <= p <= b ensures mem[p] == s.m.mem[p] { assert User(p); }
    DumpLinesSame(mem, s.m.mem, a, b);
    UserText(mem, a, b);
    Associate(s.m.out + Command(a, b) + [CR], PrintedText(mem, a, b), [CR, LF]);
  }

  lemma UserText(mem: seq<byte>, a: word, b: word)
    requires |mem| == MEMORY && UserRange(a, b)
    ensures PrintedText(mem, a, b) + [CR, LF] == [CR, LF] + DumpLines(mem, a, b)
  {
    var m2 := Mon(mem, a, a, b, 5, Xam, []);
    DumpText(m2, a, b);
    assert User(a);
    Header(LineStart(a), Pair(mem, a), Rest(m2, a + 1, b));
    assert HeaderText(a) + [BLANK] + Hex2(mem[a]) == [CR, LF] + LineStart(a) + Pair(mem, a);
  }

  lemma Header(l: seq<byte>, f: seq<byte>, rest: seq<byte>)
    ensures ([CR, LF] + l + f) + rest + [CR, LF] == [CR, LF] + (l + f + rest + [CR, LF])
  {}

  // ---------------------------------------------------------------- storing

  /** Memory after bytes p to q-1 are copied from `src`. */
  ghost predicate Copied(was: seq<byte>, now: seq<byte>, src: seq<byte>, p: nat, q: nat)
    requires |was| == |now| == |src| == MEMORY
  {
    && (forall i | User(i) && p <= i < q :: now[i] == src[i])
    && (forall i | User(i) && !(p <= i < q) :: now[i] == was[i])
  }

  lemma SkipBlank(line: seq<byte>, y: nat, m: Mon)
    requires m.Valid() && y < |line| <= LINE_MAX && line[|line| - 1] == CR && line[y] != CR && line[y] < DOT
    ensures y + 1 < |line| && Items(line, y, m) == Items(line, y + 1, m)
  {}

  /** One stored number. */
  lemma StoreNumber(line: seq<byte>, y: nat, n: nat, m: Mon, v: word)
    requires m.Valid() && m.mode == Stor && User(m.st) && y < |line| <= LINE_MAX && line[|line| - 1] == CR
    requires n == DigitRun(line, y) > 0 && HexWord(line[y..y + n]) == v
    ensures y + n < |line|
    ensures Items(line, y, m) ==
      Items(line, y + n, m.(ysav := y, hl := v, mem := m.mem[m.st := Low(v)], st := After(m.st)))
  {}

  /** One stored byte. */
  lemma StoreOne(line: seq<byte>, y: nat, m: Mon, b: byte)
    requires m.Valid() && m.mode == Stor && User(m.st) && y + 4 <= |line| <= LINE_MAX && line[|line| - 1] == CR
    requires line[y] == BLANK && line[y + 1..y + 3] == Hex2(b) && !IsHex(line[y + 3])
    ensures Items(line, y, m) ==
      Items(line, y + 3, m.(ysav := y + 1, hl := b, mem := m.mem[m.st := b], st := m.st + 1))
  {
    var two := line[y + 1..y + 3];
    assert line[y + 1] == two[0] && line[y + 2] == two[1];
    RunLength(line, y + 1, 2);
    Hex2RoundTrip(b);
    SkipBlank(line, y, m);
    StoreNumber(line, y + 1, 2, m, b);
  }

  lemma FirstPair(line: seq<byte>, y: nat, src: seq<byte>, p: nat, q: nat)
    requires |src| == MEMORY && p < q <= MEMORY && y <= |line| && line[y..] == Pairs(src, p, q) + [CR]
    ensures y + 4 <= |line| && line[y] == BLANK && line[y + 1..y + 3] == Hex2(src[p])
    ensures !IsHex(line[y + 3]) && line[y + 3..] == Pairs(src, p + 1, q) + [CR]
    ensures line[|line| - 1] == CR
  {
    var rest := Pairs(src, p + 1, q) + [CR];
    assert line[y..] == [BLANK] + Hex2(src[p]) + rest;
    assert line[y..][3..] == rest;
    assert line[y..][1..3] == Hex2(src[p]);
    assert line[y + 3] == rest[0];
  }

  /** The pairs of a line, in store mode, are stored one after the other. */
  lemma {:induction false} StorePairs(line: seq<byte>, y: nat, m: Mon, src: seq<byte>, p: nat, q: nat)
    requires m.Valid() && m.mode == Stor && |src| == MEMORY && p <= q <= MEMORY && (p < q ==> m.st == p)
    requires forall i | p <= i < q :: User(i)
    requires y <= |line| <= LINE_MAX && line[y..] == Pairs(src, p, q) + [CR]
    ensures var r := Items(line, y, m);
      r.Done? && Copied(m.mem, r.m.mem, src, p, q) && line[|line| - 1] == CR
    decreases q - p
  {
    if p == q {
      assert line[y..] == [CR];
      assert line[y] == line[y..][0];
    } else {
      assert User(p);
      FirstPair(line, y, src, p, q);
      StoreOne(line, y, m, src[p]);
      StorePairs(line, y + 3, m.(ysav := y + 1, hl := src[p], mem := m.mem[p := src[p]], st := p + 1), src, p + 1, q);
    }
  }

  /** A whole line of a dump, after the LF that begins it in the buffer. */
  lemma StoreLine(line: seq<byte>, m: Mon, src: seq<byte>, p: word, q: nat)
    requires m.Valid() && m.mode == Xam && |src| == MEMORY && p < q <= MEMORY
    requires forall i | p <= i < q :: User(i)
    requires |line| <= LINE_MAX && line == [LF] + LineStart(p) + Pairs(src, p, q) + [CR]
    ensures var r := Items(line, 0, m); r.Done? && Copied(m.mem, r.m.mem, src, p, q)
  {
    HexIsPlain(p);
    LineParts(line, src, p, q);
    var m1 := Opened(m.(ysav := 1, hl := p, st := p, xam := p));
    var m2 := m1.(mode := Stor);
    SkipBlank(line, 0, m);
    ExamineOne(line, 1, m, p);
    ColonStores(line, 5, m1);
    StorePairs(line, 6, m2, src, p, q);
  }

  lemma LineParts(line: seq<byte>, src: seq<byte>, p: word, q: nat)
    requires |src| == MEMORY && p < q <= MEMORY && line == [LF] + LineStart(p) + Pairs(src, p, q) + [CR]
    ensures |line| > 6 && line[0] == LF && line[1..5] == Hex4(p) && line[5] == COLON
    ensures line[6..] == Pairs(src, p, q) + [CR] && line[|line| - 1] == CR
  {
    var four, rest := Hex4(p), Pairs(src, p, q) + [CR];
    assert line == [LF] + four + [COLON] + rest;
    assert line[1..5] == four;
    assert line[6..] == rest;
  }

  lemma ColonStores(line: seq<byte>, y: nat, m: Mon)
    requires m.Valid() && y < |line| <= LINE_MAX && line[|line| - 1] == CR && line[y] == COLON
    ensures y + 1 < |line| && Items(line, y, m) == Items(line, y + 1, m.(mode := Stor))
  {}

  // ---------------------------------------------------------------- restoring

  /** At the prompt with just an LF in the buffer: where a dump leaves the monitor. */
  predicate AfterLF(s: Session) {
    s.Valid() && s.status == Prompt && s.y == 1 && s.m.mem[IN] == LF
  }

  lemma TypeLF(s: Session)
    requires s.Valid() && s.status == Prompt && s.y == 0
    ensures var s' := Type(s, [LF]); AfterLF(s') && forall p | User(p) :: s'.m.mem[p] == s.m.mem[p]
  {
    assert [LF][1..] == [];
    assert Type(s, [LF]) == Key(s, LF);
  }

  lemma {:induction false} PairsPlain(src: seq<byte>, p: nat, q: nat)
    requires |src| == MEMORY && p <= q <= MEMORY
    ensures Plain(Pairs(src, p, q)) && |Pairs(src, p, q)| == 3 * (q - p)
    decreases q - p
  {
    if p < q {
      PairsPlain(src, p + 1, q);
    }
  }

  /** Typing one line of the dump copies its bytes. */
  lemma TypeDumpLine(s: Session, src: seq<byte>, p: word, q: nat)
    requires AfterLF(s) && |src| == MEMORY && p < q <= p + 8 && q <= MEMORY && forall i | p <= i < q :: User(i)
    ensures var s' := Type(s, LineStart(p) + Pairs(src, p, q) + [CR, LF]);
      AfterLF(s') && Copied(s.m.mem, s'.m.mem, src, p, q)
  {
    var t := LineStart(p) + Pairs(src, p, q);
    HexIsPlain(p);
    PairsPlain(src, p, q);
    assert User(q - 1);
    TypeLine(s, t);
    var line := s.Line() + t + [CR];
    assert s.Line() == [LF];
    assert line == [LF] + LineStart(p) + Pairs(src, p, q) + [CR];
    var m := s.m.(mem := Splice(s.m.mem, IN + 1, t + [CR]), out := s.m.out + t + [CR]);
    StoreLine(line, m.(mode := Xam), src, p, q);
    var entered := Type(s, t + [CR]);
    TypeLF(entered);
    TypeAppend(s, t + [CR], [LF]);
    assert t + [CR] + [LF] == t + [CR, LF];
  }

  lemma {:induction false} TypeDump(s: Session, src: seq<byte>, a: nat, b: word)
    requires AfterLF(s) && |src| == MEMORY && forall p | a <= p <= b :: User(p)
    ensures var s' := Type(s, DumpLines(src, a, b));
      AfterLF(s') && Copied(s.m.mem, s'.m.mem, src, a, b + 1)
    decreases b + 1 - a
  {
    if a <= b {
      var q := LineEnd(a, b);
      var line := LineStart(a) + Pairs(src, a, q) + [CR, LF];
      TypeDumpLine(s, src, a, q);
      TypeAppend(s, line, DumpLines(src, q, b));
      TypeDump(Type(s, line), src, q, b);
    }
  }

  /** Dump and restore. Whatever one monitor prints for a range of user memory, typed into another monitor
      at its prompt, with any other memory, makes that range equal and leaves all other user memory alone. */
  lemma DumpRestores(s: Session, t: Session, a: word, b: word)
    requires s.Valid() && s.status == Prompt && s.y == 0 && UserRange(a, b)
    requires t.Valid() && t.status == Prompt && t.y == 0
    ensures var dumped := Type(s, Command(a, b) + [CR]);
      var before := s.m.out + Command(a, b) + [CR];
      && before <= dumped.m.out
      && var printed := dumped.m.out[|before|..];
      var t' := Type(t, printed);
      && t'.status == Prompt
      && Copied(t.m.mem, t'.m.mem, s.m.mem, a, b + 1)
  {
    DumpUser(s, a, b);
    var lines := DumpLines(s.m.mem, a, b);
    var before := s.m.out + Command(a, b) + [CR];
    assert (before + ([CR, LF] + lines))[|before|..] == [CR, LF] + lines;
    var t1 := Type(t, [CR]);
    TypeLine(t, []);
    assert [] + [CR] == [CR] && t.Line() + [] + [CR] == [CR];
    TypeAppend(t, [CR], [LF] + lines);
    TypeLF(t1);
    TypeAppend(t1, [LF], lines);
    TypeDump(Type(t1, [LF]), s.m.mem, a, b);
    assert [CR, LF] + lines == [CR] + ([LF] + lines);
  }
}
