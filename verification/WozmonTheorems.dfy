/** Printing and parsing undo each other, and what each of them promises. */
module WozmonTheorems {
  import opened Bytes
  import opened WozmonModel

  // ---------------------------------------------------------------- hexadecimal round trips

  /** One more digit. */
  lemma HexPush(ds: seq<byte>, c: byte)
    requires IsHex(c) && forall i | 0 <= i < |ds| :: IsHex(ds[i])
    ensures HexValue(ds + [c]) == 16 * HexValue(ds) + Digit(c)
  {
    assert (ds + [c])[..|ds|] == ds;
  }

  /** Two more digits. */
  lemma HexPush2(ds: seq<byte>, b: byte)
    requires forall i | 0 <= i < |ds| :: IsHex(ds[i])
    ensures HexValue(ds + Hex2(b)) == 0x100 * HexValue(ds) + b
  {
    var hi, lo := HexChar(b / 16), HexChar(b % 16);
    assert ds + Hex2(b) == ds + [hi] + [lo];
    HexPush(ds, hi);
    HexPush(ds + [hi], lo);
  }

  /** Parsing what `PRBYTE` prints gives the byte back. */
  lemma Hex2RoundTrip(b: byte)
    ensures HexValue(Hex2(b)) == b && HexWord(Hex2(b)) == b
  {
    assert [] + Hex2(b) == Hex2(b);
    HexPush2([], b);
  }

  lemma Hex4RoundTrip(w: word)
    ensures HexWord(Hex4(w)) == w
  {
    Hex2RoundTrip(High(w));
    HexPush2(Hex2(High(w)), Low(w));
  }

  lemma RunLength(line: seq<byte>, y: nat, n: nat)
    requires y + n < |line| && !IsHex(line[y + n])
    requires forall i | y <= i < y + n :: IsHex(line[i])
    ensures DigitRun(line, y) == n
  {}

  // ---------------------------------------------------------------- block examine

  /** The entries of addresses p to b. */
  function Rest(m: Mon, p: nat, b: word): seq<byte>
    requires m.Valid()
    decreases b + 1 - p
  {
    if p > b then [] else Entry(m, p) + Rest(m, p + 1, b)
  }

  lemma {:induction false} RestSame(m: Mon, n: Mon, p: nat, b: word)
    requires m.Valid() && n.Valid() && m.mem == n.mem && m.st == n.st && m.hl == n.hl && m.ysav == n.ysav
    ensures Rest(m, p, b) == Rest(n, p, b)
    decreases b + 1 - p
  {
    if p <= b {
      RestSame(m, n, p + 1, b);
    }
  }

  /** Block examine, for any two addresses: it ends at the larger one, changes nothing but the mode, and
      prints every address after the first up to the second, once, in order. */
  lemma {:induction false} ExaminePrints(m: Mon)
    requires m.Valid()
    ensures Examine(m) ==
      m.(mode := Xam, xam := if m.xam < m.hl then m.hl else m.xam, out := m.out + Rest(m, m.xam + 1, m.hl))
    decreases m.hl - m.xam
  {
    if m.xam >= m.hl {
      assert m.out + [] == m.out;
    } else {
      var entry := Entry(m, m.xam + 1);
      var next := m.(mode := Xam, xam := m.xam + 1, out := m.out + entry);
      ExaminePrints(next);
      RestSame(m, next, next.xam + 1, m.hl);
      Associate(m.out, entry, Rest(m, next.xam + 1, m.hl));
    }
  }

  /** Examining one address prints a header and its byte. */
  lemma ExamineOne(line: seq<byte>, y: nat, m: Mon, a: word)
    requires m.Valid() && m.mode == Xam && y + 5 <= |line| <= LINE_MAX && line[|line| - 1] == CR
    requires line[y..y + 4] == Hex4(a) && !IsHex(line[y + 4])
    ensures var m' := m.(ysav := y, hl := a, st := a, xam := a);
      Items(line, y, m) ==
        Items(line, y + 4, Opened(m'))
  {
    var four := line[y..y + 4];
    assert line[y] == four[0] && line[y + 1] == four[1] && line[y + 2] == four[2] && line[y + 3] == four[3];
    assert IsHex(line[y]) && IsHex(line[y + 1]) && IsHex(line[y + 2]) && IsHex(line[y + 3]);
    RunLength(line, y, 4);
    Hex4RoundTrip(a);
  }

  /** `.` and an address examine up to that address. */
  lemma ExamineTo(line: seq<byte>, y: nat, m: Mon, b: word)
    requires m.Valid() && y + 6 <= |line| <= LINE_MAX && line[|line| - 1] == CR
    requires line[y] == DOT && line[y + 1..y + 5] == Hex4(b) && !IsHex(line[y + 5])
    ensures Items(line, y, m) == Items(line, y + 5, Examine(m.(ysav := y + 1, hl := b, mode := Block)))
  {
    var four := line[y + 1..y + 5];
    assert line[y + 1] == four[0] && line[y + 2] == four[1] && line[y + 3] == four[2] && line[y + 4] == four[3];
    assert IsHex(line[y + 1]) && IsHex(line[y + 2]) && IsHex(line[y + 3]) && IsHex(line[y + 4]);
    RunLength(line, y + 1, 4);
    Hex4RoundTrip(b);
  }

  // ---------------------------------------------------------------- typing

  predicate Plain(t: seq<byte>) {
    forall i | 0 <= i < |t| :: t[i] != CR && t[i] != BS && t[i] != ESC
  }

  /** Plain text that fits goes into the buffer and is echoed. */
  lemma {:induction false} TypePlain(s: Session, t: seq<byte>)
    requires s.Valid() && s.status == Prompt && Plain(t) && s.y + |t| < LINE_MAX
    ensures Type(s, t) ==
      Session(s.m.(mem := Splice(s.m.mem, IN + s.y, t), out := s.m.out + t), s.y + |t|, Prompt)
    decreases |t|
  {
    if t == [] {
      assert Splice(s.m.mem, IN + s.y, t) == s.m.mem && s.m.out + t == s.m.out;
    } else {
      var s' := Key(s, t[0]);
      TypePlain(s', t[1..]);
      assert Splice(s'.m.mem, IN + s'.y, t[1..]) == Splice(s.m.mem, IN + s.y, t);
      assert s.m.out + [t[0]] + t[1..] == s.m.out + t;
    }
  }

  /** Entering a line hands the whole buffer to the parser. */
  lemma TypeLine(s: Session, t: seq<byte>)
    requires s.Valid() && s.status == Prompt && Plain(t) && s.y + |t| < LINE_MAX
    ensures var m := s.m.(mem := Splice(s.m.mem, IN + s.y, t + [CR]), out := s.m.out + t + [CR]);
      Type(s, t + [CR]) == Enter(m, s.Line() + t + [CR])
  {
    TypeAppend(s, t, [CR]);
    TypePlain(s, t);
    var s' := Type(s, t);
    assert [CR][1..] == [];
    assert Type(s', [CR]) == Key(s', CR);
    SpliceLine(s.m.mem, IN + s.y, t, CR, IN);
  }

  /** One more byte after bytes laid into memory; and what is then there from lo on. */
  lemma SpliceLine(mem: seq<byte>, at: nat, t: seq<byte>, c: byte, lo: nat)
    requires lo <= at && at + |t| < |mem|
    ensures var mem' := Splice(mem, at, t)[at + |t| := c];
      mem' == Splice(mem, at, t + [c]) && mem'[lo..at + |t| + 1] == mem[lo..at] + t + [c]
  {}

  // ---------------------------------------------------------------- what a dump looks like

  /** A byte of memory after a blank. */
  function Pair(mem: seq<byte>, p: nat): seq<byte>
    requires p < |mem|
  {
    [BLANK] + Hex2(mem[p])
  }

  function Pairs(mem: seq<byte>, p: nat, q: nat): seq<byte>
    requires |mem| == MEMORY && p <= q <= MEMORY
    decreases q - p
  {
    if p == q then [] else Pair(mem, p) + Pairs(mem, p + 1, q)
  }

  function LineStart(p: word): seq<byte> { Hex4(p) + [COLON] }

  /** The address after the last one on the line that p is on. */
  function LineEnd(p: nat, b: word): (q: nat)
    requires p <= b
    ensures p < q <= b + 1
    ensures q <= b ==> q % 8 == 0
    ensures forall i | p < i < q :: i % 8 != 0
    ensures q - p <= 8
  {
    if p - p % 8 + 8 <= b then p - p % 8 + 8 else b + 1
  }

  /** The lines printed for addresses a to b, each ended by CR and LF. */
  function DumpLines(mem: seq<byte>, a: nat, b: word): seq<byte>
    requires |mem| == MEMORY
    decreases b + 1 - a
  {
    if a > b then [] else
    LineStart(a) + Pairs(mem, a, LineEnd(a, b)) + [CR, LF] + DumpLines(mem, LineEnd(a, b), b)
  }

  predicate UserRange(a: word, b: word) {
    a <= b && forall p | a <= p <= b :: User(p)
  }

  /** Entries of user memory up to the next multiple of 8 are the pairs of a line. */
  lemma {:induction false} RestOfLine(m: Mon, p: nat, q: nat, b: word)
    requires m.Valid() && p <= q <= b + 1
    requires forall i | p <= i < q :: i % 8 != 0 && User(i)
    ensures Rest(m, p, b) == Pairs(m.mem, p, q) + Rest(m, q, b)
    decreases q - p
  {
    if p < q {
      RestOfLine(m, p + 1, q, b);
      assert Entry(m, p) == Pair(m.mem, p);
      Associate(Pair(m.mem, p), Pairs(m.mem, p + 1, q), Rest(m, q, b));
    } else {
      assert [] + Rest(m, q, b) == Rest(m, q, b);
    }
  }

  lemma EntryAtLineStart(m: Mon, p: word)
    requires m.Valid() && User(p) && p % 8 == 0
    ensures Entry(m, p) == [CR, LF] + LineStart(p) + Pair(m.mem, p)
  {}

  /** What follows the first CR and LF of a dump of addresses a to b. */
  function DumpFrom(m: Mon, a: word, b: word): seq<byte>
    requires m.Valid()
  {
    LineStart(a) + Pair(m.mem, a) + Rest(m, a + 1, b)
  }

  /** A dump of user memory, with the CR and LF that follow it, is its lines. */
  lemma {:induction false} DumpText(m: Mon, a: word, b: word)
    requires m.Valid() && UserRange(a, b)
    ensures DumpFrom(m, a, b) + [CR, LF] == DumpLines(m.mem, a, b)
    decreases b - a
  {
    var q := LineEnd(a, b);
    RestOfLine(m, a + 1, q, b);
    if q <= b {
      DumpText(m, q, b);
      EntryAtLineStart(m, q);
      Middle(LineStart(a), Pair(m.mem, a), Pairs(m.mem, a + 1, q), LineStart(q), Pair(m.mem, q), Rest(m, q + 1, b));
    } else {
      Last(LineStart(a), Pair(m.mem, a), Pairs(m.mem, a + 1, q));
    }
  }

  lemma Middle(l: seq<byte>, f: seq<byte>, ps: seq<byte>, l': seq<byte>, f': seq<byte>, rest: seq<byte>)
    ensures l + f + (ps + ([CR, LF] + l' + f' + rest)) + [CR, LF] ==
      l + (f + ps) + [CR, LF] + (l' + f' + rest + [CR, LF])
  {}

  lemma Last(l: seq<byte>, f: seq<byte>, ps: seq<byte>)
    ensures l + f + (ps + []) + [CR, LF] == l + (f + ps) + [CR, LF] + []
  {}

  // ---------------------------------------------------------------- line editing

  /** Line editing without a buffer: the line after one more key that is not CR. */
  function Edit(line: seq<byte>, k: byte): seq<byte> {
    if k == BS then (if line == [] then [] else line[..|line| - 1])
    else if k == ESC || |line| + 1 == LINE_MAX then []
    else line + [k]
  }

  function EditAll(line: seq<byte>, keys: seq<byte>): seq<byte>
    decreases |keys|
  {
    if keys == [] then line else EditAll(Edit(line, keys[0]), keys[1..])
  }

  lemma EditKey(s: Session, k: byte)
    requires s.Valid() && s.status == Prompt && k != CR
    ensures var s' := Key(s, k);
      s'.status == Prompt && s'.Line() == Edit(s.Line(), k) && forall p | User(p) :: s'.m.mem[p] == s.m.mem[p]
  {
    var s' := Key(s, k);
    var mem := s.m.mem[IN + s.y := k];
    assert s'.m.mem == mem;
    assert mem[IN..IN + s.y] == s.Line();
    if s'.y == s.y + 1 {
      assert s'.Line() == s.Line() + [k];
    } else if s'.y > 0 {
      assert s'.Line() == s.Line()[..s.y - 1];
    }
  }

  /** For every sequence of keys before CR, the buffer index stays in range (it is part of `Valid`) and the
      buffer holds the edited line; no user memory changes. */
  lemma {:induction false} BufferHoldsLine(s: Session, keys: seq<byte>)
    requires s.Valid() && s.status == Prompt && CR !in keys
    ensures var s' := Type(s, keys);
      s'.status == Prompt && s'.Line() == EditAll(s.Line(), keys) && forall p | User(p) :: s'.m.mem[p] == s.m.mem[p]
    decreases |keys|
  {
    if keys != [] {
      EditKey(s, keys[0]);
      BufferHoldsLine(Key(s, keys[0]), keys[1..]);
    }
  }

  lemma {:induction false} EditAppend(line: seq<byte>, a: seq<byte>, b: seq<byte>)
    ensures EditAll(line, a + b) == EditAll(EditAll(line, a), b)
    decreases |a|
  {
    if a == [] {
      assert a + b == b;
    } else {
      assert (a + b)[0] == a[0] && (a + b)[1..] == a[1..] + b;
      EditAppend(Edit(line, a[0]), a[1..], b);
    }
  }

  /** As many backspaces as characters typed undo them. */
  lemma {:induction false} BackspacesUndo(line: seq<byte>, t: seq<byte>)
    requires Plain(t) && |line| + |t| < LINE_MAX
    ensures EditAll(line, t + seq(|t|, i => BS)) == line
    decreases |t|
  {
    if t != [] {
      var c, rest := t[0], t[1..];
      var bs: seq<byte> := seq(|rest|, i => BS);
      assert t + seq(|t|, i => BS) == [c] + ((rest + bs) + [BS]);
      BackspacesUndo(line + [c], rest);
      EditAppend(line + [c], rest + bs, [BS]);
      EditAppend(line, [c], (rest + bs) + [BS]);
      assert [c][1..] == [] && [BS][1..] == [];
      assert EditAll(line, [c]) == line + [c];
      assert EditAll(line + [c], [BS]) == Edit(line + [c], BS);
      assert (line + [c])[..|line|] == line;
    } else {
      assert t + seq(0, i => BS) == [];
    }
  }
}
