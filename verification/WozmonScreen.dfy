/** Everything the monitor puts on the screen besides memory: echoes, prompts, and the sign of a rejected line. */
module WozmonScreen {
  import opened Bytes
  import opened WozmonModel
  import opened WozmonTheorems
  import opened WozmonDump

  // ---------------------------------------------------------------- while a line is typed

  /** How long the line is after a key, when n characters are there before it. */
  function Length(n: nat, k: byte): (n': nat)
    requires n < 128
    ensures n' < 128
  {
    if k == 0x08 then (if n == 0 then 0 else n - 1) else if k == 0x1B || n == 127 then 0 else n + 1
  }

  /** What a key puts on the screen: itself; then CR and LF if it is a backspace and there is nothing to erase; and
      a backslash, CR and LF if it is ESC or fills the buffer. */
  function Shown(n: nat, k: byte): seq<byte>
    requires n < 128
  {
    [k] +
    if k == 0x08 then (if n == 0 then [0x0D, 0x0A] else [])
    else if k == 0x1B || n == 127 then [0x5C, 0x0D, 0x0A]
    else []
  }

  function ShownAll(n: nat, keys: seq<byte>): seq<byte>
    requires n < 128
    decreases |keys|
  {
    if keys == [] then [] else Shown(n, keys[0]) + ShownAll(Length(n, keys[0]), keys[1..])
  }

  function LengthAll(n: nat, keys: seq<byte>): (n': nat)
    requires n < 128
    ensures n' < 128
    decreases |keys|
  {
    if keys == [] then n else LengthAll(Length(n, keys[0]), keys[1..])
  }

  lemma KeyShown(s: Session, k: byte)
    requires s.Valid() && s.status == Prompt && k != 0x0D
    ensures var s' := Key(s, k);
      s'.status == Prompt && s'.y == Length(s.y, k) && s'.m.out == s.m.out + Shown(s.y, k)
  {
    var o := s.m.out;
    assert o + [k] + [0x0D, 0x0A] == o + ([k] + [0x0D, 0x0A]);
    assert o + [k] + [0x5C] + [0x0D, 0x0A] == o + ([k] + [0x5C, 0x0D, 0x0A]);
    assert o + [k] == o + ([k] + []);
  }

  /** For any keys without CR, the screen and the length of the line depend on the keys alone. */
  lemma {:induction false} EditorScreen(s: Session, keys: seq<byte>)
    requires s.Valid() && s.status == Prompt && 0x0D !in keys
    ensures var s' := Type(s, keys);
      s'.status == Prompt && s'.y == LengthAll(s.y, keys) && s'.m.out == s.m.out + ShownAll(s.y, keys)
    decreases |keys|
  {
    if keys == [] {
      assert s.m.out + [] == s.m.out;
    } else {
      var k, rest := keys[0], keys[1..];
      KeyShown(s, k);
      EditorScreen(Key(s, k), rest);
      Associate(s.m.out, Shown(s.y, k), ShownAll(Length(s.y, k), rest));
    }
  }

  // ---------------------------------------------------------------- when a line is entered

  /** An item that is neither a delimiter, a command nor a hexadecimal number. */
  predicate NoItem(c: byte) {
    c > 0x2E && c != 0x3A && c != 0x52 && !(0x30 <= c <= 0x39) && !(0x41 <= c <= 0x46)
  }

  lemma {:induction false} SkipBlanks(line: seq<byte>, y: nat, z: nat, m: Mon)
    requires m.Valid() && y <= z < |line| <= 128 && line[|line| - 1] == 0x0D
    requires forall i | y <= i < z :: line[i] < 0x2E && line[i] != 0x0D
    ensures Items(line, y, m) == Items(line, z, m)
    decreases z - y
  {
    if y < z {
      SkipBlank(line, y, m);
      SkipBlanks(line, y + 1, z, m);
    }
  }

  /** Wherever such an item comes, the line is rejected there, with the memory as the items before left it. */
  lemma ItemRejected(line: seq<byte>, y: nat, m: Mon)
    requires m.Valid() && y < |line| <= 128 && line[|line| - 1] == 0x0D && NoItem(line[y])
    ensures var r := Items(line, y, m); r.Rejected? && r.m.mem == m.mem && r.m.out == m.out
  {
    assert DigitRun(line, y) == 0;
  }

  /** A line whose first item is none: its echo, a backslash, CR and LF, and an empty line; no user memory changes. */
  lemma BadLine(s: Session, blanks: seq<byte>, c: byte, rest: seq<byte>)
    requires s.Valid() && s.status == Prompt && s.y == 0 && Plain(blanks + [c] + rest)
    requires |blanks| + 1 + |rest| < 128 && NoItem(c) && forall i | 0 <= i < |blanks| :: blanks[i] < 0x2E
    ensures var t := blanks + [c] + rest; var s' := Type(s, t + [0x0D]);
      && s'.status == Prompt && s'.y == 0
      && s'.m.out == s.m.out + (t + [0x0D, 0x5C, 0x0D, 0x0A])
      && forall p | User(p) :: s'.m.mem[p] == s.m.mem[p]
  {
    var t := blanks + [c] + rest;
    var line := t + [CR];
    TypeLine(s, t);
    assert s.Line() + t + [CR] == line;
    var m := s.m.(mem := Splice(s.m.mem, IN + s.y, line), out := s.m.out + t + [CR]);
    assert forall i | 0 <= i < |blanks| :: line[i] == blanks[i] == t[i];
    SkipBlanks(line, 0, |blanks|, m.(mode := Xam));
    assert line[|blanks|] == c;
    ItemRejected(line, |blanks|, m.(mode := Xam));
    Ending(s.m.out, t);
  }

  lemma Ending(o: seq<byte>, t: seq<byte>)
    ensures o + t + [CR] + [BACKSLASH] + [CR, LF] == o + (t + [0x0D, 0x5C, 0x0D, 0x0A])
  {}

  /** What is shown of a location: an address header, a blank, and the byte. */
  function LocationShown(mem: seq<byte>, a: word): seq<byte>
    requires |mem| == MEMORY
  {
    [0x0D, 0x0A] + Hex4(a) + [0x3A, 0x20] + Hex2(ByteAt(Mon(mem, a, a, a, 0, Xam, []), a))
  }

  lemma AddressScreen(m: Mon, a: word)
    requires m.Valid()
    ensures var s' := NewLine(Opened(m.(ysav := 0, hl := a, st := a, xam := a, mode := Xam)));
      && s'.m.mem == m.mem && s'.m.xam == a && s'.m.st == a
      && s'.m.out == m.out + (LocationShown(m.mem, a) + [0x0D, 0x0A])
  {
    var h, d := HeaderText(a), Hex2(ByteAt(Mon(m.mem, a, a, a, 0, Xam, []), a));
    assert h + [BLANK] + d == LocationShown(m.mem, a);
    assert m.out + h + [BLANK] + d + [CR, LF] == m.out + (h + [BLANK] + d + [CR, LF]);
  }

  /** For user memory that is the byte there. */
  lemma UserByte(mem: seq<byte>, a: word)
    requires |mem| == MEMORY && User(a)
    ensures LocationShown(mem, a) == [0x0D, 0x0A] + Hex4(a) + [0x3A, 0x20] + Hex2(mem[a])
  {}

  /** For the monitor's own variables it is what that very command has put there: the address in the open location, the
      store index and the number parsed, then a Y of 0 and the mode of examining. */
  lemma OwnVariables(mem: seq<byte>)
    requires |mem| == MEMORY
    ensures LocationShown(mem, 0x24) == [0x0D, 0x0A] + Hex4(0x24) + [0x3A, 0x20] + Hex2(0x24)
    ensures LocationShown(mem, 0x26) == [0x0D, 0x0A] + Hex4(0x26) + [0x3A, 0x20] + Hex2(0x26)
    ensures LocationShown(mem, 0x28) == [0x0D, 0x0A] + Hex4(0x28) + [0x3A, 0x20] + Hex2(0x28)
    ensures forall p: word | p in {0x25, 0x27, 0x29, 0x2A, 0x2B} ::
      LocationShown(mem, p) == [0x0D, 0x0A] + Hex4(p) + [0x3A, 0x20] + Hex2(0x00)
  {}

  /** An address alone: its echo, the location, and an empty line. */
  lemma OneAddress(s: Session, a: word)
    requires s.Valid() && s.status == Prompt && s.y == 0
    ensures var s' := Type(s, Hex4(a) + [0x0D]);
      var mem := Splice(s.m.mem, 0x200, Hex4(a) + [0x0D]);
      && s'.status == Prompt && s'.y == 0 && s'.m.mem == mem && s'.m.xam == a && s'.m.st == a
      && s'.m.out == s.m.out + (Hex4(a) + [0x0D] + (LocationShown(mem, a) + [0x0D, 0x0A]))
  {
    var t := Hex4(a);
    HexIsPlain(a);
    assert Plain(t);
    TypeLine(s, t);
    assert s.Line() + t + [CR] == t + [CR];
    var m := s.m.(mem := Splice(s.m.mem, IN, t + [CR]), out := s.m.out + t + [CR], mode := Xam);
    AddressLine(m, a);
    AddressScreen(m, a);
    AddressText(s.m.out, t, LocationShown(m.mem, a) + [0x0D, 0x0A]);
  }

  lemma AddressLine(m: Mon, a: word)
    requires m.Valid() && m.mode == Xam
    ensures Items(Hex4(a) + [CR], 0, m) == Done(Opened(m.(ysav := 0, hl := a, st := a, xam := a)))
  {
    var line := Hex4(a) + [CR];
    var m1 := Opened(m.(ysav := 0, hl := a, st := a, xam := a));
    assert line[0..4] == Hex4(a) && line[4] == CR;
    ExamineOne(line, 0, m, a);
    assert Items(line, 4, m1) == Done(m1);
  }

  lemma AddressText(o: seq<byte>, t: seq<byte>, shown: seq<byte>)
    ensures o + t + [CR] + shown == o + (t + [0x0D] + shown)
  {}

  /** An address and an `R`: control goes to the program at that address. */
  lemma RunAtAddress(s: Session, a: word)
    requires s.Valid() && s.status == Prompt && s.y == 0
    ensures var s' := Type(s, Hex4(a) + [0x52, 0x0D]); s'.status == Left && s'.m.xam == a
  {
    var t := Hex4(a) + [0x52];
    HexIsPlain(a);
    assert Plain(t);
    TypeLine(s, t);
    assert Hex4(a) + [0x52, 0x0D] == t + [CR];
    assert s.Line() + t + [CR] == t + [CR];
    var line := t + [CR];
    var m := s.m.(mem := Splice(s.m.mem, IN, line), out := s.m.out + t + [CR], mode := Xam);
    assert line[0..4] == Hex4(a);
    ExamineOne(line, 0, m, a);
  }
}
