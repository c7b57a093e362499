/**
 The monitor's routines on the processor's registers, carry and memory. Labels of the assembly source are
 named in the comments. Each routine is proved to do what WozmonModel.dfy says.
 */
module Wozmon {
  import opened Bytes
  import opened WozmonModel
  import opened WozmonTheorems

  // addresses of the monitor's variables
  const XAML: word := 0x24
  const XAMH: word := 0x25
  const STL: word := 0x26
  const STH: word := 0x27
  const L: word := 0x28
  const H: word := 0x29
  const YSAV: word := 0x2A
  const MODE: word := 0x2B

  /** What `BIT` puts in the flags. */
  predicate BitV(v: byte) { v / 0x40 % 2 == 1 }

  predicate BitN(v: byte) { v >= 0x80 }

  lemma ModeBits(mode: Mode)
    ensures BitV(mode.Code()) <==> mode == Stor
    ensures BitN(mode.Code()) <==> mode == Block
  {}

  /** A value in A, and the carry. */
  datatype Alu = Alu(a: byte, c: bool)

  function Asl(a: byte): Alu { if a >= 0x80 then Alu(2 * a - 0x100, true) else Alu(2 * a, false) }

  function Rol(a: byte, c: bool): Alu {
    var bit := if c then 1 else 0;
    if a >= 0x80 then Alu(2 * a - 0x100 + bit, true) else Alu(2 * a + bit, false)
  }

  /** `ADC` in binary mode */
  function Adc(a: byte, v: byte, c: bool): Alu {
    var sum := (a as int) + v + (if c then 1 else 0);
    if sum >= 0x100 then Alu(sum - 0x100, true) else Alu(sum, false)
  }

  /** Carry after `SBC`: no borrow. */
  function SbcCarry(a: byte, v: byte, c: bool): bool { (a as int) - v - (if c then 0 else 1) >= 0 }

  /** `EOR #$30`: bits 4 and 5 are flipped. */
  function Eor30(a: byte): byte {
    var bits := a / 0x10 % 4;
    a - 0x10 * bits + 0x10 * (3 - bits)
  }

  /** `AND #$0F` and `ORA #$30` */
  function LowNibble(a: byte): byte { a % 0x10 }

  /** The test of `NEXTHEX`: None for a character that is not a hex digit, or else A as it reaches `DIG`. */
  function HexTest(ch: byte): (r: Alu)
  {
    var a := Eor30(ch);
    if a < 0x0A then Alu(a, true) else
    var s := Adc(a, 0x88, true);
    Alu(s.a, s.a >= 0xFA)
  }

  lemma HexTestExact(ch: byte)
    ensures HexTest(ch).c <==> IsHex(ch)
    ensures IsHex(ch) ==> LowNibble(HexTest(ch).a) == Digit(ch)
  {}

  function Bit(c: bool): nat { if c then 1 else 0 }

  lemma AslSum(a: byte)
    ensures Asl(a).a == 2 * a - 0x100 * Bit(Asl(a).c)
  {}

  /** Four shifts of A: 16 times A, less the four bits that went into the carry, read as a number. */
  lemma FourAsl(a: byte)
    ensures var s0 := Asl(a); var s1 := Asl(s0.a); var s2 := Asl(s1.a); var s3 := Asl(s2.a);
      s3.a == 16 * a - 0x100 * (8 * Bit(s0.c) + 4 * Bit(s1.c) + 2 * Bit(s2.c) + Bit(s3.c))
  {
    var s0 := Asl(a); var s1 := Asl(s0.a); var s2 := Asl(s1.a);
    AslSum(a); AslSum(s0.a); AslSum(s1.a); AslSum(s2.a);
  }

  /** Four shifts move the low nibble to the high one. */
  lemma NibbleUp(a: byte)
    ensures Asl(Asl(Asl(Asl(a).a).a).a).a == 0x10 * LowNibble(a)
  {
    FourAsl(a);
    assert a == 16 * (a / 16) + LowNibble(a);
  }

  function Twice(w: word, c: bool): word {
    if w >= 0x8000 then 2 * w - 0x1_0000 + Bit(c) else 2 * w + Bit(c)
  }

  /** `ROL L`, `ROL H` double the word and bring in the carry. */
  lemma RolWord(w: word, c: bool)
    ensures var lo := Rol(Low(w), c); var hi := Rol(High(w), lo.c);
      Low(Twice(w, c)) == lo.a && High(Twice(w, c)) == hi.a
  {}

  function Over(w: word): nat { if w >= 0x8000 then 1 else 0 }

  /** Four rounds of `HEXSHIFT` bring in a digit. */
  lemma FourShifts(w: word, d: nat)
    requires d < 16
    ensures var s0 := Asl(0x10 * d); var s1 := Asl(s0.a); var s2 := Asl(s1.a); var s3 := Asl(s2.a);
      Twice(Twice(Twice(Twice(w, s0.c), s1.c), s2.c), s3.c) == (16 * w + d) % 0x1_0000
  {
    FourAsl(0x10 * d);
    var s0 := Asl(0x10 * d); var s1 := Asl(s0.a); var s2 := Asl(s1.a); var s3 := Asl(s2.a);
    var digit := 8 * Bit(s0.c) + 4 * Bit(s1.c) + 2 * Bit(s2.c) + Bit(s3.c);
    assert digit == d;
    var w1 := Twice(w, s0.c); var w2 := Twice(w1, s1.c); var w3 := Twice(w2, s2.c); var w4 := Twice(w3, s3.c);
    var lost := 8 * Over(w) + 4 * Over(w1) + 2 * Over(w2) + Over(w3);
    assert w4 == 16 * w + digit - 0x1_0000 * lost;
    Remainder(16 * w + d, lost, w4);
  }

  lemma Remainder(n: nat, q: nat, r: word)
    requires n == 0x1_0000 * q + r
    ensures n % 0x1_0000 == r
  {}

  // ---------------------------------------------------------------- variables in zero page

  predicate IsVariable(p: word) { XAML <= p <= MODE }

  predicate IsModeCode(v: byte) { v == Xam.Code() || v == Stor.Code() || v == Block.Code() }

  /** The state after a byte is stored in one of the variables. */
  function Poked(m: Mon, p: word, v: byte): (m': Mon)
    requires m.Valid() && IsVariable(p) && (p == MODE ==> IsModeCode(v))
    ensures m'.Valid() && m'.mem == m.mem && m'.out == m.out
  {
    if p == XAML then m.(xam := WordOf(High(m.xam), v)) else if p == XAMH then m.(xam := WordOf(v, Low(m.xam)))
    else if p == STL then m.(st := WordOf(High(m.st), v)) else if p == STH then m.(st := WordOf(v, Low(m.st)))
    else if p == L then m.(hl := WordOf(High(m.hl), v)) else if p == H then m.(hl := WordOf(v, Low(m.hl)))
    else if p == YSAV then m.(ysav := v)
    else m.(mode := if v == Xam.Code() then Xam else if v == Stor.Code() then Stor else Block)
  }

  /** The variables as memory holds them, and nothing printed. */
  function AtReset(memory: seq<byte>): (m: Mon)
    requires |memory| == MEMORY && IsModeCode(memory[MODE])
    ensures m.Valid() && forall p: word :: Peek(m, p) == memory[p]
  {
    var code := memory[MODE];
    Mon(memory, WordOf(memory[XAMH], memory[XAML]), WordOf(memory[STH], memory[STL]), WordOf(memory[H], memory[L]),
        memory[YSAV], if code == Xam.Code() then Xam else if code == Stor.Code() then Stor else Block, [])
  }

  lemma PokedPeek(m: Mon, p: word, v: byte, q: word)
    requires m.Valid() && IsVariable(p) && (p == MODE ==> IsModeCode(v))
    ensures Peek(Poked(m, p, v), q) == if q == p then v else Peek(m, q)
  {
    WordParts(m.xam); WordParts(m.st); WordParts(m.hl);
  }

  /** Where control goes after a line. */
  datatype Exit = ToGetLine | ToEscape | ToProgram | Stray

  function Result(exit: Exit, m: Mon): Outcome {
    match exit
    case ToGetLine => Done(m)
    case ToEscape => Rejected(m)
    case ToProgram => Running(m)
    case Stray => Astray(m)
  }

  // ---------------------------------------------------------------- the routines

  class Monitor {
    var a: byte
    var x: byte
    var y: byte
    var c: bool
    const mem: array<byte>
    var out: seq<byte>
    var status: Status
    ghost var view: Mon

    /** `view` is what memory and the output say. */
    ghost predicate Valid()
      reads this, mem
    {
      && mem.Length == MEMORY && view.Valid() && out == view.out
      && forall p: word :: mem[p] == Peek(view, p)
    }

    ghost function State(): Session
      reads this
    {
      Session(view, if status == Prompt then y else 0, status)
    }

    /** Stores into one of the monitor's variables. */
    method StoreVar(p: word, v: byte)
      requires Valid() && IsVariable(p) && (p == MODE ==> IsModeCode(v))
      modifies `view, mem
      ensures Valid() && view == Poked(old(view), p, v)
    {
      forall q: word ensures Peek(Poked(view, p, v), q) == if q == p then v else Peek(view, q) {
        PokedPeek(view, p, v, q);
      }
      mem[p] := v;
      view := Poked(view, p, v);
    }

    /** Stores anywhere else. */
    method StoreMem(p: word, v: byte)
      requires Valid() && !IsVariable(p)
      modifies `view, mem
      ensures Valid() && view == old(view).(mem := old(view).mem[p := v])
    {
      mem[p] := v;
      view := view.(mem := view.mem[p := v]);
    }

    /** ECHO */
    method Echo()
      requires Valid()
      modifies `out, `view
      ensures Valid() && view == Print(old(view), [a])
    {
      out := out + [a];
      view := Print(view, [a]);
    }

    /** Loads a constant and echoes it. */
    method EchoByte(v: byte)
      requires Valid()
      modifies `a, `out, `view
      ensures Valid() && view == Print(old(view), [v])
    {
      a := v;
      Echo();
    }

    /** PRHEX */
    method PrHex()
      requires Valid()
      modifies `a, `c, `out, `view
      ensures Valid() && view == Print(old(view), [HexChar(LowNibble(old(a)))])
    {
      a := LowNibble(a) + 0x30;
      c := a >= 0x3A;
      if c {
        var r := Adc(a, 0x06, c);
        a, c := r.a, r.c;
      }
      Echo();
    }

    /** PRBYTE */
    method PrByte()
      requires Valid()
      modifies `a, `c, `out, `view
      ensures Valid() && view == Print(old(view), Hex2(old(a)))
    {
      ghost var before := view;
      var saved := a;
      a := a / 16;
      PrHex();
      a := saved;
      PrHex();
      assert before.out + [HexChar(saved / 16)] + [HexChar(saved % 16)] == before.out + Hex2(saved);
    }

    /** NXTPRNT and PRDATA: the last opened location, with an address header or without. */
    method PrintLocation(header: bool)
      requires Valid() && x == 0
      modifies `a, `c, `out, `view
      ensures Valid()
      ensures view == Print(old(view), LocationText(old(view), header))
    {
      ghost var m, p := view, view.xam;
      WordParts(p);
      if header {
        EchoByte(CR);
        EchoByte(LF);
        a := mem[XAMH];
        PrByte();
        a := mem[XAML];
        PrByte();
        EchoByte(COLON);
        assert view == Print(m, HeaderText(p));
      }
      ghost var head := if header then HeaderText(p) else [];
      assert m.out + [] == m.out;
      assert view == Print(m, head);
      EchoByte(BLANK);
      a := mem[WordOf(mem[XAMH], mem[XAML])];
      PrByte();
      assert m.out + head + [BLANK] + Hex2(Peek(m, p)) == m.out + (head + [BLANK] + Hex2(Peek(m, p)));
    }

    /** XAMNEXT, to the point where there is nothing more to print. */
    method XamNext()
      requires Valid() && x == 0
      modifies `a, `c, `out, `view, mem
      ensures Valid() && view == Examine(old(view))
    {
      while true
        invariant Valid() && Examine(view) == Examine(old(view))
        decreases view.hl - view.xam
      {
        ghost var m := view;
        StoreVar(MODE, x);
        c := mem[XAML] >= mem[L];
        c := SbcCarry(mem[XAMH], mem[H], c);
        CompareWords(view.xam, view.hl);
        if c {
          return;
        }
        PrintNext(m);
      }
    }

    /** The next location. */
    method PrintNext(ghost m: Mon)
      requires Valid() && x == 0 && m.Valid() && view == m.(mode := Xam) && m.xam < 0xFFFF
      modifies `a, `c, `out, `view, mem
      ensures Valid() && view == m.(mode := Xam, xam := m.xam + 1, out := m.out + Entry(m, m.xam + 1))
    {
      IncrementXam();
      a := mem[XAML] % 8;
      LowModEight(view.xam);
      PrintLocation(a == 0);
    }

    /** `INC XAML`, and `INC XAMH` when it wraps. */
    method IncrementXam()
      requires Valid() && view.xam < 0xFFFF
      modifies `view, mem
      ensures Valid() && view == old(view).(xam := old(view).xam + 1)
    {
      ghost var p := view.xam;
      var lo := if mem[XAML] == 0xFF then 0 else mem[XAML] + 1;
      StoreVar(XAML, lo);
      if lo == 0 {
        StoreVar(XAMH, if mem[XAMH] == 0xFF then 0 else mem[XAMH] + 1);
      }
      WordParts(view.xam);
      WordParts(p);
    }

    /** HEXSHIFT: the digit in the high nibble of A goes into H and L. */
    method HexShift(ghost d: nat)
      requires Valid() && d < 16 && a == 0x10 * d
      modifies `a, `x, `c, `view, mem
      ensures Valid() && x == 0 && view == old(view).(hl := (16 * old(view).hl + d) % 0x1_0000)
    {
      ghost var m, a0 := view, a;
      x := 4;
      while x != 0
        invariant x <= 4 && Valid()
        invariant a == Rounds(m.hl, a0, 4 - x).a && view == m.(hl := Rounds(m.hl, a0, 4 - x).w)
      {
        ShiftOnce();
        x := x - 1;
      }
      FourRounds(m.hl, d);
    }

    /** One round of the loop at HEXSHIFT. */
    method ShiftOnce()
      requires Valid()
      modifies `a, `c, `view, mem
      ensures Valid() && a == Asl(old(a)).a && view == old(view).(hl := Twice(old(view).hl, Asl(old(a)).c))
    {
      var s := Asl(a);
      RolWord(view.hl, s.c);
      a, c := s.a, s.c;
      var lo := Rol(mem[L], c);
      StoreVar(L, lo.a);
      var hi := Rol(mem[H], lo.c);
      StoreVar(H, hi.a);
      c := hi.c;
      WordParts(view.hl);
      WordParts(Twice(old(view).hl, s.c));
    }

    /** SETADR: the number parsed becomes the store index and the last opened location. */
    method SetAdr()
      requires Valid()
      modifies `a, `x, `view, mem
      ensures Valid() && x == 0 && view == old(view).(st := old(view).hl, xam := old(view).hl)
    {
      ghost var m := view;
      WordParts(m.hl);
      x := 2;
      while x != 0
        invariant x <= 2 && Valid()
        invariant view == m.(st := SetFrom(m.st, m.hl, x), xam := SetFrom(m.xam, m.hl, x))
      {
        WordParts(SetFrom(m.st, m.hl, x));
        WordParts(SetFrom(m.xam, m.hl, x));
        a := mem[L - 1 + x];
        StoreVar(STL - 1 + x, a);
        StoreVar(XAML - 1 + x, a);
        x := x - 1;
      }
    }

    /** NEXTHEX: reads hex digits from the buffer into H and L, up to the first other character. */
    method NextHex(ghost line: seq<byte>)
      requires Valid() && y as int < |line| <= LINE_MAX && InBuffer(view, line) && !IsHex(line[|line| - 1])
      requires view.hl == 0
      modifies `a, `x, `y, `c, `view, mem
      ensures Valid() && InBuffer(view, line)
      ensures y == old(y) + DigitRun(line, old(y))
      ensures x == if y == old(y) then old(x) else 0
      ensures view == old(view).(hl := HexWord(line[old(y)..y]))
    {
      ghost var m, y0: nat := view, y;
      assert line[y0..y0] == [];
      var more := true;
      while more
        invariant Valid() && y0 <= y as int < |line| && InBuffer(view, line)
        invariant forall i | y0 <= i < y as int :: IsHex(line[i])
        invariant !more ==> !IsHex(line[y])
        invariant x == if y == y0 then old(x) else 0
        invariant view == m.(hl := HexWord(line[y0..y]))
        decreases |line| - y, more
      {
        ghost var hl, y1 := view.hl, y;
        more := TakeDigit(line[y]);
        if more {
          OneMoreDigit(line, y0, y1);
        }
      }
      RunLength(line, y0, y - y0);
    }

    /** One character at NEXTHEX: if it is a hex digit, DIG and HEXSHIFT. */
    method TakeDigit(ghost ch: byte) returns (digit: bool)
      requires Valid() && y < 0xFF && view.mem[IN + y] == ch
      modifies `a, `x, `y, `c, `view, mem
      ensures Valid() && digit == IsHex(ch)
      ensures digit ==>
        y == old(y) + 1 && x == 0 && view == old(view).(hl := (16 * old(view).hl + Digit(ch)) % 0x1_0000)
      ensures !digit ==> y == old(y) && x == old(x) && view == old(view)
    {
      a := mem[IN + y];
      HexTestExact(a);
      var r := HexTest(a);
      a, c := r.a, r.c;
      if !c {
        return false;
      }
      ghost var d := LowNibble(a);
      NibbleUp(a);
      a := Asl(Asl(Asl(Asl(a).a).a).a).a;
      HexShift(d);
      y := y + 1;
      digit := true;
    }

    /** SETBLOCK, which falls into SETSTOR: A is 0 at the start of a line, or a full stop. */
    method SetBlock()
      requires Valid() && (a == 0 || a == DOT)
      modifies `a, `y, `view, mem
      ensures Valid() && y == (if old(y) == 0xFF then 0 else old(y) + 1)
      ensures view == old(view).(mode := if old(a) == 0 then Xam else Block)
    {
      ghost var block := a == DOT;
      a := Asl(a).a;
      assert a == if block then 0x5C else 0;
      a := Asl(a).a;
      StoreVar(MODE, a);
      y := if y == 0xFF then 0 else y + 1;
    }

    /** SETSTOR, with A a colon */
    method SetStor()
      requires Valid() && a == COLON && y < 0xFF
      modifies `a, `y, `view, mem
      ensures Valid() && y == old(y) + 1 && view == old(view).(mode := Stor)
    {
      a := Asl(a).a;
      StoreVar(MODE, a);
      y := y + 1;
    }

    /** From the end of an input line: SETBLOCK, SETSTOR, BLSKIP, NEXTITEM and NOTHEX, until control leaves
        for GETLINE, ESCAPE or the user's program, or a store would leave user memory. */
    method DoLine(ghost line: seq<byte>) returns (exit: Exit)
      requires Valid() && 0 < |line| <= LINE_MAX && line[|line| - 1] == CR && InBuffer(view, line)
      modifies `a, `x, `y, `c, `out, `view, mem
      ensures Valid() && Result(exit, view) == Items(line, 0, old(view).(mode := Xam))
    {
      y, a, x := 0xFF, 0, 0;
      SetBlock();
      while true
        invariant Valid() && y as int < |line| && InBuffer(view, line) && x == 0
        invariant Items(line, y, view) == Items(line, 0, old(view).(mode := Xam))
        decreases |line| - y
      {
        a := mem[IN + y];
        assert a == line[y];
        if a == CR {
          return ToGetLine;
        }
        if a < DOT {
          y := y + 1;
        } else if a == DOT {
          SetBlock();
        } else if a == COLON {
          SetStor();
        } else if a == RUN_KEY {
          return ToProgram;
        } else {
          var more: bool;
          more, exit := Number(line);
          if !more {
            return;
          }
        }
      }
    }

    /** From `STX L` to NOTHEX. */
    method Parse(ghost line: seq<byte>)
      requires Valid() && y as int < |line| <= LINE_MAX && InBuffer(view, line) && !IsHex(line[|line| - 1]) && x == 0
      modifies `a, `x, `y, `c, `view, mem
      ensures Valid() && InBuffer(view, line) && x == 0 && y == old(y) + DigitRun(line, old(y))
      ensures view == old(view).(ysav := old(y), hl := HexWord(line[old(y)..y]))
    {
      StoreVar(L, x);
      StoreVar(H, x);
      StoreVar(YSAV, y);
      NextHex(line);
    }

    /** An item that is neither delimiter nor command: from `STX L` to the next item. */
    method Number(ghost line: seq<byte>) returns (more: bool, exit: Exit)
      requires Valid() && y as int < |line| <= LINE_MAX && line[|line| - 1] == CR && InBuffer(view, line) && x == 0
      requires line[y] != CR && line[y] > DOT && line[y] != COLON && line[y] != RUN_KEY
      modifies `a, `x, `y, `c, `out, `view, mem
      ensures Valid()
      ensures more ==> old(y) < y && y as int < |line| && InBuffer(view, line) && x == 0
      ensures Items(line, old(y), old(view)) == if more then Items(line, y, view) else Result(exit, view)
    {
      ghost var m, y0 := view, y;
      Parse(line);
      NumberItem(line, y0, m);
      assert mem[YSAV] == Peek(view, YSAV) == y0;
      if y == mem[YSAV] {
        return false, ToEscape;
      }
      more := Act();
      exit := Stray;
    }

    /** NOTHEX with a number parsed: stores it, examines up to it, or opens it, as the mode says. */
    method Act() returns (more: bool)
      requires Valid() && x == 0
      modifies `a, `x, `c, `out, `view, mem
      ensures Valid() && x == 0
      ensures more == !Strays(old(view)) && view == if more then Acted(old(view)) else old(view)
    {
      var mode := mem[MODE];
      assert mode == Peek(view, MODE) == view.mode.Code();
      ModeBits(view.mode);
      if BitV(mode) {
        WordParts(view.st);
        if !User(WordOf(mem[STH], mem[STL])) {
          return false;
        }
        StoreByte();
      } else if BitN(mode) {
        XamNext();
      } else {
        Open();
        XamNext();
      }
      more := true;
    }

    /** SETADR and the first NXTPRNT. */
    method Open()
      requires Valid() && view.mode == Xam && x == 0
      modifies `a, `x, `c, `out, `view, mem
      ensures Valid() && x == 0 && view == Opened(old(view).(st := old(view).hl, xam := old(view).hl))
    {
      SetAdr();
      OpenedText(view);
      PrintLocation(true);
    }

    /** `STA (STL,X)` and the increment of the store index. */
    method StoreByte()
      requires Valid() && User(view.st)
      modifies `a, `view, mem
      ensures Valid() && view == Stored(old(view))
    {
      ghost var m := view;
      WordParts(m.st);
      a := mem[L];
      StoreMem(WordOf(mem[STH], mem[STL]), a);
      var lo := if mem[STL] == 0xFF then 0 else mem[STL] + 1;
      StoreVar(STL, lo);
      if lo == 0 {
        StoreVar(STH, if mem[STH] == 0xFF then 0 else mem[STH] + 1);
      }
      WordParts(view.st);
      WordParts(After(m.st));
    }

    /** GETLINE: CR, LF, and the index at 0. */
    method NewPrompt()
      requires Valid()
      modifies `a, `y, `out, `view
      ensures Valid() && view == NewLine(old(view)).m && y == 0
    {
      assert view.out + [CR] + [LF] == view.out + [CR, LF];
      EchoByte(CR);
      EchoByte(LF);
      y := 1;
      y := y - 1;
    }

    /** RESET, to the first wait for a key */
    constructor (memory: array<byte>)
      requires memory.Length == MEMORY && IsModeCode(memory[MODE])
      ensures mem == memory && Valid() && State().Valid() && State() == Escape(AtReset(memory[..]))
      ensures out == [0x5C, 0x0D, 0x0A]
    {
      mem, status, x, c, a, y := memory, Prompt, 0, false, ESC, 0;
      out := [];
      view := AtReset(memory[..]);
      new;
      EscapePrompt();
    }

    /** One key, once it is there: NEXTCHAR, then NOTCR or the whole line. */
    method KeyPressed(k: byte)
      requires Valid() && y as int < LINE_MAX && status == Prompt
      modifies `a, `x, `y, `c, `out, `status, `view, mem
      ensures Valid() && State() == Key(old(State()), k)
    {
      a := k;
      StoreMem(IN + y, a);
      Echo();
      ghost var m := view;
      if a == CR {
        ghost var line := view.mem[IN..IN + y + 1];
        ghost var n := y;
        var exit := DoLine(line);
        match exit {
          case ToGetLine => NewPrompt();
          case ToEscape => EscapePrompt();
          case ToProgram => status := Left;
          case Stray => status := Lost;
        }
        return;
      }
      if a == BS {
        if y == 0 {
          NewPrompt();
        } else {
          y := y - 1;
        }
      } else if a == ESC || y + 1 == LINE_MAX {
        EscapePrompt();
      } else {
        y := y + 1;
      }
    }

    /** ESCAPE */
    method EscapePrompt()
      requires Valid()
      modifies `a, `y, `out, `view
      ensures Valid() && view == Escape(old(view)).m && y == 0
    {
      EchoByte(BACKSLASH);
      NewPrompt();
    }

    /** Any number of keys. */
    method Keys(keys: seq<byte>)
      requires Valid() && State().Valid()
      modifies `a, `x, `y, `c, `out, `status, `view, mem
      ensures Valid() && State().Valid() && State() == Type(old(State()), keys)
    {
      var i := 0;
      while i < |keys|
        invariant 0 <= i <= |keys| && Valid() && State().Valid()
        invariant Type(State(), keys[i..]) == Type(old(State()), keys)
      {
        assert keys[i..][0] == keys[i] && keys[i..][1..] == keys[i + 1..];
        if status == Prompt {
          KeyPressed(keys[i]);
        }
        i := i + 1;
      }
    }
  }

  /** The state after the low byte of the number is stored. */
  function Stored(m: Mon): (m': Mon)
    requires m.Valid()
    ensures m'.Valid()
  {
    m.(mem := m.mem[m.st := Low(m.hl)], st := After(m.st))
  }

  /** What NXTPRNT and PRDATA print. */
  function LocationText(m: Mon, header: bool): seq<byte>
    requires m.Valid()
  {
    (if header then HeaderText(m.xam) else []) + [BLANK] + Hex2(Peek(m, m.xam))
  }

  lemma OpenedText(m: Mon)
    requires m.Valid() && m.mode == Xam
    ensures Opened(m) == Print(m, LocationText(m, true))
  {
    assert m.out + HeaderText(m.xam) + [BLANK] + Hex2(Peek(m, m.xam)) == m.out + LocationText(m, true);
  }

  /** A number in store mode whose place is not user memory. */
  predicate Strays(m: Mon) { m.mode == Stor && !User(m.st) }

  /** What a parsed number does. */
  function Acted(m: Mon): (m': Mon)
    requires m.Valid()
    ensures m'.Valid()
    ensures !Strays(m) ==> forall i | IN <= i < IN + LINE_MAX :: m'.mem[i] == m.mem[i]
  {
    match m.mode
    case Stor => Stored(m)
    case Block => Examine(m)
    case Xam => Examine(Opened(m.(st := m.hl, xam := m.hl)))
  }

  /** An item that is neither delimiter nor command. */
  lemma NumberItem(line: seq<byte>, y: nat, m: Mon)
    requires m.Valid() && y < |line| <= LINE_MAX && line[|line| - 1] == CR
    requires line[y] != CR && line[y] > DOT && line[y] != COLON && line[y] != RUN_KEY
    ensures var n := DigitRun(line, y);
      var m' := m.(ysav := y, hl := HexWord(line[y..y + n]));
      Items(line, y, m) ==
        if n == 0 then Rejected(m') else if Strays(m') then Astray(m') else Items(line, y + n, Acted(m'))
  {}

  /** The line is what the input buffer begins with. */
  ghost predicate InBuffer(m: Mon, line: seq<byte>) {
    m.Valid() && |line| <= LINE_MAX && forall i | 0 <= i < |line| :: m.mem[IN + i] == line[i]
  }

  /** A word whose bytes are being set from the high one down; x of them are left. */
  function SetFrom(was: word, w: word, x: byte): word {
    if x >= 2 then was else if x == 1 then WordOf(High(w), Low(was)) else w
  }

  lemma PushDigit(v: nat, d: nat)
    ensures (16 * (v % 0x1_0000) + d) % 0x1_0000 == (16 * v + d) % 0x1_0000
  {
    var q := v / 0x1_0000;
    assert v == 0x1_0000 * q + v % 0x1_0000;
    assert 16 * v + d == 0x1_0000 * (16 * q) + (16 * (v % 0x1_0000) + d);
  }

  lemma OneMoreDigit(line: seq<byte>, y0: nat, y: nat)
    requires y0 <= y < |line| && forall i | y0 <= i <= y :: IsHex(line[i])
    ensures HexWord(line[y0..y + 1]) == (16 * HexWord(line[y0..y]) + Digit(line[y])) % 0x1_0000
  {
    assert line[y0..y + 1] == line[y0..y] + [line[y]];
    HexPush(line[y0..y], line[y]);
    PushDigit(HexValue(line[y0..y]), Digit(line[y]));
  }

  /** H:L and A after n rounds of HEXSHIFT. */
  datatype Shifted = Shifted(w: word, a: byte)

  function Rounds(w: word, a: byte, n: nat): Shifted {
    if n == 0 then Shifted(w, a) else
    var before := Rounds(w, a, n - 1);
    Shifted(Twice(before.w, Asl(before.a).c), Asl(before.a).a)
  }

  lemma FourRounds(w: word, d: nat)
    requires d < 16
    ensures Rounds(w, 0x10 * d, 4).w == (16 * w + d) % 0x1_0000
  {
    FourShifts(w, d);
    var r1 := Rounds(w, 0x10 * d, 1);
    var r2 := Rounds(w, 0x10 * d, 2);
    var r3 := Rounds(w, 0x10 * d, 3);
    assert Rounds(w, 0x10 * d, 0) == Shifted(w, 0x10 * d);
    assert r1 == Shifted(Twice(w, Asl(0x10 * d).c), Asl(0x10 * d).a);
    assert r2 == Shifted(Twice(r1.w, Asl(r1.a).c), Asl(r1.a).a);
    assert r3 == Shifted(Twice(r2.w, Asl(r2.a).c), Asl(r2.a).a);
  }

  lemma CompareWords(p: word, q: word)
    ensures SbcCarry(High(p), High(q), Low(p) >= Low(q)) <==> p >= q
  {
    WordParts(p); WordParts(q);
  }

  lemma LowModEight(p: word)
    ensures Low(p) % 8 == p % 8
  {
    WordParts(p);
  }
}