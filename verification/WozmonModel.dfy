/**
 What the monitor does, in its own terms: a line editor that fills a buffer, a parser of hexadecimal
 items with three modes, and a printer of memory. Wozmon.dfy proves that the 6502 routines do this.
 */
module WozmonModel {
  import opened Bytes

  const MEMORY: nat := 0x1_0000
  const IN: nat := 0x200        // input buffer
  const LINE_MAX: nat := 128

  const BS: byte := 0x08
  const LF: byte := 0x0A
  const CR: byte := 0x0D
  const ESC: byte := 0x1B
  const BLANK: byte := 0x20
  const DOT: byte := 0x2E
  const COLON: byte := 0x3A
  const RUN_KEY: byte := 0x52   // 'R'
  const BACKSLASH: byte := 0x5C

  /** Examine, store, block examine. */
  datatype Mode = Xam | Stor | Block
  {
    function Code(): byte { match this case Xam => 0x00 case Stor => 0x74 case Block => 0xB8 }
  }

  /** Memory, the variables the monitor keeps in zero page, and everything printed. `mem` is not used at
      the addresses of the variables. */
  datatype Mon = Mon(mem: seq<byte>, xam: word, st: word, hl: word, ysav: byte, mode: Mode, out: seq<byte>)
  {
    predicate Valid() { |mem| == MEMORY }
  }

  /** The byte the processor sees at an address. */
  function Peek(m: Mon, p: word): byte
    requires m.Valid()
  {
    if p == 0x24 then Low(m.xam) else if p == 0x25 then High(m.xam)
    else if p == 0x26 then Low(m.st) else if p == 0x27 then High(m.st)
    else if p == 0x28 then Low(m.hl) else if p == 0x29 then High(m.hl)
    else if p == 0x2A then m.ysav else if p == 0x2B then m.mode.Code()
    else m.mem[p]
  }

  /** RAM that is neither the monitor's variables, nor the stack page, nor the input buffer. */
  predicate User(p: int) {
    0 <= p < 0x8000 && !(0x24 <= p <= 0x2B) && !(0x100 <= p < 0x200) && !(IN <= p < IN + LINE_MAX)
  }

  // ---------------------------------------------------------------- hexadecimal

  predicate IsHex(c: byte) { 0x30 <= c <= 0x39 || 0x41 <= c <= 0x46 }

  function Digit(c: byte): (d: nat)
    requires IsHex(c)
    ensures d < 16
  {
    if c <= 0x39 then c - 0x30 else c - 0x41 + 10
  }

  function HexChar(d: nat): (c: byte)
    requires d < 16
    ensures IsHex(c) && Digit(c) == d
  {
    if d < 10 then 0x30 + d else 0x41 + d - 10
  }

  /** `PRBYTE` */
  function Hex2(b: byte): (t: seq<byte>)
    ensures |t| == 2
  {
    [HexChar(b / 16), HexChar(b % 16)]
  }

  function Hex4(w: word): (t: seq<byte>)
    ensures |t| == 4
  {
    Hex2(High(w)) + Hex2(Low(w))
  }

  /** How many hexadecimal digits begin at index y. */
  function DigitRun(line: seq<byte>, y: nat): (n: nat)
    requires y <= |line|
    ensures y + n <= |line|
    ensures forall i | y <= i < y + n :: IsHex(line[i])
    ensures y + n < |line| ==> !IsHex(line[y + n])
    decreases |line| - y
  {
    if y < |line| && IsHex(line[y]) then 1 + DigitRun(line, y + 1) else 0
  }

  /** The number a string of digits denotes. */
  function HexValue(ds: seq<byte>): nat
    requires forall i | 0 <= i < |ds| :: IsHex(ds[i])
  {
    if ds == [] then 0 else 16 * HexValue(ds[..|ds| - 1]) + Digit(ds[|ds| - 1])
  }

  /** What is left of it in H and L. */
  function HexWord(ds: seq<byte>): word
    requires forall i | 0 <= i < |ds| :: IsHex(ds[i])
  {
    HexValue(ds) % 0x1_0000
  }

  // ---------------------------------------------------------------- printing memory

  /** An address header. */
  function HeaderText(p: word): seq<byte> { [CR, LF] + Hex4(p) + [COLON] }

  /** The byte printed for address p, with the last opened location at p. */
  function ByteAt(m: Mon, p: word): byte
    requires m.Valid()
  {
    Peek(m.(xam := p, mode := Xam), p)
  }

  /** What is printed for address p: an address header if it is a multiple of 8, and its byte. */
  function Entry(m: Mon, p: word): seq<byte>
    requires m.Valid()
  {
    (if p % 8 == 0 then HeaderText(p) else []) + [BLANK] + Hex2(ByteAt(m, p))
  }

  /** Prints the header and the byte of the location just opened. */
  function Opened(m: Mon): (m': Mon)
    requires m.Valid()
    ensures m'.Valid()
  {
    m.(out := m.out + HeaderText(m.xam) + [BLANK] + Hex2(ByteAt(m, m.xam)))
  }

  /** `XAMNEXT`: prints the bytes after the last opened location, up to H:L. */
  function Examine(m: Mon): (m': Mon)
    requires m.Valid()
    ensures m'.Valid() && m'.mem == m.mem
    decreases m.hl - m.xam
  {
    if m.xam >= m.hl then m.(mode := Xam)
    else Examine(m.(mode := Xam, xam := m.xam + 1, out := m.out + Entry(m, m.xam + 1)))
  }

  /** The store index moves on, around the end of memory. */
  function After(w: word): word { if w == 0xFFFF then 0 else w + 1 }

  // ---------------------------------------------------------------- a line of items

  /** How a line ends: back to the prompt, rejected, at the user's program, or with a store outside user
      memory, after which nothing is said. */
  datatype Outcome = Done(m: Mon) | Rejected(m: Mon) | Running(m: Mon) | Astray(m: Mon)

  function Items(line: seq<byte>, y: nat, m: Mon): (r: Outcome)
    requires m.Valid() && y < |line| <= LINE_MAX && line[|line| - 1] == CR
    ensures r.m.Valid()
    decreases |line| - y
  {
    var c := line[y];
    if c == CR then Done(m)
    else if c < DOT then Items(line, y + 1, m)
    else if c == DOT then Items(line, y + 1, m.(mode := Block))
    else if c == COLON then Items(line, y + 1, m.(mode := Stor))
    else if c == RUN_KEY then Running(m)
    else
      var n := DigitRun(line, y);
      var m' := m.(ysav := y, hl := HexWord(line[y..y + n]));
      if n == 0 then Rejected(m')
      else match m.mode
        case Stor =>
          if !User(m.st) then Astray(m')
          else Items(line, y + n, m'.(mem := m.mem[m.st := Low(m'.hl)], st := After(m.st)))
        case Block => Items(line, y + n, Examine(m'))
        case Xam => Items(line, y + n, Examine(Opened(m'.(st := m'.hl, xam := m'.hl))))
  }

  // ---------------------------------------------------------------- the keyboard

  datatype Status = Prompt | Left | Lost

  /** The monitor between two keystrokes; y is the index into the buffer. */
  datatype Session = Session(m: Mon, y: nat, status: Status)
  {
    predicate Valid() { m.Valid() && y < LINE_MAX }

    function Line(): seq<byte>
      requires Valid()
    {
      m.mem[IN..IN + y]
    }
  }

  function Print(m: Mon, t: seq<byte>): Mon { m.(out := m.out + t) }

  /** `GETLINE` and `ESCAPE` */
  function NewLine(m: Mon): Session { Session(Print(m, [CR, LF]), 0, Prompt) }

  function Escape(m: Mon): Session { NewLine(Print(m, [BACKSLASH])) }

  /** Carries out a complete line. */
  function Enter(m: Mon, line: seq<byte>): (s': Session)
    requires m.Valid() && 0 < |line| <= LINE_MAX && line[|line| - 1] == CR
    ensures s'.Valid()
  {
    match Items(line, 0, m.(mode := Xam))
    case Done(m') => NewLine(m')
    case Rejected(m') => Escape(m')
    case Running(m') => Session(m', 0, Left)
    case Astray(m') => Session(m', 0, Lost)
  }

  function Key(s: Session, k: byte): (s': Session)
    requires s.Valid()
    ensures s'.Valid()
  {
    if s.status != Prompt then s else
    var m := Print(s.m.(mem := s.m.mem[IN + s.y := k]), [k]);
    if k == CR then Enter(m, m.mem[IN..IN + s.y + 1])
    else if k == BS then
      (if s.y == 0 then NewLine(m) else Session(m, s.y - 1, Prompt))
    else if k == ESC || s.y + 1 == LINE_MAX then Escape(m)
    else Session(m, s.y + 1, Prompt)
  }

  function Type(s: Session, keys: seq<byte>): (s': Session)
    requires s.Valid()
    ensures s'.Valid()
    decreases |keys|
  {
    if keys == [] then s else Type(Key(s, keys[0]), keys[1..])
  }

  lemma {:induction false} TypeAppend(s: Session, a: seq<byte>, b: seq<byte>)
    requires s.Valid()
    ensures Type(s, a + b) == Type(Type(s, a), b)
    decreases |a|
  {
    if a == [] {
      assert a + b == b;
    } else {
      assert (a + b)[0] == a[0] && (a + b)[1..] == a[1..] + b;
      TypeAppend(Key(s, a[0]), a[1..], b);
    }
  }
}
