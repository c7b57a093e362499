/**
 The processor as the scheduler sees it: registers, flags, one stack page split between two threads, and an
 interrupt that may come between any two instructions while I is clear. scheduler/scheduler.s and
 scheduler/main.s; 65C02 instructions in general terms.
 */
module SchedModel {
  import opened Bytes

  const MEMORY: nat := 0x1_0000
  const STACK: nat := 0x100

  // Zero page in the order the linker lays it out: the serial driver's string pointer, then the scheduler's
  // own variables. Only that they are apart matters.
  const DATA: word := 0x00
  const COUNTER: word := 0x05
  const RUNNING: word := 0x0B
  const CTX_0: word := 0x0C
  const CTX_1: word := 0x10
  const TEMP: word := 0x14
  const SP_INIT: word := 0x16
  const VARIABLES_END: word := 0x17

  /** `_scheduler_irq`; its second instruction is the call of `_counter_reset`. */
  const IRQ: word := 0x9000
  const IRQ_CALL_RETURN: word := IRQ + 3

  /** Where the serial driver's inner call returns to. */
  const SERIAL_CALL_RETURN: word := 0x8D00

  /** Threads are 0 and 1. */
  type thread = i: nat | i < 2

  function Other(i: thread): thread { 1 - i }

  /** The context of a thread: A, X, Y and the stack pointer. */
  function Ctx(i: thread): word { if i == 0 then CTX_0 else CTX_1 }

  /** Each thread's part of the stack page. */
  function Top(i: thread): byte { if i == 0 then 0xFF else 0x80 }

  function Bottom(i: thread): byte { if i == 0 then 0x81 else 0x00 }

  function Size(i: thread): nat { Top(i) - Bottom(i) + 1 }

  /** What an interrupt may push: PC, flags, and the return address of a call. */
  const HEADROOM: nat := 5

  datatype Flags = Flags(n: bool, v: bool, d: bool, i: bool, z: bool, c: bool)

  function Bit(b: bool): nat { if b then 1 else 0 }

  /** Flags as an interrupt pushes them. */
  function Pack(f: Flags): byte {
    0x80 * Bit(f.n) + 0x40 * Bit(f.v) + 0x20 + 0x08 * Bit(f.d) + 0x04 * Bit(f.i) + 0x02 * Bit(f.z) + Bit(f.c)
  }

  /** Flags as `RTI` pulls them. */
  function Unpack(b: byte): Flags {
    Flags(b >= 0x80, b / 0x40 % 2 == 1, b / 0x08 % 2 == 1, b / 0x04 % 2 == 1, b / 0x02 % 2 == 1, b % 2 == 1)
  }

  lemma PackUnpack(f: Flags)
    ensures Unpack(Pack(f)) == f
  {
    var low := 0x02 * Bit(f.z) + Bit(f.c);
    var mid := 0x08 * Bit(f.d) + 0x04 * Bit(f.i);
    assert Pack(f) / 0x40 == 2 * Bit(f.n) + Bit(f.v);
    assert Pack(f) / 0x08 == 0x10 * Bit(f.n) + 8 * Bit(f.v) + 4 + Bit(f.d);
    assert Pack(f) / 0x04 == 0x20 * Bit(f.n) + 0x10 * Bit(f.v) + 8 + 2 * Bit(f.d) + Bit(f.i);
    assert Pack(f) / 0x02 == 0x40 * Bit(f.n) + 0x20 * Bit(f.v) + 0x10 + 4 * Bit(f.d) + 2 * Bit(f.i) + Bit(f.z);
  }

  /** N, V, D, I, Z and C weigh 128, 64, 8, 4, 2 and 1 in the byte; nothing else of it matters to `RTI`. */
  lemma FlagWeights(b: byte, f: Flags, u: bool, w: bool)
    requires b == 128 * Bit(f.n) + 64 * Bit(f.v) + 32 * Bit(u) + 16 * Bit(w)
                  + 8 * Bit(f.d) + 4 * Bit(f.i) + 2 * Bit(f.z) + Bit(f.c)
    ensures Unpack(b) == f && (Pack(f) == b <==> u && !w)
  {
    var low := 2 * Bit(f.z) + Bit(f.c);
    assert b / 0x40 == 2 * Bit(f.n) + Bit(f.v);
    assert b / 0x08 == 16 * Bit(f.n) + 8 * Bit(f.v) + 4 * Bit(u) + 2 * Bit(w) + Bit(f.d);
    assert b / 0x04 == 32 * Bit(f.n) + 16 * Bit(f.v) + 8 * Bit(u) + 4 * Bit(w) + 2 * Bit(f.d) + Bit(f.i);
    assert b / 0x02 ==
      64 * Bit(f.n) + 32 * Bit(f.v) + 16 * Bit(u) + 8 * Bit(w) + 4 * Bit(f.d) + 2 * Bit(f.i) + Bit(f.z);
  }

  datatype Regs = Regs(a: byte, x: byte, y: byte, f: Flags)

  /**
   An instruction. `Reg` is any that works on registers and flags alone; the interrupt flag is changed by
   `Sei` and `Cli` only. `WriteLine` is a call of `_serial_writeline` as a whole.
   */
  datatype Instr =
    | Reg(op: Regs -> Regs)
    | Load(at: Regs -> word, take: (Regs, byte) -> Regs)
    | Store(to: Regs -> word, value: Regs -> byte)
    | Branch(cond: Regs -> bool, target: word)
    | Jmp(target: word)
    | Jsr(target: word)
    | Rts
    | PushReg(value: Regs -> byte)
    | PullReg(take: (Regs, byte) -> Regs)
    | Sei
    | Cli
    | WriteLine

  /** An instruction and the address after it. */
  datatype Coded = Coded(instr: Instr, next: word)

  /** Code, the texts in ROM by address, and the memory each thread has to itself. */
  datatype Program = Program(code: word -> Coded, text: word -> seq<byte>, own: seq<set<word>>)
  {
    ghost predicate Valid() {
      && |own| == 2 && own[0] !! own[1]
      && forall i: thread, p: word | p in own[i] :: VARIABLES_END <= p && !(STACK <= p < 0x200)
    }
  }

  function Keep(r: Regs, was: Regs): Regs { r.(f := r.f.(i := was.f.i)) }

  function SetI(r: Regs, i: bool): Regs { r.(f := r.f.(i := i)) }

  /** The registers after `_serial_writeline`: it pushes A, X, Y and pulls A, X, Y. */
  function AfterWriteLine(r: Regs): Regs { Regs(r.y, r.x, r.a, r.f.(n := r.a >= 0x80, z := r.a == 0)) }

  function Before(w: word): word { if w == 0 then 0xFFFF else w - 1 }

  function After(w: word): word { if w == 0xFFFF then 0 else w + 1 }

  // ---------------------------------------------------------------- a thread by itself

  /** What a thread has: registers, PC, its stack from the top, its memory, and the lines it printed. */
  datatype Thread = Thread(r: Regs, pc: word, stack: seq<byte>, data: map<word, byte>, out: seq<seq<byte>>)

  /** There is room left for an interrupt. */
  predicate Fits(i: thread, t: Thread) { |t.stack| + HEADROOM <= Size(i) }

  /** The next instruction stays in the thread's memory and stack. */
  predicate Behaved(prog: Program, i: thread, t: Thread) {
    match prog.code(t.pc).instr
    case Load(at, _) => at(t.r) in t.data
    case Store(to, _) => to(t.r) in t.data
    case Jsr(_) => |t.stack| + 2 + HEADROOM <= Size(i)
    case Rts => |t.stack| >= 2
    case PushReg(_) => |t.stack| + 1 + HEADROOM <= Size(i)
    case PullReg(_) => |t.stack| >= 1
    case WriteLine => t.r.f.i && |t.stack| + 7 <= Size(i)
    case _ => true
  }

  /** One instruction of a thread. */
  function Solo(prog: Program, i: thread, t: Thread): (t': Thread)
    requires Behaved(prog, i, t)
  {
    var next := prog.code(t.pc).next;
    match prog.code(t.pc).instr
    case Reg(op) => t.(r := Keep(op(t.r), t.r), pc := next)
    case Load(at, take) => t.(r := Keep(take(t.r, t.data[at(t.r)]), t.r), pc := next)
    case Store(to, value) => t.(data := t.data[to(t.r) := value(t.r)], pc := next)
    case Branch(cond, target) => t.(pc := if cond(t.r) then target else next)
    case Jmp(target) => t.(pc := target)
    case Jsr(target) => t.(stack := [Low(Before(next)), High(Before(next))] + t.stack, pc := target)
    case Rts => t.(pc := After(WordOf(t.stack[1], t.stack[0])), stack := t.stack[2..])
    case PushReg(value) => t.(stack := [value(t.r)] + t.stack, pc := next)
    case PullReg(take) => t.(r := Keep(take(t.r, t.stack[0]), t.r), stack := t.stack[1..], pc := next)
    case Sei => t.(r := SetI(t.r, true), pc := next)
    case Cli => t.(r := SetI(t.r, false), pc := next)
    case WriteLine => t.(r := AfterWriteLine(t.r), pc := next, out := t.out + [prog.text(WordOf(t.r.x, t.r.a))])
  }

  /** All an interrupt does to the thread it takes the processor from: A becomes the thread's number. */
  function Preempted(i: thread, t: Thread): Thread { t.(r := t.r.(a := i)) }

  // ---------------------------------------------------------------- the machine

  /** A printed line, and the thread that printed it. */
  datatype Line = Line(printer: thread, text: seq<byte>)

  datatype Machine = Machine(r: Regs, sp: byte, pc: word, mem: seq<byte>, out: seq<Line>)
  {
    predicate Valid() { |mem| == MEMORY && mem[RUNNING] < 2 }

    /** `thread_running` */
    function Running(): thread
      requires Valid()
    {
      mem[RUNNING]
    }
  }

  function Dec(b: byte): byte { if b == 0 then 0xFF else b - 1 }

  function Inc(b: byte): byte { if b == 0xFF then 0 else b + 1 }

  /** One byte on the stack page. */
  function Push(m: Machine, v: byte): (m': Machine)
    requires |m.mem| == MEMORY
    ensures |m'.mem| == MEMORY
  {
    m.(mem := m.mem[STACK + m.sp := v], sp := Dec(m.sp))
  }

  function Push2(m: Machine, w: word): (m': Machine)
    requires |m.mem| == MEMORY
    ensures |m'.mem| == MEMORY
  {
    Push(Push(m, High(w)), Low(w))
  }

  /** The byte on top of the stack. */
  function Peek(m: Machine): byte
    requires |m.mem| == MEMORY
  {
    m.mem[STACK + Inc(m.sp)]
  }

  function Drop(m: Machine): Machine { m.(sp := Inc(m.sp)) }

  function Poke(m: Machine, p: word, v: byte): (m': Machine)
    requires |m.mem| == MEMORY
    ensures |m'.mem| == MEMORY
  {
    m.(mem := m.mem[p := v])
  }

  /** The next instruction of the running thread stays in its memory and its part of the stack page. */
  predicate Tame(prog: Program, m: Machine)
    requires m.Valid() && |prog.own| == 2
  {
    var i := m.Running();
    match prog.code(m.pc).instr
    case Load(at, _) => at(m.r) in prog.own[i]
    case Store(to, _) => to(m.r) in prog.own[i]
    case Jsr(_) => Bottom(i) + 2 + HEADROOM <= m.sp + 1
    case Rts => m.sp + 2 <= Top(i)
    case PushReg(_) => Bottom(i) + 1 + HEADROOM <= m.sp + 1
    case PullReg(_) => m.sp + 1 <= Top(i)
    case WriteLine => m.r.f.i && Bottom(i) + 7 <= m.sp + 1
    case _ => true
  }

  /** `_serial_writeline`: what it leaves below the stack pointer and in its own variable. */
  function Written(prog: Program, m: Machine, next: word): (m': Machine)
    requires m.Valid()
    ensures |m'.mem| == MEMORY
  {
    var pushed := Push2(Push(Push(Push(Push2(m, Before(next)), m.r.a), m.r.x), m.r.y), SERIAL_CALL_RETURN);
    Poke(Poke(pushed, DATA, m.r.a), DATA + 1, m.r.x)
      .(r := AfterWriteLine(m.r), sp := m.sp, pc := next,
        out := m.out + [Line(m.Running(), prog.text(WordOf(m.r.x, m.r.a)))])
  }

  /** One instruction of the processor. */
  function Exec(prog: Program, m: Machine): (m': Machine)
    requires m.Valid()
    ensures |m'.mem| == MEMORY
  {
    var next := prog.code(m.pc).next;
    match prog.code(m.pc).instr
    case Reg(op) => m.(r := Keep(op(m.r), m.r), pc := next)
    case Load(at, take) => m.(r := Keep(take(m.r, m.mem[at(m.r)]), m.r), pc := next)
    case Store(to, value) => Poke(m, to(m.r), value(m.r)).(pc := next)
    case Branch(cond, target) => m.(pc := if cond(m.r) then target else next)
    case Jmp(target) => m.(pc := target)
    case Jsr(target) => Push2(m, Before(next)).(pc := target)
    case Rts => Drop(Drop(m)).(pc := After(WordOf(Peek(Drop(m)), Peek(m))))
    case PushReg(value) => Push(m, value(m.r)).(pc := next)
    case PullReg(take) => Drop(m).(r := Keep(take(m.r, Peek(m)), m.r), pc := next)
    case Sei => m.(r := SetI(m.r, true), pc := next)
    case Cli => m.(r := SetI(m.r, false), pc := next)
    case WriteLine => Written(prog, m, next)
  }

  /** What the processor does when it takes an interrupt. */
  function Taken(m: Machine): (m': Machine)
    requires |m.mem| == MEMORY
    ensures |m'.mem| == MEMORY
  {
    Push(Push2(m, m.pc), Pack(m.r.f)).(r := SetI(m.r, true), pc := IRQ)
  }

  /** The call of `_counter_reset`, and back. */
  function CounterReset(m: Machine): (m': Machine)
    requires |m.mem| == MEMORY
    ensures |m'.mem| == MEMORY
  {
    Push2(m, IRQ_CALL_RETURN).(sp := m.sp)
  }

  /** A, X, Y and the stack pointer go to a thread's context. */
  function Saved(m: Machine, i: thread, a: byte): (m': Machine)
    requires |m.mem| == MEMORY
    ensures |m'.mem| == MEMORY
  {
    Poke(Poke(Poke(Poke(m, Ctx(i), a), Ctx(i) + 1, m.r.x), Ctx(i) + 2, m.r.y), Ctx(i) + 3, m.sp)
  }

  /** A thread's context comes back, and `RTI` takes its frame. */
  function Resumed(m: Machine, i: thread): (m': Machine)
    requires |m.mem| == MEMORY
    ensures m'.mem == m.mem
  {
    var m0 := m.(sp := m.mem[Ctx(i) + 3]);
    var m1 := Drop(m0);
    var m2 := Drop(m1);
    Drop(m2).(r := Regs(m.mem[Ctx(i)], m.mem[Ctx(i) + 1], m.mem[Ctx(i) + 2], Unpack(Peek(m0))),
              pc := WordOf(Peek(m2), Peek(m1)))
  }

  /** A whole interrupt: the other thread runs. */
  function Interrupt(m: Machine): (m': Machine)
    requires m.Valid()
    ensures |m'.mem| == MEMORY
  {
    var i := m.Running();
    var saved := Saved(CounterReset(Taken(m)), i, i);
    Resumed(Poke(saved, RUNNING, Other(i)), Other(i))
  }

  // ---------------------------------------------------------------- runs

  datatype Event = Instruction | Timer

  /** An event that can happen: an instruction that keeps to its thread's bounds, or an interrupt with I clear. */
  predicate Can(prog: Program, m: Machine, e: Event)
    requires m.Valid() && |prog.own| == 2
  {
    match e
    case Instruction => Tame(prog, m)
    case Timer => !m.r.f.i
  }

  function Happen(prog: Program, m: Machine, e: Event): (m': Machine)
    requires m.Valid()
    ensures |m'.mem| == MEMORY
  {
    match e
    case Instruction => Exec(prog, m)
    case Timer => Interrupt(m)
  }

  /** The same for a thread by itself. */
  predicate CanAlone(prog: Program, i: thread, t: Thread, e: Event) {
    match e
    case Instruction => Behaved(prog, i, t)
    case Timer => !t.r.f.i
  }

  function Alone(prog: Program, i: thread, t: Thread, e: Event): (t': Thread)
    requires CanAlone(prog, i, t, e)
  {
    match e
    case Instruction => Solo(prog, i, t)
    case Timer => Preempted(i, t)
  }

  predicate LegalAlone(prog: Program, i: thread, t: Thread, es: seq<Event>)
    decreases |es|
  {
    es == [] || (CanAlone(prog, i, t, es[0]) && LegalAlone(prog, i, Alone(prog, i, t, es[0]), es[1..]))
  }

  function RunAlone(prog: Program, i: thread, t: Thread, es: seq<Event>): Thread
    requires LegalAlone(prog, i, t, es)
    decreases |es|
  {
    if es == [] then t else RunAlone(prog, i, Alone(prog, i, t, es[0]), es[1..])
  }

  /** Of a run that begins with thread r running, the events that befall thread i. */
  function Share(i: thread, r: thread, es: seq<Event>): seq<Event>
    decreases |es|
  {
    if es == [] then []
    else
      (if r == i then [es[0]] else []) + Share(i, if es[0] == Timer then Other(r) else r, es[1..])
  }
}
