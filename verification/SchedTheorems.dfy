/** Two threads on one processor: every run of the machine is a run of each thread by itself. */
module SchedTheorems {
  import opened Bytes
  import opened SchedModel

  // ---------------------------------------------------------------- the threads within the machine

  /** The stack of thread i above sp. */
  function StackOf(mem: seq<byte>, i: thread, sp: byte): (s: seq<byte>)
    requires |mem| == MEMORY && sp <= Top(i)
    ensures |s| == Top(i) - sp
  {
    mem[STACK + sp + 1..STACK + Top(i) + 1]
  }

  function DataOf(prog: Program, mem: seq<byte>, i: thread): map<word, byte>
    requires |mem| == MEMORY && |prog.own| == 2
  {
    map p | p in prog.own[i] :: mem[p]
  }

  function LinesOf(out: seq<Line>, i: thread): seq<seq<byte>> {
    if out == [] then []
    else
      var last := out[|out| - 1];
      LinesOf(out[..|out| - 1], i) + if last.printer == i then [last.text] else []
  }

  /** The stack pointer saved for a thread. */
  function SavedSp(mem: seq<byte>, j: thread): byte
    requires |mem| == MEMORY
  {
    mem[Ctx(j) + 3]
  }

  /** The flags in the frame of a suspended thread. */
  function SavedFlags(mem: seq<byte>, j: thread): Flags
    requires |mem| == MEMORY && SavedSp(mem, j) < 0xFF
  {
    Unpack(mem[STACK + SavedSp(mem, j) + 1])
  }

  /** A suspended thread's frame lies in its part of the page, with headroom below it, and I is clear in it. */
  predicate Framed(mem: seq<byte>, j: thread) {
    && |mem| == MEMORY && Bottom(j) < SavedSp(mem, j) && SavedSp(mem, j) + 3 <= Top(j)
    && !SavedFlags(mem, j).i
  }

  ghost predicate Inv(prog: Program, m: Machine) {
    && prog.Valid() && m.Valid()
    && Bottom(m.Running()) + HEADROOM <= m.sp + 1 && m.sp <= Top(m.Running())
    && Framed(m.mem, Other(m.Running()))
  }

  /** A thread that waits: from its context and its frame. */
  function Waiting(prog: Program, m: Machine, j: thread): Thread
    requires Framed(m.mem, j) && |prog.own| == 2
  {
    var s := SavedSp(m.mem, j);
    Thread(Regs(m.mem[Ctx(j)], m.mem[Ctx(j) + 1], m.mem[Ctx(j) + 2], SavedFlags(m.mem, j)),
           WordOf(m.mem[STACK + s + 3], m.mem[STACK + s + 2]),
           StackOf(m.mem, j, s + 3), DataOf(prog, m.mem, j), LinesOf(m.out, j))
  }

  /** The thread that runs. */
  function Current(prog: Program, m: Machine, i: thread): Thread
    requires |m.mem| == MEMORY && m.sp <= Top(i) && |prog.own| == 2
  {
    Thread(m.r, m.pc, StackOf(m.mem, i, m.sp), DataOf(prog, m.mem, i), LinesOf(m.out, i))
  }

  ghost function View(prog: Program, m: Machine, i: thread): Thread
    requires Inv(prog, m)
  {
    if m.Running() == i then Current(prog, m, i) else Waiting(prog, m, i)
  }

  // ---------------------------------------------------------------- what stays apart

  /** Addresses that thread i's view is made of. */
  predicate Part(prog: Program, i: thread, p: int)
    requires |prog.own| == 2
  {
    0 <= p < MEMORY && (p in prog.own[i] || STACK + Bottom(i) <= p <= STACK + Top(i) || Ctx(i) <= p < Ctx(i) + 4)
  }

  /** The two memories agree wherever thread j's view looks. */
  ghost predicate Agree(prog: Program, j: thread, mem: seq<byte>, mem': seq<byte>) {
    |prog.own| == 2 && |mem| == |mem'| == MEMORY && forall p | Part(prog, j, p) :: mem'[p] == mem[p]
  }

  lemma WaitingFrame(prog: Program, m: Machine, m': Machine, j: thread)
    requires prog.Valid() && Framed(m.mem, j) && Agree(prog, j, m.mem, m'.mem)
    requires LinesOf(m'.out, j) == LinesOf(m.out, j)
    ensures Framed(m'.mem, j) && Waiting(prog, m', j) == Waiting(prog, m, j)
  {
    var c := Ctx(j);
    assert Part(prog, j, c) && Part(prog, j, c + 1) && Part(prog, j, c + 2) && Part(prog, j, c + 3);
    assert m'.mem[c] == m.mem[c] && m'.mem[c + 1] == m.mem[c + 1] && m'.mem[c + 2] == m.mem[c + 2];
    assert m'.mem[c + 3] == m.mem[c + 3];
    var s := SavedSp(m.mem, j);
    assert forall p | STACK + s < p <= STACK + Top(j) :: Part(prog, j, p);
    DataFrame(prog, m.mem, m'.mem, j);
    assert StackOf(m'.mem, j, s + 3) == StackOf(m.mem, j, s + 3);
  }

  lemma DataFrame(prog: Program, mem: seq<byte>, mem': seq<byte>, i: thread)
    requires |prog.own| == 2 && |mem| == |mem'| == MEMORY
    requires forall p | p in prog.own[i] :: mem'[p] == mem[p]
    ensures DataOf(prog, mem', i) == DataOf(prog, mem, i)
  {}

  /** Only thread i's memory, its part of the stack page and the serial driver's pointer differ. */
  ghost predicate Within(prog: Program, i: thread, mem: seq<byte>, mem': seq<byte>) {
    && |prog.own| == 2 && |mem| == |mem'| == MEMORY
    && forall p | 0 <= p < MEMORY ::
      p in prog.own[i] || STACK + Bottom(i) <= p <= STACK + Top(i) || p == DATA || p == DATA + 1 || mem'[p] == mem[p]
  }

  lemma WithinAgrees(prog: Program, i: thread, mem: seq<byte>, mem': seq<byte>)
    requires prog.Valid() && Within(prog, i, mem, mem')
    ensures Agree(prog, Other(i), mem, mem') && mem'[RUNNING] == mem[RUNNING]
  {
    assert forall p | Part(prog, Other(i), p) :: p !in prog.own[i];
  }

  // ---------------------------------------------------------------- one instruction

  lemma Pushed(prog: Program, m: Machine, i: thread, v: byte)
    requires prog.Valid() && |m.mem| == MEMORY && Bottom(i) < m.sp <= Top(i)
    ensures var m' := Push(m, v);
      m'.sp == m.sp - 1 && StackOf(m'.mem, i, m'.sp) == [v] + StackOf(m.mem, i, m.sp)
      && DataOf(prog, m'.mem, i) == DataOf(prog, m.mem, i)
  {
    var m' := Push(m, v);
    DataFrame(prog, m.mem, m'.mem, i);
    assert StackOf(m'.mem, i, m'.sp)[1..] == StackOf(m.mem, i, m.sp);
  }

  lemma BehavedIffTame(prog: Program, m: Machine)
    requires Inv(prog, m)
    ensures Behaved(prog, m.Running(), View(prog, m, m.Running())) <==> Tame(prog, m)
  {}

  lemma LastLine(out: seq<Line>, l: Line, i: thread)
    ensures LinesOf(out + [l], i) == LinesOf(out, i) + if l.printer == i then [l.text] else []
  {
    assert (out + [l])[..|out|] == out;
  }

  /** What an instruction of the running thread may write, and what the thread has after it. */
  ghost predicate Local(prog: Program, m: Machine, m': Machine, t': Thread)
    requires m.Valid() && |prog.own| == 2
  {
    var i := m.Running();
    && Within(prog, i, m.mem, m'.mem)
    && Bottom(i) + HEADROOM <= m'.sp + 1 && m'.sp <= Top(i)
    && Current(prog, m', i) == t'
    && LinesOf(m'.out, Other(i)) == LinesOf(m.out, Other(i))
  }

  lemma ExecLocal(prog: Program, m: Machine)
    requires Inv(prog, m) && Tame(prog, m)
    ensures Behaved(prog, m.Running(), View(prog, m, m.Running()))
    ensures Local(prog, m, Exec(prog, m), Solo(prog, m.Running(), View(prog, m, m.Running())))
  {
    BehavedIffTame(prog, m);
    var i := m.Running();
    match prog.code(m.pc).instr
    case Store(_, _) => StoreLocal(prog, m, i);
    case Jsr(_) => JsrLocal(prog, m, i);
    case PushReg(_) => PushLocal(prog, m, i);
    case Rts => RtsLocal(prog, m, i);
    case PullReg(_) => PullLocal(prog, m, i);
    case WriteLine => WriteLineLocal(prog, m, i);
    case _ =>
  }

  lemma StoreLocal(prog: Program, m: Machine, i: thread)
    requires Inv(prog, m) && Tame(prog, m) && prog.code(m.pc).instr.Store? && i == m.Running()
    requires Behaved(prog, i, Current(prog, m, i))
    ensures Local(prog, m, Exec(prog, m), Solo(prog, i, Current(prog, m, i)))
  {
    var m' := Exec(prog, m);
    var p, v := prog.code(m.pc).instr.to(m.r), prog.code(m.pc).instr.value(m.r);
    assert m'.mem == m.mem[p := v];
    assert StackOf(m'.mem, i, m.sp) == StackOf(m.mem, i, m.sp);
    assert DataOf(prog, m'.mem, i) == DataOf(prog, m.mem, i)[p := v];
  }

  lemma JsrLocal(prog: Program, m: Machine, i: thread)
    requires Inv(prog, m) && Tame(prog, m) && prog.code(m.pc).instr.Jsr? && i == m.Running()
    requires Behaved(prog, i, Current(prog, m, i))
    ensures Local(prog, m, Exec(prog, m), Solo(prog, i, Current(prog, m, i)))
  {
    var next := prog.code(m.pc).next;
    var m1 := Push(m, High(Before(next)));
    Pushed(prog, m, i, High(Before(next)));
    Pushed(prog, m1, i, Low(Before(next)));
    assert [Low(Before(next))] + ([High(Before(next))] + StackOf(m.mem, i, m.sp))
      == [Low(Before(next)), High(Before(next))] + StackOf(m.mem, i, m.sp);
  }

  lemma PushLocal(prog: Program, m: Machine, i: thread)
    requires Inv(prog, m) && Tame(prog, m) && prog.code(m.pc).instr.PushReg? && i == m.Running()
    requires Behaved(prog, i, Current(prog, m, i))
    ensures Local(prog, m, Exec(prog, m), Solo(prog, i, Current(prog, m, i)))
  {
    Pushed(prog, m, i, prog.code(m.pc).instr.value(m.r));
  }

  lemma RtsLocal(prog: Program, m: Machine, i: thread)
    requires Inv(prog, m) && Tame(prog, m) && prog.code(m.pc).instr.Rts? && i == m.Running()
    requires Behaved(prog, i, Current(prog, m, i))
    ensures Local(prog, m, Exec(prog, m), Solo(prog, i, Current(prog, m, i)))
  {
    var s := StackOf(m.mem, i, m.sp);
    assert s[0] == m.mem[STACK + m.sp + 1] && s[1] == m.mem[STACK + m.sp + 2];
    assert StackOf(m.mem, i, m.sp + 2) == s[2..];
  }

  lemma PullLocal(prog: Program, m: Machine, i: thread)
    requires Inv(prog, m) && Tame(prog, m) && prog.code(m.pc).instr.PullReg? && i == m.Running()
    requires Behaved(prog, i, Current(prog, m, i))
    ensures Local(prog, m, Exec(prog, m), Solo(prog, i, Current(prog, m, i)))
  {
    var s := StackOf(m.mem, i, m.sp);
    assert s[0] == m.mem[STACK + m.sp + 1];
    assert StackOf(m.mem, i, m.sp + 1) == s[1..];
  }

  lemma WriteLineLocal(prog: Program, m: Machine, i: thread)
    requires Inv(prog, m) && Tame(prog, m) && prog.code(m.pc).instr.WriteLine? && i == m.Running()
    requires Behaved(prog, i, Current(prog, m, i))
    ensures Local(prog, m, Exec(prog, m), Solo(prog, i, Current(prog, m, i)))
  {
    var m' := Exec(prog, m);
    var line := Line(i, prog.text(WordOf(m.r.x, m.r.a)));
    LastLine(m.out, line, i);
    LastLine(m.out, line, Other(i));
    WrittenMemory(prog, m, prog.code(m.pc).next, Bottom(i));
    BelowStack(prog, m.mem, m'.mem, i, m.sp);
  }

  lemma BelowStack(prog: Program, mem: seq<byte>, mem': seq<byte>, i: thread, sp: byte)
    requires prog.Valid() && |mem| == |mem'| == MEMORY && sp <= Top(i)
    requires forall p | 0 <= p < MEMORY && !(STACK + Bottom(i) <= p <= STACK + sp) && p != DATA && p != DATA + 1 ::
      mem'[p] == mem[p]
    ensures Within(prog, i, mem, mem') && StackOf(mem', i, sp) == StackOf(mem, i, sp)
    ensures DataOf(prog, mem', i) == DataOf(prog, mem, i)
  {
    DataFrame(prog, mem, mem', i);
    assert StackOf(mem', i, sp) == StackOf(mem, i, sp);
  }

  /** `_serial_writeline` writes seven bytes below the stack pointer, and its own variable. */
  lemma WrittenMemory(prog: Program, m: Machine, next: word, low: byte)
    requires m.Valid() && low + 7 <= m.sp + 1
    ensures forall p | 0 <= p < MEMORY && !(STACK + low <= p <= STACK + m.sp) && p != DATA && p != DATA + 1 ::
      Written(prog, m, next).mem[p] == m.mem[p]
  {
    var m1 := Push2(m, Before(next));
    var m2 := Push(Push(Push(m1, m.r.a), m.r.x), m.r.y);
    var m3 := Push2(m2, SERIAL_CALL_RETURN);
    assert m1.sp == m.sp - 2 && m2.sp == m.sp - 5;
    var rest := (p: int) => 0 <= p < MEMORY && !(STACK + low <= p <= STACK + m.sp);
    assert forall p | rest(p) :: m1.mem[p] == m.mem[p];
    assert forall p | rest(p) :: m2.mem[p] == m1.mem[p];
    assert forall p | rest(p) :: m3.mem[p] == m2.mem[p];
  }

  /** An instruction is the same instruction of the running thread by itself, and nothing to the other. */
  lemma ExecRefines(prog: Program, m: Machine)
    requires Inv(prog, m) && Tame(prog, m)
    ensures var m' := Exec(prog, m); var i := m.Running();
      && Inv(prog, m') && m'.Running() == i
      && Behaved(prog, i, View(prog, m, i))
      && View(prog, m', i) == Solo(prog, i, View(prog, m, i))
      && View(prog, m', Other(i)) == View(prog, m, Other(i))
  {
    var m', i := Exec(prog, m), m.Running();
    ExecLocal(prog, m);
    WithinAgrees(prog, i, m.mem, m'.mem);
    WaitingFrame(prog, m, m', Other(i));
  }

  /** A call leaves the address of its own last byte on the stack, and `RTS` there comes back after it. */
  lemma CallReturns(prog: Program, i: thread, t: Thread, u: Thread)
    requires Behaved(prog, i, t) && prog.code(t.pc).instr.Jsr? && prog.code(t.pc).next > 0
    requires u.stack == Solo(prog, i, t).stack && prog.code(u.pc).instr.Rts?
    ensures WordOf(u.stack[1], u.stack[0]) == prog.code(t.pc).next - 1
    ensures Behaved(prog, i, u) && Solo(prog, i, u) == u.(pc := prog.code(t.pc).next, stack := t.stack)
  {
    WordParts(prog.code(t.pc).next - 1);
    assert u.stack[2..] == t.stack;
  }

  /** `_serial_writeline` pushes A, X and Y and then pulls A, X and Y: each pull gets what was pushed last. */
  lemma WriteLineRegisters(m: Machine)
    requires |m.mem| == MEMORY && m.sp >= 3
    ensures var m1 := Push(Push(Push(m, m.r.a), m.r.x), m.r.y);
      var r := AfterWriteLine(m.r);
      && r.a == Peek(m1) && r.x == Peek(Drop(m1)) && r.y == Peek(Drop(Drop(m1))) && Drop(Drop(Drop(m1))).sp == m.sp
      && r.f == m.r.f.(n := r.y >= 0x80, z := r.y == 0)
  {}

  // ---------------------------------------------------------------- one interrupt

  /** The frame an interrupt leaves, and the five bytes of stack it takes. */
  lemma FrameMemory(m: Machine, low: byte)
    requires |m.mem| == MEMORY && low + HEADROOM <= m.sp + 1
    ensures var m' := CounterReset(Taken(m));
      && m'.sp == m.sp - 3
      && m'.mem[STACK + m.sp] == High(m.pc) && m'.mem[STACK + m.sp - 1] == Low(m.pc)
      && m'.mem[STACK + m.sp - 2] == Pack(m.r.f)
      && forall p | 0 <= p < MEMORY && !(STACK + low <= p <= STACK + m.sp) :: m'.mem[p] == m.mem[p]
  {
    var m1 := Push2(m, m.pc);
    var m2 := Taken(m);
    assert m2.mem == m1.mem[STACK + m.sp - 2 := Pack(m.r.f)] && m2.sp == m.sp - 3;
  }

  /** Memory after an interrupt: the frame and the context of the preempted thread, and who runs. */
  lemma InterruptMemory(prog: Program, m: Machine)
    requires Inv(prog, m)
    ensures var m' := Interrupt(m); var i, c := m.Running(), Ctx(m.Running());
      && m'.mem[RUNNING] == Other(i)
      && m'.mem[c] == i && m'.mem[c + 1] == m.r.x && m'.mem[c + 2] == m.r.y && m'.mem[c + 3] == m.sp - 3
      && m'.mem[STACK + m.sp] == High(m.pc) && m'.mem[STACK + m.sp - 1] == Low(m.pc)
      && m'.mem[STACK + m.sp - 2] == Pack(m.r.f)
      && forall p | 0 <= p < MEMORY && p != RUNNING && !(c <= p < c + 4)
                    && !(STACK + Bottom(i) <= p <= STACK + m.sp) :: m'.mem[p] == m.mem[p]
  {
    FrameMemory(m, Bottom(m.Running()));
    SwitchMemory(CounterReset(Taken(m)), m.Running());
  }

  lemma SwitchMemory(m: Machine, i: thread)
    requires |m.mem| == MEMORY
    ensures var mem', c := Resumed(Poke(Saved(m, i, i), RUNNING, Other(i)), Other(i)).mem, Ctx(i);
      && mem'[RUNNING] == Other(i)
      && mem'[c] == i && mem'[c + 1] == m.r.x && mem'[c + 2] == m.r.y && mem'[c + 3] == m.sp
      && forall p | 0 <= p < MEMORY && p != RUNNING && !(c <= p < c + 4) :: mem'[p] == m.mem[p]
  {}

  lemma InterruptWaiting(prog: Program, m: Machine)
    requires Inv(prog, m)
    ensures var m' := Interrupt(m); var j := Other(m.Running());
      && Framed(m'.mem, j) && Waiting(prog, m', j) == Waiting(prog, m, j)
  {
    var m', i := Interrupt(m), m.Running();
    var c := Ctx(i);
    InterruptMemory(prog, m);
    assert forall p | Part(prog, Other(i), p) ::
      p != RUNNING && !(c <= p < c + 4) && !(STACK + Bottom(i) <= p <= STACK + m.sp);
    WaitingFrame(prog, m, m', Other(i));
  }

  lemma InterruptPreempts(prog: Program, m: Machine)
    requires Inv(prog, m) && !m.r.f.i
    ensures var m' := Interrupt(m); var i := m.Running();
      && Framed(m'.mem, i) && Waiting(prog, m', i) == Preempted(i, Current(prog, m, i))
  {
    InterruptMemory(prog, m);
    FrameIsThread(prog, m, Interrupt(m), m.Running());
  }

  lemma FrameIsThread(prog: Program, m: Machine, m': Machine, i: thread)
    requires prog.Valid() && |m.mem| == |m'.mem| == MEMORY && !m.r.f.i
    requires Bottom(i) + HEADROOM <= m.sp + 1 && m.sp <= Top(i) && m'.out == m.out
    requires var c := Ctx(i);
      m'.mem[c] == i && m'.mem[c + 1] == m.r.x && m'.mem[c + 2] == m.r.y && m'.mem[c + 3] == m.sp - 3
    requires m'.mem[STACK + m.sp] == High(m.pc) && m'.mem[STACK + m.sp - 1] == Low(m.pc)
    requires m'.mem[STACK + m.sp - 2] == Pack(m.r.f)
    requires forall p | p in prog.own[i] || STACK + m.sp < p <= STACK + Top(i) :: m'.mem[p] == m.mem[p]
    ensures Framed(m'.mem, i) && Waiting(prog, m', i) == Preempted(i, Current(prog, m, i))
  {
    PackUnpack(m.r.f);
    WordParts(m.pc);
    DataFrame(prog, m.mem, m'.mem, i);
    assert StackOf(m'.mem, i, m.sp) == StackOf(m.mem, i, m.sp);
  }

  /** The processor's state after the interrupt is the waiting thread's. */
  lemma InterruptResumes(prog: Program, m: Machine)
    requires Inv(prog, m)
    ensures var m' := Interrupt(m); var j := Other(m.Running());
      m'.sp == SavedSp(m'.mem, j) + 3 && Framed(m'.mem, j) && Current(prog, m', j) == Waiting(prog, m', j)
  {
    var i := m.Running();
    InterruptWaiting(prog, m);
    var before := Poke(Saved(CounterReset(Taken(m)), i, i), RUNNING, Other(i));
    ResumedIs(prog, before, Other(i));
  }

  lemma ResumedIs(prog: Program, m: Machine, j: thread)
    requires |prog.own| == 2 && Framed(m.mem, j)
    ensures var m' := Resumed(m, j);
      m'.sp == SavedSp(m.mem, j) + 3 && Current(prog, m', j) == Waiting(prog, m', j)
  {}

  /** The thread that gets the processor finds everything as it left it; the thread that loses it, all but A. */
  lemma InterruptRefines(prog: Program, m: Machine)
    requires Inv(prog, m) && !m.r.f.i
    ensures var m' := Interrupt(m); var i := m.Running();
      && Inv(prog, m') && m'.Running() == Other(i) && !m'.r.f.i
      && View(prog, m', i) == Preempted(i, View(prog, m, i))
      && View(prog, m', Other(i)) == View(prog, m, Other(i))
  {
    var m', i := Interrupt(m), m.Running();
    InterruptMemory(prog, m);
    InterruptWaiting(prog, m);
    InterruptPreempts(prog, m);
    InterruptResumes(prog, m);
  }

  /** With one byte less of headroom, an interrupt would lose the outermost byte of the other thread's stack. */
  lemma HeadroomIsNeeded(m: Machine)
    requires m.Valid() && m.sp == Bottom(m.Running()) + HEADROOM - 2
    ensures Interrupt(m).mem[STACK + Top(Other(m.Running()))] == Low(IRQ_CALL_RETURN)
  {
    var m1 := Push2(m, m.pc);
    assert m1.sp == m.sp - 2;
    var m2 := Taken(m);
    assert m2.sp == m.sp - 3;
    assert CounterReset(m2).mem[STACK + Top(Other(m.Running()))] == Low(IRQ_CALL_RETURN);
  }

  // ---------------------------------------------------------------- runs

  /** Every event of the run can happen when it does. */
  predicate Legal(prog: Program, m: Machine, es: seq<Event>)
    requires |prog.own| == 2
    decreases |es|
  {
    m.Valid() && (es == [] || (Can(prog, m, es[0]) && Legal(prog, Happen(prog, m, es[0]), es[1..])))
  }

  function Run(prog: Program, m: Machine, es: seq<Event>): Machine
    requires |prog.own| == 2 && Legal(prog, m, es)
    decreases |es|
  {
    if es == [] then m else Run(prog, Happen(prog, m, es[0]), es[1..])
  }

  lemma StepRefines(prog: Program, m: Machine, e: Event)
    requires Inv(prog, m)
    ensures Can(prog, m, e) <==> CanAlone(prog, m.Running(), View(prog, m, m.Running()), e)
    ensures Can(prog, m, e) ==>
      var m', i := Happen(prog, m, e), m.Running();
      && Inv(prog, m') && m'.Running() == (if e == Timer then Other(i) else i)
      && View(prog, m', i) == Alone(prog, i, View(prog, m, i), e)
      && View(prog, m', Other(i)) == View(prog, m, Other(i))
  {
    BehavedIffTame(prog, m);
    if Can(prog, m, e) {
      match e
      case Instruction => ExecRefines(prog, m);
      case Timer => InterruptRefines(prog, m);
    }
  }

  /** A run is possible on the machine exactly when each thread can do its share of it by itself; and what it
      makes of each thread is what the thread makes of its share. */
  lemma {:induction false} Noninterference(prog: Program, m: Machine, es: seq<Event>)
    requires Inv(prog, m)
    ensures Legal(prog, m, es) <==>
      && LegalAlone(prog, 0, View(prog, m, 0), Share(0, m.Running(), es))
      && LegalAlone(prog, 1, View(prog, m, 1), Share(1, m.Running(), es))
    ensures Legal(prog, m, es) ==>
      && Inv(prog, Run(prog, m, es))
      && View(prog, Run(prog, m, es), 0) == RunAlone(prog, 0, View(prog, m, 0), Share(0, m.Running(), es))
      && View(prog, Run(prog, m, es), 1) == RunAlone(prog, 1, View(prog, m, 1), Share(1, m.Running(), es))
    decreases |es|
  {
    if es == [] {
    } else {
      var i, e := m.Running(), es[0];
      StepRefines(prog, m, e);
      assert Share(i, i, es)[0] == e;
      assert Share(i, i, es)[1..] == Share(i, if e == Timer then Other(i) else i, es[1..]);
      assert Share(Other(i), i, es) == Share(Other(i), if e == Timer then Other(i) else i, es[1..]);
      if Can(prog, m, e) {
        Noninterference(prog, Happen(prog, m, e), es[1..]);
      }
    }
  }

  function Timers(es: seq<Event>): nat {
    if es == [] then 0 else (if es[0] == Timer then 1 else 0) + Timers(es[1..])
  }

  /** Who runs after the events. */
  function Turn(first: thread, es: seq<Event>): thread
    decreases |es|
  {
    if es == [] then first else Turn(if es[0] == Timer then Other(first) else first, es[1..])
  }

  /** Who runs after n interrupts. */
  function Parity(first: thread, n: nat): thread { (first + n) % 2 }

  lemma {:induction false} TurnIsParity(first: thread, es: seq<Event>)
    ensures Turn(first, es) == Parity(first, Timers(es))
    decreases |es|
  {
    if es != [] {
      TurnIsParity(if es[0] == Timer then Other(first) else first, es[1..]);
    }
  }

  lemma {:induction false} RunTurn(prog: Program, m: Machine, es: seq<Event>)
    requires Inv(prog, m) && Legal(prog, m, es)
    ensures Inv(prog, Run(prog, m, es)) && Run(prog, m, es).Running() == Turn(m.Running(), es)
    decreases |es|
  {
    if es != [] {
      StepRefines(prog, m, es[0]);
      RunTurn(prog, Happen(prog, m, es[0]), es[1..]);
    }
  }

  /** The threads take turns: who runs depends on the number of interrupts only. */
  lemma TakingTurns(prog: Program, m: Machine, es: seq<Event>)
    requires Inv(prog, m) && Legal(prog, m, es)
    ensures Run(prog, m, es).Valid() && Run(prog, m, es).Running() == Parity(m.Running(), Timers(es))
  {
    RunTurn(prog, m, es);
    TurnIsParity(m.Running(), es);
  }

  /** The thread that waits has a frame in its own part of the stack page, with I clear in it. */
  lemma AlwaysFramed(prog: Program, m: Machine, es: seq<Event>)
    requires Inv(prog, m) && Legal(prog, m, es)
    ensures Run(prog, m, es).Valid() && Framed(Run(prog, m, es).mem, Other(Run(prog, m, es).Running()))
  {
    RunTurn(prog, m, es);
  }
}
