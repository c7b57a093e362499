/**
 The two threads of scheduler/main.s: each prints its line in a section closed to interrupts, and then counts.
 */
module SchedMain {
  import opened Bytes
  import opened SchedModel
  import opened SchedTheorems

  // Code addresses; only that they are apart matters.
  const THREAD_0: word := 0xA00C
  const THREAD_1: word := 0xA024
  const BUSY: word := 0xA03C

  function Entry(i: thread): word { if i == 0 then THREAD_0 else THREAD_1 }

  function Nz(f: Flags, v: byte): Flags { f.(n := v >= 0x80, z := v == 0) }

  function LoadA(v: byte): Regs -> Regs { (r: Regs) => r.(a := v, f := Nz(r.f, v)) }

  function LoadX(v: byte): Regs -> Regs { (r: Regs) => r.(x := v, f := Nz(r.f, v)) }

  function LoadY(v: byte): Regs -> Regs { (r: Regs) => r.(y := v, f := Nz(r.f, v)) }

  function DecY(): Regs -> Regs { (r: Regs) => r.(y := Dec(r.y), f := Nz(r.f, Dec(r.y))) }

  /** The code of both threads and of `busy_loop`, with the addresses of the two strings. */
  function Code(strings: (word, word), pc: word): Coded {
    if THREAD_0 <= pc < THREAD_0 + 24 then ThreadCode(THREAD_0, strings.0, pc)
    else if THREAD_1 <= pc < THREAD_1 + 24 then ThreadCode(THREAD_1, strings.1, pc)
    else if pc == BUSY then Coded(Reg(LoadY(0xFF)), BUSY + 2)
    else if pc == BUSY + 2 then Coded(Branch((r: Regs) => r.f.z, BUSY + 8), BUSY + 4)
    else if pc == BUSY + 4 then Coded(Reg(DecY()), BUSY + 5)
    else if pc == BUSY + 5 then Coded(Jmp(BUSY + 2), BUSY + 8)
    else if pc == BUSY + 8 then Coded(Rts, BUSY + 9)
    else Coded(Jmp(pc), pc)
  }

  function ThreadCode(e: word, s: word, pc: word): Coded
    requires e <= 0xFFE7
  {
    if pc == e then Coded(Reg(LoadA(Low(s))), e + 2)
    else if pc == e + 2 then Coded(Reg(LoadX(High(s))), e + 4)
    else if pc == e + 4 then Coded(Sei, e + 5)
    else if pc == e + 5 then Coded(WriteLine, e + 8)
    else if pc == e + 8 then Coded(Cli, e + 9)
    else if pc == e + 9 then Coded(Jsr(BUSY), e + 12)
    else if pc == e + 12 then Coded(Jsr(BUSY), e + 15)
    else if pc == e + 15 then Coded(Jsr(BUSY), e + 18)
    else if pc == e + 18 then Coded(Jsr(BUSY), e + 21)
    else if pc == e + 21 then Coded(Jmp(e), e + 24)
    else Coded(Jmp(pc), pc)
  }

  function MainProgram(strings: (word, word), text: word -> seq<byte>): Program {
    Program((pc: word) => Code(strings, pc), text, [{}, {}])
  }

  function StringOf(strings: (word, word), i: thread): word { if i == 0 then strings.0 else strings.1 }

  /** Between `sei` and `cli`. */
  predicate Critical(i: thread, pc: word) { pc == Entry(i) + 5 || pc == Entry(i) + 8 }

  /** The string's address is in the registers, or on its way there, and interrupts can still come. */
  predicate Exposed(i: thread, pc: word) { pc == Entry(i) + 2 || pc == Entry(i) + 4 }

  predicate Loaded(i: thread, pc: word) { Exposed(i, pc) || pc == Entry(i) + 5 }

  predicate AfterCall(i: thread, pc: word) {
    pc == Entry(i) + 12 || pc == Entry(i) + 15 || pc == Entry(i) + 18 || pc == Entry(i) + 21
  }

  /** In the thread's own code, with nothing on its stack, or in `busy_loop`, with a return address. */
  predicate Placed(i: thread, t: Thread, base: seq<byte>) {
    if BUSY <= t.pc then
      && (t.pc == BUSY || t.pc == BUSY + 2 || t.pc == BUSY + 4 || t.pc == BUSY + 5 || t.pc == BUSY + 8)
      && |t.stack| >= 2 && AfterCall(i, After(WordOf(t.stack[1], t.stack[0]))) && t.stack[2..] == base
    else
      && (t.pc == Entry(i) || Loaded(i, t.pc) || Critical(i, t.pc) || t.pc == Entry(i) + 9 || AfterCall(i, t.pc))
      && t.stack == base
  }

  /** What is always true of thread i; `hit` says that an interrupt has come while it was exposed. */
  predicate Sound(strings: (word, word), i: thread, t: Thread, base: seq<byte>, hit: bool) {
    && Placed(i, t, base) && (t.r.f.i <==> Critical(i, t.pc))
    && (Loaded(i, t.pc) ==> t.r.a == if hit then i else Low(StringOf(strings, i)))
    && (Loaded(i, t.pc) && t.pc != Entry(i) + 2 ==> t.r.x == High(StringOf(strings, i)))
  }

  predicate AtStart(i: thread, t: Thread, base: seq<byte>) {
    t.pc == Entry(i) && t.stack == base && !t.r.f.i && |base| + 7 <= Size(i)
  }

  /** Whether an interrupt has come while the thread was exposed, since it last began to load the address. */
  function Hit(i: thread, pc: word, e: Event, hit: bool): bool {
    if e == Timer then hit || Exposed(i, pc) else hit && pc != Entry(i)
  }

  function HitAfter(prog: Program, i: thread, t: Thread, es: seq<Event>, hit: bool): bool
    requires LegalAlone(prog, i, t, es)
    decreases |es|
  {
    if es == [] then hit
    else HitAfter(prog, i, Alone(prog, i, t, es[0]), es[1..], Hit(i, t.pc, es[0], hit))
  }

  /** Wherever a thread is, its next instruction is one that it may carry out. */
  lemma SoundBehaves(strings: (word, word), text: word -> seq<byte>, i: thread, t: Thread, base: seq<byte>, hit: bool)
    requires Sound(strings, i, t, base, hit) && |base| + 7 <= Size(i)
    ensures Behaved(MainProgram(strings, text), i, t)
  {
    var c := Code(strings, t.pc);
    assert MainProgram(strings, text).code(t.pc) == c;
  }

  lemma SoundStep(strings: (word, word), text: word -> seq<byte>, i: thread, t: Thread, base: seq<byte>, hit: bool)
    requires Sound(strings, i, t, base, hit) && |base| + 7 <= Size(i)
    requires Behaved(MainProgram(strings, text), i, t)
    ensures Sound(strings, i, Solo(MainProgram(strings, text), i, t), base, Hit(i, t.pc, Instruction, hit))
  {
    var prog := MainProgram(strings, text);
    assert prog.code(t.pc) == Code(strings, t.pc);
    if BUSY <= t.pc {
      BusyStep(strings, prog, i, t, base, hit);
    } else {
      OwnStep(strings, prog, i, t, base, hit);
    }
  }

  lemma BusyStep(strings: (word, word), prog: Program, i: thread, t: Thread, base: seq<byte>, hit: bool)
    requires Sound(strings, i, t, base, hit) && BUSY <= t.pc && prog.code(t.pc) == Code(strings, t.pc)
    ensures Behaved(prog, i, t) && Sound(strings, i, Solo(prog, i, t), base, Hit(i, t.pc, Instruction, hit))
  {}

  lemma OwnStep(strings: (word, word), prog: Program, i: thread, t: Thread, base: seq<byte>, hit: bool)
    requires Sound(strings, i, t, base, hit) && |base| + 7 <= Size(i) && t.pc < BUSY
    requires prog.code(t.pc) == Code(strings, t.pc)
    ensures Behaved(prog, i, t) && Sound(strings, i, Solo(prog, i, t), base, Hit(i, t.pc, Instruction, hit))
  {
    var c, t' := Code(strings, t.pc), Solo(prog, i, t);
    if c.instr.Jsr? {
      WordParts(Before(c.next));
      assert t'.stack[2..] == t.stack;
    }
  }

  lemma {:induction false} SoundAlways(strings: (word, word), text: word -> seq<byte>, i: thread, t: Thread,
                                       base: seq<byte>, hit: bool, es: seq<Event>)
    requires Sound(strings, i, t, base, hit) && |base| + 7 <= Size(i)
    requires LegalAlone(MainProgram(strings, text), i, t, es)
    ensures var prog := MainProgram(strings, text);
      Sound(strings, i, RunAlone(prog, i, t, es), base, HitAfter(prog, i, t, es, hit))
    decreases |es|
  {
    if es == [] {
    } else {
      var prog := MainProgram(strings, text);
      if es[0] == Instruction {
        SoundStep(strings, text, i, t, base, hit);
      }
      SoundAlways(strings, text, i, Alone(prog, i, t, es[0]), base, Hit(i, t.pc, es[0], hit), es[1..]);
    }
  }

  /** No interrupt comes while the thread is exposed. */
  predicate Undisturbed(prog: Program, i: thread, t: Thread, es: seq<Event>)
    requires LegalAlone(prog, i, t, es)
    decreases |es|
  {
    es == [] || (!(es[0] == Timer && Exposed(i, t.pc)) && Undisturbed(prog, i, Alone(prog, i, t, es[0]), es[1..]))
  }

  /** The address a thread hands over if an interrupt came while it was exposed. */
  function Stray(strings: (word, word), i: thread): word { WordOf(High(StringOf(strings, i)), i) }

  /** At the call, the thread hands over the address of its own string exactly when no interrupt has come between
      its `lda` and its `sei` (or when the thread's number is what A should hold). */
  lemma HandsOver(strings: (word, word), text: word -> seq<byte>, i: thread, t: Thread, base: seq<byte>, es: seq<Event>)
    requires AtStart(i, t, base) && LegalAlone(MainProgram(strings, text), i, t, es)
    ensures var prog := MainProgram(strings, text); var t' := RunAlone(prog, i, t, es);
      t'.pc == Entry(i) + 5 ==>
        (WordOf(t'.r.x, t'.r.a) == StringOf(strings, i) <==>
          !HitAfter(prog, i, t, es, false) || Low(StringOf(strings, i)) == i)
  {
    SoundAlways(strings, text, i, t, base, false, es);
    WordParts(StringOf(strings, i));
  }

  /** Every line of a thread is its own, or the one at the stray address; and if it was never disturbed, its own. */
  lemma {:induction false} OwnLines(strings: (word, word), text: word -> seq<byte>, i: thread, t: Thread,
                                    base: seq<byte>, hit: bool, es: seq<Event>)
    requires Sound(strings, i, t, base, hit) && |base| + 7 <= Size(i)
    requires LegalAlone(MainProgram(strings, text), i, t, es)
    ensures var prog := MainProgram(strings, text); var out := RunAlone(prog, i, t, es).out;
      && t.out <= out
      && (forall k | |t.out| <= k < |out| :: out[k] == text(StringOf(strings, i)) || out[k] == text(Stray(strings, i)))
      && (!hit && Undisturbed(prog, i, t, es) ==>
            forall k | |t.out| <= k < |out| :: out[k] == text(StringOf(strings, i)))
    decreases |es|
  {
    if es == [] {
    } else {
      var prog, e, rest := MainProgram(strings, text), es[0], es[1..];
      var t', hit' := Alone(prog, i, t, e), Hit(i, t.pc, e, hit);
      if e == Instruction {
        SoundStep(strings, text, i, t, base, hit);
        assert prog.code(t.pc) == Code(strings, t.pc);
        WordParts(StringOf(strings, i));
      }
      assert RunAlone(prog, i, t, es) == RunAlone(prog, i, t', rest);
      OwnLines(strings, text, i, t', base, hit', rest);
      assert !hit && Undisturbed(prog, i, t, es) ==> !hit' && Undisturbed(prog, i, t', rest);
    }
  }

  /** Both threads at the start of their loops, thread 0 running. */
  ghost predicate Booted(prog: Program, m: Machine) {
    && Inv(prog, m) && m.Running() == 0
    && AtStart(0, View(prog, m, 0), View(prog, m, 0).stack) && AtStart(1, View(prog, m, 1), [])
  }

  /** Thread i is where its program can be. */
  ghost predicate Somewhere(strings: (word, word), i: thread, t: Thread, base: seq<byte>) {
    exists hit :: Sound(strings, i, t, base, hit)
  }

  lemma SomewhereAlways(strings: (word, word), text: word -> seq<byte>, i: thread, t: Thread, base: seq<byte>,
                        es: seq<Event>)
    requires AtStart(i, t, base) && LegalAlone(MainProgram(strings, text), i, t, es)
    ensures Somewhere(strings, i, RunAlone(MainProgram(strings, text), i, t, es), base)
  {
    SoundAlways(strings, text, i, t, base, false, es);
    assert Sound(strings, i, RunAlone(MainProgram(strings, text), i, t, es), base,
                 HitAfter(MainProgram(strings, text), i, t, es, false));
  }

  /** So are both, in every state of every run. */
  lemma BothSomewhere(strings: (word, word), text: word -> seq<byte>, m: Machine, es: seq<Event>)
    requires Booted(MainProgram(strings, text), m) && Legal(MainProgram(strings, text), m, es)
    ensures var prog := MainProgram(strings, text); var m' := Run(prog, m, es);
      && Inv(prog, m') && m'.Running() == Parity(0, Timers(es))
      && Somewhere(strings, 0, View(prog, m', 0), View(prog, m, 0).stack)
      && Somewhere(strings, 1, View(prog, m', 1), [])
  {
    var prog := MainProgram(strings, text);
    Noninterference(prog, m, es);
    TakingTurns(prog, m, es);
    SomewhereAlways(strings, text, 0, View(prog, m, 0), View(prog, m, 0).stack, Share(0, 0, es));
    SomewhereAlways(strings, text, 1, View(prog, m, 1), [], Share(1, 0, es));
  }

  /** In every state of every run: the thread that waits is not in its critical section, the one that runs has
      interrupts off exactly there, and its next instruction is one it may carry out. */
  lemma MutualExclusion(strings: (word, word), text: word -> seq<byte>, m: Machine, es: seq<Event>)
    requires Booted(MainProgram(strings, text), m) && Legal(MainProgram(strings, text), m, es)
    ensures var prog := MainProgram(strings, text); var m' := Run(prog, m, es);
      && Inv(prog, m') && m'.Running() == Parity(0, Timers(es))
      && !Critical(Other(m'.Running()), View(prog, m', Other(m'.Running())).pc)
      && (m'.r.f.i <==> Critical(m'.Running(), m'.pc))
      && Can(prog, m', Instruction)
  {
    var prog := MainProgram(strings, text);
    BothSomewhere(strings, text, m, es);
    Exclusive(strings, text, Run(prog, m, es), View(prog, m, 0).stack);
  }

  lemma Exclusive(strings: (word, word), text: word -> seq<byte>, m: Machine, base0: seq<byte>)
    requires var prog := MainProgram(strings, text);
      && Inv(prog, m) && |base0| + 7 <= Size(0)
      && Somewhere(strings, 0, View(prog, m, 0), base0) && Somewhere(strings, 1, View(prog, m, 1), [])
    ensures var prog, j := MainProgram(strings, text), Other(m.Running());
      !Critical(j, View(prog, m, j).pc) && (m.r.f.i <==> Critical(m.Running(), m.pc)) && Can(prog, m, Instruction)
  {
    var prog := MainProgram(strings, text);
    var hit0 :| Sound(strings, 0, View(prog, m, 0), base0, hit0);
    var hit1 :| Sound(strings, 1, View(prog, m, 1), [], hit1);
    SoundBehaves(strings, text, 0, View(prog, m, 0), base0, hit0);
    SoundBehaves(strings, text, 1, View(prog, m, 1), [], hit1);
    BehavedIffTame(prog, m);
  }

  /** An interrupt right after thread 0's `lda`, one in thread 1, and on to thread 0's call. */
  function LdaInterrupted(): seq<Event> { [Instruction, Timer, Timer, Instruction, Instruction, Instruction] }

  /** Then thread 0 prints what is at the stray address. */
  lemma DisturbedLine(strings: (word, word), text: word -> seq<byte>, m: Machine)
    requires Booted(MainProgram(strings, text), m)
    ensures var prog := MainProgram(strings, text);
      && Legal(prog, m, LdaInterrupted()) && Inv(prog, Run(prog, m, LdaInterrupted()))
      && View(prog, Run(prog, m, LdaInterrupted()), 0).out == View(prog, m, 0).out + [text(Stray(strings, 0))]
  {
    var prog, es := MainProgram(strings, text), LdaInterrupted();
    var e5, e4 := [Timer, Timer, Instruction, Instruction, Instruction], [Timer, Instruction, Instruction, Instruction];
    var e3, e2, e1 := [Instruction, Instruction, Instruction], [Instruction, Instruction], [Instruction];
    assert es[1..] == e5 && e5[1..] == e4 && e4[1..] == e3 && e3[1..] == e2 && e2[1..] == e1 && e1[1..] == [];
    assert Share(0, 0, e1) == [Instruction] && Share(1, 0, e1) == [];
    assert Share(0, 0, e2) == e2 && Share(1, 0, e2) == [];
    assert Share(0, 0, e3) == e3 && Share(1, 0, e3) == [];
    assert Share(0, 1, e4) == e3 && Share(1, 1, e4) == [Timer];
    assert Share(0, 0, e5) == [Timer] + e3 && Share(1, 0, e5) == [Timer];
    assert Share(0, 0, es) == [Instruction] + ([Timer] + e3) && Share(1, 0, es) == [Timer];
    DisturbedAlone(strings, text, 0, View(prog, m, 0));
    assert LegalAlone(prog, 1, View(prog, m, 1), [Timer]);
    Noninterference(prog, m, es);
  }

  lemma DisturbedAlone(strings: (word, word), text: word -> seq<byte>, i: thread, t: Thread)
    requires AtStart(i, t, t.stack)
    ensures var prog := MainProgram(strings, text);
      var es := [Instruction] + ([Timer] + [Instruction, Instruction, Instruction]);
      LegalAlone(prog, i, t, es) && RunAlone(prog, i, t, es).out == t.out + [text(Stray(strings, i))]
  {
    var prog := MainProgram(strings, text);
    var e3, e2, e1 := [Instruction, Instruction, Instruction], [Instruction, Instruction], [Instruction];
    var e4 := [Timer] + e3;
    var es := [Instruction] + e4;
    assert es[0] == Instruction && es[1..] == e4 && e4[0] == Timer && e4[1..] == e3;
    assert e3[1..] == e2 && e2[1..] == e1 && e1[1..] == [];
    assert prog.code(t.pc) == Code(strings, t.pc);
    var t1 := Solo(prog, i, t);
    var t2 := Preempted(i, t1);
    assert prog.code(t2.pc) == Code(strings, t2.pc);
    var t3 := Solo(prog, i, t2);
    assert prog.code(t3.pc) == Code(strings, t3.pc);
    var t4 := Solo(prog, i, t3);
    assert prog.code(t4.pc) == Code(strings, t4.pc);
    var t5 := Solo(prog, i, t4);
    assert LegalAlone(prog, i, t5, []) && LegalAlone(prog, i, t4, e1) && RunAlone(prog, i, t4, e1) == t5;
    assert LegalAlone(prog, i, t3, e2) && RunAlone(prog, i, t3, e2) == t5;
    assert LegalAlone(prog, i, t2, e3) && RunAlone(prog, i, t2, e3) == t5;
    assert LegalAlone(prog, i, t1, e4) && RunAlone(prog, i, t1, e4) == t5;
  }
}
