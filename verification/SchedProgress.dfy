/**
 How often the threads of scheduler/main.s print: one line in every 3082 instructions of the thread, whenever the
 interrupts come. A pass through the loop is five instructions to print, four calls of `busy_loop` of 769 each, and
 the jump.
 */
module SchedProgress {
  import opened Bytes
  import opened SchedModel
  import opened SchedTheorems
  import opened SchedMain

  const PASS: nat := 3082

  /** Instructions left in the pass at an address in the thread's own code. */
  function LeftAt(i: thread, pc: word): nat {
    if pc == Entry(i) then 3082
    else if pc == Entry(i) + 2 then 3081
    else if pc == Entry(i) + 4 then 3080
    else if pc == Entry(i) + 5 then 3079
    else if pc == Entry(i) + 8 then 3078
    else if pc == Entry(i) + 9 then 3077
    else if pc == Entry(i) + 12 then 2308
    else if pc == Entry(i) + 15 then 1539
    else if pc == Entry(i) + 18 then 770
    else 1
  }

  /** Instructions left in `busy_loop`: three for each value Y still has to take, the last test, and the return. */
  function LeftInBusy(t: Thread): nat {
    if t.pc == BUSY then 768
    else if t.pc == BUSY + 2 then 3 * t.r.y + 2
    else if t.pc == BUSY + 4 then 3 * t.r.y + 1
    else if t.pc == BUSY + 5 then 3 * t.r.y + 3
    else 1
  }

  function LeftInPass(i: thread, t: Thread): nat {
    if BUSY <= t.pc && |t.stack| >= 2 then LeftInBusy(t) + LeftAt(i, After(WordOf(t.stack[1], t.stack[0])))
    else LeftAt(i, t.pc)
  }

  /** Y and Z agree where the loop goes to test them, and Y is 0 when the loop is over. */
  predicate Counts(i: thread, t: Thread) {
    && (t.pc == BUSY + 2 || t.pc == BUSY + 5 ==> (t.r.f.z <==> t.r.y == 0))
    && (t.pc == BUSY + 4 ==> t.r.y > 0)
    && (t.pc == BUSY + 8 || AfterCall(i, t.pc) ==> t.r.y == 0)
  }

  /** Every instruction is one nearer to the end of the pass, and the fourth prints a line. */
  lemma OneNearer(strings: (word, word), prog: Program, i: thread, t: Thread, base: seq<byte>, hit: bool)
    requires Sound(strings, i, t, base, hit) && Counts(i, t) && Behaved(prog, i, t)
    requires prog.code(t.pc) == Code(strings, t.pc)
    ensures var t' := Solo(prog, i, t);
      && Counts(i, t')
      && LeftInPass(i, t') == (if LeftInPass(i, t) == 1 then PASS else LeftInPass(i, t) - 1)
      && |t'.out| == |t.out| + (if LeftInPass(i, t) == 3079 then 1 else 0)
  {
    if BUSY <= t.pc {
      BusyNearer(strings, prog, i, t, base, hit);
    } else {
      OwnNearer(strings, prog, i, t, base, hit);
    }
  }

  lemma BusyNearer(strings: (word, word), prog: Program, i: thread, t: Thread, base: seq<byte>, hit: bool)
    requires Sound(strings, i, t, base, hit) && Counts(i, t) && BUSY <= t.pc && Behaved(prog, i, t)
    requires prog.code(t.pc) == Code(strings, t.pc)
    ensures var t' := Solo(prog, i, t);
      && Counts(i, t') && t'.out == t.out
      && 1 < LeftInPass(i, t) <= 3076 && LeftInPass(i, t') == LeftInPass(i, t) - 1
  {}

  lemma OwnNearer(strings: (word, word), prog: Program, i: thread, t: Thread, base: seq<byte>, hit: bool)
    requires Sound(strings, i, t, base, hit) && Counts(i, t) && t.pc < BUSY && Behaved(prog, i, t)
    requires prog.code(t.pc) == Code(strings, t.pc)
    ensures var t' := Solo(prog, i, t);
      && Counts(i, t')
      && LeftInPass(i, t') == (if LeftInPass(i, t) == 1 then PASS else LeftInPass(i, t) - 1)
      && |t'.out| == |t.out| + (if LeftInPass(i, t) == 3079 then 1 else 0)
  {
    var c := Code(strings, t.pc);
    if c.instr.Jsr? {
      WordParts(Before(c.next));
    }
  }

  // ---------------------------------------------------------------- lines per instruction

  function Instructions(es: seq<Event>): nat {
    if es == [] then 0 else (if es[0] == Instruction then 1 else 0) + Instructions(es[1..])
  }

  /** Instructions left in the pass after n instructions. */
  function Position(n: nat): (left: nat)
    ensures 1 <= left <= PASS
  {
    if n == 0 then PASS else if Position(n - 1) == 1 then PASS else Position(n - 1) - 1
  }

  /** The lines printed in the first n instructions. */
  function Lines(n: nat): nat {
    if n == 0 then 0 else Lines(n - 1) + if Position(n - 1) == 3079 then 1 else 0
  }

  lemma {:induction false} LinesFormula(n: nat)
    ensures Position(n) == 3082 - n % 3082 && Lines(n) == (n + 3078) / 3082
  {
    if n > 0 {
      LinesFormula(n - 1);
      NextRemainder(n - 1);
    }
  }

  lemma NextRemainder(n: nat)
    ensures (n + 1) % 3082 == if n % 3082 == 3081 then 0 else n % 3082 + 1
    ensures (n + 1 + 3078) / 3082 == (n + 3078) / 3082 + if n % 3082 == 3 then 1 else 0
  {
    var q, r := n / 3082, n % 3082;
    assert n == 3082 * q + r;
    if r == 3081 {
      assert n + 1 == 3082 * (q + 1) + 0;
    } else {
      assert n + 1 == 3082 * q + (r + 1);
    }
  }

  lemma OneMore(strings: (word, word), text: word -> seq<byte>, i: thread, t: Thread, base: seq<byte>, hit: bool,
                n: nat)
    requires Sound(strings, i, t, base, hit) && Counts(i, t) && |base| + 7 <= Size(i) && LeftInPass(i, t) == Position(n)
    ensures Behaved(MainProgram(strings, text), i, t)
    ensures var t' := Solo(MainProgram(strings, text), i, t);
      && Sound(strings, i, t', base, Hit(i, t.pc, Instruction, hit)) && Counts(i, t')
      && LeftInPass(i, t') == Position(n + 1) && |t'.out| == |t.out| + Lines(n + 1) - Lines(n)
  {
    var prog := MainProgram(strings, text);
    assert prog.code(t.pc) == Code(strings, t.pc);
    SoundBehaves(strings, text, i, t, base, hit);
    SoundStep(strings, text, i, t, base, hit);
    OneNearer(strings, prog, i, t, base, hit);
  }

  lemma {:induction false} Progress(strings: (word, word), text: word -> seq<byte>, i: thread, t: Thread,
                                    base: seq<byte>, hit: bool, n: nat, es: seq<Event>)
    requires Sound(strings, i, t, base, hit) && Counts(i, t) && |base| + 7 <= Size(i) && LeftInPass(i, t) == Position(n)
    requires LegalAlone(MainProgram(strings, text), i, t, es)
    ensures var t' := RunAlone(MainProgram(strings, text), i, t, es); var k := n + Instructions(es);
      Counts(i, t') && LeftInPass(i, t') == Position(k) && |t'.out| == |t.out| + Lines(k) - Lines(n)
    decreases |es|
  {
    if es == [] {
    } else {
      var prog, e, rest := MainProgram(strings, text), es[0], es[1..];
      var t' := Alone(prog, i, t, e);
      var n' := n + if e == Instruction then 1 else 0;
      if e == Instruction {
        OneMore(strings, text, i, t, base, hit, n);
      }
      Progress(strings, text, i, t', base, Hit(i, t.pc, e, hit), n', rest);
      assert n + Instructions(es) == n' + Instructions(rest);
    }
  }

  /** Whatever interrupts come, a thread prints one line in every pass of 3082 of its instructions, with the fourth;
      and after whole passes it is back at the start of its loop. */
  lemma LinesPrinted(strings: (word, word), text: word -> seq<byte>, i: thread, t: Thread, base: seq<byte>,
                     es: seq<Event>)
    requires AtStart(i, t, base) && LegalAlone(MainProgram(strings, text), i, t, es)
    ensures var t' := RunAlone(MainProgram(strings, text), i, t, es);
      && |t'.out| == |t.out| + (Instructions(es) + 3078) / 3082
      && (Instructions(es) % 3082 == 0 ==> AtStart(i, t', base))
      && (AfterCall(i, t'.pc) ==> t'.r.y == 0)
  {
    Progress(strings, text, i, t, base, false, 0, es);
    LinesFormula(Instructions(es));
    SoundAlways(strings, text, i, t, base, false, es);
    StartOfPass(strings, i, RunAlone(MainProgram(strings, text), i, t, es), base,
                HitAfter(MainProgram(strings, text), i, t, es, false));
  }

  lemma StartOfPass(strings: (word, word), i: thread, t: Thread, base: seq<byte>, hit: bool)
    requires Sound(strings, i, t, base, hit) && Counts(i, t) && |base| + 7 <= Size(i)
    ensures LeftInPass(i, t) == PASS ==> AtStart(i, t, base)
  {}

  // ---------------------------------------------------------------- without interrupts

  /** n instructions and no interrupt. */
  function Steps(n: nat): (es: seq<Event>)
    ensures |es| == n && Instructions(es) == n
  {
    if n == 0 then [] else [Instruction] + Steps(n - 1)
  }

  lemma {:induction false} StepsCanBe(strings: (word, word), text: word -> seq<byte>, i: thread, t: Thread,
                                      base: seq<byte>, hit: bool, n: nat)
    requires Sound(strings, i, t, base, hit) && |base| + 7 <= Size(i)
    ensures LegalAlone(MainProgram(strings, text), i, t, Steps(n))
    ensures Undisturbed(MainProgram(strings, text), i, t, Steps(n))
    decreases n
  {
    if n > 0 {
      assert Steps(n)[0] == Instruction && Steps(n)[1..] == Steps(n - 1);
      SoundBehaves(strings, text, i, t, base, hit);
      SoundStep(strings, text, i, t, base, hit);
      StepsCanBe(strings, text, i, Solo(MainProgram(strings, text), i, t), base, Hit(i, t.pc, Instruction, hit), n - 1);
    }
  }

  /** Left alone for n passes, a thread prints its own line n times and is back at its start. */
  lemma PassesAlone(strings: (word, word), text: word -> seq<byte>, i: thread, t: Thread, base: seq<byte>, n: nat)
    requires AtStart(i, t, base)
    ensures var prog, es := MainProgram(strings, text), Steps(3082 * n);
      LegalAlone(prog, i, t, es) && AtStart(i, RunAlone(prog, i, t, es), base)
      && var out := RunAlone(prog, i, t, es).out;
         |out| == |t.out| + n && t.out <= out
         && forall k | |t.out| <= k < |out| :: out[k] == text(StringOf(strings, i))
  {
    var es := Steps(3082 * n);
    StepsCanBe(strings, text, i, t, base, false, 3082 * n);
    LinesPrinted(strings, text, i, t, base, es);
    OwnLines(strings, text, i, t, base, false, es);
  }

  // ---------------------------------------------------------------- on the machine

  /** In every run of the machine each thread has printed one line for every 3082 instructions it was given. */
  lemma BothPrint(strings: (word, word), text: word -> seq<byte>, m: Machine, es: seq<Event>, i: thread)
    requires Booted(MainProgram(strings, text), m) && Legal(MainProgram(strings, text), m, es)
    ensures var prog := MainProgram(strings, text); var m' := Run(prog, m, es);
      && Inv(prog, m')
      && |View(prog, m', i).out| == |View(prog, m, i).out| + (Instructions(Share(i, 0, es)) + 3078) / 3082
  {
    var prog := MainProgram(strings, text);
    Noninterference(prog, m, es);
    LinesPrinted(strings, text, i, View(prog, m, i), if i == 0 then View(prog, m, 0).stack else [], Share(i, 0, es));
  }

  lemma {:induction false} ShareOfSteps(n: nat)
    ensures Share(0, 0, Steps(n)) == Steps(n) && Share(1, 0, Steps(n)) == []
  {
    if n > 0 {
      assert Steps(n)[0] == Instruction && Steps(n)[1..] == Steps(n - 1);
      ShareOfSteps(n - 1);
    }
  }

  /** With no interrupt after boot, thread 0 prints its line n times in n passes, and thread 1 waits. */
  lemma PassesOnMachine(strings: (word, word), text: word -> seq<byte>, m: Machine, n: nat)
    requires Booted(MainProgram(strings, text), m)
    ensures var prog, es := MainProgram(strings, text), Steps(3082 * n);
      && Legal(prog, m, es) && Inv(prog, Run(prog, m, es))
      && View(prog, Run(prog, m, es), 1) == View(prog, m, 1)
      && var was, out := View(prog, m, 0).out, View(prog, Run(prog, m, es), 0).out;
         |out| == |was| + n && was <= out && forall k | |was| <= k < |out| :: out[k] == text(strings.0)
  {
    var prog := MainProgram(strings, text);
    ShareOfSteps(3082 * n);
    PassesAlone(strings, text, 0, View(prog, m, 0), View(prog, m, 0).stack, n);
    Noninterference(prog, m, Steps(3082 * n));
  }
}
