/** The scheduler's routines, step by step, on the processor's registers and memory: scheduler/scheduler.s. */
module Scheduler {
  import opened Bytes
  import opened SchedModel
  import opened SchedTheorems
  import opened SchedMain

  /** `_main`, where the reset vector points. */
  const MAIN: word := 0xA000

  /** The return addresses of the calls on the way to `counter_init`. */
  const INIT_CALL_RETURN: word := 0x9040
  const COUNTER_CALL_RETURN: word := 0x8C02

  class Cpu {
    var a: byte
    var x: byte
    var y: byte
    var sp: byte
    var f: Flags
    var pc: word
    const mem: array<byte>
    var out: seq<Line>

    /** The processor at reset: registers and memory hold anything. */
    constructor (memory: array<byte>, r: Regs, sp0: byte)
      requires memory.Length == MEMORY
      ensures mem == memory && State() == Machine(r, sp0, MAIN, memory[..], [])
    {
      a, x, y, f, sp, pc, mem, out := r.a, r.x, r.y, r.f, sp0, MAIN, memory, [];
    }

    ghost function State(): Machine
      reads this, mem
    {
      Machine(Regs(a, x, y, f), sp, pc, mem[..], out)
    }

    method PushByte(v: byte)
      requires mem.Length == MEMORY
      modifies `sp, mem
      ensures State() == Push(old(State()), v)
    {
      mem[STACK + sp] := v;
      sp := Dec(sp);
    }

    method PullByte() returns (v: byte)
      requires mem.Length == MEMORY
      modifies `sp
      ensures v == Peek(old(State())) && State() == Drop(old(State()))
    {
      sp := Inc(sp);
      v := mem[STACK + sp];
    }

    method PushWord(w: word)
      requires mem.Length == MEMORY
      modifies `sp, mem
      ensures State() == Push2(old(State()), w)
    {
      PushByte(High(w));
      PushByte(Low(w));
    }

    method StoreAt(p: word, v: byte)
      requires mem.Length == MEMORY
      modifies mem
      ensures State() == Poke(old(State()), p, v)
    {
      mem[p] := v;
    }

    /** The processor takes an interrupt. */
    method TakeInterrupt()
      requires mem.Length == MEMORY
      modifies `sp, `f, `pc, mem
      ensures State() == Taken(old(State()))
    {
      PushWord(pc);
      PushByte(Pack(f));
      f := f.(i := true);
      pc := IRQ;
    }

    /** The call of `_counter_reset`, which reads a timer register and returns. */
    method ResetCounter()
      requires mem.Length == MEMORY
      modifies `sp, mem
      ensures State() == CounterReset(old(State()))
    {
      PushWord(IRQ_CALL_RETURN);
      var lo := PullByte();
      var hi := PullByte();
    }

    /** The stores at the head of `switch_thread_0` and `switch_thread_1`. */
    method SaveContext(i: thread)
      requires mem.Length == MEMORY
      modifies `x, mem
      ensures State() == Saved(old(State()), i, a).(r := Regs(a, sp, y, f))
    {
      StoreAt(Ctx(i), a);
      StoreAt(Ctx(i) + 1, x);
      StoreAt(Ctx(i) + 2, y);
      x := sp;
      StoreAt(Ctx(i) + 3, x);
    }

    /** The loads at their end. */
    method LoadContext(i: thread)
      requires mem.Length == MEMORY
      modifies `a, `x, `y
      ensures State() == old(State()).(r := Regs(mem[Ctx(i)], mem[Ctx(i) + 1], mem[Ctx(i) + 2], f))
    {
      a := mem[Ctx(i)];
      x := mem[Ctx(i) + 1];
      y := mem[Ctx(i) + 2];
    }

    method Rti()
      requires mem.Length == MEMORY
      modifies `sp, `f, `pc
      ensures var m0 := old(State()); var m1, m2 := Drop(m0), Drop(Drop(m0));
        State() == Drop(m2).(r := m0.r.(f := Unpack(Peek(m0))), pc := WordOf(Peek(m2), Peek(m1)))
    {
      var p := PullByte();
      var lo := PullByte();
      var hi := PullByte();
      f, pc := Unpack(p), WordOf(hi, lo);
    }

    /** Both: the thread whose stack this is goes on. */
    method Hydrate(i: thread)
      requires mem.Length == MEMORY && sp == mem[Ctx(i) + 3]
      modifies `a, `x, `y, `sp, `f, `pc
      ensures State() == Resumed(old(State()), i)
    {
      LoadContext(i);
      Rti();
    }

    /** `switch_thread_0` */
    method SwitchThread0()
      requires mem.Length == MEMORY
      modifies `a, `x, `y, `sp, `f, `pc, mem
      ensures State() == Resumed(Poke(Saved(old(State()), 1, old(a)), RUNNING, 0), 0)
    {
      SaveContext(1);
      x := mem[CTX_0 + 3];
      sp := x;
      a := 0;
      StoreAt(RUNNING, a);
      Hydrate(0);
    }

    /** `switch_thread_1` */
    method SwitchThread1()
      requires mem.Length == MEMORY
      modifies `a, `x, `y, `sp, `f, `pc, mem
      ensures State() == Resumed(Poke(Saved(old(State()), 0, old(a)), RUNNING, 1), 1)
    {
      SaveContext(0);
      x := mem[CTX_1 + 3];
      sp := x;
      a := 1;
      StoreAt(RUNNING, a);
      Hydrate(1);
    }

    /** An interrupt, to the call of `_counter_reset` and back. */
    method EnterIrq()
      requires mem.Length == MEMORY
      modifies `sp, `f, `pc, mem
      ensures State() == CounterReset(Taken(old(State())))
    {
      TakeInterrupt();
      f := f.(i := true);
      ResetCounter();
    }

    /** An interrupt, from the instruction it follows to the first one of the other thread: `_scheduler_irq`. */
    method SchedulerIrq()
      requires State().Valid()
      modifies `a, `x, `y, `sp, `f, `pc, mem
      ensures State() == Interrupt(old(State()))
    {
      ghost var m := State();
      EnterIrq();
      ghost var entered := State();
      RunningStays(m);
      a := mem[RUNNING];
      f := f.(c := true, z := a == 0, n := a >= 0x80);
      SwitchIgnores(entered, State().r, m.Running());
      if f.z {
        SwitchThread1();
      } else {
        SwitchThread0();
      }
    }

    /** A call, and the return from it. */
    method Call(ret: word)
      requires mem.Length == MEMORY
      modifies `sp, mem
      ensures State() == Push2(old(State()), ret)
    {
      PushWord(ret);
    }

    method Rts()
      requires mem.Length == MEMORY
      modifies `sp, `pc
      ensures var m0 := old(State()); var m1 := Drop(m0);
        State() == Drop(m1).(pc := After(WordOf(Peek(m1), Peek(m0))))
    {
      var lo := PullByte();
      var hi := PullByte();
      pc := After(WordOf(hi, lo));
    }

    /** `counter_init`, from its call to its return: it saves A. */
    method StartCounter()
      requires mem.Length == MEMORY && Bottom(0) + 3 <= sp + 1
      modifies `sp, `a, `pc, mem
      ensures sp == old(sp) && a == old(a) && mem[COUNTER] == 0
      ensures forall p | 0 <= p < MEMORY && p != COUNTER && !(STACK + Bottom(0) <= p <= STACK + sp) ::
        mem[p] == old(mem[p])
    {
      ghost var top := sp;
      Call(COUNTER_CALL_RETURN);
      assert sp == top - 2;
      PushByte(a);
      assert sp == top - 3;
      a := 0;
      StoreAt(COUNTER, a);
      a := PullByte();
      Rts();
    }

    /** `_counter_init`, from its call to its return. */
    method CounterInit()
      requires mem.Length == MEMORY && Bottom(0) + 5 <= sp + 1
      modifies `sp, `a, `pc, mem
      ensures sp == old(sp) && a == old(a) && mem[COUNTER] == 0
      ensures forall p | 0 <= p < MEMORY && p != COUNTER && !(STACK + Bottom(0) <= p <= STACK + sp) ::
        mem[p] == old(mem[p])
    {
      ghost var top := sp;
      Call(INIT_CALL_RETURN);
      assert sp == top - 2;
      StartCounter();
      Rts();
    }

    /** Both threads' stack pointers, before anything runs. */
    method SetStackPointers()
      requires mem.Length == MEMORY
      modifies `x, `sp, mem
      ensures sp == 0x80 && mem[..] == old(mem[..])[CTX_0 + 3 := 0xFF][CTX_1 + 3 := 0x80]
    {
      x := 0xFF;
      StoreAt(CTX_0 + 3, x);
      x := 0x80;
      StoreAt(CTX_1 + 3, x);
      x := mem[CTX_1 + 3];
      sp := x;
    }

    /** The address in `temp`, and flags that are all clear. */
    method PushFrame()
      requires mem.Length == MEMORY && sp == 0x80
      modifies `a, `sp, mem
      ensures sp == 0x7D
      ensures mem[..] ==
        old(mem[..])[STACK + 0x80 := old(mem[TEMP])][STACK + 0x7F := old(mem[TEMP + 1])][STACK + 0x7E := 0]
    {
      a := mem[TEMP];
      PushByte(a);
      a := mem[TEMP + 1];
      PushByte(a);
      a := 0;
      PushByte(a);
    }

    /** The frame of thread 1 that `_scheduler_init` builds. */
    method BuildFrame()
      requires mem.Length == MEMORY
      modifies `a, `x, `sp, mem
      ensures SavedSp(mem[..], 1) == Top(1) - 3
      ensures mem[STACK + Top(1)] == old(mem[TEMP]) && mem[STACK + Top(1) - 1] == old(mem[TEMP + 1])
      ensures mem[STACK + Top(1) - 2] == 0
      ensures forall p | 0 <= p < MEMORY && p != CTX_0 + 3 && p != CTX_1 + 3
                         && !(STACK + Top(1) - 2 <= p <= STACK + Top(1)) :: mem[p] == old(mem[p])
    {
      ghost var m0 := mem[..];
      SetStackPointers();
      ghost var m1 := mem[..];
      PushFrame();
      ghost var m2 := mem[..];
      x := sp;
      StoreAt(CTX_1 + 3, x);
      assert mem[..] == m2[CTX_1 + 3 := 0x7D];
      assert m1[TEMP] == m0[TEMP] && m1[TEMP + 1] == m0[TEMP + 1];
    }

    /** `_scheduler_init`, with the address of thread 1 in A and X: a frame from which `rti` starts thread 1 with
        every flag clear, thread 0 marked as running, and the stack of the caller as it was. */
    method SchedulerInit()
      requires mem.Length == MEMORY && Bottom(0) + 5 <= sp + 1
      modifies `a, `x, `sp, `pc, mem
      ensures sp == old(sp) && mem[RUNNING] == 0 && SavedSp(mem[..], 1) == Top(1) - 3
      ensures mem[STACK + Top(1)] == old(a) && mem[STACK + Top(1) - 1] == old(x) && mem[STACK + Top(1) - 2] == 0
      ensures forall p | VARIABLES_END <= p < MEMORY && !(STACK + Bottom(0) <= p <= STACK + sp)
                         && !(STACK + Top(1) - 2 <= p <= STACK + Top(1)) :: mem[p] == old(mem[p])
    {
      StoreAt(TEMP, a);
      StoreAt(TEMP + 1, x);
      x := sp;
      StoreAt(SP_INIT, x);
      BuildFrame();
      x := mem[SP_INIT];
      sp := x;
      CounterInit();
      a := 0;
      StoreAt(RUNNING, a);
    }

    /** `_main`, up to the first instruction of thread 0. */
    method Boot(ghost strings: (word, word), ghost text: word -> seq<byte>)
      requires mem.Length == MEMORY && Bottom(0) + 7 <= sp + 1
      modifies `a, `x, `sp, `f, `pc, mem
      ensures Booted(MainProgram(strings, text), State()) && sp == old(sp)
      ensures View(MainProgram(strings, text), State(), 1).r.f == Flags(false, false, false, false, false, false)
      ensures mem[CTX_1 + 3] == 0x7D && mem[0x17E] == 0x00
      ensures mem[0x17F] == Low(THREAD_1) && mem[0x180] == High(THREAD_1)
    {
      SerialInit();
      f := f.(i := true);
      a := High(THREAD_1);
      x := Low(THREAD_1);
      Call(MAIN + 10);
      SchedulerInit();
      WordParts(MAIN + 10);
      Rts();
      assert pc == MAIN + 11;
      f := f.(i := false);
      pc := MAIN + 12;
      FreshFrame(MainProgram(strings, text), State());
    }

    /** `_serial_init`, from its call to its return: it saves A. */
    method SerialInit()
      requires mem.Length == MEMORY && Bottom(0) + 3 <= sp + 1
      modifies `a, `sp, `pc, mem
      ensures sp == old(sp) && a == old(a)
    {
      Call(MAIN + 2);
      PushByte(a);
      a := PullByte();
      Rts();
    }
  }

  /** Thread 1 as `_scheduler_init` leaves it, thread 0 as `_main` leaves it. */
  lemma FreshFrame(prog: Program, m: Machine)
    requires prog.Valid() && |m.mem| == MEMORY && m.pc == THREAD_0 && !m.r.f.i && Bottom(0) + 7 <= m.sp + 1
    requires m.mem[RUNNING] == 0 && SavedSp(m.mem, 1) == Top(1) - 3
    requires m.mem[STACK + Top(1)] == High(THREAD_1) && m.mem[STACK + Top(1) - 1] == Low(THREAD_1)
    requires m.mem[STACK + Top(1) - 2] == 0
    ensures Booted(prog, m) && View(prog, m, 1).r.f == Flags(false, false, false, false, false, false)
  {
    WordParts(THREAD_1);
    assert StackOf(m.mem, 1, Top(1)) == [];
  }

  lemma RunningStays(m: Machine)
    requires m.Valid()
    ensures CounterReset(Taken(m)).mem[RUNNING] == m.Running()
  {}

  /** A switch saves X and Y of the processor; its A is an argument, and its flags are in the frame. */
  lemma SwitchIgnores(m: Machine, r: Regs, i: thread)
    requires |m.mem| == MEMORY && r.x == m.r.x && r.y == m.r.y
    ensures Resumed(Poke(Saved(m.(r := r), i, i), RUNNING, Other(i)), Other(i)) ==
      Resumed(Poke(Saved(m, i, i), RUNNING, Other(i)), Other(i))
  {}
}
