/**
 The microcontroller and the host as two processes joined by two byte queues. The microcontroller works
 through a list of requests, one byte at a time; the host takes a byte whenever it likes. Every
 interleaving is a list of `Step`s.
 */
module Links {
  import opened Bytes
  import opened Frames
  import opened Hosts

  type Blocks = seq<seq<byte>>

  predicate WellSized(blocks: Blocks) {
    |blocks| == SECTORS && forall b | 0 <= b < SECTORS :: |blocks[b]| == BLOCK_SIZE
  }

  /** The disk image seen as an array of blocks. */
  function View(image: seq<byte>): (blocks: Blocks)
    requires |image| == DISK_SIZE
    ensures WellSized(blocks)
  {
    seq(SECTORS, b requires 0 <= b < SECTORS => Sector(image, b))
  }

  /** One call made on the microcontroller: debug text, `disk_read` or `disk_write`. */
  datatype Op = Say(text: seq<byte>) | ReadBlock(sector: byte) | WriteBlock(at: byte, data: seq<byte>)
  {
    predicate Valid() {
      match this
      case Say(text) => CleanText(text)
      case ReadBlock(_) => true
      case WriteBlock(_, data) => |data| == BLOCK_SIZE
    }

    /** The bytes the call writes to the line. */
    function Wire(): seq<byte>
      requires Valid()
    {
      match this
      case Say(text) => text
      case ReadBlock(sector) => Packet([READ_CMD, sector])
      case WriteBlock(at, data) => Packet([WRITE_CMD, at] + data)
    }
  }

  predicate AllValid(ops: seq<Op>) {
    forall i | 0 <= i < |ops| :: ops[i].Valid()
  }

  // ---------------------------------------------------------------- the plain array of blocks

  function PlainBlocks(blocks: Blocks, ops: seq<Op>): (r: Blocks)
    requires WellSized(blocks) && AllValid(ops)
    ensures WellSized(r)
  {
    if ops == [] then blocks else
    var before := PlainBlocks(blocks, ops[..|ops| - 1]);
    match ops[|ops| - 1]
    case WriteBlock(at, data) => before[at := data]
    case _ => before
  }

  /** What the reads among `ops` return, in order. */
  function PlainResults(blocks: Blocks, ops: seq<Op>): seq<seq<byte>>
    requires WellSized(blocks) && AllValid(ops)
  {
    if ops == [] then [] else
    var before := PlainResults(blocks, ops[..|ops| - 1]);
    match ops[|ops| - 1]
    case ReadBlock(sector) => before + [PlainBlocks(blocks, ops[..|ops| - 1])[sector]]
    case _ => before
  }

  // ---------------------------------------------------------------- the two processes

  datatype Phase = Ready | Sending(op: Op, rest: seq<byte>) | Receiving(sector: byte, got: seq<byte>)

  datatype Link = Link(
    todo: seq<Op>,             // calls the microcontroller has not made yet
    phase: Phase,              // where it is in the current one
    results: seq<seq<byte>>,   // what its disk_reads returned
    toHost: seq<byte>,         // the queue towards the host
    lex: Lexer,                // the host's tokenizer
    store: Store)              // the host; store.out is the queue towards the microcontroller
  {
    predicate Valid() { lex.Valid() && store.Valid() && AllValid(todo) && (phase.Sending? ==> phase.op.Valid()) }

    function Unsent(): seq<byte> { if phase.Sending? then phase.rest else [] }

    predicate Done() { phase.Ready? && todo == [] && toHost == [] }
  }

  datatype Step = Call | SendByte | EndSend | TakeReply | EndRead | HostByte

  predicate Enabled(s: Link, step: Step) {
    match step
    case Call => s.phase.Ready? && s.todo != []
    case SendByte => s.phase.Sending? && s.phase.rest != []
    case EndSend => s.phase.Sending? && s.phase.rest == []
    case TakeReply => s.phase.Receiving? && |s.phase.got| < BLOCK_SIZE && s.store.out != []
    case EndRead => s.phase.Receiving? && |s.phase.got| == BLOCK_SIZE
    case HostByte => s.toHost != []
  }

  function Do(s: Link, step: Step): (s': Link)
    requires s.Valid() && Enabled(s, step)
    ensures s'.Valid()
  {
    match step
    case Call => s.(phase := Sending(s.todo[0], s.todo[0].Wire()), todo := s.todo[1..])
    case SendByte => s.(toHost := s.toHost + [s.phase.rest[0]], phase := s.phase.(rest := s.phase.rest[1..]))
    case EndSend => s.(phase := if s.phase.op.ReadBlock? then Receiving(s.phase.op.sector, []) else Ready)
    case TakeReply => s.(phase := s.phase.(got := s.phase.got + [s.store.out[0]]),
                         store := s.store.(out := s.store.out[1..]))
    case EndRead => s.(results := s.results + [s.phase.got], phase := Ready)
    case HostByte => s.(toHost := s.toHost[1..], lex := Next(s.lex, s.toHost[0]),
                        store := ReactAll(s.store, Emit(s.lex, s.toHost[0])))
  }

  predicate Runs(s: Link, steps: seq<Step>)
    requires s.Valid()
    decreases |steps|
  {
    steps == [] || (Enabled(s, steps[0]) && Runs(Do(s, steps[0]), steps[1..]))
  }

  function After(s: Link, steps: seq<Step>): (s': Link)
    requires s.Valid() && Runs(s, steps)
    ensures s'.Valid()
    decreases |steps|
  {
    if steps == [] then s else After(Do(s, steps[0]), steps[1..])
  }

  function Boot(image: seq<byte>, ops: seq<Op>): (s: Link)
    requires |image| == DISK_SIZE && AllValid(ops)
    ensures s.Valid()
  {
    Link(ops, Ready, [], [], IDLE, Store(image, [], [], true))
  }

  // ---------------------------------------------------------------- what one call does, once taken

  function Reply(blocks: Blocks, op: Op): seq<byte>
    requires WellSized(blocks)
  {
    if op.ReadBlock? then blocks[op.sector] else []
  }

  lemma ViewWrite(image: seq<byte>, at: byte, data: seq<byte>)
    requires |image| == DISK_SIZE && |data| == BLOCK_SIZE
    ensures View(Splice(image, at * BLOCK_SIZE, data)) == View(image)[at := data]
  {
    var image' := Splice(image, at * BLOCK_SIZE, data);
    forall b | 0 <= b < SECTORS ensures Sector(image', b) == if b == at then data else Sector(image, b) {}
  }

  lemma OneCommand(s: Store, data: seq<byte>)
    requires s.Valid() && 0 < |data| < 0x1_0000
    ensures Feed(IDLE, Packet(data)) == IDLE && Drain(s, IDLE, Packet(data)) == React(s, Frame(data))
  {
    PacketYieldsFrame(data);
    ReactOne(s, Frame(data));
  }

  /** Once the host has taken all the bytes of a call, its tokenizer is idle again, its image is changed
      as the plain array is, and it has answered exactly what the plain array holds. */
  lemma CallTaken(s: Store, op: Op)
    requires s.Valid() && s.alive && op.Valid()
    ensures Feed(IDLE, op.Wire()) == IDLE
    ensures var s' := Drain(s, IDLE, op.Wire());
      && s'.alive && s'.out == s.out + Reply(View(s.image), op)
      && View(s'.image) == match op case WriteBlock(at, data) => View(s.image)[at := data] case _ => View(s.image)
  {
    match op
    case Say(text) =>
      CleanTextPasses(text);
      ReactText(s, text);
      assert s.out + [] == s.out;
    case ReadBlock(sector) =>
      OneCommand(s, [READ_CMD, sector]);
    case WriteBlock(at, data) =>
      var body := [WRITE_CMD, at] + data;
      OneCommand(s, body);
      assert body[2..] == data && body[1] == at;
      ViewWrite(s.image, at, data);
      assert s.out + [] == s.out;
  }

  // ---------------------------------------------------------------- the bytes on the wire

  /** What `disk_read` sends: the magic, a length of 2, an `R`, the sector. */
  lemma ReadOnWire(b: byte)
    ensures ReadBlock(b).Wire() == [0x40, 0x63, 0x6D, 0x64, 0x6D, 0x6F, 0x64, 0x65, 0x02, 0x00, 0x52, b]
  {}

  /** What `disk_write` sends: the magic, a length of 514, a `W`, the sector, the block. */
  lemma WriteOnWire(b: byte, d: seq<byte>)
    requires |d| == 512
    ensures WriteBlock(b, d).Wire() == [0x40, 0x63, 0x6D, 0x64, 0x6D, 0x6F, 0x64, 0x65, 0x02, 0x02, 0x57, b] + d
  {}

  /** A host that takes the first has put the 512 bytes at 512 times the sector on the line, and done no more. */
  lemma ReadServed(s: Store, b: byte)
    requires s.Valid() && s.alive
    ensures |s.image| == 256000
    ensures Drain(s, IDLE, [0x40, 0x63, 0x6D, 0x64, 0x6D, 0x6F, 0x64, 0x65, 0x02, 0x00, 0x52, b]) ==
      s.(out := s.out + s.image[512 * b..512 * b + 512])
  {
    ReadOnWire(b);
    OneCommand(s, [READ_CMD, b]);
  }

  /** A host that takes the second has put the block there, and done no more. */
  lemma WriteServed(s: Store, b: byte, d: seq<byte>)
    requires s.Valid() && s.alive && |d| == 512
    ensures Drain(s, IDLE, [0x40, 0x63, 0x6D, 0x64, 0x6D, 0x6F, 0x64, 0x65, 0x02, 0x02, 0x57, b] + d) ==
      s.(image := s.image[..512 * b] + d + s.image[512 * b + 512..])
  {
    WriteOnWire(b, d);
    var body := [WRITE_CMD, b] + d;
    OneCommand(s, body);
    assert body[2..] == d;
  }

  /** Any frame at all: with an `R` and a sector it is answered, whatever follows; with a `W` and a sector the rest is
      laid over the image; any other first byte, or no sector, ends the process. Nothing else happens. */
  lemma FrameServed(s: Store, data: seq<byte>)
    requires s.Valid() && s.alive && 0 < |data| < 0x1_0000
    ensures Drain(s, IDLE, Packet(data)) ==
      if |data| == 1 || (data[0] != 0x52 && data[0] != 0x57) then s.(alive := false) else
      var b: nat := data[1]; var at := 512 * b;
      if data[0] == 0x52 then s.(out := s.out + s.image[at..at + 512])
      else s.(image := s.image[..at] + data[2..] + s.image[at + |data| - 2..])
  {
    OneCommand(s, data);
  }

  // ---------------------------------------------------------------- the invariant of every run

  /** Where the system is heading: the host once it has taken everything sent or about to be sent. */
  function Settled(s: Link): (v: Store)
    requires s.Valid()
    ensures v.Valid()
  {
    Drain(s.store, s.lex, s.toHost + s.Unsent())
  }

  ghost predicate Inv(s: Link, blocks: Blocks, ops: seq<Op>)
    requires s.Valid() && WellSized(blocks) && AllValid(ops)
  {
    && |s.todo| <= |ops|
    && var k := |ops| - |s.todo|;
    && s.todo == ops[k..]
    && Feed(s.lex, s.toHost + s.Unsent()) == IDLE
    && Settled(s).alive
    && View(Settled(s).image) == PlainBlocks(blocks, ops[..k])
    && match s.phase
       case Ready =>
         && s.results == PlainResults(blocks, ops[..k])
         && Settled(s).out == []
       case Sending(op, _) =>
         && k > 0 && op == ops[k - 1]
         && s.results == PlainResults(blocks, ops[..k - 1])
         && Settled(s).out == Reply(PlainBlocks(blocks, ops[..k]), op)
       case Receiving(sector, got) =>
         && k > 0 && ops[k - 1] == ReadBlock(sector)
         && s.results == PlainResults(blocks, ops[..k - 1])
         && got + Settled(s).out == PlainBlocks(blocks, ops[..k])[sector]
  }

  lemma PlainStep(blocks: Blocks, ops: seq<Op>, k: nat)
    requires WellSized(blocks) && AllValid(ops) && 0 < k <= |ops|
    ensures var before, op := PlainBlocks(blocks, ops[..k - 1]), ops[k - 1];
      && PlainBlocks(blocks, ops[..k]) ==
         (match op case WriteBlock(at, data) => before[at := data] case _ => before)
      && PlainResults(blocks, ops[..k]) ==
         PlainResults(blocks, ops[..k - 1]) + (if op.ReadBlock? then [before[op.sector]] else [])
  {
    assert ops[..k][..k - 1] == ops[..k - 1];
  }

  lemma InvCall(s: Link, blocks: Blocks, ops: seq<Op>)
    requires s.Valid() && WellSized(blocks) && AllValid(ops) && Inv(s, blocks, ops) && Enabled(s, Call)
    ensures Inv(Do(s, Call), blocks, ops)
  {
    var k, op := |ops| - |s.todo|, s.todo[0];
    PlainStep(blocks, ops, k + 1);
    assert s.toHost + s.Unsent() == s.toHost;
    DrainAppend(s.store, s.lex, s.toHost, op.Wire());
    FeedAppend(s.lex, s.toHost, op.Wire());
    CallTaken(Settled(s), op);
    assert ops[k + 1..] == s.todo[1..];
  }

  lemma InvSend(s: Link, blocks: Blocks, ops: seq<Op>)
    requires s.Valid() && WellSized(blocks) && AllValid(ops) && Inv(s, blocks, ops)
    requires Enabled(s, SendByte)
    ensures Inv(Do(s, SendByte), blocks, ops)
  {
    assert s.toHost + [s.phase.rest[0]] + s.phase.rest[1..] == s.toHost + s.phase.rest;
  }

  lemma InvEndSend(s: Link, blocks: Blocks, ops: seq<Op>)
    requires s.Valid() && WellSized(blocks) && AllValid(ops) && Inv(s, blocks, ops)
    requires Enabled(s, EndSend)
    ensures Inv(Do(s, EndSend), blocks, ops)
  {
    PlainStep(blocks, ops, |ops| - |s.todo|);
    assert Do(s, EndSend).Unsent() == s.Unsent();
    assert [] + Settled(s).out == Settled(s).out;
  }

  /** Taking a byte of the reply only moves it from the queue to the buffer. */
  lemma InvTakeReply(s: Link, blocks: Blocks, ops: seq<Op>)
    requires s.Valid() && WellSized(blocks) && AllValid(ops) && Inv(s, blocks, ops)
    requires Enabled(s, TakeReply)
    ensures Inv(Do(s, TakeReply), blocks, ops)
  {
    var q, rest := [s.store.out[0]], s.store.(out := s.store.out[1..]);
    assert s.store == rest.(out := q + rest.out);
    ReactOut(rest, Events(s.lex, s.toHost + s.Unsent()), q);
    assert s.phase.got + (q + Settled(Do(s, TakeReply)).out) == s.phase.got + q + Settled(Do(s, TakeReply)).out;
  }

  lemma InvEndRead(s: Link, blocks: Blocks, ops: seq<Op>)
    requires s.Valid() && WellSized(blocks) && AllValid(ops) && Inv(s, blocks, ops)
    requires Enabled(s, EndRead)
    ensures Inv(Do(s, EndRead), blocks, ops)
  {
    PlainStep(blocks, ops, |ops| - |s.todo|);
    var block := PlainBlocks(blocks, ops[..|ops| - |s.todo|])[s.phase.sector];
    assert |block| == BLOCK_SIZE == |s.phase.got| + |Settled(s).out|;
    assert s.phase.got + [] == s.phase.got;
  }

  lemma InvHostByte(s: Link, blocks: Blocks, ops: seq<Op>)
    requires s.Valid() && WellSized(blocks) && AllValid(ops) && Inv(s, blocks, ops)
    requires Enabled(s, HostByte)
    ensures Inv(Do(s, HostByte), blocks, ops)
  {
    var b, rest := s.toHost[0], s.toHost[1..] + s.Unsent();
    assert s.toHost + s.Unsent() == [b] + rest;
    DrainAppend(s.store, s.lex, [b], rest);
    FeedAppend(s.lex, [b], rest);
    FeedOne(s.lex, b);
  }

  lemma {:induction false} InvAfter(s: Link, steps: seq<Step>, blocks: Blocks, ops: seq<Op>)
    requires s.Valid() && WellSized(blocks) && AllValid(ops) && Inv(s, blocks, ops) && Runs(s, steps)
    ensures Inv(After(s, steps), blocks, ops)
    decreases |steps|
  {
    if steps != [] {
      match steps[0] {
        case Call => InvCall(s, blocks, ops);
        case SendByte => InvSend(s, blocks, ops);
        case EndSend => InvEndSend(s, blocks, ops);
        case TakeReply => InvTakeReply(s, blocks, ops);
        case EndRead => InvEndRead(s, blocks, ops);
        case HostByte => InvHostByte(s, blocks, ops);
      }
      InvAfter(Do(s, steps[0]), steps[1..], blocks, ops);
    }
  }

  lemma InvBoot(image: seq<byte>, ops: seq<Op>)
    requires |image| == DISK_SIZE && AllValid(ops)
    ensures Inv(Boot(image, ops), View(image), ops)
  {
    assert ops[0..] == ops;
    assert ops[..0] == [];
  }

  // ---------------------------------------------------------------- the theorems

  /** Calls that have returned. */
  function Returned(s: Link, ops: seq<Op>): seq<Op>
    requires |s.todo| <= |ops|
  {
    var k := |ops| - |s.todo|;
    if s.phase.Ready? || k == 0 then ops[..k] else ops[..k - 1]
  }

  /** The reads that have returned gave what a plain array of blocks gives; between calls no reply byte is in
      flight; and when everything has been taken the image is that array. */
  ghost predicate Plain(s: Link, blocks: Blocks, ops: seq<Op>)
    requires s.Valid() && WellSized(blocks) && AllValid(ops)
  {
    && |s.todo| <= |ops|
    && s.results == PlainResults(blocks, Returned(s, ops))
    && (s.phase.Ready? ==> s.store.out == [] && s.store.alive)
    && (s.Done() ==>
        s.results == PlainResults(blocks, ops) && View(s.store.image) == PlainBlocks(blocks, ops) && s.lex == IDLE)
  }

  lemma InvMeans(s: Link, blocks: Blocks, ops: seq<Op>)
    requires s.Valid() && WellSized(blocks) && AllValid(ops) && Inv(s, blocks, ops)
    ensures Plain(s, blocks, ops)
  {
    if s.phase.Ready? {
      OutOnlyGrows(s.store, Events(s.lex, s.toHost + s.Unsent()));
    }
    if s.Done() {
      assert s.toHost + s.Unsent() == [];
      assert ops[..|ops|] == ops;
    }
  }

  /** At every point of every interleaving the disk is a plain array of blocks. */
  lemma EveryRunIsPlain(image: seq<byte>, ops: seq<Op>, steps: seq<Step>)
    requires |image| == DISK_SIZE && AllValid(ops) && Runs(Boot(image, ops), steps)
    ensures Plain(After(Boot(image, ops), steps), View(image), ops)
  {
    InvBoot(image, ops);
    InvAfter(Boot(image, ops), steps, View(image), ops);
    InvMeans(After(Boot(image, ops), steps), View(image), ops);
  }

  lemma {:induction false} OutOnlyGrows(s: Store, es: seq<Event>)
    requires s.Valid()
    ensures s.out <= ReactAll(s, es).out
    ensures ReactAll(s, es).alive ==> s.alive
    decreases |es|
  {
    if es != [] {
      OutOnlyGrows(React(s, es[0]), es[1..]);
    }
  }

  /** Some process can always move until all is done: the two never wait for each other. */
  lemma NeverStuck(image: seq<byte>, ops: seq<Op>, steps: seq<Step>)
    requires |image| == DISK_SIZE && AllValid(ops) && Runs(Boot(image, ops), steps)
    ensures var s := After(Boot(image, ops), steps); s.Done() || exists step :: Enabled(s, step)
  {
    var s := After(Boot(image, ops), steps);
    InvBoot(image, ops);
    InvAfter(Boot(image, ops), steps, View(image), ops);
    match s.phase
    case Ready =>
      if s.todo != [] { assert Enabled(s, Call); }
      else if s.toHost != [] { assert Enabled(s, HostByte); }
    case Sending(_, rest) =>
      if rest != [] { assert Enabled(s, SendByte); } else { assert Enabled(s, EndSend); }
    case Receiving(sector, got) =>
      if s.toHost != [] { assert Enabled(s, HostByte); }
      else {
        // nothing left for the host to take, so the whole reply is in the queue or already received
        assert s.toHost + s.Unsent() == [];
        assert Settled(s) == s.store;
        if s.store.out != [] {
          assert |got + s.store.out| == BLOCK_SIZE;
          assert Enabled(s, TakeReply);
        } else {
          assert got + [] == got;
          assert Enabled(s, EndRead);
        }
      }
  }

  /** An upper bound on the steps a list of calls can still take. */
  function Work(ops: seq<Op>): nat
    requires AllValid(ops)
  {
    if ops == [] then 0 else 2 * |ops[0].Wire()| + BLOCK_SIZE + 3 + Work(ops[1..])
  }

  function Remaining(s: Link): nat
    requires s.Valid()
  {
    Work(s.todo) + |s.toHost| +
    match s.phase
    case Ready => 0
    case Sending(_, rest) => 2 * |rest| + BLOCK_SIZE + 2
    case Receiving(_, got) => if |got| <= BLOCK_SIZE then BLOCK_SIZE + 1 - |got| else 0
  }

  /** Every run ends: it has at most as many steps as the calls have work. */
  lemma {:induction false} EveryRunEnds(s: Link, steps: seq<Step>)
    requires s.Valid() && Runs(s, steps)
    ensures |steps| + Remaining(After(s, steps)) <= Remaining(s)
    decreases |steps|
  {
    if steps != [] {
      EveryRunEnds(Do(s, steps[0]), steps[1..]);
    }
  }
}
