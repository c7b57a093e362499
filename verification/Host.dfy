/**
 The host end of the link: it tokenizes the incoming stream, prints the text, and carries out the disk
 commands on a disk image, answering reads on the outgoing stream.
 */
module Hosts {
  import opened Bytes
  import opened Frames
  import opened Tokenizers

  const DISK_SIZE: nat := BLOCK_SIZE * 500
  const READ_CMD: byte := 0x52   // 'R'
  const WRITE_CMD: byte := 0x57  // 'W'
  const SECTORS: nat := 256      // sectors an 8-bit sector number can name

  /** Everything the host process changes: the disk image, the bytes it has put on the outgoing stream
      that nobody took yet, the console, and whether the process is still up. */
  datatype Store = Store(image: seq<byte>, out: seq<byte>, console: seq<byte>, alive: bool)
  {
    predicate Valid() { |image| == DISK_SIZE }
  }

  function Sector(image: seq<byte>, sector: nat): (block: seq<byte>)
    requires |image| == DISK_SIZE && sector < SECTORS
    ensures |block| == BLOCK_SIZE
  {
    image[sector * BLOCK_SIZE..(sector + 1) * BLOCK_SIZE]
  }

  /** `handleToken` and the printing of text. A body without a sector byte panics, an unknown command
      exits; either way nothing is handled any more. (No frame is longer than two length bytes can say.) */
  function React(s: Store, e: Event): (s': Store)
    requires s.Valid()
    ensures s'.Valid()
  {
    if !s.alive then s else
    match e
    case Text(b) => s.(console := s.console + [b])
    case Frame(data) =>
      if 2 <= |data| < 0x1_0000 && data[0] == READ_CMD then
        s.(out := s.out + Sector(s.image, data[1]))
      else if 2 <= |data| < 0x1_0000 && data[0] == WRITE_CMD then
        s.(image := Splice(s.image, data[1] * BLOCK_SIZE, data[2..]))
      else
        s.(alive := false)
  }

  function ReactAll(s: Store, es: seq<Event>): (s': Store)
    requires s.Valid()
    ensures s'.Valid()
    decreases |es|
  {
    if es == [] then s else ReactAll(React(s, es[0]), es[1..])
  }

  lemma {:induction false} ReactAppend(s: Store, a: seq<Event>, b: seq<Event>)
    requires s.Valid()
    ensures ReactAll(s, a + b) == ReactAll(ReactAll(s, a), b)
    decreases |a|
  {
    if a == [] {
      assert a + b == b;
    } else {
      assert (a + b)[0] == a[0] && (a + b)[1..] == a[1..] + b;
      ReactAppend(React(s, a[0]), a[1..], b);
    }
  }

  lemma ReactOne(s: Store, e: Event)
    requires s.Valid()
    ensures ReactAll(s, [e]) == React(s, e)
  {
    assert ReactAll(React(s, e), [e][1..]) == React(s, e);
  }

  lemma {:induction false} DeadStays(s: Store, es: seq<Event>)
    requires s.Valid()
    ensures !s.alive ==> ReactAll(s, es) == s
    decreases |es|
  {
    if es != [] {
      DeadStays(React(s, es[0]), es[1..]);
    }
  }

  /** Text only reaches the console. */
  lemma {:induction false} ReactText(s: Store, t: seq<byte>)
    requires s.Valid()
    ensures ReactAll(s, TextOf(t)) == if s.alive then s.(console := s.console + t) else s
    decreases |t|
  {
    if t == [] {
      assert s.console + [] == s.console;
    } else {
      assert TextOf(t)[0] == Text(t[0]) && TextOf(t)[1..] == TextOf(t[1..]);
      ReactText(React(s, Text(t[0])), t[1..]);
      assert s.console + [t[0]] + t[1..] == s.console + t;
    }
  }

  /** What the host will have done, and the lexer state it will be in, once it has taken all of `pending`. */
  function Drain(s: Store, l: Lexer, pending: seq<byte>): (s': Store)
    requires s.Valid() && l.Valid()
    ensures s'.Valid()
  {
    ReactAll(s, Events(l, pending))
  }

  lemma DrainAppend(s: Store, l: Lexer, a: seq<byte>, b: seq<byte>)
    requires s.Valid() && l.Valid()
    ensures Drain(s, l, a + b) == Drain(Drain(s, l, a), Feed(l, a), b)
  {
    FeedAppend(l, a, b);
    ReactAppend(s, Events(l, a), Events(Feed(l, a), b));
  }

  /** Bytes the host has not answered with yet do not influence what it does. */
  lemma {:induction false} ReactOut(s: Store, es: seq<Event>, q: seq<byte>)
    requires s.Valid()
    ensures ReactAll(s.(out := q + s.out), es) == ReactAll(s, es).(out := q + ReactAll(s, es).out)
    decreases |es|
  {
    if es != [] {
      var s' := React(s, es[0]);
      assert React(s.(out := q + s.out), es[0]) == s'.(out := q + s'.out) by {
        assert forall b: seq<byte> :: q + (s.out + b) == (q + s.out) + b;
      }
      ReactOut(s', es[1..], q);
    }
  }

  // ---------------------------------------------------------------- the two byte streams

  /** The serial line: one FIFO queue each way. */
  class Line {
    var toHost: seq<byte>
    var toMcu: seq<byte>
    /** Every byte the microcontroller has put on the line. */
    ghost var sent: seq<byte>

    constructor ()
      ensures toHost == [] && toMcu == [] && sent == []
    {
      toHost, toMcu, sent := [], [], [];
    }
  }

  /** The disk image file. */
  class DiskImage {
    var image: seq<byte>

    constructor (image: seq<byte>)
      ensures this.image == image
    {
      this.image := image;
    }

    method Read(sector: byte) returns (block: seq<byte>)
      requires |image| == DISK_SIZE
      ensures block == Sector(image, sector)
    {
      var at := sector * BLOCK_SIZE;
      block := image[at..at + BLOCK_SIZE];
    }

    method Write(sector: byte, data: seq<byte>)
      requires |image| == DISK_SIZE && |data| < 0x1_0000
      modifies this
      ensures image == Splice(old(image), sector * BLOCK_SIZE, data)
    {
      var at := sector * BLOCK_SIZE;
      image := image[..at] + data + image[at + |data|..];
    }
  }

  class Host {
    const s: Line
    const tokz: Tokenizer
    const disk: DiskImage
    var console: seq<byte>
    var alive: bool

    ghost function Repr(): set<object> { {this, s, tokz, disk} }

    ghost predicate Valid()
      reads Repr()
    {
      && tokz.Valid()
      && tokz.textData == [] && tokz.tokens == []
      && |disk.image| == DISK_SIZE
    }

    ghost function View(): (v: Store)
      requires Valid()
      reads Repr()
      ensures v.Valid()
    {
      Store(disk.image, s.toMcu, console, alive)
    }

    /** The state reached once everything sent so far has been taken. */
    ghost function Settled(): (v: Store)
      requires Valid()
      reads Repr()
      ensures v.Valid()
    {
      Drain(View(), tokz.Lex(), s.toHost)
    }

    ghost function SettledLex(): (l: Lexer)
      requires Valid()
      reads Repr()
      ensures l.Valid()
    {
      Feed(tokz.Lex(), s.toHost)
    }

    constructor (s: Line, image: seq<byte>)
      requires |image| == DISK_SIZE
      ensures Valid() && this.s == s && fresh(Repr() - {s})
      ensures disk.image == image && alive && console == [] && tokz.Lex() == IDLE
    {
      this.s := s;
      tokz := new Tokenizer();
      disk := new DiskImage(image);
      console, alive := [], true;
    }

    method HandleToken(tok: seq<byte>)
      requires Valid() && alive && 0 < |tok| < 0x1_0000
      modifies s`toMcu, disk, this
      ensures Valid() && View() == React(old(View()), Frame(tok))
    {
      if tok[0] == READ_CMD {
        if |tok| < 2 {
          alive := false;
          return;
        }
        var d := disk.Read(tok[1]);
        s.toMcu := s.toMcu + d;
      }
      if tok[0] == WRITE_CMD {
        if |tok| < 2 {
          alive := false;
          return;
        }
        disk.Write(tok[1], tok[2..]);
      }
      if tok[0] != WRITE_CMD && tok[0] != READ_CMD {
        alive := false;
      }
    }

    /** One byte through the tokenizer, and whatever that lets the host do. */
    method TakeByte(b: byte)
      requires Valid() && alive
      modifies s`toMcu, tokz, disk, this
      ensures Valid() && tokz.Lex() == Next(old(tokz.Lex()), b)
      ensures View() == ReactAll(old(View()), Emit(old(tokz.Lex()), b))
    {
      ghost var l, before := tokz.Lex(), View();
      tokz.Submit(b);
      assert TextOf([]) == [];
      ghost var queued := tokz.tokens;
      assert queued == FramesIn(Emit(l, b));
      var tok, found := tokz.NextToken();
      EmitShape(l, b);
      if found {
        assert |queued| == 1 && queued[0] == tok;
        assert Emit(l, b) == [Frame(tok)];
        ReactOne(before, Frame(tok));
        HandleToken(tok);
        return;
      }
      var text := tokz.Data();
      assert TextOf(text) == Emit(l, b);
      ReactText(before, text);
      console := console + text;
    }

    /** One read from the line, of whatever length it returns, and the loop over the bytes read. The
        host ends up no different from where it was heading before, even if a command makes the process
        exit, which then takes no more. */
    method Turn()
      requires Valid() && alive && s.toHost != []
      modifies Repr()
      ensures Valid() && Settled() == old(Settled()) && (alive ==> SettledLex() == old(SettledLex()))
      ensures s.sent == old(s.sent)
      ensures |s.toHost| < |old(s.toHost)|
    {
      var n: nat :| 0 < n <= |s.toHost|;  // how much one read returns
      var buf := s.toHost[..n];
      ghost var rest := s.toHost[n..];
      assert s.toHost == buf + rest;
      s.toHost := s.toHost[n..];
      var i := 0;
      while i < n && alive
        invariant 0 <= i <= n && Valid()
        invariant s.toHost == rest && s.sent == old(s.sent)
        invariant Drain(View(), tokz.Lex(), buf[i..] + rest) == old(Settled())
        invariant Feed(tokz.Lex(), buf[i..] + rest) == old(SettledLex())
      {
        ghost var l, v := tokz.Lex(), View();
        TakeByte(buf[i]);
        assert buf[i..] + rest == [buf[i]] + (buf[i + 1..] + rest);
        DrainAppend(v, l, [buf[i]], buf[i + 1..] + rest);
        FeedAppend(l, [buf[i]], buf[i + 1..] + rest);
        FeedOne(l, buf[i]);
        i := i + 1;
      }
      if alive {
        assert buf[i..] + rest == rest;
      } else {
        DeadStays(View(), Events(tokz.Lex(), buf[i..] + rest));
        DeadStays(View(), Events(tokz.Lex(), rest));
      }
    }
  }

  /** One byte completes at most one frame, and never text and a frame at once. */
  lemma EmitShape(l: Lexer, b: byte)
    requires l.Valid()
    ensures (FramesIn(Emit(l, b)) == [] && TextIn(Emit(l, b)) == Emit(l, b)) ||
      exists d :: Emit(l, b) == [Frame(d)] && 0 < |d| < 0x1_0000
                  && FramesIn(Emit(l, b)) == [d] && TextIn(Emit(l, b)) == []
  {
    match l
    case Matching(n) => AllText(MAGIC[..n] + [b]);
    case Body(len, got) =>
      if |got| + 1 == len {
        assert [Frame(got + [b])][1..] == [];
        assert FramesIn([Frame(got + [b])][1..]) == [];
        assert FramesIn([Frame(got + [b])]) == [got + [b]];
      }
    case _ =>
  }
}
