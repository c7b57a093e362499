/**
 The microcontroller's block device: every block read and write becomes a packet on the serial line.
 Between any two bytes the host may run for as long as it likes.
 */
module McuDisks {
  import opened Bytes
  import opened Frames
  import opened Hosts
  import opened Links

  /** What is about to be sent. */
  datatype Outgoing = Outgoing(magic: seq<byte>, contentLength: word, body: seq<byte>)

  /** A block device as its callers see it. */
  datatype DeviceState = Busy | Holding(blocks: Blocks)

  /** A block number is sent as one byte. */
  function SectorByte(block: word): (b: byte)
    ensures b == Low(block) && (block < SECTORS ==> b == block)
  {
    block % 0x100
  }

  /** A packet sent in its three parts. */
  lemma PacketParts(v: Store, body: seq<byte>, cl: seq<byte>)
    requires v.Valid() && 0 < |body| < 0x1_0000 && cl == [Low(|body|), High(|body|)]
    requires Drain(v, IDLE, Packet(body)).alive
    ensures Packet(body) == (MAGIC + cl) + body
    ensures var l1 := Feed(IDLE, MAGIC); var l2 := Feed(l1, cl);
      var v1 := Drain(v, IDLE, MAGIC); var v2 := Drain(v1, l1, cl);
      && v1.alive && v2.alive && React(v, Frame(body)).alive
      && Feed(l2, body) == IDLE && Drain(v2, l2, body) == React(v, Frame(body))
  {
    OneCommand(v, body);
    DrainAppend(v, IDLE, MAGIC + cl, body);
    DrainAppend(v, IDLE, MAGIC, cl);
    FeedAppend(IDLE, MAGIC + cl, body);
    FeedAppend(IDLE, MAGIC, cl);
    OutOnlyGrows(Drain(v, IDLE, MAGIC + cl), Events(Feed(IDLE, MAGIC + cl), body));
    OutOnlyGrows(Drain(v, IDLE, MAGIC), Events(Feed(IDLE, MAGIC), cl));
  }

  class McuDisk {
    const s: Line
    const host: Host

    ghost function Repr(): set<object> { {this, host, host.s, host.tokz, host.disk} }

    /** The two ends agree on the line. */
    ghost predicate Wired()
      reads Repr()
    {
      host.s == s && host.Valid()
    }

    /** No call is in progress: once the host has taken all that was sent, its tokenizer is idle, it is
        still running, and no reply byte is left over. */
    ghost predicate Quiet()
      reads Repr()
    {
      Wired() && host.SettledLex() == IDLE && host.Settled().alive && host.Settled().out == []
    }

    /** The array of blocks this device stands for, between calls. */
    ghost function Device(): (d: DeviceState)
      reads Repr()
      ensures d.Holding? ==> WellSized(d.blocks)
    {
      if Quiet() then Holding(View(host.Settled().image)) else Busy
    }

    constructor (image: seq<byte>)
      requires |image| == DISK_SIZE
      ensures fresh(Repr()) && Device() == Holding(View(image)) && s.sent == []
    {
      var line := new Line();
      s := line;
      host := new Host(line, image);
    }

    /** The host takes one turn, on its way to a state in which it still runs. */
    method HostTurn()
      requires Wired() && host.Settled().alive && s.toHost != []
      modifies host.Repr()
      ensures Wired() && host.Settled() == old(host.Settled()) && host.SettledLex() == old(host.SettledLex())
      ensures |s.toHost| < |old(s.toHost)| && s.sent == old(s.sent)
    {
      DeadStays(host.View(), Events(host.tokz.Lex(), s.toHost));
      host.Turn();
      DeadStays(host.View(), Events(host.tokz.Lex(), s.toHost));
    }

    /** The host takes any number of turns. */
    method HostRuns()
      requires Wired() && host.Settled().alive
      modifies host.Repr()
      ensures Wired() && host.Settled() == old(host.Settled()) && host.SettledLex() == old(host.SettledLex())
      ensures s.sent == old(s.sent)
    {
      var more: bool := *;
      while more && s.toHost != []
        invariant Wired() && host.Settled() == old(host.Settled()) && host.SettledLex() == old(host.SettledLex())
        invariant s.sent == old(s.sent)
        decreases |s.toHost|
      {
        HostTurn();
        more := *;
      }
    }

    method SerialWriteByte(b: byte)
      requires Wired() && Drain(host.Settled(), host.SettledLex(), [b]).alive
      modifies host.Repr()
      ensures Wired() && host.SettledLex() == Next(old(host.SettledLex()), b)
      ensures host.Settled() == Drain(old(host.Settled()), old(host.SettledLex()), [b]) && s.sent == old(s.sent) + [b]
    {
      DrainAppend(host.View(), host.tokz.Lex(), s.toHost, [b]);
      FeedSnoc(host.tokz.Lex(), s.toHost, b);
      s.toHost, s.sent := s.toHost + [b], s.sent + [b];
      HostRuns();
    }

    /** Waits for the host until a byte arrives. A reply byte must be on its way. */
    method SerialReadByte() returns (b: byte)
      requires Wired() && host.Settled().alive && host.Settled().out != []
      modifies host.Repr()
      ensures Wired() && host.SettledLex() == old(host.SettledLex())
      ensures b == old(host.Settled().out)[0]
      ensures host.Settled() == old(host.Settled()).(out := old(host.Settled().out)[1..])
      ensures s.sent == old(s.sent)
    {
      while s.toMcu == []
        invariant Wired() && host.Settled() == old(host.Settled()) && host.SettledLex() == old(host.SettledLex())
        invariant s.sent == old(s.sent)
        decreases |s.toHost|
      {
        HostTurn();
      }
      b := s.toMcu[0];
      ghost var v, es := host.View(), Events(host.tokz.Lex(), s.toHost);
      assert v == v.(out := [b] + v.out[1..]);
      ReactOut(v.(out := v.out[1..]), es, [b]);
      s.toMcu := s.toMcu[1..];
      HostRuns();
    }

    /** Sends bytes one at a time. */
    method SendBytes(bytes: seq<byte>)
      requires Wired() && Drain(host.Settled(), host.SettledLex(), bytes).alive
      modifies host.Repr()
      ensures Wired() && host.SettledLex() == Feed(old(host.SettledLex()), bytes)
      ensures host.Settled() == Drain(old(host.Settled()), old(host.SettledLex()), bytes)
      ensures s.sent == old(s.sent) + bytes
    {
      var i := 0;
      while i < |bytes|
        invariant 0 <= i <= |bytes| && Wired()
        invariant s.sent == old(s.sent) + bytes[..i]
        invariant Feed(host.SettledLex(), bytes[i..]) == Feed(old(host.SettledLex()), bytes)
        invariant Drain(host.Settled(), host.SettledLex(), bytes[i..]) ==
          Drain(old(host.Settled()), old(host.SettledLex()), bytes)
      {
        var b := bytes[i];
        assert bytes[i..] == [b] + bytes[i + 1..];
        DrainAppend(host.Settled(), host.SettledLex(), [b], bytes[i + 1..]);
        FeedAppend(host.SettledLex(), [b], bytes[i + 1..]);
        FeedOne(host.SettledLex(), b);
        OutOnlyGrows(Drain(host.Settled(), host.SettledLex(), [b]),
                     Events(Next(host.SettledLex(), b), bytes[i + 1..]));
        SerialWriteByte(b);
        i := i + 1;
      }
    }

    method SendPacket(p: Outgoing)
      requires Wired() && host.SettledLex() == IDLE
      requires p.magic == MAGIC && |p.body| == p.contentLength > 0
      requires Drain(host.Settled(), IDLE, Packet(p.body)).alive
      modifies host.Repr()
      ensures Wired() && host.SettledLex() == IDLE
      ensures host.Settled() == React(old(host.Settled()), Frame(p.body)) && s.sent == old(s.sent) + Packet(p.body)
    {
      ghost var v, cl, sent := host.Settled(), [Low(p.contentLength), High(p.contentLength)], s.sent;
      PacketParts(v, p.body, cl);
      SendBytes(p.magic);
      SendBytes([Low(p.contentLength), High(p.contentLength)]);
      assert s.sent == sent + (MAGIC + cl) by {
        Associate(sent, MAGIC, cl);
      }
      SendBytes(p.body);
      Associate(sent, MAGIC + cl, p.body);
    }

    /** Fills the buffer with the reply that is on its way. */
    method Receive(data: array<byte>)
      requires Wired() && BLOCK_SIZE <= data.Length && data !in Repr()
      requires host.Settled().alive && |host.Settled().out| == BLOCK_SIZE
      modifies host.Repr(), data
      ensures Wired() && host.SettledLex() == old(host.SettledLex())
      ensures host.Settled() == old(host.Settled()).(out := [])
      ensures data[..] == old(host.Settled().out) + old(data[BLOCK_SIZE..]) && s.sent == old(s.sent)
    {
      ghost var v, l := host.Settled(), host.SettledLex();
      ghost var reply := v.out;
      var i := 0;
      while i < BLOCK_SIZE
        invariant 0 <= i <= BLOCK_SIZE && s.sent == old(s.sent)
        invariant Wired() && host.SettledLex() == l && host.Settled() == v.(out := reply[i..])
        invariant forall j | 0 <= j < i :: data[j] == reply[j]
        invariant forall j | i <= j < data.Length :: data[j] == old(data[j])
      {
        ghost var rest := reply[i..];
        var b := SerialReadByte();
        assert rest[1..] == reply[i + 1..] && rest[0] == reply[i];
        data[i] := b;
        i := i + 1;
      }
    }

    /** `disk_read`: fills the buffer with the block. The sector number is sent as one byte. */
    method DiskRead(block: word, data: array<byte>)
      requires Device().Holding? && BLOCK_SIZE <= data.Length && data !in Repr()
      modifies host.Repr(), data
      ensures Device() == old(Device()) && s.sent == old(s.sent) + ReadBlock(SectorByte(block)).Wire()
      ensures data[..BLOCK_SIZE] == Device().blocks[SectorByte(block)]
      ensures data[BLOCK_SIZE..] == old(data[BLOCK_SIZE..])
    {
      var body: seq<byte> := [READ_CMD, SectorByte(block)];
      OneCommand(host.Settled(), body);
      SendPacket(Outgoing(MAGIC, 2, body));
      ghost var rest, reply := data[BLOCK_SIZE..], host.Settled().out;
      Receive(data);
      assert data[..] == reply + rest;
    }

    /** `disk_write`. */
    method DiskWrite(block: word, data: seq<byte>)
      requires Device().Holding? && |data| == BLOCK_SIZE
      modifies host.Repr()
      ensures Device() == Holding(old(Device().blocks)[SectorByte(block) := data])
      ensures s.sent == old(s.sent) + WriteBlock(SectorByte(block), data).Wire()
    {
      ghost var v := host.Settled();
      var body: seq<byte> := [WRITE_CMD, SectorByte(block)] + data;
      OneCommand(v, body);
      assert body[2..] == data;
      ViewWrite(v.image, SectorByte(block), data);
      SendPacket(Outgoing(MAGIC, 2 + BLOCK_SIZE, body));
    }

    /** Debug text, on the same line. */
    method DebugPrint(text: seq<byte>)
      requires Device().Holding? && CleanText(text)
      modifies host.Repr()
      ensures Device() == old(Device()) && s.sent == old(s.sent) + text
    {
      CleanTextPasses(text);
      ReactText(host.Settled(), text);
      SendBytes(text);
    }
  }
}
