/**
 The framing protocol of the serial stream. Debug text and disk commands share one stream of bytes;
 a command is `@cmdmode`, a little-endian 16-bit length, and that many bytes of body.

 `Lexer` is the tokenizer's control state; `Next` and `Emit` say what one byte does to it. The class
 in Tokenizer.dfy keeps the buffers of serial/tokenizer.go and is proved to follow this automaton.
 */
module Frames {
  import opened Bytes

  // "@cmdmode"
  const MAGIC: seq<byte> := [0x40, 0x63, 0x6D, 0x64, 0x6D, 0x6F, 0x64, 0x65]

  /** What the tokenizer hands on, in stream order: one byte of text, or the body of a whole frame. */
  datatype Event = Text(b: byte) | Frame(data: seq<byte>)

  datatype Lexer =
    | Matching(n: nat)                       // the last n bytes are the magic's first n
    | SizeLow                                // magic complete, low length byte next
    | SizeHigh(lo: byte)                     // high length byte next
    | Body(len: word, got: seq<byte>)        // collecting the body
  {
    predicate Valid() {
      match this
      case Matching(n) => n < |MAGIC|
      case Body(len, got) => len == 0 || |got| < len
      case _ => true
    }
  }

  const IDLE: Lexer := Matching(0)

  function Next(l: Lexer, b: byte): (l': Lexer)
    requires l.Valid()
    ensures l'.Valid()
  {
    match l
    case Matching(n) => if b != MAGIC[n] then IDLE else if n + 1 == |MAGIC| then SizeLow else Matching(n + 1)
    case SizeLow => SizeHigh(b)
    case SizeHigh(lo) => Body((b * 0x100 + lo) as word, [])
    case Body(len, got) => if |got| + 1 == len then IDLE else Body(len, got + [b])
  }

  function Emit(l: Lexer, b: byte): seq<Event>
    requires l.Valid()
  {
    match l
    case Matching(n) => if b != MAGIC[n] then TextOf(MAGIC[..n] + [b]) else []
    case Body(len, got) => if |got| + 1 == len then [Frame(got + [b])] else []
    case _ => []
  }

  function TextOf(t: seq<byte>): seq<Event> {
    seq(|t|, i requires 0 <= i < |t| => Text(t[i]))
  }

  /** The lexer after a whole stream, and everything it hands on meanwhile. */
  function Feed(l: Lexer, bs: seq<byte>): (l': Lexer)
    requires l.Valid()
    ensures l'.Valid()
    decreases |bs|
  {
    if bs == [] then l else Feed(Next(l, bs[0]), bs[1..])
  }

  function Events(l: Lexer, bs: seq<byte>): seq<Event>
    requires l.Valid()
    decreases |bs|
  {
    if bs == [] then [] else Emit(l, bs[0]) + Events(Next(l, bs[0]), bs[1..])
  }

  /** What `sendPacket` puts on the wire for a body. */
  function Packet(data: seq<byte>): seq<byte>
    requires |data| < 0x1_0000
  {
    MAGIC + [Low(|data|), High(|data|)] + data
  }

  /** The bytes an event stands for, and those of a list of events. */
  function Encode(e: Event): seq<byte>
  {
    match e
    case Text(b) => [b]
    case Frame(data) => if |data| < 0x1_0000 then Packet(data) else []
  }

  function EncodeAll(es: seq<Event>): seq<byte>
  {
    if es == [] then [] else Encode(es[0]) + EncodeAll(es[1..])
  }

  /** The bytes a lexer has taken in and not handed on yet. */
  function Held(l: Lexer): seq<byte>
    requires l.Valid()
  {
    match l
    case Matching(n) => MAGIC[..n]
    case SizeLow => MAGIC
    case SizeHigh(lo) => MAGIC + [lo]
    case Body(len, got) => MAGIC + [Low(len), High(len)] + got
  }

  // ---------------------------------------------------------------- streams cut anywhere

  lemma {:induction false} FeedSplit(l: Lexer, a: seq<byte>, b: seq<byte>)
    requires l.Valid()
    ensures Feed(l, a + b) == Feed(Feed(l, a), b)
    decreases |a|
  {
    var t := a + b;
    if a == [] {
      assert t == b;
    } else {
      assert t[0] == a[0] && t[1..] == a[1..] + b;
      FeedSplit(Next(l, a[0]), a[1..], b);
    }
  }

  lemma {:induction false} EventsSplit(l: Lexer, a: seq<byte>, b: seq<byte>)
    requires l.Valid()
    ensures Events(l, a + b) == Events(l, a) + Events(Feed(l, a), b)
    decreases |a|
  {
    var t := a + b;
    if a == [] {
      assert t == b;
    } else {
      var rest, l' := a[1..], Next(l, a[0]);
      assert t[0] == a[0] && t[1..] == rest + b;
      EventsSplit(l', rest, b);
      Associate(Emit(l, a[0]), Events(l', rest), Events(Feed(l', rest), b));
    }
  }

  /** However a stream is cut into reads, the lexer ends the same and hands on the same events. */
  lemma FeedAppend(l: Lexer, a: seq<byte>, b: seq<byte>)
    requires l.Valid()
    ensures Feed(l, a + b) == Feed(Feed(l, a), b)
    ensures Events(l, a + b) == Events(l, a) + Events(Feed(l, a), b)
  {
    FeedSplit(l, a, b);
    EventsSplit(l, a, b);
  }

  lemma FeedOne(l: Lexer, b: byte)
    requires l.Valid()
    ensures Feed(l, [b]) == Next(l, b)
    ensures Events(l, [b]) == Emit(l, b)
  {
    assert [b][1..] == [];
    assert Feed(Next(l, b), [b][1..]) == Next(l, b);
    assert Events(Next(l, b), [b][1..]) == [];
  }

  lemma FeedSnoc(l: Lexer, a: seq<byte>, b: byte)
    requires l.Valid()
    ensures Feed(l, a + [b]) == Next(Feed(l, a), b)
    ensures Events(l, a + [b]) == Events(l, a) + Emit(Feed(l, a), b)
  {
    FeedAppend(l, a, [b]);
    FeedOne(Feed(l, a), b);
  }

  // ---------------------------------------------------------------- conservation

  lemma {:induction false} EncodeAppend(a: seq<Event>, b: seq<Event>)
    ensures EncodeAll(a + b) == EncodeAll(a) + EncodeAll(b)
    decreases |a|
  {
    if a == [] {
      assert a + b == b;
    } else {
      assert (a + b)[0] == a[0] && (a + b)[1..] == a[1..] + b;
      EncodeAppend(a[1..], b);
    }
  }

  lemma {:induction false} EncodeText(t: seq<byte>)
    ensures EncodeAll(TextOf(t)) == t
    decreases |t|
  {
    if t != [] {
      assert TextOf(t)[1..] == TextOf(t[1..]);
      EncodeText(t[1..]);
    }
  }

  lemma ConservesByte(l: Lexer, b: byte)
    requires l.Valid()
    ensures EncodeAll(Emit(l, b)) + Held(Next(l, b)) == Held(l) + [b]
  {
    match l
    case Matching(n) => ConservesMatch(n, b);
    case SizeLow =>
    case SizeHigh(lo) => ConservesSize(lo, b);
    case Body(len, got) => ConservesBody(len, got, b);
  }

  lemma ConservesSize(lo: byte, hi: byte)
    ensures Emit(SizeHigh(lo), hi) == [] && Held(Next(SizeHigh(lo), hi)) == MAGIC + [lo] + [hi]
  {
    var len: word := hi * 0x100 + lo;
    assert Low(len) == lo && High(len) == hi;
    assert MAGIC + [lo, hi] + [] == MAGIC + [lo] + [hi];
  }

  lemma ConservesMatch(n: nat, b: byte)
    requires n < |MAGIC|
    ensures EncodeAll(Emit(Matching(n), b)) + Held(Next(Matching(n), b)) == MAGIC[..n] + [b]
  {
    var t := MAGIC[..n] + [b];
    EncodeText(t);
    assert MAGIC[..n + 1] == MAGIC[..n] + [MAGIC[n]];
    assert MAGIC[..|MAGIC|] == MAGIC;
    assert t + [] == t;
  }

  lemma ConservesBody(len: word, got: seq<byte>, b: byte)
    requires len == 0 || |got| < len
    ensures EncodeAll(Emit(Body(len, got), b)) + Held(Next(Body(len, got), b)) == Held(Body(len, got)) + [b]
  {
    var got' := got + [b];
    EncodeOne(Frame(got'));
    Associate(MAGIC + [Low(len), High(len)], got, [b]);
  }

  lemma EncodeOne(e: Event)
    ensures EncodeAll([e]) == Encode(e)
  {
    assert [e][1..] == [];
  }

  /** Nothing is lost, invented or reordered: re-encoding what was handed on, followed by what is still
      held, is what was held before followed by the bytes submitted. */
  lemma {:induction false} Conservation(l: Lexer, bs: seq<byte>)
    requires l.Valid()
    ensures EncodeAll(Events(l, bs)) + Held(Feed(l, bs)) == Held(l) + bs
    decreases |bs|
  {
    if bs != [] {
      var b, l', rest := bs[0], Next(l, bs[0]), bs[1..];
      var first, later, held := EncodeAll(Emit(l, b)), EncodeAll(Events(l', rest)), Held(Feed(l', rest));
      EncodeAppend(Emit(l, b), Events(l', rest));
      Associate(first, later, held);
      Conservation(l', rest);
      Associate(first, Held(l'), rest);
      ConservesByte(l, b);
      Associate(Held(l), [b], rest);
      assert bs == [b] + rest;
    }
  }

  // ---------------------------------------------------------------- the magic matcher

  predicate MagicAt(t: seq<byte>, p: nat) {
    p + |MAGIC| <= |t| && t[p..p + |MAGIC|] == MAGIC
  }

  /** Text that cannot be confused with a frame: no magic inside, no beginning of one at the end. */
  predicate CleanText(t: seq<byte>) {
    && (forall p | 0 <= p < |t| :: !MagicAt(t, p))
    && (forall k | 1 <= k <= |MAGIC| && k <= |t| :: t[|t| - k..] != MAGIC[..k])
  }

  lemma EndsWith(a: seq<byte>, b: seq<byte>, t: seq<byte>)
    requires a + b == [] + t
    ensures |b| <= |t| && t[|t| - |b|..|t|] == b
  {
    assert t == a + b;
  }

  /** The magic completes only when the last eight bytes are the magic. */
  lemma FiresOnlyOnMagic(t: seq<byte>)
    requires Feed(IDLE, t) == SizeLow
    ensures |MAGIC| <= |t| && MagicAt(t, |t| - |MAGIC|)
  {
    Conservation(IDLE, t);
    EndsWith(EncodeAll(Events(IDLE, t)), MAGIC, t);
  }

  /** `l` has passed all of `t` on as text except its last l.n bytes, which begin the magic. */
  ghost predicate Tracks(t: seq<byte>, l: Lexer, es: seq<Event>) {
    && l.Matching?
    && l.n < |MAGIC|
    && l.n <= |t|
    && t[|t| - l.n..] == MAGIC[..l.n]
    && es == TextOf(t[..|t| - l.n])
  }

  lemma TracksStep(t: seq<byte>, b: byte, l: Lexer, es: seq<Event>)
    requires Tracks(t, l, es)
    requires |t| + 1 < |MAGIC| || (t + [b])[|t| + 1 - |MAGIC|..] != MAGIC
    ensures Tracks(t + [b], Next(l, b), es + Emit(l, b))
  {
    if b == MAGIC[l.n] {
      MagicGrows(t, b, l.n);
      TracksHit(t, b, l, es);
    } else {
      TracksMiss(t, b, l, es);
    }
  }

  /** The next byte of the magic lengthens a partial match at the end of a stream. */
  lemma MagicGrows(t: seq<byte>, b: byte, n: nat)
    requires n < |MAGIC| && n <= |t| && t[|t| - n..] == MAGIC[..n] && b == MAGIC[n]
    ensures (t + [b])[|t| - n..] == MAGIC[..n + 1]
    ensures n + 1 == |MAGIC| ==> (t + [b])[|t| + 1 - |MAGIC|..] == MAGIC
  {
    assert MAGIC[..n + 1] == MAGIC[..n] + [b];
    assert (t + [b])[|t| - n..] == t[|t| - n..] + [b];
    assert MAGIC[..|MAGIC|] == MAGIC;
  }

  lemma TracksHit(t: seq<byte>, b: byte, l: Lexer, es: seq<Event>)
    requires Tracks(t, l, es) && l.n + 1 < |MAGIC| && b == MAGIC[l.n]
    requires (t + [b])[|t| - l.n..] == MAGIC[..l.n + 1]
    ensures Tracks(t + [b], Next(l, b), es + Emit(l, b))
  {
    assert (t + [b])[..|t| - l.n] == t[..|t| - l.n];
    assert es + [] == es;
  }

  lemma TracksMiss(t: seq<byte>, b: byte, l: Lexer, es: seq<Event>)
    requires Tracks(t, l, es) && b != MAGIC[l.n]
    ensures Tracks(t + [b], Next(l, b), es + Emit(l, b))
  {
    var before, held, t' := t[..|t| - l.n], MAGIC[..l.n] + [b], t + [b];
    assert t == before + MAGIC[..l.n];
    assert t' == before + held;
    assert t'[|t'|..] == MAGIC[..0] && t'[..|t'|] == t';
    TextAppend(before, held);
  }

  lemma TextAppend(a: seq<byte>, b: seq<byte>)
    ensures TextOf(a + b) == TextOf(a) + TextOf(b)
  {}

  /** Without the magic there is none in a prefix. */
  lemma NoMagicBefore(t: seq<byte>, n: nat)
    requires n <= |t| && forall p | 0 <= p < |t| :: !MagicAt(t, p)
    ensures forall p | 0 <= p < n :: !MagicAt(t[..n], p)
  {
    var a := t[..n];
    forall p | 0 <= p < n ensures !MagicAt(a, p) {
      if MagicAt(a, p) {
        assert t[p..p + |MAGIC|] == a[p..p + |MAGIC|];
        assert MagicAt(t, p);
      }
    }
  }

  /** As long as the magic does not occur, every byte but the pending partial match has come out as text. */
  lemma {:induction false} MatcherTracks(t: seq<byte>)
    requires forall p | 0 <= p < |t| :: !MagicAt(t, p)
    ensures Tracks(t, Feed(IDLE, t), Events(IDLE, t))
    decreases |t|
  {
    if t == [] {
      assert MAGIC[..0] == [] == t[..0];
    } else {
      var n := |t| - 1;
      var a, b := t[..n], t[n];
      var l, es := Feed(IDLE, a), Events(IDLE, a);
      assert t == a + [b];
      NoMagicBefore(t, n);
      MatcherTracks(a);
      if |MAGIC| <= |t| {
        NoMagicAtEnd(t);
      }
      TracksStep(a, b, l, es);
      FeedSnoc(IDLE, a, b);
    }
  }

  lemma NoMagicAtEnd(t: seq<byte>)
    requires |MAGIC| <= |t| && !MagicAt(t, |t| - |MAGIC|)
    ensures t[|t| - |MAGIC|..] != MAGIC
  {
    assert t[|t| - |MAGIC|..] == t[|t| - |MAGIC|..|t|];
  }

  lemma CleanTextPasses(t: seq<byte>)
    requires CleanText(t)
    ensures Feed(IDLE, t) == IDLE && Events(IDLE, t) == TextOf(t)
  {
    MatcherTracks(t);
    var n := Feed(IDLE, t).n;
    assert n == 0;
    assert t[..|t| - n] == t;
  }

  /** The byte at p of a stream arrives outside frames: the matcher sees it. */
  predicate OutsideFrames(t: seq<byte>, p: nat) {
    p <= |t| && Feed(IDLE, t[..p]).Matching?
  }

  /** Where the text around p begins: at the end of the last frame before it, or at the start of the stream. */
  function TextStart(t: seq<byte>, p: nat): (lo: nat)
    requires p <= |t|
    ensures lo <= p
    decreases p
  {
    if p == 0 then 0
    else if OutsideFrames(t, p) && !OutsideFrames(t, p - 1) then p
    else TextStart(t, p - 1)
  }

  /** The k bytes before p are the magic's first k. */
  predicate Attempt(t: seq<byte>, p: nat, k: nat) { k <= p <= |t| && k <= |MAGIC| && t[p - k..p] == MAGIC[..k] }

  /** The byte at p arrives while an attempt to match the magic is open, in text that begins at lo. Attempts do
      not overlap: a byte inside an open attempt cannot begin another. A property of that text alone. */
  predicate MidMatch(t: seq<byte>, lo: nat, p: nat)
    requires lo <= p <= |t|
    decreases p
  {
    exists k | 1 <= k < |MAGIC| && k <= p - lo :: Attempt(t, p, k) && !MidMatch(t, lo, p - k)
  }

  // ---------------------------------------------------------------- when the matcher fires

  /** The matcher after the first k bytes of the magic, started idle. */
  function Progress(k: nat): Lexer
    requires k <= |MAGIC|
  {
    if k == |MAGIC| then SizeLow else Matching(k)
  }

  lemma {:induction false} MagicAdvances(k: nat)
    requires k <= |MAGIC|
    ensures Feed(IDLE, MAGIC[..k]) == Progress(k)
    ensures Events(IDLE, MAGIC[..k]) == []
  {
    if k > 0 {
      var a, b := MAGIC[..k - 1], MAGIC[k - 1];
      MagicAdvances(k - 1);
      FeedSnoc(IDLE, a, b);
      assert MAGIC[..k] == a + [b];
    }
  }

  /** An attempt that begins idle at p - k is at Progress(k) at p. */
  lemma AttemptAdvances(t: seq<byte>, p: nat, k: nat)
    requires 1 <= k <= |MAGIC| && k <= p <= |t| && Feed(IDLE, t[..p - k]) == IDLE && t[p - k..p] == MAGIC[..k]
    ensures Feed(IDLE, t[..p]) == Progress(k)
  {
    var a, b := t[..p - k], MAGIC[..k];
    assert t[..p] == a + b;
    FeedAppend(IDLE, a, b);
    MagicAdvances(k);
  }

  /** The matcher reaches Progress(k) only by the k-th byte of the magic from Progress(k - 1). */
  lemma ProgressFrom(l: Lexer, b: byte, k: nat)
    requires l.Valid() && 1 <= k <= |MAGIC| && Next(l, b) == Progress(k)
    ensures l == Progress(k - 1) && b == MAGIC[k - 1]
  {}

  lemma MagicEnd(t: seq<byte>, q: nat, p: nat, k: nat)
    requires 1 <= k <= |MAGIC| && q < p <= |t| && t[q..p - 1] == MAGIC[..k - 1] && t[p - 1] == MAGIC[k - 1]
    ensures t[q..p] == MAGIC[..k]
  {
    assert t[q..p] == t[q..p - 1] + [t[p - 1]];
    assert MAGIC[..k] == MAGIC[..k - 1] + [MAGIC[k - 1]];
  }

  /** Only such an attempt is. */
  lemma {:induction false} AttemptSource(t: seq<byte>, p: nat, k: nat)
    requires 1 <= k <= |MAGIC| && p <= |t| && Feed(IDLE, t[..p]) == Progress(k)
    ensures k <= p && Feed(IDLE, t[..p - k]) == IDLE && t[p - k..p] == MAGIC[..k]
    decreases k
  {
    assert p > 0;
    var a, b := t[..p - 1], t[p - 1];
    assert t[..p] == a + [b];
    FeedSnoc(IDLE, a, b);
    ProgressFrom(Feed(IDLE, a), b, k);
    if k > 1 {
      AttemptSource(t, p - 1, k - 1);
    }
    MagicEnd(t, p - k, p, k);
  }

  /** An attempt that began idle at p - k is at Progress(k) at p, and only such an attempt is. */
  lemma AttemptBegan(t: seq<byte>, p: nat, k: nat)
    requires 1 <= k <= |MAGIC| && p <= |t|
    ensures Feed(IDLE, t[..p]) == Progress(k) <==>
      (k <= p && Feed(IDLE, t[..p - k]) == IDLE && t[p - k..p] == MAGIC[..k])
  {
    if k <= p && Feed(IDLE, t[..p - k]) == IDLE && t[p - k..p] == MAGIC[..k] {
      AttemptAdvances(t, p, k);
    } else if Feed(IDLE, t[..p]) == Progress(k) {
      AttemptSource(t, p, k);
    }
  }

  /** All positions from lo to p are outside frames, and the matcher is idle at lo. */
  ghost predicate InText(t: seq<byte>, lo: nat, p: nat) {
    lo <= p <= |t| && Feed(IDLE, t[..lo]) == IDLE && forall q | lo <= q <= p :: OutsideFrames(t, q)
  }

  /** Text begins with the matcher idle, and goes on outside frames. */
  lemma {:induction false} TextStartsIdle(t: seq<byte>, p: nat)
    requires OutsideFrames(t, p)
    ensures InText(t, TextStart(t, p), p)
    decreases p
  {
    if p > 0 {
      var a, b := t[..p - 1], t[p - 1];
      assert t[..p] == a + [b];
      FeedSnoc(IDLE, a, b);
      if OutsideFrames(t, p - 1) {
        TextStartsIdle(t, p - 1);
      }
    }
  }

  /** An attempt open at p began no earlier than the text that p is in. */
  lemma AttemptInText(t: seq<byte>, lo: nat, p: nat, k: nat)
    requires 1 <= k < |MAGIC| && k <= p <= |t| && lo < p && Feed(IDLE, t[..lo]) == IDLE
    requires Feed(IDLE, t[..p - k]) == IDLE && Attempt(t, p, k)
    ensures lo <= p - k
  {
    var n := lo - (p - k);
    if n > 0 {
      assert t[lo - n..lo] == t[p - k..p][..n] == MAGIC[..n];
      AttemptAdvances(t, lo, n);
    }
  }

  /** A matcher that is not idle has an attempt open, which began in this text. */
  lemma OpenAttempt(t: seq<byte>, lo: nat, p: nat) returns (k: nat)
    requires InText(t, lo, p) && Feed(IDLE, t[..p]) != IDLE
    ensures 1 <= k < |MAGIC| && k <= p - lo && Attempt(t, p, k)
    ensures Feed(IDLE, t[..p - k]) == IDLE && InText(t, lo, p - k)
  {
    assert OutsideFrames(t, p);
    k := Feed(IDLE, t[..p]).n;
    AttemptSource(t, p, k);
    AttemptInText(t, lo, p, k);
  }

  lemma {:induction false} IdleInText(t: seq<byte>, lo: nat, p: nat)
    requires InText(t, lo, p)
    ensures Feed(IDLE, t[..p]) == IDLE <==> !MidMatch(t, lo, p)
    decreases p
  {
    if Feed(IDLE, t[..p]) != IDLE {
      var k := OpenAttempt(t, lo, p);
      IdleInText(t, lo, p - k);
    } else if MidMatch(t, lo, p) {
      var k :| 1 <= k < |MAGIC| && k <= p - lo && Attempt(t, p, k) && !MidMatch(t, lo, p - k);
      IdleInText(t, lo, p - k);
      AttemptAdvances(t, p, k);
    }
  }

  /** At any position outside frames, before the first frame or after any number of them. */
  lemma IdleIffNotMidMatch(t: seq<byte>, p: nat)
    requires OutsideFrames(t, p)
    ensures Feed(IDLE, t[..p]) == IDLE <==> !MidMatch(t, TextStart(t, p), p)
  {
    TextStartsIdle(t, p);
    IdleInText(t, TextStart(t, p), p);
  }

  /** Exactly when the matcher fires, at any position outside frames: at an occurrence of the magic whose first
      byte does not arrive while another attempt is open. */
  lemma FiresIff(t: seq<byte>, p: nat)
    requires OutsideFrames(t, p) && p + |MAGIC| <= |t|
    ensures Feed(IDLE, t[..p + |MAGIC|]) == SizeLow <==> MagicAt(t, p) && !MidMatch(t, TextStart(t, p), p)
  {
    AttemptBegan(t, p + |MAGIC|, |MAGIC|);
    IdleIffNotMidMatch(t, p);
    assert MAGIC[..|MAGIC|] == MAGIC;
  }

  /** No `@` arrives inside an open attempt. */
  predicate NoAtMidMatch(t: seq<byte>) {
    forall q | 0 <= q < |t| && OutsideFrames(t, q) && t[q] == MAGIC[0] :: !MidMatch(t, TextStart(t, q), q)
  }

  /** Then the matcher is plain substring search outside frames. */
  lemma PlainSearch(t: seq<byte>, p: nat)
    requires NoAtMidMatch(t) && OutsideFrames(t, p) && p + |MAGIC| <= |t|
    ensures Feed(IDLE, t[..p + |MAGIC|]) == SizeLow <==> MagicAt(t, p)
  {
    FiresIff(t, p);
    if MagicAt(t, p) {
      assert t[p] == t[p..p + |MAGIC|][0] == MAGIC[0];
    }
  }

  lemma {:induction false} NoAtPasses(t: seq<byte>)
    requires MAGIC[0] !in t
    ensures Feed(IDLE, t) == IDLE && Events(IDLE, t) == TextOf(t)
    decreases |t|
  {
    if t != [] {
      var b, rest := t[0], t[1..];
      NoAtPasses(rest);
      assert MAGIC[..0] + [b] == [b];
      assert t == [b] + rest;
      TextAppend([b], rest);
    }
  }

  /** One `@` in front of a command hides it: the command comes out as text. */
  lemma DoubledAtHidesMagic()
    ensures var t := [MAGIC[0]] + MAGIC;
      MagicAt(t, 1) && Feed(IDLE, t) == IDLE && Events(IDLE, t) == TextOf(t)
  {
    var at, t, rest := MAGIC[0], [MAGIC[0]] + MAGIC, MAGIC[1..];
    assert t[1..1 + |MAGIC|] == MAGIC;
    FeedOne(IDLE, at);
    FeedSnoc(IDLE, [at], at);
    NoAtPasses(rest);
    FeedAppend(IDLE, [at] + [at], rest);
    assert t == [at] + [at] + rest;
    assert MAGIC[..1] + [at] == [at] + [at];
    TextAppend([at] + [at], rest);
  }

  // ---------------------------------------------------------------- framing round trip

  datatype Item = Run(text: seq<byte>) | Cmd(data: seq<byte>)
  {
    predicate Sendable() {
      match this
      case Run(text) => CleanText(text)
      case Cmd(data) => 0 < |data| < 0x1_0000
    }

    function Wire(): seq<byte>
      requires Sendable()
    {
      match this
      case Run(text) => text
      case Cmd(data) => Packet(data)
    }

    function Sent(): seq<Event> {
      match this
      case Run(text) => TextOf(text)
      case Cmd(data) => [Frame(data)]
    }
  }

  predicate AllSendable(items: seq<Item>) {
    forall i | 0 <= i < |items| :: items[i].Sendable()
  }

  function WireAll(items: seq<Item>): seq<byte>
    requires AllSendable(items)
  {
    if items == [] then [] else items[0].Wire() + WireAll(items[1..])
  }

  function SentAll(items: seq<Item>): seq<Event> {
    if items == [] then [] else items[0].Sent() + SentAll(items[1..])
  }

  lemma {:induction false} BodyFills(len: word, got: seq<byte>, rest: seq<byte>)
    requires 0 < |rest| && |got| + |rest| == len
    ensures Feed(Body(len, got), rest) == IDLE
    ensures Events(Body(len, got), rest) == [Frame(got + rest)]
    decreases |rest|
  {
    var b := rest[0];
    if |rest| == 1 {
      assert rest == [b];
      FeedOne(Body(len, got), b);
    } else {
      BodyFills(len, got + [b], rest[1..]);
      assert got + [b] + rest[1..] == got + rest;
    }
  }

  /** Magic and length leave the lexer collecting a body of that length, with nothing handed on. */
  lemma MagicRead()
    ensures Feed(IDLE, MAGIC) == SizeLow && Events(IDLE, MAGIC) == []
  {
    MagicAdvances(|MAGIC|);
    assert MAGIC[..|MAGIC|] == MAGIC;
  }

  lemma LengthRead(len: word)
    ensures Feed(SizeLow, [Low(len), High(len)]) == Body(len, []) && Events(SizeLow, [Low(len), High(len)]) == []
  {
    var lo, hi := Low(len), High(len);
    FeedOne(SizeLow, lo);
    FeedSnoc(SizeLow, [lo], hi);
    assert [lo, hi] == [lo] + [hi];
  }

  lemma HeaderOpensBody(len: word)
    ensures Feed(IDLE, MAGIC + [Low(len), High(len)]) == Body(len, [])
    ensures Events(IDLE, MAGIC + [Low(len), High(len)]) == []
  {
    MagicRead();
    LengthRead(len);
    FeedAppend(IDLE, MAGIC, [Low(len), High(len)]);
  }

  lemma PacketYieldsFrame(data: seq<byte>)
    requires 0 < |data| < 0x1_0000
    ensures Feed(IDLE, Packet(data)) == IDLE && Events(IDLE, Packet(data)) == [Frame(data)]
  {
    var header := MAGIC + [Low(|data|), High(|data|)];
    HeaderOpensBody(|data|);
    FeedAppend(IDLE, header, data);
    BodyFills(|data|, [], data);
    assert [] + data == data;
  }

  /** A packet with an empty body swallows the rest of the stream. */
  lemma {:induction false} EmptyPacketSwallows(rest: seq<byte>)
    ensures Feed(IDLE, Packet([]) + rest) == Body(0, rest) && Events(IDLE, Packet([]) + rest) == []
    decreases |rest|
  {
    if rest == [] {
      HeaderOpensBody(0);
      assert Packet([]) + rest == MAGIC + [Low(0), High(0)];
    } else {
      var a, b := rest[..|rest| - 1], rest[|rest| - 1];
      assert Packet([]) + rest == (Packet([]) + a) + [b];
      EmptyPacketSwallows(a);
      FeedSnoc(IDLE, Packet([]) + a, b);
      assert a + [b] == rest;
    }
  }

  /** Any interleaving of clean text and commands comes back as it was sent. */
  lemma {:induction false} FramingRoundTrip(items: seq<Item>)
    requires AllSendable(items)
    ensures Feed(IDLE, WireAll(items)) == IDLE
    ensures Events(IDLE, WireAll(items)) == SentAll(items)
    decreases |items|
  {
    if items != [] {
      match items[0] {
        case Run(text) => CleanTextPasses(text);
        case Cmd(data) => PacketYieldsFrame(data);
      }
      FeedAppend(IDLE, items[0].Wire(), WireAll(items[1..]));
      FramingRoundTrip(items[1..]);
    }
  }

  /** The round trip for a stream that arrives in separate reads. */
  lemma {:induction false} FramingRoundTripInChunks(items: seq<Item>, chunks: seq<seq<byte>>)
    requires AllSendable(items) && Join(chunks) == WireAll(items)
    ensures EventsOfChunks(IDLE, chunks) == SentAll(items)
  {
    FramingRoundTrip(items);
    ChunksJoin(IDLE, chunks);
  }

  function Join(chunks: seq<seq<byte>>): seq<byte> {
    if chunks == [] then [] else chunks[0] + Join(chunks[1..])
  }

  function EventsOfChunks(l: Lexer, chunks: seq<seq<byte>>): seq<Event>
    requires l.Valid()
    decreases |chunks|
  {
    if chunks == [] then [] else Events(l, chunks[0]) + EventsOfChunks(Feed(l, chunks[0]), chunks[1..])
  }

  lemma {:induction false} ChunksJoin(l: Lexer, chunks: seq<seq<byte>>)
    requires l.Valid()
    ensures EventsOfChunks(l, chunks) == Events(l, Join(chunks))
    decreases |chunks|
  {
    if chunks != [] {
      FeedAppend(l, chunks[0], Join(chunks[1..]));
      ChunksJoin(Feed(l, chunks[0]), chunks[1..]);
    }
  }
}
