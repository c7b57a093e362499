/** Bytes and 16-bit words as the 6502 and the Go host hold them, with every wrap-around written out. */
module Bytes {
  type byte = b: int | 0 <= b < 0x100
  type word = w: int | 0 <= w < 0x1_0000

  /** Bytes in a disk block. */
  const BLOCK_SIZE: nat := 512

  function Low(w: word): byte { w % 0x100 }

  function High(w: word): byte { w / 0x100 }

  function WordOf(hi: byte, lo: byte): (w: word)
    ensures High(w) == hi && Low(w) == lo
  {
    hi * 0x100 + lo
  }

  lemma WordParts(w: word)
    ensures WordOf(High(w), Low(w)) == w
  {}

  lemma Associate<T>(x: seq<T>, y: seq<T>, z: seq<T>)
    ensures x + (y + z) == (x + y) + z
  {}

  /** `data` laid over `s` from index `at` on. */
  function Splice<T>(s: seq<T>, at: nat, data: seq<T>): (r: seq<T>)
    requires at + |data| <= |s|
    ensures |r| == |s|
    ensures forall i :: 0 <= i < |s| ==> r[i] == if at <= i < at + |data| then data[i - at] else s[i]
  {
    s[..at] + data + s[at + |data|..]
  }
}
