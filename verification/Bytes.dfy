/** Byte memory as the code sees it: a flat sequence of bytes in which 32-bit words are stored
    little-endian, plus the Option type the other modules share. */
module Bytes {
  datatype Option<+T> = None | Some(value: T)

  type Byte = b: int | 0 <= b < 256
  type Word32 = w: int | 0 <= w < 0x1_0000_0000

  /** The value of four bytes, least significant first. */
  function Join(b0: Byte, b1: Byte, b2: Byte, b3: Byte): (w: Word32) {
    var v0: int, v1: int, v2: int, v3: int := b0, b1, b2, b3;
    v0 + 0x100 * (v1 + 0x100 * (v2 + 0x100 * v3))
  }

  /** The 32-bit word stored at byte offset o. */
  function Word(m: seq<Byte>, o: nat): (w: Word32)
    requires o + 4 <= |m|
  {
    Join(m[o], m[o + 1], m[o + 2], m[o + 3])
  }

  /** The memory after storing word w at byte offset o. */
  function SetWord(m: seq<Byte>, o: nat, w: Word32): (r: seq<Byte>)
    requires o + 4 <= |m|
    ensures |r| == |m| && Word(r, o) == w
    ensures forall i :: 0 <= i < |m| && !(o <= i < o + 4) ==> r[i] == m[i]
  {
    var v1 := w / 0x100;
    var v2 := v1 / 0x100;
    var v3 := v2 / 0x100;
    m[o := w % 0x100][o + 1 := v1 % 0x100][o + 2 := v2 % 0x100][o + 3 := v3]
  }

  /** The two memories agree on the byte range [lo, hi). */
  ghost predicate Agree(m: seq<Byte>, m': seq<Byte>, lo: nat, hi: nat) {
    && |m| == |m'|
    && hi <= |m|
    && forall i :: lo <= i < hi ==> m[i] == m'[i]
  }
}
