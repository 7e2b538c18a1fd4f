/** The packet stream format: an 8-byte header whose first two bytes are the big-endian length of
    header plus body. A plain parser of a whole stream, against which the server's incremental
    reassembly is proved. */
module PacketParser {
  import opened Bytes

  const HEADER_LEN: nat := 8
  const MAX_LEN: nat := 30000 - 1000

  type Packet = seq<Byte>

  /** The length field, in network byte order. */
  function PkgLen(s: seq<Byte>): nat
    requires |s| >= 2
  {
    var hi: int := s[0];
    0x100 * hi + s[1]
  }

  predicate BadLen(n: nat) {
    n < HEADER_LEN || n > MAX_LEN
  }

  datatype Parsed = Parsed(packets: seq<Packet>, rest: seq<Byte>)

  /** How many bytes the first frame of the stream takes: 8 for a header with a bad length, the
      whole packet otherwise, 0 while it is incomplete. */
  function FrameLen(s: seq<Byte>): (n: nat)
    ensures n <= |s| && (n > 0 ==> n >= HEADER_LEN)
  {
    if |s| < HEADER_LEN then 0
    else if BadLen(PkgLen(s)) then HEADER_LEN
    else if |s| < PkgLen(s) then 0
    else PkgLen(s)
  }

  /** The complete packets at the front of the stream and the bytes left over. A header with a bad
      length is skipped: exactly its 8 bytes are dropped. */
  function Parse(s: seq<Byte>): Parsed
    decreases |s|
  {
    var n := FrameLen(s);
    if n == 0 then Parsed([], s)
    else
      var tail := Parse(s[n..]);
      if BadLen(PkgLen(s)) then tail else Parsed([s[..n]] + tail.packets, tail.rest)
  }

  /** Parsing is insensitive to how the stream is cut: what was left over from the first part goes
      in front of the second. */
  lemma {:induction false} ParseAppend(s: seq<Byte>, t: seq<Byte>)
    ensures Parse(s + t).packets == Parse(s).packets + Parse(Parse(s).rest + t).packets
    ensures Parse(s + t).rest == Parse(Parse(s).rest + t).rest
    decreases |s|
  {
    hide *;
    if FrameLen(s) == 0 {
      ParseIncomplete(s);
    } else {
      FrameLenAppend(s, t);
      ParseFrame(s);
      ParseFrame(s + t);
      ParseAppend(s[FrameLen(s)..], t);
    }
  }

  lemma FrameLenAppend(s: seq<Byte>, t: seq<Byte>)
    requires FrameLen(s) > 0
    ensures FrameLen(s + t) == FrameLen(s) && PkgLen(s + t) == PkgLen(s)
    ensures (s + t)[FrameLen(s)..] == s[FrameLen(s)..] + t
    ensures (s + t)[..FrameLen(s)] == s[..FrameLen(s)]
  {
  }

  lemma ParseIncomplete(s: seq<Byte>)
    requires FrameLen(s) == 0
    ensures Parse(s) == Parsed([], s)
  {
  }

  lemma ParseFrame(s: seq<Byte>)
    requires FrameLen(s) > 0
    ensures Parse(s).rest == Parse(s[FrameLen(s)..]).rest
    ensures Parse(s).packets ==
            (if BadLen(PkgLen(s)) then [] else [s[..FrameLen(s)]]) + Parse(s[FrameLen(s)..]).packets
  {
  }

  /** The left-over bytes hold no complete packet and no bad header. */
  lemma {:induction false} RestIsIncomplete(s: seq<Byte>)
    ensures FrameLen(Parse(s).rest) == 0
    decreases |s|
  {
    if FrameLen(s) > 0 {
      RestIsIncomplete(s[FrameLen(s)..]);
    }
  }

  /** A packet as a well-behaved client sends it. */
  predicate WellFormed(p: Packet) {
    |p| >= HEADER_LEN && |p| == PkgLen(p) && |p| <= MAX_LEN
  }

  function Concat(ps: seq<Packet>): seq<Byte> {
    if ps == [] then [] else ps[0] + Concat(ps[1..])
  }

  lemma WellFormedIs(p: Packet)
    ensures WellFormed(p) <==> 8 <= |p| <= 29000 && 256 * p[0] as int + p[1] as int == |p|
  {
  }

  /** The format: two length bytes, the higher first, that name a length from 8 to 29000, and as many bytes
      with them, are one packet, whatever these are and whatever follows. */
  lemma OnePacket(n: nat, h: seq<Byte>, b: seq<Byte>, t: seq<Byte>)
    requires 8 <= n <= 29000 && |h| == 6 && |b| == n - 8
    ensures var p: Packet := [n / 256, n % 256] + h + b;
      Parse(p + t) == Parsed([p] + Parse(t).packets, Parse(t).rest)
  {
    var p: Packet := [n / 256, n % 256] + h + b;
    var s := p + t;
    assert |p| == n && s[0] == n / 256 && s[1] == n % 256;
    assert PkgLen(s) == n && FrameLen(s) == n;
    assert s[..n] == p && s[n..] == t;
  }

  /** Any other length costs the stream the 8 bytes of its header. */
  lemma NoPacket(n: nat, h: seq<Byte>, t: seq<Byte>)
    requires (n < 8 || 29000 < n < 65536) && |h| == 6
    ensures var header: seq<Byte> := [n / 256, n % 256] + h; Parse(header + t) == Parse(t)
  {
    var header: seq<Byte> := [n / 256, n % 256] + h;
    var s := header + t;
    assert s[0] == n / 256 && s[1] == n % 256;
    assert PkgLen(s) == n && FrameLen(s) == 8;
    assert s[8..] == t;
  }

  /** Round trip: a stream of well-formed packets parses back to exactly those packets. */
  lemma {:induction false} ParseConcat(ps: seq<Packet>)
    requires forall p :: p in ps ==> 8 <= |p| <= 29000 && 256 * p[0] as int + p[1] as int == |p|
    ensures Parse(Concat(ps)) == Parsed(ps, [])
    decreases |ps|
  {
    if ps != [] {
      var s := Concat(ps);
      var n := |ps[0]|;
      assert ps[0] in ps && s == ps[0] + Concat(ps[1..]);
      assert PkgLen(s) == n;
      assert s[..n] == ps[0] && s[n..] == Concat(ps[1..]);
      ParseConcat(ps[1..]);
    }
  }

  /** Every packet the parser yields has between 8 and 29000 bytes, as its first two bytes say. */
  lemma {:induction false} ParsedAreWellFormed(s: seq<Byte>)
    ensures forall p :: p in Parse(s).packets ==> 8 <= |p| <= 29000 && 256 * p[0] as int + p[1] as int == |p|
    decreases |s|
  {
    if FrameLen(s) > 0 {
      ParsedAreWellFormed(s[FrameLen(s)..]);
    }
  }
}
