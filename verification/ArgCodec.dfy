/** How a log call packs its arguments behind the timestamp into a message's payload, and how the
    background thread unpacks them. */
module ArgCodec {
  import opened Bytes
  import opened RingMachine

  const NUL: Byte := 0

  /** An argument of a log call: a C string (the memory it points to), a string with a length, a
      fixed-size value (its bytes), or one of these under a name. */
  datatype Arg = CStr(mem: seq<Byte>) | Str(s: seq<Byte>) | Fixed(bytes: seq<Byte>) | Named(name: string, arg: Arg)

  /** What the unpacking code knows of an argument: its type. */
  datatype ArgType = Text | Sized(n: nat) | NamedType(t: ArgType)

  datatype Value = TextValue(s: seq<Byte>) | RawValue(bytes: seq<Byte>)

  /** `strlen` from offset at; None when no NUL follows. */
  function StrLen(m: seq<Byte>, at: nat): (n: Option<nat>)
    ensures n.Some? ==> at + n.value < |m| && m[at + n.value] == NUL && NUL !in m[at..at + n.value]
    ensures n.None? && at <= |m| ==> NUL !in m[at..]
    decreases |m| - at
  {
    if at >= |m| then None
    else if m[at] == NUL then Some(0)
    else
      match StrLen(m, at + 1)
      case None => assert m[at..] == [m[at]] + m[at + 1..]; None
      case Some(k) => assert m[at..at + 1 + k] == [m[at]] + m[at + 1..at + 1 + k]; Some(1 + k)
  }

  /** The argument behind its name, if it has one. */
  function Unnamed(a: Arg): (r: Arg)
    ensures !r.Named?
  {
    if a.Named? then Unnamed(a.arg) else a
  }

  function UnnamedType(t: ArgType): (r: ArgType)
    ensures !r.NamedType?
  {
    if t.NamedType? then UnnamedType(t.t) else t
  }

  /** A C string points to NUL-terminated memory. */
  predicate ValidArg(a: Arg) {
    Unnamed(a).CStr? ==> StrLen(Unnamed(a).mem, 0).Some?
  }

  predicate ValidArgs(args: seq<Arg>) {
    forall a :: a in args ==> ValidArg(a)
  }

  function TypeOf(a: Arg): ArgType {
    match a
    case CStr(_) => Text
    case Str(_) => Text
    case Fixed(bytes) => Sized(|bytes|)
    case Named(_, b) => NamedType(TypeOf(b))
  }

  /** What the log call meant to print. */
  function ValueOf(a: Arg): Value
    requires ValidArg(a)
  {
    match Unnamed(a)
    case CStr(mem) => TextValue(mem[..StrLen(mem, 0).value])
    case Str(s) => TextValue(s)
    case Fixed(bytes) => RawValue(bytes)
  }

  function Types(args: seq<Arg>): seq<ArgType> {
    if args == [] then [] else [TypeOf(args[0])] + Types(args[1..])
  }

  function Values(args: seq<Arg>): seq<Value>
    requires ValidArgs(args)
  {
    if args == [] then [] else [ValueOf(args[0])] + Values(args[1..])
  }

  // ---------- Packing ----------

  /** The total size and, in order, the recorded sizes of the C strings. */
  datatype Sizes = Sizes(total: nat, cstring: seq<nat>)

  function GetArgSizes(args: seq<Arg>): Sizes
    requires ValidArgs(args)
  {
    if args == [] then Sizes(0, [])
    else
      var rest := GetArgSizes(args[1..]);
      assert ValidArg(args[0]);
      match Unnamed(args[0])
      case CStr(mem) =>
        var len := StrLen(mem, 0).value + 1;
        Sizes(len + rest.total, [len] + rest.cstring)
      case Str(s) => Sizes(|s| + 1 + rest.total, rest.cstring)
      case Fixed(bytes) => Sizes(|bytes| + rest.total, rest.cstring)
  }

  /** The bytes packed for the arguments, given the recorded sizes of the C strings. */
  function EncodeArgs(cstring: seq<nat>, args: seq<Arg>): seq<Byte>
    requires ValidArgs(args) && cstring == GetArgSizes(args).cstring
  {
    if args == [] then []
    else
      match Unnamed(args[0])
      case CStr(mem) =>
        assert ValidArg(args[0]);
        mem[..cstring[0]] + EncodeArgs(cstring[1..], args[1..])
      case Str(s) => s + [NUL] + EncodeArgs(cstring, args[1..])
      case Fixed(bytes) => bytes + EncodeArgs(cstring, args[1..])
  }

  function Packed(args: seq<Arg>): seq<Byte>
    requires ValidArgs(args)
  {
    EncodeArgs(GetArgSizes(args).cstring, args)
  }

  /** What one argument contributes. */
  function PackedOne(a: Arg): seq<Byte>
    requires ValidArg(a)
  {
    match Unnamed(a)
    case CStr(mem) => mem[..StrLen(mem, 0).value + 1]
    case Str(s) => s + [NUL]
    case Fixed(bytes) => bytes
  }

  lemma PackedCons(args: seq<Arg>)
    requires ValidArgs(args) && args != []
    ensures ValidArg(args[0]) && ValidArgs(args[1..])
    ensures Packed(args) == PackedOne(args[0]) + Packed(args[1..])
    ensures GetArgSizes(args).total == |PackedOne(args[0])| + GetArgSizes(args[1..]).total
  {
    assert ValidArg(args[0]);
    if Unnamed(args[0]).CStr? {
      assert GetArgSizes(args).cstring[1..] == GetArgSizes(args[1..]).cstring;
    }
  }

  /** The space asked of the queue is exactly what packing fills. */
  lemma {:induction false} PackedSize(args: seq<Arg>)
    requires ValidArgs(args)
    ensures |Packed(args)| == GetArgSizes(args).total
  {
    if args != [] {
      PackedCons(args);
      PackedSize(args[1..]);
    }
  }

  /** What each kind of argument means and how it is packed: C memory up to its NUL, the characters of a
      string, a value's bytes; a name changes nothing. */
  lemma ArgumentsMean(n: nat, mem: seq<Byte>, s: seq<Byte>, bytes: seq<Byte>, name: string, a: Arg)
    requires n < |mem| && mem[n] == NUL && NUL !in mem[..n] && ValidArg(a)
    ensures ValidArg(CStr(mem)) && ValueOf(CStr(mem)) == TextValue(mem[..n]) && PackedOne(CStr(mem)) == mem[..n] + [NUL]
    ensures ValueOf(Str(s)) == TextValue(s) && PackedOne(Str(s)) == s + [NUL]
    ensures ValueOf(Fixed(bytes)) == RawValue(bytes) && PackedOne(Fixed(bytes)) == bytes
    ensures ValidArg(Named(name, a)) && ValueOf(Named(name, a)) == ValueOf(a)
            && PackedOne(Named(name, a)) == PackedOne(a)
  {
    assert mem[0..0 + n] == mem[..n];
    StrLenIs(mem, 0, n);
  }

  // ---------- Unpacking ----------

  datatype Step = Step(value: Value, next: nat)
  datatype Decoded = Decoded(values: seq<Value>, end: nat)

  /** The value of one argument at offset pos of memory m, and where the next one starts; None if
      reading it would run past the memory. */
  function DecodeOne(t: ArgType, m: seq<Byte>, pos: nat): Option<Step> {
    match UnnamedType(t)
    case Text =>
      (match StrLen(m, pos)
       case None => None
       case Some(size) => Some(Step(TextValue(m[pos..pos + size]), pos + size + 1)))
    case Sized(n) =>
      if pos + n > |m| then None else Some(Step(RawValue(m[pos..pos + n]), pos + n))
  }

  /** The values found from offset pos on, and where unpacking stopped. */
  function DecodeArgs(types: seq<ArgType>, m: seq<Byte>, pos: nat): Option<Decoded> {
    if types == [] then Some(Decoded([], pos))
    else
      match DecodeOne(types[0], m, pos)
      case None => None
      case Some(Step(v, next)) =>
        (match DecodeArgs(types[1..], m, next)
         case None => None
         case Some(Decoded(vs, end)) => Some(Decoded([v] + vs, end)))
  }

  /** No string with a length has a NUL among its characters. */
  predicate NulFreeArg(a: Arg) {
    Unnamed(a).Str? ==> NUL !in Unnamed(a).s
  }

  predicate NulFree(args: seq<Arg>) {
    forall a :: a in args ==> NulFreeArg(a)
  }

  lemma {:induction false} TypeUnnamed(a: Arg)
    ensures UnnamedType(TypeOf(a)) == TypeOf(Unnamed(a))
  {
    if a.Named? {
      TypeUnnamed(a.arg);
    }
  }

  /** The first NUL at or after at is where it is, whatever surrounds it. */
  lemma {:induction false} StrLenIs(m: seq<Byte>, at: nat, n: nat)
    requires at + n < |m| && m[at + n] == NUL && NUL !in m[at..at + n]
    ensures StrLen(m, at) == Some(n)
    decreases n
  {
    if n > 0 {
      assert m[at] == m[at..at + n][0];
      assert m[at + 1..at + n] == m[at..at + n][1..];
      StrLenIs(m, at + 1, n - 1);
    }
  }

  lemma DecodeCStr(mem: seq<Byte>, pre: seq<Byte>, post: seq<Byte>)
    requires StrLen(mem, 0).Some?
    ensures var n := StrLen(mem, 0).value;
      DecodeOne(Text, pre + mem[..n + 1] + post, |pre|) == Some(Step(TextValue(mem[..n]), |pre| + n + 1))
  {
    var n := StrLen(mem, 0).value;
    var m := pre + mem[..n + 1] + post;
    assert m[|pre|..|pre| + n] == mem[..n] == mem[0..0 + n];
    assert m[|pre| + n] == mem[n];
    StrLenIs(m, |pre|, n);
  }

  lemma DecodeStr(s: seq<Byte>, pre: seq<Byte>, post: seq<Byte>)
    ensures var d := DecodeOne(Text, pre + (s + [NUL]) + post, |pre|);
      d.Some? && if NUL in s then d.value.value != TextValue(s)
                 else d.value == Step(TextValue(s), |pre| + |s| + 1)
  {
    var m := pre + (s + [NUL]) + post;
    var k := if NUL in s then FirstNul(s) else |s|;
    assert m[|pre|..|pre| + k] == s[..k];
    assert m[|pre| + k] == NUL;
    assert NUL !in s[..k];
    StrLenIs(m, |pre|, k);
    assert k == |s| ==> s[..k] == s;
  }

  /** Unpacking one argument yields its value and steps over exactly its bytes, unless it is a
      string with a NUL inside: then the text found is another one. */
  lemma DecodePackedOne(a: Arg, pre: seq<Byte>, post: seq<Byte>)
    requires ValidArg(a)
    ensures var d := DecodeOne(TypeOf(a), pre + PackedOne(a) + post, |pre|);
      d.Some? && if NulFreeArg(a) then d.value == Step(ValueOf(a), |pre| + |PackedOne(a)|)
                 else d.value.value != ValueOf(a)
  {
    hide DecodeOne, StrLen;
    TypeUnnamed(a);
    DecodeByType(TypeOf(a), pre + PackedOne(a) + post, |pre|);
    hide Unnamed, UnnamedType;
    match Unnamed(a)
    case CStr(mem) =>
      DecodeCStr(mem, pre, post);
    case Str(s) =>
      DecodeStr(s, pre, post);
    case Fixed(bytes) =>
      DecodeFixed(bytes, pre, post);
  }

  lemma DecodeFixed(bytes: seq<Byte>, pre: seq<Byte>, post: seq<Byte>)
    ensures DecodeOne(Sized(|bytes|), pre + bytes + post, |pre|) == Some(Step(RawValue(bytes), |pre| + |bytes|))
  {
    assert (pre + bytes + post)[|pre|..|pre| + |bytes|] == bytes;
  }

  lemma DecodeByType(t: ArgType, m: seq<Byte>, pos: nat)
    ensures DecodeOne(t, m, pos) == DecodeOne(UnnamedType(t), m, pos)
  {
  }

  ghost function FirstNul(s: seq<Byte>): (k: nat)
    requires NUL in s
    ensures k < |s| && s[k] == NUL && NUL !in s[..k]
  {
    if s[0] == NUL then 0
    else
      var k := 1 + FirstNul(s[1..]);
      assert s[..k] == [s[0]] + s[1..][..k - 1];
      k
  }

  lemma DecodeCons(args: seq<Arg>, m: seq<Byte>, pos: nat)
    requires args != []
    ensures DecodeArgs(Types(args), m, pos) ==
      match DecodeOne(TypeOf(args[0]), m, pos)
      case None => None
      case Some(Step(v, next)) =>
        match DecodeArgs(Types(args[1..]), m, next)
        case None => None
        case Some(Decoded(vs, end)) => Some(Decoded([v] + vs, end))
  {
    assert Types(args)[1..] == Types(args[1..]);
  }

  lemma NulFreeCons(args: seq<Arg>)
    requires args != []
    ensures NulFree(args) <==> NulFreeArg(args[0]) && NulFree(args[1..])
  {
    assert args == [args[0]] + args[1..];
  }

  /** Round trip: unpacking what was packed, wherever it lies in memory, yields the arguments' values
      and stops exactly where packing stopped - for all argument lists, if and only if no string
      with a length has a NUL among its characters. */
  lemma {:induction false} DecodeEncode(args: seq<Arg>, pre: seq<Byte>, post: seq<Byte>)
    requires ValidArgs(args)
    ensures DecodeArgs(Types(args), pre + Packed(args) + post, |pre|)
            == Some(Decoded(Values(args), |pre| + |Packed(args)|))
            <==> NulFree(args)
    decreases |args|
  {
    hide *;
    if args == [] {
      DecodeNothing(pre + Packed(args) + post, |pre|);
    } else {
      var a, rest := args[0], args[1..];
      PackedCons(args);
      NulFreeCons(args);
      ValuesCons(args);
      DecodePackedOne(a, pre, Packed(rest) + post);
      var m := pre + Packed(args) + post;
      assert m == pre + PackedOne(a) + (Packed(rest) + post);
      assert m == (pre + PackedOne(a)) + Packed(rest) + post;
      DecodeCons(args, m, |pre|);
      DecodeEncode(rest, pre + PackedOne(a), post);
      forall v, vs: seq<Value>
        ensures [v] + vs == [ValueOf(a)] + Values(rest) <==> v == ValueOf(a) && vs == Values(rest)
      {
        ConsInjective(v, vs, ValueOf(a), Values(rest));
      }
    }
  }

  lemma ConsInjective(v: Value, vs: seq<Value>, w: Value, ws: seq<Value>)
    ensures [v] + vs == [w] + ws <==> v == w && vs == ws
  {
    if [v] + vs == [w] + ws {
      assert ([v] + vs)[0] == ([w] + ws)[0] && ([v] + vs)[1..] == ([w] + ws)[1..];
      assert vs == ([v] + vs)[1..] && ws == ([w] + ws)[1..];
    }
  }

  /** A string argument with a NUL inside does not come back. */
  lemma NulInStringExample()
    ensures var args := [Str([65, NUL, 66])];
      && ValidArgs(args)
      && DecodeArgs(Types(args), [] + Packed(args) + [], 0) != Some(Decoded(Values(args), |Packed(args)|))
  {
    var args := [Str([65, NUL, 66])];
    assert args[0] in args && !NulFreeArg(args[0]);
    DecodeEncode(args, [], []);
  }

  lemma DecodeNothing(m: seq<Byte>, pos: nat)
    ensures DecodeArgs(Types([]), m, pos) == Some(Decoded(Values([]), pos))
    ensures Packed([]) == [] && NulFree([])
  {
  }

  lemma ValuesCons(args: seq<Arg>)
    requires ValidArgs(args) && args != []
    ensures ValidArg(args[0]) && ValidArgs(args[1..])
    ensures Values(args) == [ValueOf(args[0])] + Values(args[1..])
  {
  }

  // ---------- A whole log call ----------

  type Tsc = t: int | -0x8000_0000_0000_0000 <= t < 0x8000_0000_0000_0000

  /** The n low-order bytes of v, least significant first. */
  function LeBytes(v: nat, n: nat): (b: seq<Byte>)
    ensures |b| == n
  {
    if n == 0 then [] else [v % 256] + LeBytes(v / 256, n - 1)
  }

  function FromLe(b: seq<Byte>): nat {
    if b == [] then 0
    else
      var low: int := b[0];
      low + 256 * FromLe(b[1..])
  }

  function Pow256(n: nat): nat {
    if n == 0 then 1 else 256 * Pow256(n - 1)
  }

  lemma {:induction false} FromLeBytes(v: nat, n: nat)
    requires v < Pow256(n)
    ensures FromLe(LeBytes(v, n)) == v
  {
    if n > 0 {
      FromLeBytes(v / 256, n - 1);
      assert LeBytes(v, n)[1..] == LeBytes(v / 256, n - 1);
    }
  }

  /** A 64-bit timestamp in two's complement. */
  function EncodeTsc(t: Tsc): seq<Byte> {
    LeBytes(if t < 0 then t + 0x1_0000_0000_0000_0000 else t, 8)
  }

  function DecodeTsc(b: seq<Byte>): int {
    var v := FromLe(b);
    if v < 0x8000_0000_0000_0000 then v else v - 0x1_0000_0000_0000_0000
  }

  lemma TscRoundTrip(t: Tsc)
    ensures DecodeTsc(EncodeTsc(t)) == t
  {
    assert Pow256(8) == 0x1_0000_0000_0000_0000 by {
      assert Pow256(2) == 0x1_0000 && Pow256(4) == 0x1_0000_0000 && Pow256(6) == 0x1_0000_0000_0000;
    }
    FromLeBytes(if t < 0 then t + 0x1_0000_0000_0000_0000 else t, 8);
  }

  /** What `log` writes behind the header: the timestamp, then the arguments. */
  function Payload(t: Tsc, args: seq<Arg>): seq<Byte>
    requires ValidArgs(args)
  {
    EncodeTsc(t) + Packed(args)
  }

  /** The size `log` asks `alloc` for is the number of bytes it then writes. */
  lemma AllocatedIsWritten(t: Tsc, args: seq<Arg>)
    requires ValidArgs(args)
    ensures |Payload(t, args)| == 8 + GetArgSizes(args).total
  {
    PackedSize(args);
  }

  /** End to end: in every interleaving, when the poller holds a message in the ring, reading the
      timestamp and unpacking the arguments in place yields what the log call was given and ends
      exactly at the end of the message. */
  lemma HeldMessageDecodes(s: State, t: Tsc, args: seq<Arg>)
    requires Reachable(s) && (s.c.Hold? || s.c.Popping?)
    requires ValidArgs(args) && NulFree(args)
    requires |s.popped| < |s.pushed| && s.pushed[|s.popped|].payload == Payload(t, args)
    ensures 8 * s.r + 16 <= |s.mem| && 16 <= Word(s.mem, 8 * s.r)
    ensures DecodeTsc(s.mem[8 * s.r + 8..8 * s.r + 16]) == t
    ensures DecodeArgs(Types(args), s.mem, 8 * s.r + 16)
            == Some(Decoded(Values(args), 8 * s.r + Word(s.mem, 8 * s.r)))
  {
    hide *;
    HeldPayload(s);
    PayloadDecodes(s.mem, 8 * s.r, Word(s.mem, 8 * s.r), t, args);
  }

  lemma PayloadDecodes(m: seq<Byte>, from: nat, size: nat, t: Tsc, args: seq<Arg>)
    requires ValidArgs(args) && NulFree(args)
    requires 8 <= size && from + size <= |m| && m[from + 8..from + size] == Payload(t, args)
    ensures from + 16 <= from + size && DecodeTsc(m[from + 8..from + 16]) == t
    ensures DecodeArgs(Types(args), m, from + 16) == Some(Decoded(Values(args), from + size))
  {
    hide DecodeArgs, Types, Values, Packed, NulFree, ValidArgs, DecodeTsc, LeBytes;
    var payload := m[from + 8..from + size];
    assert |payload| == 8 + |Packed(args)|;
    assert m[from + 8..from + 16] == payload[..8] == EncodeTsc(t);
    TscRoundTrip(t);
    assert payload[8..] == Packed(args);
    assert m == m[..from + 16] + Packed(args) + m[from + size..];
    DecodeEncode(args, m[..from + 16], m[from + size..]);
  }
}
