/** The single-producer/single-consumer ring of variable-length messages, as a state machine in
    which every turn of a thread makes one access to shared memory. */
module RingMachine {
  import opened Bytes

  /** Number of 8-byte blocks in the ring. */
  const BLK_CNT: nat := 131072

  datatype RawMsg = Msg(logId: Word32, payload: seq<Byte>)

  /** A message whose rounded-up size fits 32 bits. */
  type Msg = m: RawMsg | |m.payload| + 15 < 0x1_0000_0000 witness RawMsg.Msg(0, [])

  /** Blocks taken by the 8-byte header and the payload. */
  function Blocks(m: Msg): nat {
    (|m.payload| + 8 + 7) / 8
  }

  /** Where the producer stands inside `alloc`, the payload writes and `push`. */
  datatype Producer =
    | Ready
    | Load(msg: Msg)                    // about to read the consumer's index
    | ZeroFirst(msg: Msg, cache: nat)   // about to clear the size of block 0
    | Mark(msg: Msg, cache: nat)        // about to store the wrap marker
    | Reserve(msg: Msg)                 // about to clear the size after the reserved blocks
    | Fill(msg: Msg, at: nat, done: nat) // reserved at block `at`; `done` of its writes are made

  /** Where the consumer stands inside `front`, the reading of a message and `pop`. */
  datatype Consumer =
    | Idle
    | Wrap               // read a marker, about to reset the read index
    | Reload             // about to read the size of block 0
    | Hold               // `front` returned the block at the read index
    | Popping(size: nat) // `pop` has read the size, about to advance the read index

  datatype State = State(mem: seq<Byte>, w: nat, f: nat, r: nat, p: Producer, c: Consumer,
                         pushed: seq<Msg>, popped: seq<RawMsg>)

  function Init(): State {
    State(seq(8 * BLK_CNT, _ => 0), 0, BLK_CNT, 0, Ready, Idle, [], [])
  }

  /** The message a reader finds at block b. */
  function ReadMsg(mem: seq<Byte>, b: nat): RawMsg
    requires 8 * b + 8 <= |mem| && 8 <= Word(mem, 8 * b) && 8 * b + Word(mem, 8 * b) <= |mem|
  {
    RawMsg.Msg(Word(mem, 8 * b + 4), mem[8 * b + 8..8 * b + Word(mem, 8 * b)])
  }

  /** The next access of either thread stays inside the ring and its private counters do not
      underflow. */
  ghost predicate InBounds(s: State) {
    && |s.mem| == 8 * BLK_CNT
    && s.w < BLK_CNT
    && s.r < BLK_CNT
    && (s.p.Reserve? ==> Blocks(s.p.msg) <= s.f && s.w + Blocks(s.p.msg) < BLK_CNT)
    && (s.p.Fill? ==> s.p.at + Blocks(s.p.msg) <= BLK_CNT)
    && (s.c.Hold? || s.c.Popping? ==>
          8 <= Word(s.mem, 8 * s.r) && 8 * s.r + Word(s.mem, 8 * s.r) <= |s.mem|)
  }

  /** After the free count has been refreshed `alloc` either gives up or reserves. */
  function Decide(f: nat, m: Msg): Producer {
    if f <= Blocks(m) then Ready else Reserve(m)
  }

  /** One turn of the producer; `next` is the message it logs when it starts a new call. */
  ghost function ProducerTurn(s: State, next: Msg): State
    requires InBounds(s)
  {
    match s.p
    case Ready =>
      if Blocks(next) >= s.f then s.(p := Load(next)) else s.(p := Reserve(next))
    case Load(m) =>
      if s.r <= s.w then
        var f := BLK_CNT - s.w;
        if Blocks(m) >= f && s.r != 0 then
          s.(f := f, p := ZeroFirst(m, s.r))
        else
          s.(f := f, p := Decide(f, m))
      else
        s.(f := s.r - s.w, p := Decide(s.r - s.w, m))
    case ZeroFirst(m, cache) =>
      s.(mem := SetWord(s.mem, 0, 0), p := Mark(m, cache))
    case Mark(m, cache) =>
      s.(mem := SetWord(s.mem, 8 * s.w, 1), w := 0, f := cache, p := Decide(cache, m))
    case Reserve(m) =>
      s.(mem := SetWord(s.mem, 8 * (s.w + Blocks(m)), 0),
         w := s.w + Blocks(m), f := s.f - Blocks(m), p := Fill(m, s.w, 0))
    case Fill(m, at, done) =>
      if done == 0 then
        s.(mem := SetWord(s.mem, 8 * at + 4, m.logId), p := Fill(m, at, 1))
      else if done <= |m.payload| then
        s.(mem := s.mem[8 * at + 7 + done := m.payload[done - 1]], p := Fill(m, at, done + 1))
      else
        s.(mem := SetWord(s.mem, 8 * at, |m.payload| + 8), p := Ready, pushed := s.pushed + [m])
  }

  /** One turn of the consumer. */
  ghost function ConsumerTurn(s: State): State
    requires InBounds(s)
  {
    match s.c
    case Idle =>
      var size := Word(s.mem, 8 * s.r);
      s.(c := if size == 1 then Wrap else if size == 0 then Idle else Hold)
    case Wrap =>
      s.(r := 0, c := Reload)
    case Reload =>
      s.(c := if Word(s.mem, 0) == 0 then Idle else Hold)
    case Hold =>
      s.(c := Popping(Word(s.mem, 8 * s.r)))
    case Popping(size) =>
      s.(r := s.r + (size + 7) / 8, c := Idle, popped := s.popped + [ReadMsg(s.mem, s.r)])
  }

  ghost predicate Next(s: State, s': State) {
    InBounds(s) && ((exists m: Msg :: s' == ProducerTurn(s, m)) || s' == ConsumerTurn(s))
  }

  /** A run of any length from the empty ring, whichever thread the scheduler picks each time. */
  ghost predicate IsRun(run: seq<State>) {
    && |run| > 0
    && run[0] == Init()
    && forall i :: 0 <= i < |run| - 1 ==> Next(run[i], run[i + 1])
  }

  // ---------- The invariant ----------

  /** How the unpopped messages lie in the ring: `near` from the read index up to the producer or
      up to the wrap marker, `far` from block 0 up to the producer once it has wrapped. */
  datatype Layout = Layout(near: seq<Msg>, far: seq<Msg>, mark: Option<nat>)

  /** Message m, with its size pushed, occupies the blocks from b on. */
  ghost predicate Encodes(mem: seq<Byte>, b: nat, m: Msg) {
    && 8 * (b + Blocks(m)) <= |mem|
    && Word(mem, 8 * b) == |m.payload| + 8
    && Word(mem, 8 * b + 4) == m.logId
    && mem[8 * b + 8..8 * b + 8 + |m.payload|] == m.payload
  }

  /** The messages fill the blocks [lo, hi) one after the other without gap or overlap. */
  ghost predicate Tiles(mem: seq<Byte>, ms: seq<Msg>, lo: nat, hi: nat) {
    if ms == [] then lo == hi
    else Encodes(mem, lo, ms[0]) && Tiles(mem, ms[1..], lo + Blocks(ms[0]), hi)
  }

  /** The block at which the next message will appear to the consumer. */
  function Tail(s: State): nat {
    if s.p.Fill? then s.p.at else s.w
  }

  ghost predicate Geometry(s: State, g: Layout) {
    match g.mark
    case None =>
      && g.far == []
      && s.r <= Tail(s)
      && s.w + s.f <= BLK_CNT
      && Tiles(s.mem, g.near, s.r, Tail(s))
    case Some(e) =>
      && |s.mem| == 8 * BLK_CNT
      && s.r <= e < BLK_CNT
      && s.w + s.f <= s.r
      && Word(s.mem, 8 * e) == 1
      && Tiles(s.mem, g.near, s.r, e)
      && Tiles(s.mem, g.far, 0, Tail(s))
  }

  ghost predicate ProducerInv(s: State, g: Layout)
    requires |s.mem| == 8 * BLK_CNT
  {
    match s.p
    case Ready => true
    case Load(_) => true
    case ZeroFirst(m, cache) => g.mark.None? && 1 <= cache <= s.r
    case Mark(m, cache) => g.mark.None? && 1 <= cache <= s.r && Word(s.mem, 0) == 0
    case Reserve(m) => Blocks(m) < s.f
    case Fill(m, at, done) =>
      && s.w == at + Blocks(m)
      && s.w < BLK_CNT
      && done <= |m.payload| + 1
      && (done > 0 ==> Word(s.mem, 8 * at + 4) == m.logId)
      && (done > 0 ==> s.mem[8 * at + 8..8 * at + 7 + done] == m.payload[..done - 1])
  }

  ghost predicate ConsumerInv(s: State, g: Layout)
    requires |s.mem| == 8 * BLK_CNT && s.r < BLK_CNT
  {
    match s.c
    case Idle => true
    case Wrap => g.mark.Some? && g.near == []
    case Reload => s.r == 0 && g.mark.None?
    case Hold => g.near != []
    case Popping(size) => g.near != [] && size == Word(s.mem, 8 * s.r)
  }

  ghost predicate Inv(s: State, g: Layout) {
    && |s.mem| == 8 * BLK_CNT
    && Tail(s) <= s.w < BLK_CNT
    && s.r < BLK_CNT
    && 1 <= s.f
    && Word(s.mem, 8 * s.w) == 0
    && Word(s.mem, 8 * Tail(s)) == 0
    && Geometry(s, g)
    && s.pushed == s.popped + (g.near + g.far)
    && ProducerInv(s, g)
    && ConsumerInv(s, g)
  }

  // ---------- Tilings ----------

  lemma {:induction false} TilesAgree(mem: seq<Byte>, mem': seq<Byte>, ms: seq<Msg>, lo: nat, hi: nat)
    requires Tiles(mem, ms, lo, hi)
    requires Agree(mem, mem', 8 * lo, 8 * hi)
    ensures Tiles(mem', ms, lo, hi)
    ensures lo <= hi
    decreases |ms|
  {
    hide Join, SetWord;
    if ms != [] {
      var m := ms[0];
      TilesSpan(mem, ms[1..], lo + Blocks(m), hi);
      TilesAgree(mem, mem', ms[1..], lo + Blocks(m), hi);
      assert mem'[8 * lo + 8..8 * lo + 8 + |m.payload|] == mem[8 * lo + 8..8 * lo + 8 + |m.payload|];
    }
  }

  function TotalBlocks(ms: seq<Msg>): nat {
    if ms == [] then 0 else Blocks(ms[0]) + TotalBlocks(ms[1..])
  }

  lemma {:induction false} TilesSpan(mem: seq<Byte>, ms: seq<Msg>, lo: nat, hi: nat)
    requires Tiles(mem, ms, lo, hi)
    ensures hi == lo + TotalBlocks(ms)
    decreases |ms|
  {
    hide Join, SetWord;
    if ms != [] {
      TilesSpan(mem, ms[1..], lo + Blocks(ms[0]), hi);
    }
  }

  lemma {:induction false} TilesSnoc(mem: seq<Byte>, ms: seq<Msg>, lo: nat, hi: nat, m: Msg)
    requires Tiles(mem, ms, lo, hi)
    requires Encodes(mem, hi, m)
    ensures Tiles(mem, ms + [m], lo, hi + Blocks(m))
    decreases |ms|
  {
    hide Join, SetWord, Encodes;
    if ms == [] {
      assert (ms + [m])[1..] == [];
    } else {
      TilesSnoc(mem, ms[1..], lo + Blocks(ms[0]), hi, m);
      assert (ms + [m])[1..] == ms[1..] + [m];
    }
  }

  lemma ReadEncoded(mem: seq<Byte>, b: nat, m: Msg)
    requires Encodes(mem, b, m)
    ensures 8 <= Word(mem, 8 * b) && 8 * b + Word(mem, 8 * b) <= |mem|
    ensures ReadMsg(mem, b) == m
    ensures (Word(mem, 8 * b) + 7) / 8 == Blocks(m)
  {
    hide Join, SetWord;
  }

  // ---------- Every turn keeps the invariant ----------

  lemma InitInv()
    ensures Inv(Init(), Layout([], [], None))
  {
  }

  lemma InvInBounds(s: State, g: Layout)
    requires Inv(s, g)
    ensures InBounds(s)
  {
    hide Join, SetWord;
    AtReadIndex(s, g);
  }

  /** The layout survives a store outside the queued messages, the marker and the tail. */
  lemma GeometryAgree(s: State, s': State, g: Layout)
    requires |s.mem| == 8 * BLK_CNT && Tail(s) <= s.w < BLK_CNT
    requires Geometry(s, g)
    requires Tail(s') == Tail(s) && s'.r == s.r
    requires |s'.mem| == |s.mem|
    requires g.mark.None? ==> s'.w + s'.f <= BLK_CNT && Agree(s.mem, s'.mem, 8 * s.r, 8 * Tail(s))
    requires g.mark.Some? ==>
      && s'.w + s'.f <= s'.r
      && Agree(s.mem, s'.mem, 8 * s.r, 8 * g.mark.value + 4)
      && Agree(s.mem, s'.mem, 0, 8 * Tail(s))
    ensures Geometry(s', g)
  {
    hide Join, SetWord, Tiles, Encodes;
    match g.mark
    case None => TilesAgree(s.mem, s'.mem, g.near, s.r, Tail(s));
    case Some(e) =>
      TilesAgree(s.mem, s'.mem, g.near, s.r, e);
      TilesAgree(s.mem, s'.mem, g.far, 0, Tail(s));
  }

  lemma ZeroFirstKeeps(s: State, next: Msg, g: Layout)
    requires Inv(s, g) && InBounds(s) && s.p.ZeroFirst?
    ensures Inv(ProducerTurn(s, next), g)
  {
    hide Join, SetWord, Tiles, Encodes;
    GeometryAgree(s, ProducerTurn(s, next), g);
  }

  lemma MarkKeeps(s: State, next: Msg, g: Layout)
    requires Inv(s, g) && InBounds(s) && s.p.Mark?
    ensures Inv(ProducerTurn(s, next), Layout(g.near, [], Some(s.w)))
  {
    hide Join, SetWord, Encodes;
    var s' := ProducerTurn(s, next);
    TilesAgree(s.mem, s'.mem, g.near, s.r, s.w);
  }

  lemma ReserveKeeps(s: State, next: Msg, g: Layout)
    requires Inv(s, g) && InBounds(s) && s.p.Reserve?
    ensures Inv(ProducerTurn(s, next), g)
  {
    hide Join, SetWord, Tiles, Encodes;
    GeometryAgree(s, ProducerTurn(s, next), g);
  }

  lemma FillIdKeeps(s: State, next: Msg, g: Layout)
    requires Inv(s, g) && InBounds(s) && s.p.Fill? && s.p.done == 0
    ensures Inv(ProducerTurn(s, next), g)
  {
    hide Join, SetWord, Tiles, Encodes;
    GeometryAgree(s, ProducerTurn(s, next), g);
  }

  lemma FillByteKeeps(s: State, next: Msg, g: Layout)
    requires Inv(s, g) && InBounds(s) && s.p.Fill? && 0 < s.p.done <= |s.p.msg.payload|
    ensures Inv(ProducerTurn(s, next), g)
  {
    hide Join, SetWord, Tiles, Encodes;
    var s' := ProducerTurn(s, next);
    var m, at, done := s.p.msg, s.p.at, s.p.done;
    GeometryAgree(s, s', g);
    assert s'.mem[8 * at + 8..8 * at + 8 + done] == m.payload[..done] by {
      assert s'.mem[8 * at + 8..8 * at + 8 + done]
          == s.mem[8 * at + 8..8 * at + 7 + done] + [m.payload[done - 1]];
    }
  }

  lemma PushedEncodes(s: State, next: Msg, g: Layout)
    requires Inv(s, g) && InBounds(s) && s.p.Fill? && s.p.done > |s.p.msg.payload|
    ensures Encodes(ProducerTurn(s, next).mem, s.p.at, s.p.msg)
    ensures forall i :: 0 <= i < |s.mem| && !(8 * s.p.at <= i < 8 * s.p.at + 4) ==>
              ProducerTurn(s, next).mem[i] == s.mem[i]
  {
    hide Join, SetWord, Tiles;
    var m, at, mem' := s.p.msg, s.p.at, ProducerTurn(s, next).mem;
    assert mem'[8 * at + 8..8 * at + 8 + |m.payload|] == s.mem[8 * at + 8..8 * at + 8 + |m.payload|];
  }

  lemma PushKeeps(s: State, next: Msg, g: Layout) returns (g': Layout)
    requires Inv(s, g) && InBounds(s) && s.p.Fill? && s.p.done > |s.p.msg.payload|
    ensures Inv(ProducerTurn(s, next), g')
  {
    hide Join, SetWord, Tiles, Encodes;
    var s' := ProducerTurn(s, next);
    var m, at := s.p.msg, s.p.at;
    PushedEncodes(s, next, g);
    match g.mark {
      case None =>
        g' := Layout(g.near + [m], [], None);
        TilesAgree(s.mem, s'.mem, g.near, s.r, at);
        TilesSnoc(s'.mem, g.near, s.r, at, m);
      case Some(e) =>
        g' := Layout(g.near, g.far + [m], g.mark);
        TilesAgree(s.mem, s'.mem, g.near, s.r, e);
        TilesAgree(s.mem, s'.mem, g.far, 0, at);
        TilesSnoc(s'.mem, g.far, 0, at, m);
    }
  }

  lemma LoadKeeps(s: State, next: Msg, g: Layout)
    requires Inv(s, g) && InBounds(s) && (s.p.Ready? || s.p.Load?)
    ensures Inv(ProducerTurn(s, next), g)
  {
    hide Word, SetWord, Encodes;
    if g.mark.None? {
      TilesSpan(s.mem, g.near, s.r, Tail(s));
    }
  }

  lemma ProducerTurnKeeps(s: State, next: Msg, g: Layout) returns (g': Layout)
    requires Inv(s, g) && InBounds(s)
    ensures Inv(ProducerTurn(s, next), g')
  {
    hide *;
    g' := g;
    match s.p
    case Ready => LoadKeeps(s, next, g);
    case Load(m) => LoadKeeps(s, next, g);
    case ZeroFirst(m, cache) => ZeroFirstKeeps(s, next, g);
    case Mark(m, cache) => g' := Layout(g.near, [], Some(s.w)); MarkKeeps(s, next, g);
    case Reserve(m) => ReserveKeeps(s, next, g);
    case Fill(m, at, done) =>
      if done == 0 {
        FillIdKeeps(s, next, g);
      } else if done <= |m.payload| {
        FillByteKeeps(s, next, g);
      } else {
        g' := PushKeeps(s, next, g);
      }
  }

  /** What the consumer finds at its read index. */
  lemma AtReadIndex(s: State, g: Layout)
    requires Inv(s, g)
    ensures g.near != [] ==>
      && Encodes(s.mem, s.r, g.near[0])
      && 8 <= Word(s.mem, 8 * s.r) && 8 * s.r + Word(s.mem, 8 * s.r) <= |s.mem|
      && ReadMsg(s.mem, s.r) == g.near[0]
      && (Word(s.mem, 8 * s.r) + 7) / 8 == Blocks(g.near[0])
    ensures g.near == [] ==> Word(s.mem, 8 * s.r) == if g.mark.None? then 0 else 1
  {
    hide Join, SetWord;
    if g.near != [] {
      ReadEncoded(s.mem, s.r, g.near[0]);
    }
  }

  lemma PopKeeps(s: State, g: Layout)
    requires Inv(s, g) && InBounds(s) && s.c.Popping?
    ensures Inv(ConsumerTurn(s), g.(near := g.near[1..]))
  {
    hide Word, SetWord, Encodes, ReadMsg;
    AtReadIndex(s, g);
    var hi := if g.mark.None? then Tail(s) else g.mark.value;
    assert Tiles(s.mem, g.near[1..], s.r + Blocks(g.near[0]), hi);
    hide Tiles;
    TilesSpan(s.mem, g.near[1..], s.r + Blocks(g.near[0]), hi);
    assert s.popped + [ReadMsg(s.mem, s.r)] + (g.near[1..] + g.far) == s.popped + (g.near + g.far);
  }

  lemma PeekKeeps(s: State, g: Layout)
    requires Inv(s, g) && InBounds(s) && (s.c.Idle? || s.c.Reload? || s.c.Hold?)
    ensures Inv(ConsumerTurn(s), g)
  {
    hide Word, SetWord, Encodes, Tiles, ReadMsg;
    AtReadIndex(s, g);
  }

  lemma WrapKeeps(s: State, g: Layout)
    requires Inv(s, g) && InBounds(s) && s.c.Wrap?
    ensures Inv(ConsumerTurn(s), Layout(g.far, [], None))
  {
    hide Word, SetWord, Encodes, Tiles;
    assert g.near + g.far == g.far + [];
  }

  lemma ConsumerTurnKeeps(s: State, g: Layout) returns (g': Layout)
    requires Inv(s, g) && InBounds(s)
    ensures Inv(ConsumerTurn(s), g')
  {
    hide Word, SetWord, Encodes, Tiles, ConsumerTurn, Geometry, ProducerInv;
    match s.c
    case Idle => g' := g; PeekKeeps(s, g);
    case Wrap => g' := Layout(g.far, [], None); WrapKeeps(s, g);
    case Reload => g' := g; PeekKeeps(s, g);
    case Hold => g' := g; PeekKeeps(s, g);
    case Popping(size) => g' := g.(near := g.near[1..]); PopKeeps(s, g);
  }

  // ---------- What holds in every reachable state ----------

  lemma NextKeeps(s: State, s': State, g: Layout) returns (g': Layout)
    requires Inv(s, g) && Next(s, s')
    ensures Inv(s', g')
  {
    hide Inv, InBounds, ProducerTurn, ConsumerTurn;
    if m: Msg :| s' == ProducerTurn(s, m) {
      g' := ProducerTurnKeeps(s, m, g);
    } else {
      g' := ConsumerTurnKeeps(s, g);
    }
  }

  lemma {:induction false} RunInv(run: seq<State>, i: nat) returns (g: Layout)
    requires IsRun(run) && i < |run|
    ensures Inv(run[i], g)
  {
    hide Inv, Next, Init;
    if i == 0 {
      InitInv();
      g := Layout([], [], None);
    } else {
      var g0 := RunInv(run, i - 1);
      g := NextKeeps(run[i - 1], run[i], g0);
    }
  }

  ghost predicate Reachable(s: State) {
    exists run :: IsRun(run) && run[|run| - 1] == s
  }

  lemma ReachableInv(s: State) returns (g: Layout)
    requires Reachable(s)
    ensures Inv(s, g)
  {
    var run :| IsRun(run) && run[|run| - 1] == s;
    g := RunInv(run, |run| - 1);
  }

  /** No interleaving drives either thread outside the ring. */
  lemma EveryAccessInBounds(s: State)
    requires Reachable(s)
    ensures InBounds(s)
  {
    var g := ReachableInv(s);
    InvInBounds(s, g);
  }

  /** The ring refines a queue: what the consumer has read and popped is, message by message and
      byte by byte, the first part of what the producer has pushed. */
  lemma PoppedIsPrefixOfPushed(s: State)
    requires Reachable(s)
    ensures s.popped <= s.pushed
  {
    var g := ReachableInv(s);
  }

  /** While the consumer holds a message from `front`, it is the oldest unpopped one, intact, and
      stays so whatever the producer does next. */
  lemma FrontIsOldestIntact(s: State, next: Msg)
    requires Reachable(s) && (s.c.Hold? || s.c.Popping?)
    ensures InBounds(s)
    ensures |s.popped| < |s.pushed| && ReadMsg(s.mem, s.r) == s.pushed[|s.popped|]
    ensures var s' := ProducerTurn(s, next);
            InBounds(s') && s'.r == s.r && ReadMsg(s'.mem, s.r) == ReadMsg(s.mem, s.r)
  {
    var g := ReachableInv(s);
    InvInBounds(s, g);
    AtReadIndex(s, g);
    var s' := ProducerTurn(s, next);
    var g' := ProducerTurnKeeps(s, next, g);
    InvInBounds(s', g');
    AtReadIndex(s', g');
    hide Inv, ReadMsg;
    TurnOnlyAppends(s, next);
    OldestIs(s, g);
    OldestIs(s', g');
  }

  /** The bytes the consumer holds are the payload of the oldest unpopped message. */
  lemma HeldPayload(s: State)
    requires Reachable(s) && (s.c.Hold? || s.c.Popping?)
    ensures 8 * s.r + 8 <= |s.mem| && 8 <= Word(s.mem, 8 * s.r)
    ensures 8 * s.r + Word(s.mem, 8 * s.r) <= |s.mem| && |s.popped| < |s.pushed|
    ensures s.mem[8 * s.r + 8..8 * s.r + Word(s.mem, 8 * s.r)] == s.pushed[|s.popped|].payload
  {
    hide Word, Encodes, Tiles, Geometry, ProducerInv;
    var g := ReachableInv(s);
    AtReadIndex(s, g);
    OldestIs(s, g);
  }

  lemma OldestIs(s: State, g: Layout)
    requires Inv(s, g)
    ensures s.c.Hold? || s.c.Popping? ==> |s.popped| < |s.pushed| && s.pushed[|s.popped|] == g.near[0]
    ensures s.c.Hold? || s.c.Popping? ==> g.near != []
  {
    hide Geometry, ProducerInv, Word;
  }

  lemma TurnOnlyAppends(s: State, next: Msg)
    requires InBounds(s)
    ensures var s' := ProducerTurn(s, next);
            s'.r == s.r && s'.c == s.c && s'.popped == s.popped && s.pushed <= s'.pushed
  {
    hide Word, SetWord;
  }

  /** `front` answers truthfully at the moment it reads a size: it says "empty" only when every
      pushed message has been popped, and it returns a block only when one has not. */
  lemma FrontAnswersExactly(s: State)
    requires Reachable(s) && (s.c.Idle? || s.c.Reload?)
    ensures InBounds(s)
    ensures ConsumerTurn(s).c.Idle? ==> s.popped == s.pushed
    ensures ConsumerTurn(s).c.Hold? ==> s.popped != s.pushed
  {
    hide Word, SetWord, Encodes, Tiles;
    var g := ReachableInv(s);
    InvInBounds(s, g);
    AtReadIndex(s, g);
  }

  /** What `alloc` decides, from the consumer's index as it is when loaded: go on at the write index exactly
      if the message and one more block fit up to the reader or the end, start a wrap exactly if they do
      not fit up to the end and the reader has left block 0, else refuse. */
  lemma LoadDecides(s: State, next: Msg)
    requires Reachable(s) && s.p.Load?
    ensures InBounds(s)
    ensures var t, n := ProducerTurn(s, next), Blocks(s.p.msg);
      && t.w == s.w && t.mem == s.mem
      && (t.p == Reserve(s.p.msg) <==> if s.w < s.r then n < s.r - s.w else n < BLK_CNT - s.w)
      && (t.p == ZeroFirst(s.p.msg, s.r) <==> 0 < s.r <= s.w && BLK_CNT - s.w <= n)
      && (t.p == Ready <==> if s.w < s.r then s.r - s.w <= n else s.r == 0 && BLK_CNT - s.w <= n)
  {
    hide Word, SetWord, Blocks;
    EveryAccessInBounds(s);
  }

  /** A wrap ends at block 0, reserved exactly if the message and one more block fit up to where the
      consumer was; the marker is stored nowhere else. */
  lemma MarkDecides(s: State, next: Msg)
    requires Reachable(s) && s.p.Mark?
    ensures InBounds(s)
    ensures var t, n := ProducerTurn(s, next), Blocks(s.p.msg);
      && t.w == 0 && t.mem == SetWord(s.mem, 8 * s.w, 1)
      && t.p == if n < s.p.cache then Reserve(s.p.msg) else Ready
  {
    hide Word, SetWord, Blocks;
    EveryAccessInBounds(s);
  }

  /** A new call goes straight on when the cached free count suffices, and then the real one does. */
  lemma CallDecides(s: State, next: Msg)
    requires Reachable(s) && s.p.Ready?
    ensures InBounds(s)
    ensures var t := ProducerTurn(s, next);
      && t.w == s.w && t.mem == s.mem && t.p == (if Blocks(next) < s.f then Reserve(next) else Load(next))
      && (t.p.Reserve? ==> if s.w < s.r then Blocks(next) < s.r - s.w else Blocks(next) < BLK_CNT - s.w)
  {
    EveryAccessInBounds(s);
    FreeCountNeverOverstates(s);
  }

  lemma {:induction false} TotalBlocksConcat(a: seq<Msg>, b: seq<Msg>)
    ensures TotalBlocks(a + b) == TotalBlocks(a) + TotalBlocks(b)
    decreases |a|
  {
    if a == [] {
      assert a + b == b;
    } else {
      assert (a + b)[1..] == a[1..] + b;
      TotalBlocksConcat(a[1..], b);
    }
  }

  /** The producer's cached free count never overstates the free space, whatever the consumer does
      meanwhile, and the unpopped messages never fill the ring. */
  lemma FreeCountNeverOverstates(s: State)
    requires Reachable(s)
    ensures s.popped <= s.pushed
    ensures 1 <= s.f && s.w + s.f <= BLK_CNT
    ensures s.w < s.r ==> s.w + s.f <= s.r
    ensures TotalBlocks(s.pushed[|s.popped|..]) + s.f <= BLK_CNT
    ensures TotalBlocks(s.pushed[|s.popped|..]) <= BLK_CNT - 1
    ensures |s.mem| == 8 * BLK_CNT && Word(s.mem, 8 * s.w) == 0
  {
    hide Word, SetWord, Encodes, Tiles;
    var g := ReachableInv(s);
    assert s.pushed[|s.popped|..] == g.near + g.far;
    TotalBlocksConcat(g.near, g.far);
    match g.mark
    case None =>
      TilesSpan(s.mem, g.near, s.r, Tail(s));
    case Some(e) =>
      TilesSpan(s.mem, g.near, s.r, e);
      TilesSpan(s.mem, g.far, 0, Tail(s));
  }
}
