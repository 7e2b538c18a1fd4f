/** The ring's methods over its real fields. Each access to shared memory in them is shown to be
    one turn of the state machine in RingMachine, whose theorems cover all interleavings. */
module RingCode {
  import opened Bytes
  import opened RingMachine

  /** Consecutive turns of the producer alone, logging msg. */
  ghost predicate ProducerTrace(t: seq<State>, msg: Msg) {
    |t| > 0 && forall i :: 0 <= i < |t| - 1 ==> InBounds(t[i]) && t[i + 1] == ProducerTurn(t[i], msg)
  }

  /** Consecutive turns of the consumer alone. */
  ghost predicate ConsumerTrace(t: seq<State>) {
    |t| > 0 && forall i :: 0 <= i < |t| - 1 ==> InBounds(t[i]) && t[i + 1] == ConsumerTurn(t[i])
  }

  lemma BlocksIs(m: Msg, n: nat)
    requires n == (|m.payload| + 8 + 8 - 1) / 8
    ensures n == Blocks(m)
  {
  }

  /** A message that fits the cached free count fits the real one. */
  lemma CacheFits(s: State, g: Layout)
    requires Inv(s, g)
    ensures s.f <= if s.w < s.r then s.r - s.w else BLK_CNT - s.w
    ensures s.w < BLK_CNT && s.r < BLK_CNT && 1 <= s.f
  {
    hide Word, Encodes, Tiles, ProducerInv, ConsumerInv;
  }

  class SpscVarQueue {
    const blk: array<Byte>
    var writeIdx: nat
    var freeWriteCnt: nat
    var readIdx: nat
    ghost var producer: Producer
    ghost var consumer: Consumer
    ghost var pushed: seq<Msg>
    ghost var popped: seq<RawMsg>
    ghost var layout: Layout

    ghost function Snapshot(): State
      reads this, blk
    {
      State(blk[..], writeIdx, freeWriteCnt, readIdx, producer, consumer, pushed, popped)
    }

    ghost predicate Valid()
      reads this, blk
    {
      blk.Length == 8 * BLK_CNT && Inv(Snapshot(), layout)
    }

    constructor ()
      ensures Valid() && fresh(blk) && Snapshot() == Init()
    {
      blk := new Byte[8 * BLK_CNT](_ => 0);
      writeIdx, freeWriteCnt, readIdx := 0, BLK_CNT, 0;
      producer, consumer, pushed, popped, layout := Ready, Idle, [], [], Layout([], [], None);
      new;
      assert blk[..] == Init().mem;
      InitInv();
    }

    method StoreWord(o: nat, w: Word32)
      requires o + 4 <= blk.Length
      modifies blk
      ensures blk[..] == SetWord(old(blk[..]), o, w)
    {
      var v1 := w / 0x100;
      var v2 := v1 / 0x100;
      blk[o], blk[o + 1], blk[o + 2], blk[o + 3] := w % 0x100, v1 % 0x100, v2 % 0x100, v2 / 0x100;
    }

    method LoadWord(o: nat) returns (w: Word32)
      requires o + 4 <= blk.Length
      ensures w == Word(blk[..], o)
    {
      w := Join(blk[o], blk[o + 1], blk[o + 2], blk[o + 3]);
    }

    /** Bookkeeping: the real fields have just changed from s as in one turn of the producer. */
    ghost method ProducerMoved(s: State, msg: Msg, trace: seq<State>) returns (trace': seq<State>)
      requires blk.Length == 8 * BLK_CNT && Inv(s, layout) && InBounds(s)
      requires var t := ProducerTurn(s, msg);
        blk[..] == t.mem && writeIdx == t.w && freeWriteCnt == t.f && readIdx == t.r &&
        consumer == t.c && popped == t.popped
      requires ProducerTrace(trace, msg) && trace[|trace| - 1] == s
      modifies this`producer, this`pushed, this`layout
      ensures Valid() && Snapshot() == ProducerTurn(s, msg) && InBounds(Snapshot())
      ensures trace' == trace + [Snapshot()] && ProducerTrace(trace', msg)
    {
      hide Inv, InBounds, ProducerTurn;
      layout := ProducerTurnKeeps(s, msg, layout);
      producer, pushed := ProducerTurn(s, msg).p, ProducerTurn(s, msg).pushed;
      trace' := trace + [Snapshot()];
      InvInBounds(Snapshot(), layout);
    }

    /** Bookkeeping: the real fields have just changed from s as in one turn of the consumer. */
    ghost method ConsumerMoved(s: State, trace: seq<State>) returns (trace': seq<State>)
      requires blk.Length == 8 * BLK_CNT && Inv(s, layout) && InBounds(s)
      requires var t := ConsumerTurn(s);
        blk[..] == t.mem && writeIdx == t.w && freeWriteCnt == t.f && readIdx == t.r &&
        producer == t.p && pushed == t.pushed
      requires ConsumerTrace(trace) && trace[|trace| - 1] == s
      modifies this`consumer, this`popped, this`layout
      ensures Valid() && Snapshot() == ConsumerTurn(s) && InBounds(Snapshot())
      ensures trace' == trace + [Snapshot()] && ConsumerTrace(trace')
    {
      hide Inv, InBounds, ConsumerTurn;
      layout := ConsumerTurnKeeps(s, layout);
      consumer, popped := ConsumerTurn(s).c, ConsumerTurn(s).popped;
      trace' := trace + [Snapshot()];
      InvInBounds(Snapshot(), layout);
    }

    /** The slow path of `Alloc`: recompute the free count from the consumer's index. Only when the
        blocks up to the end are too few, and the consumer has left block 0, is a marker stored and
        block 0 made the next one. */
    method Refresh(blkSz: nat, ghost msg: Msg, ghost start: seq<State>) returns (ghost trace: seq<State>)
      requires Valid() && InBounds(Snapshot()) && producer == Load(msg) && blkSz == Blocks(msg)
      requires ProducerTrace(start, msg) && start[|start| - 1] == Snapshot()
      modifies this, blk
      ensures Valid() && InBounds(Snapshot()) && producer == Decide(freeWriteCnt, msg)
      ensures if 0 < old(readIdx) <= old(writeIdx) && BLK_CNT - old(writeIdx) <= blkSz then
          && writeIdx == 0 && freeWriteCnt == old(readIdx)
          && blk[..] == SetWord(SetWord(old(blk[..]), 0, 0), 8 * old(writeIdx), 1)
        else
          && writeIdx == old(writeIdx) && blk[..] == old(blk[..])
          && freeWriteCnt == if readIdx <= writeIdx then BLK_CNT - writeIdx else readIdx - writeIdx
      ensures freeWriteCnt == if readIdx <= writeIdx then BLK_CNT - writeIdx else readIdx - writeIdx
      ensures freeWriteCnt <= blkSz ==> readIdx == 0 || writeIdx < readIdx
      ensures readIdx == old(readIdx) && consumer == old(consumer)
      ensures pushed == old(pushed) && popped == old(popped)
      ensures ProducerTrace(trace, msg) && trace[0] == start[0] && trace[|trace| - 1] == Snapshot()
    {
      hide Word, SetWord, Join, Inv, Init, Blocks;
      ghost var s := Snapshot();
      var readIdxCache := readIdx;
      if readIdxCache <= writeIdx {
        freeWriteCnt := BLK_CNT - writeIdx;
        var wraps := blkSz >= freeWriteCnt && readIdxCache != 0;
        trace := ProducerMoved(s, msg, start);
        if wraps {
          s := Snapshot();
          StoreWord(0, 0);
          trace := ProducerMoved(s, msg, trace);
          s := Snapshot();
          StoreWord(8 * writeIdx, 1);
          writeIdx := 0;
          freeWriteCnt := readIdxCache;
          trace := ProducerMoved(s, msg, trace);
        }
      } else {
        freeWriteCnt := readIdxCache - writeIdx;
        trace := ProducerMoved(s, msg, start);
      }
    }

    /** Reserves room for a message of `size` payload bytes: at the write index if the message and one
        more block fit up to the reader or the end of the ring; else at block 0 if the reader is ahead of
        it with more room than the message takes; else nowhere. Only in the second case, or when that is
        too little, too, does the memory get a wrap marker. */
    method Alloc(size: Word32, ghost msg: Msg) returns (ret: Option<nat>, ghost trace: seq<State>)
      requires Valid() && producer.Ready?
      requires size == |msg.payload|
      modifies this, blk
      ensures Valid()
      ensures old(readIdx) <= old(writeIdx) && Blocks(msg) < BLK_CNT - old(writeIdx) ==> ret == Some(old(writeIdx))
      ensures old(writeIdx) < old(readIdx) && Blocks(msg) < old(readIdx) - old(writeIdx) ==> ret == Some(old(writeIdx))
      ensures 0 < old(readIdx) <= old(writeIdx) && BLK_CNT - old(writeIdx) <= Blocks(msg) ==>
        ret == if Blocks(msg) < old(readIdx) then Some(0) else None
      ensures old(writeIdx) < old(readIdx) && old(readIdx) - old(writeIdx) <= Blocks(msg) ==> ret == None
      ensures old(readIdx) == 0 && BLK_CNT - old(writeIdx) <= Blocks(msg) ==> ret == None
      ensures var wraps := 0 < old(readIdx) <= old(writeIdx) && BLK_CNT - old(writeIdx) <= Blocks(msg);
        var mem := if wraps then SetWord(SetWord(old(blk[..]), 0, 0), 8 * old(writeIdx), 1) else old(blk[..]);
        if ret.None? then
          writeIdx == (if wraps then 0 else old(writeIdx)) && blk[..] == mem
        else
          && writeIdx == ret.value + Blocks(msg) && 8 * writeIdx + 8 <= |mem|
          && blk[..] == SetWord(mem, 8 * writeIdx, 0)
      ensures ret.Some? ==> producer == Fill(msg, ret.value, 0)
      ensures ret.None? ==>
        && producer.Ready?
        && freeWriteCnt <= Blocks(msg)
        && freeWriteCnt == (if readIdx <= writeIdx then BLK_CNT - writeIdx else readIdx - writeIdx)
        && (readIdx == 0 || writeIdx < readIdx)
      ensures readIdx == old(readIdx) && consumer == old(consumer)
      ensures pushed == old(pushed) && popped == old(popped)
      ensures ProducerTrace(trace, msg) && trace[0] == old(Snapshot()) && trace[|trace| - 1] == Snapshot()
    {
      hide Word, SetWord, Join, Inv, Init, Blocks;
      ghost var s := Snapshot();
      InvInBounds(s, layout);
      CacheFits(s, layout);
      trace := [s];
      var blkSz := (size + 8 + 8 - 1) / 8;
      BlocksIs(msg, blkSz);
      var room := blkSz < freeWriteCnt;
      trace := ProducerMoved(s, msg, trace);
      if !room {
        trace := Refresh(blkSz, msg, trace);
        if freeWriteCnt <= blkSz {
          return None, trace;
        }
      }
      ret := Some(writeIdx);
      trace := Reserve(blkSz, msg, trace);
    }

    /** The end of `Alloc`: the blocks are taken, and the size of the one behind them is cleared. */
    method Reserve(blkSz: nat, ghost msg: Msg, ghost start: seq<State>) returns (ghost trace: seq<State>)
      requires Valid() && InBounds(Snapshot()) && producer == Producer.Reserve(msg) && blkSz == Blocks(msg)
      requires ProducerTrace(start, msg) && start[|start| - 1] == Snapshot()
      modifies this, blk
      ensures Valid() && producer == Fill(msg, old(writeIdx), 0)
      ensures writeIdx == old(writeIdx) + Blocks(msg) && 8 * writeIdx + 8 <= blk.Length
      ensures blk[..] == SetWord(old(blk[..]), 8 * writeIdx, 0)
      ensures readIdx == old(readIdx) && consumer == old(consumer)
      ensures pushed == old(pushed) && popped == old(popped)
      ensures ProducerTrace(trace, msg) && trace[0] == start[0] && trace[|trace| - 1] == Snapshot()
    {
      hide Word, SetWord, Join, Inv, Init, Blocks;
      ghost var s := Snapshot();
      writeIdx := writeIdx + blkSz;
      freeWriteCnt := freeWriteCnt - blkSz;
      StoreWord(8 * writeIdx, 0);
      trace := ProducerMoved(s, msg, start);
    }

    /** Writes the id and the payload into the reserved blocks, then publishes the size. */
    method WriteAndPush(at: nat, msg: Msg) returns (ghost trace: seq<State>)
      requires Valid() && producer == Fill(msg, at, 0)
      modifies this, blk
      ensures Valid() && producer.Ready?
      ensures pushed == old(pushed) + [msg]
      ensures readIdx == old(readIdx) && consumer == old(consumer) && popped == old(popped)
      ensures ProducerTrace(trace, msg) && trace[0] == old(Snapshot()) && trace[|trace| - 1] == Snapshot()
    {
      hide Word, SetWord, Join, Inv, Init;
      ghost var s := Snapshot();
      InvInBounds(s, layout);
      trace := [s];
      StoreWord(8 * at + 4, msg.logId);
      trace := ProducerMoved(s, msg, trace);
      for k := 0 to |msg.payload|
        invariant Valid() && InBounds(Snapshot()) && producer == Fill(msg, at, k + 1)
        invariant pushed == old(pushed)
        invariant readIdx == old(readIdx) && consumer == old(consumer) && popped == old(popped)
        invariant ProducerTrace(trace, msg) && trace[0] == old(Snapshot()) && trace[|trace| - 1] == Snapshot()
      {
        s := Snapshot();
        blk[8 * at + 8 + k] := msg.payload[k];
        trace := ProducerMoved(s, msg, trace);
      }
      s := Snapshot();
      StoreWord(8 * at, |msg.payload| + 8);
      trace := ProducerMoved(s, msg, trace);
    }

    /** One log call: the message is appended to the queue if there is room for it and one more block in
        front of the reader, up to the end or from block 0; else it is refused, the queue unchanged. */
    method Log(msg: Msg) returns (ok: bool)
      requires Valid() && producer.Ready?
      modifies this, blk
      ensures Valid() && producer.Ready?
      ensures pushed == if ok then old(pushed) + [msg] else old(pushed)
      ensures ok <==> if old(writeIdx) < old(readIdx) then Blocks(msg) < old(readIdx) - old(writeIdx)
                      else Blocks(msg) < BLK_CNT - old(writeIdx) || Blocks(msg) < old(readIdx)
      ensures !ok ==>
        && freeWriteCnt <= Blocks(msg)
        && freeWriteCnt == (if readIdx <= writeIdx then BLK_CNT - writeIdx else readIdx - writeIdx)
        && (readIdx == 0 || writeIdx < readIdx)
      ensures !ok ==> writeIdx == if 0 < old(readIdx) <= old(writeIdx) then 0 else old(writeIdx)
      ensures readIdx == old(readIdx) && consumer == old(consumer) && popped == old(popped)
    {
      hide Inv, InBounds, ProducerTurn;
      var at, _ := Alloc(|msg.payload|, msg);
      if at.None? {
        return false;
      }
      var _ := WriteAndPush(at.value, msg);
      ok := true;
    }

    /** The block of the oldest unpopped message, or None exactly when all have been popped. */
    method Front() returns (ret: Option<nat>, ghost trace: seq<State>)
      requires Valid() && consumer.Idle?
      modifies this
      ensures Valid()
      ensures ret.Some? <==> old(popped) != old(pushed)
      ensures ret.Some? ==>
        && consumer.Hold? && ret.value == readIdx && InBounds(Snapshot())
        && |popped| < |pushed| && ReadMsg(blk[..], readIdx) == pushed[|popped|]
      ensures ret.None? ==> consumer.Idle? && readIdx <= writeIdx
      ensures writeIdx == old(writeIdx) && freeWriteCnt == old(freeWriteCnt) && producer == old(producer)
      ensures pushed == old(pushed) && popped == old(popped)
      ensures ConsumerTrace(trace) && trace[0] == old(Snapshot()) && trace[|trace| - 1] == Snapshot()
    {
      hide Word, SetWord, Join, Encodes, Tiles, ProducerInv;
      ghost var s := Snapshot();
      AtReadIndex(s, layout);
      InvInBounds(s, layout);
      trace := [s];
      var size := LoadWord(8 * readIdx);
      trace := ConsumerMoved(s, trace);
      if size == 1 {
        s := Snapshot();
        readIdx := 0;
        trace := ConsumerMoved(s, trace);
        s := Snapshot();
        size := LoadWord(0);
        AtReadIndex(s, layout);
        trace := ConsumerMoved(s, trace);
      }
      AtReadIndex(Snapshot(), layout);
      if size == 0 {
        return None, trace;
      }
      OldestIs(Snapshot(), layout);
      ret := Some(readIdx);
    }

    /** Drops the message `Front` returned. */
    method Pop() returns (ghost trace: seq<State>)
      requires Valid() && consumer.Hold?
      modifies this
      ensures Valid() && consumer.Idle?
      ensures |old(popped)| < |pushed| && popped == old(popped) + [pushed[|old(popped)|]]
      ensures writeIdx == old(writeIdx) && freeWriteCnt == old(freeWriteCnt) && producer == old(producer)
      ensures pushed == old(pushed)
      ensures ConsumerTrace(trace) && trace[0] == old(Snapshot()) && trace[|trace| - 1] == Snapshot()
    {
      hide Word, SetWord, Join, Encodes, Tiles, ProducerInv, Geometry, ReadMsg;
      ghost var s := Snapshot();
      AtReadIndex(s, layout);
      OldestIs(s, layout);
      InvInBounds(s, layout);
      trace := [s];
      var size := LoadWord(8 * readIdx);
      trace := ConsumerMoved(s, trace);
      s := Snapshot();
      readIdx := readIdx + (size + 8 - 1) / 8;
      trace := ConsumerMoved(s, trace);
    }
  }

  /** A consumer left alone empties the queue: nothing that was pushed is ever lost. */
  method Drain(q: SpscVarQueue)
    requires q.Valid() && q.consumer.Idle?
    modifies q
    ensures q.Valid() && q.consumer.Idle? && q.popped == q.pushed == old(q.pushed)
    ensures q.producer == old(q.producer)
  {
    hide Inv, InBounds, ConsumerTurn;
    while true
      invariant q.Valid() && q.consumer.Idle? && q.pushed == old(q.pushed)
      invariant q.producer == old(q.producer)
      decreases |q.pushed| - |q.popped|
    {
      var m, _ := q.Front();
      if m.None? {
        return;
      }
      var _ := q.Pop();
    }
  }

  /** Progress: once every message is popped, any message of fewer than BLK_CNT blocks is accepted
      after at most one refusal followed by one `front`, wherever the indices stand. */
  method LogWhenDrained(q: SpscVarQueue, msg: Msg) returns (refusals: nat)
    requires q.Valid() && q.producer.Ready? && q.consumer.Idle? && q.popped == q.pushed
    requires Blocks(msg) < BLK_CNT
    modifies q, q.blk
    ensures q.Valid() && q.pushed == old(q.pushed) + [msg] && q.popped == old(q.popped)
    ensures refusals <= 1
  {
    hide Word, Encodes, ProducerInv, ConsumerInv;
    refusals := 0;
    var ok := q.Log(msg);
    if !ok {
      refusals := 1;
      var m, _ := q.Front();
      ok := q.Log(msg);
    }
  }
}
