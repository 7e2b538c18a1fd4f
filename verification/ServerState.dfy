/** The entities of the server's connection engine and the invariant over them. Pointers to
    connection slots and to packet buffers are modelled as indices and addresses. */
module ServerState {
  import opened Bytes
  import opened PacketParser

  const QUEUE_LIMIT: nat := 1000
  const QUEUE_KEEP: nat := 500

  type Bit = b: int | 0 <= b < 2
  type HeadBuf = s: seq<Byte> | |s| == 20 witness seq(20, _ => 0)

  datatype Handler = NoHandler | AcceptHandler | RequestHandler
  datatype Phase = HdInit | HdRecving | BdInit | BdRecving

  /** Where received bytes go: into the slot's own header bytes or into a packet buffer. */
  datatype RecvPtr = InHead(off: nat) | InPacket(buf: nat, off: nat)

  datatype Connection = Connection(
    fd: int, instance: Bit, iCurrsequence: nat,
    listening: Option<nat>, wReady: bool, rhandler: Handler,
    curStat: Phase, dataHeadInfo: HeadBuf, precvbuf: RecvPtr, irecvlen: nat,
    ifnewrecvMem: bool, pnewMemPointer: Option<nat>,
    data: Option<nat>)

  /** A packet buffer: the message header (slot and its sequence number) and header plus body. */
  datatype Message = Message(conn: nat, iCurrsequence: nat, pkg: seq<Byte>)

  /** One ownership of a slot, from the `get_connection` that started it. */
  datatype Owner = Owner(slot: nat, sequence: nat)

  /** What one call to `recv` does: the bytes waiting in the socket (none once the peer has closed),
      a retryable error, or another error. */
  datatype RecvResult = Data(bytes: seq<Byte>) | TryAgain | Failed

  /** What one call to `accept4` or `accept` does. */
  datatype AcceptResult = Accepted(fd: nat) | NoSys | OtherError

  /** What the system calls made while one event is handled do. */
  datatype Outcome = Outcome(recv: RecvResult, first: AcceptResult, second: AcceptResult,
                             ioctl: int, added: bool)

  /** An event from epoll: the tagged pointer, and whether EPOLLIN, EPOLLERR or EPOLLHUP is set. */
  datatype Event = Event(ptr: nat, readable: bool, io: Outcome)

  /** A pointer handed to epoll when its slot had been acquired `acquired` times. */
  datatype Tag = Tag(ptr: nat, slot: nat, acquired: nat)

  /** Slot addresses are even, so the lowest bit is free for the instance flag. */
  function TagPtr(slot: nat, instance: Bit): nat {
    2 * slot + instance
  }

  /** The instance flag of a slot acquired so many times: 1 at first, flipped by each acquisition. */
  function InstanceOf(acquired: nat): Bit {
    (acquired + 1) % 2
  }

  function NewConnection(isock: nat, instance: Bit, sequence: nat): Connection {
    Connection(isock, instance, sequence, None, false, NoHandler,
               HdInit, seq(20, _ => 0), InHead(0), HEADER_LEN, false, None, None)
  }

  // ---------- The invariant ----------

  ghost predicate Owned(c: Connection) {
    c.fd != -1
  }

  ghost predicate Distinct(s: seq<nat>) {
    forall j, k :: 0 <= j < k < |s| ==> s[j] != s[k]
  }

  /** What the k-th element of a chain points to. */
  function NextOf(free: seq<nat>, k: nat): Option<nat>
    requires k < |free|
  {
    if k + 1 < |free| then Some(free[k + 1]) else None
  }

  /** The chain through `data` from the list head is `free`: no repetition, and exactly the slots
      without a socket. */
  ghost predicate PoolOk(cs: seq<Connection>, head: Option<nat>, n: int, free: seq<nat>) {
    && n == |free|
    && head == (if free == [] then None else Some(free[0]))
    && Distinct(free)
    && (forall k :: 0 <= k < |free| ==> free[k] < |cs| && !Owned(cs[free[k]]))
    && (forall k {:trigger NextOf(free, k)} :: 0 <= k < |free| ==> cs[free[k]].data == NextOf(free, k))
    && (forall i :: 0 <= i < |cs| && !Owned(cs[i]) ==> i in free)
  }

  /** The sequence number counts acquisitions and releases, the instance flag the parity of the
      acquisitions. */
  ghost predicate CountsOk(cs: seq<Connection>, gets: seq<nat>, closes: seq<nat>) {
    && |gets| == |closes| == |cs|
    && forall i :: 0 <= i < |cs| ==>
         && cs[i].iCurrsequence == gets[i] + closes[i]
         && cs[i].instance == InstanceOf(gets[i])
         && gets[i] == closes[i] + if Owned(cs[i]) then 1 else 0
  }

  ghost predicate Receiving(cs: seq<Connection>, i: nat, a: nat) {
    i < |cs| && Owned(cs[i]) && cs[i].ifnewrecvMem && cs[i].pnewMemPointer == Some(a)
  }

  /** The live buffers are the queued ones and those being filled, without overlap. */
  ghost predicate HeapOk(cs: seq<Connection>, queue: seq<nat>, heap: map<nat, Message>) {
    && Distinct(queue)
    && (forall a :: a in queue ==> a in heap)
    && (forall a :: a in heap ==> heap[a].conn < |cs|)
    && (forall a :: a in heap ==> a in queue || Receiving(cs, heap[a].conn, a))
    && (forall i :: 0 <= i < |cs| && Owned(cs[i]) && cs[i].ifnewrecvMem ==>
          && cs[i].pnewMemPointer.Some?
          && var a := cs[i].pnewMemPointer.value;
             a in heap && a !in queue && heap[a].conn == i && heap[a].iCurrsequence == cs[i].iCurrsequence)
  }

  /** The queue is a contiguous suffix of all messages ever enqueued. */
  ghost predicate QueueSuffix(queue: seq<nat>, heap: map<nat, Message>, history: seq<Message>) {
    && |queue| <= |history|
    && forall k :: 0 <= k < |queue| ==>
         queue[k] in heap && heap[queue[k]] == history[|history| - |queue| + k]
  }

  /** Each live buffer was allocated by the ownership its header names, after `parsedAt` closes. */
  ghost predicate StaleOk(heap: map<nat, Message>, parsedAt: map<nat, nat>, gets: seq<nat>, closes: seq<nat>) {
    && |gets| == |closes|
    && forall a :: a in heap ==>
         && a in parsedAt && heap[a].conn < |closes|
         && heap[a].iCurrsequence == 2 * parsedAt[a] + 1
         && parsedAt[a] <= closes[heap[a].conn]
         && (parsedAt[a] == closes[heap[a].conn] ==> gets[heap[a].conn] == closes[heap[a].conn] + 1)
  }

  ghost predicate TagsOk(tags: set<Tag>, gets: seq<nat>) {
    forall t :: t in tags ==>
      t.slot < |gets| && t.acquired <= gets[t.slot] && t.ptr == TagPtr(t.slot, InstanceOf(t.acquired))
  }

  /** The receive cursor agrees with the phase: it ends exactly at the end of the header bytes or
      of the packet, and asks for at least one byte. */
  ghost predicate CursorOk(c: Connection, heap: map<nat, Message>) {
    && c.irecvlen >= 1
    && (c.ifnewrecvMem <==> c.curStat.BdInit? || c.curStat.BdRecving?)
    && match c.curStat
       case HdInit => c.precvbuf == InHead(0) && c.irecvlen == HEADER_LEN
       case HdRecving => c.irecvlen < HEADER_LEN && c.precvbuf == InHead(HEADER_LEN - c.irecvlen)
       case _ =>
         && c.pnewMemPointer.Some? && c.pnewMemPointer.value in heap
         && var pkg := heap[c.pnewMemPointer.value].pkg;
            && WellFormed(pkg)
            && c.irecvlen <= |pkg| - HEADER_LEN
            && c.precvbuf == InPacket(c.pnewMemPointer.value, |pkg| - c.irecvlen)
            && (c.curStat.BdInit? <==> c.irecvlen == |pkg| - HEADER_LEN)
  }

  /** The bytes of the unfinished packet once n more have been received at the cursor. */
  ghost function Filled(c: Connection, heap: map<nat, Message>, n: nat): seq<Byte>
    requires CursorOk(c, heap) && n <= c.irecvlen
  {
    if c.ifnewrecvMem then
      var pkg := heap[c.pnewMemPointer.value].pkg;
      pkg[..|pkg| - c.irecvlen + n]
    else
      c.dataHeadInfo[..HEADER_LEN - c.irecvlen + n]
  }

  /** The packets in the history that came from one ownership. */
  ghost function PacketsOf(history: seq<Message>, o: Owner): seq<Packet> {
    if history == [] then []
    else
      var m := history[|history| - 1];
      PacketsOf(history[..|history| - 1], o) + if Owner(m.conn, m.iCurrsequence) == o then [m.pkg] else []
  }

  /** Nothing is known to have been received or enqueued for an ownership that has not begun. */
  ghost predicate OwnersOk(cs: seq<Connection>, received: map<Owner, seq<Byte>>, history: seq<Message>) {
    && (forall o :: o in received ==> o.slot < |cs| && o.sequence <= cs[o.slot].iCurrsequence)
    && (forall m :: m in history ==> Owner(m.conn, m.iCurrsequence) in received)
    && (forall i :: 0 <= i < |cs| && Owned(cs[i]) ==> Owner(i, cs[i].iCurrsequence) in received)
  }

  ghost predicate Current(cs: seq<Connection>, o: Owner) {
    o.slot < |cs| && Owned(cs[o.slot]) && cs[o.slot].iCurrsequence == o.sequence
  }

  /** The packets enqueued for o are those of the bytes it received, up to a part x still held. */
  ghost predicate Pending(received: map<Owner, seq<Byte>>, history: seq<Message>, o: Owner, x: seq<Byte>) {
    && o in received
    && Parse(received[o]) == Parsed(PacketsOf(history, o) + Parse(x).packets, Parse(x).rest)
  }

  /** For an ownership that has ended, reassembly produced exactly the packets of its stream. */
  ghost predicate EndedOk(cs: seq<Connection>, received: map<Owner, seq<Byte>>, history: seq<Message>) {
    forall o :: o in received && !Current(cs, o) ==> PacketsOf(history, o) == Parse(received[o]).packets
  }

  /** For a live ownership, what it holds is the unfinished rest of its stream. */
  ghost predicate SlotOk(c: Connection, i: nat, heap: map<nat, Message>,
                         received: map<Owner, seq<Byte>>, history: seq<Message>) {
    Owned(c) ==>
      && CursorOk(c, heap)
      && Owner(i, c.iCurrsequence) in received
      && Parse(received[Owner(i, c.iCurrsequence)])
         == Parsed(PacketsOf(history, Owner(i, c.iCurrsequence)), Filled(c, heap, 0))
  }

  lemma PacketsOfSnoc(history: seq<Message>, m: Message, o: Owner)
    ensures PacketsOf(history + [m], o) ==
            PacketsOf(history, o) + if Owner(m.conn, m.iCurrsequence) == o then [m.pkg] else []
  {
    assert (history + [m])[..|history|] == history;
  }

  lemma {:induction false} NoPacketsYet(history: seq<Message>, o: Owner)
    requires forall m :: m in history ==> Owner(m.conn, m.iCurrsequence) != o
    ensures PacketsOf(history, o) == []
  {
    if history != [] {
      NoPacketsYet(history[..|history| - 1], o);
    }
  }

  // ---------- Taking a slot from the pool ----------

  lemma PoolHead(cs: seq<Connection>, head: Option<nat>, n: int, free: seq<nat>)
    requires PoolOk(cs, head, n, free)
    ensures head.None? <==> free == []
    ensures head.Some? ==> head.value == free[0] && head.value < |cs| && !Owned(cs[head.value])
  {
  }

  lemma AcquireCounts(cs: seq<Connection>, gets: seq<nat>, closes: seq<nat>, heap: map<nat, Message>,
                      parsedAt: map<nat, nat>, tags: set<Tag>, c: nat, isock: nat)
    requires CountsOk(cs, gets, closes) && StaleOk(heap, parsedAt, gets, closes) && TagsOk(tags, gets)
    requires c < |cs| && !Owned(cs[c])
    ensures |gets| == |closes| == |cs|
    ensures var d := NewConnection(isock, 1 - cs[c].instance, cs[c].iCurrsequence + 1);
      var gets' := gets[c := gets[c] + 1];
      && CountsOk(cs[c := d], gets', closes)
      && StaleOk(heap, parsedAt, gets', closes)
      && TagsOk(tags, gets')
  {
    hide TagPtr;
  }

  lemma NewSlotOk(c: nat, isock: nat, instance: Bit, sequence: nat, heap: map<nat, Message>,
                  received: map<Owner, seq<Byte>>, history: seq<Message>)
    requires var o := Owner(c, sequence); o in received && received[o] == [] && PacketsOf(history, o) == []
    ensures SlotOk(NewConnection(isock, instance, sequence), c, heap, received, history)
  {
    hide PacketsOf;
    ParseIncomplete([]);
  }

  lemma AcquirePool(cs: seq<Connection>, head: Option<nat>, n: int, free: seq<nat>, c: nat, d: Connection)
    requires PoolOk(cs, head, n, free) && head == Some(c) && Owned(d)
    ensures c < |cs| && !Owned(cs[c]) && free != [] && free[0] == c
    ensures PoolOk(cs[c := d], cs[c].data, n - 1, free[1..])
  {
    var cs', free' := cs[c := d], free[1..];
    assert cs[free[0]].data == NextOf(free, 0);
    forall k | 0 <= k < |free'|
      ensures free'[k] < |cs'| && !Owned(cs'[free'[k]]) && cs'[free'[k]].data == NextOf(free', k)
    {
      var j := k + 1;
      assert free'[k] == free[j] && free[j] != free[0];
      assert cs[free[j]].data == NextOf(free, j);
    }
    forall i | 0 <= i < |cs'| && !Owned(cs'[i])
      ensures i in free'
    {
      assert i in free && i != c;
    }
  }

  lemma AcquireHeap(cs: seq<Connection>, queue: seq<nat>, heap: map<nat, Message>, c: nat, d: Connection)
    requires HeapOk(cs, queue, heap) && c < |cs| && !Owned(cs[c]) && !d.ifnewrecvMem
    ensures HeapOk(cs[c := d], queue, heap)
  {
    var cs' := cs[c := d];
    forall a | a in heap
      ensures a in queue || Receiving(cs', heap[a].conn, a)
    {
      assert Receiving(cs, heap[a].conn, a) ==> heap[a].conn != c;
    }
  }

  lemma AcquireOwners(cs: seq<Connection>, received: map<Owner, seq<Byte>>, history: seq<Message>,
                      c: nat, d: Connection)
    requires OwnersOk(cs, received, history) && EndedOk(cs, received, history)
    requires c < |cs| && !Owned(cs[c]) && Owned(d) && d.iCurrsequence == cs[c].iCurrsequence + 1
    ensures var o := Owner(c, d.iCurrsequence);
      && o !in received
      && OwnersOk(cs[c := d], received[o := []], history)
      && EndedOk(cs[c := d], received[o := []], history)
      && PacketsOf(history, o) == []
  {
    NoPacketsYet(history, Owner(c, d.iCurrsequence));
  }

  // ---------- Giving a slot back ----------

  /** The buffer a slot is filling, if any. */
  ghost function Held(c: Connection): set<nat> {
    if c.ifnewrecvMem && c.pnewMemPointer.Some? then {c.pnewMemPointer.value} else {}
  }

  lemma DropKeepsQueue(queue: seq<nat>, heap: map<nat, Message>, history: seq<Message>, dropped: set<nat>)
    requires QueueSuffix(queue, heap, history) && forall a :: a in queue ==> a !in dropped
    ensures QueueSuffix(queue, heap - dropped, history)
  {
  }

  /** Slot i loses nothing when buffers it does not hold are freed. */
  lemma DropKeepsSlot(c: Connection, i: nat, heap: map<nat, Message>, dropped: set<nat>,
                      received: map<Owner, seq<Byte>>, history: seq<Message>)
    requires SlotOk(c, i, heap, received, history)
    requires Owned(c) && c.ifnewrecvMem ==> c.pnewMemPointer.Some? && c.pnewMemPointer.value in heap - dropped
    ensures SlotOk(c, i, heap - dropped, received, history)
  {
    hide Parse, PacketsOf, WellFormed;
  }

  lemma FreeSlotOk(c: Connection, i: nat, heap: map<nat, Message>,
                   received: map<Owner, seq<Byte>>, history: seq<Message>)
    requires !Owned(c)
    ensures SlotOk(c, i, heap, received, history)
  {
  }

  lemma SlotSettled(c: Connection, i: nat, heap: map<nat, Message>,
                    received: map<Owner, seq<Byte>>, history: seq<Message>)
    requires SlotOk(c, i, heap, received, history)
    ensures var o := Owner(i, c.iCurrsequence);
      Owned(c) ==> o in received && PacketsOf(history, o) == Parse(received[o]).packets
    ensures Owned(c) && c.ifnewrecvMem ==> c.pnewMemPointer.Some? && c.pnewMemPointer.value in heap
  {
    hide Parse, PacketsOf;
  }

  lemma ReleasePool(cs: seq<Connection>, head: Option<nat>, n: int, free: seq<nat>, c: nat, d: Connection)
    requires PoolOk(cs, head, n, free) && c < |cs| && Owned(cs[c])
    requires !Owned(d) && d.data == head
    ensures PoolOk(cs[c := d], Some(c), n + 1, [c] + free)
  {
    var cs', free' := cs[c := d], [c] + free;
    assert c !in free;
    forall k | 0 <= k < |free'|
      ensures free'[k] < |cs'| && !Owned(cs'[free'[k]]) && cs'[free'[k]].data == NextOf(free', k)
    {
      if k > 0 {
        var j := k - 1;
        assert free'[k] == free[j];
        assert cs[free[j]].data == NextOf(free, j);
      }
    }
    forall i | 0 <= i < |cs'| && !Owned(cs'[i])
      ensures i in free'
    {
      assert i == c || i in free;
    }
  }

  lemma ReleaseCounts(cs: seq<Connection>, gets: seq<nat>, closes: seq<nat>, heap: map<nat, Message>,
                      parsedAt: map<nat, nat>, dropped: set<nat>, c: nat, d: Connection)
    requires CountsOk(cs, gets, closes) && StaleOk(heap, parsedAt, gets, closes)
    requires c < |cs| && Owned(cs[c]) && !Owned(d)
    requires d.instance == cs[c].instance && d.iCurrsequence == cs[c].iCurrsequence + 1
    ensures |closes| == |cs|
    ensures var closes' := closes[c := closes[c] + 1];
      CountsOk(cs[c := d], gets, closes') && StaleOk(heap - dropped, parsedAt - dropped, gets, closes')
  {
  }

  /** The buffer being filled is freed with its slot. */
  lemma ReleaseHeap(cs: seq<Connection>, queue: seq<nat>, heap: map<nat, Message>, c: nat, d: Connection,
                    dropped: set<nat>)
    requires HeapOk(cs, queue, heap) && c < |cs| && Owned(cs[c]) && !Owned(d)
    requires dropped == Held(cs[c])
    ensures HeapOk(cs[c := d], queue, heap - dropped)
    ensures forall a :: a in queue ==> a !in dropped
    ensures forall i :: 0 <= i < |cs| && i != c && Owned(cs[i]) && cs[i].ifnewrecvMem ==>
              cs[i].pnewMemPointer.value in heap - dropped
  {
    var cs', heap' := cs[c := d], heap - dropped;
    forall a | a in heap'
      ensures a in queue || Receiving(cs', heap'[a].conn, a)
    {
      assert Receiving(cs, heap[a].conn, a) ==> heap[a].conn != c;
    }
  }

  lemma ReleaseOwners(cs: seq<Connection>, received: map<Owner, seq<Byte>>, history: seq<Message>,
                      c: nat, d: Connection)
    requires OwnersOk(cs, received, history) && EndedOk(cs, received, history)
    requires c < |cs| && Owned(cs[c]) && !Owned(d) && d.iCurrsequence == cs[c].iCurrsequence + 1
    requires var o := Owner(c, cs[c].iCurrsequence);
      o in received && PacketsOf(history, o) == Parse(received[o]).packets
    ensures OwnersOk(cs[c := d], received, history) && EndedOk(cs[c := d], received, history)
  {
    hide Parse, PacketsOf;
    var cs' := cs[c := d];
    forall o | o in received && !Current(cs', o)
      ensures PacketsOf(history, o) == Parse(received[o]).packets
    {
      assert Current(cs, o) ==> o == Owner(c, cs[c].iCurrsequence);
    }
  }

  // ---------- Updating the receive state of a slot ----------

  /** A slot changes in its receive state only. */
  ghost predicate SameSlot(c: Connection, d: Connection) {
    && c.fd == d.fd && c.instance == d.instance && c.iCurrsequence == d.iCurrsequence && c.data == d.data
  }

  lemma UpdatePool(cs: seq<Connection>, head: Option<nat>, n: int, free: seq<nat>,
                   gets: seq<nat>, closes: seq<nat>, c: nat, d: Connection)
    requires PoolOk(cs, head, n, free) && CountsOk(cs, gets, closes)
    requires c < |cs| && SameSlot(cs[c], d)
    ensures PoolOk(cs[c := d], head, n, free) && CountsOk(cs[c := d], gets, closes)
  {
    hide NextOf, Distinct;
    var cs' := cs[c := d];
    forall k | 0 <= k < |free|
      ensures free[k] < |cs'| && !Owned(cs'[free[k]]) && cs'[free[k]].data == NextOf(free, k)
    {
      assert SameSlot(cs[free[k]], cs'[free[k]]);
    }
  }

  lemma UpdateOwners(cs: seq<Connection>, received: map<Owner, seq<Byte>>, history: seq<Message>,
                     c: nat, d: Connection)
    requires OwnersOk(cs, received, history) && EndedOk(cs, received, history)
    requires c < |cs| && SameSlot(cs[c], d)
    ensures OwnersOk(cs[c := d], received, history) && EndedOk(cs[c := d], received, history)
  {
    hide Parse, PacketsOf;
    var cs' := cs[c := d];
    forall o | o in received && !Current(cs', o)
      ensures PacketsOf(history, o) == Parse(received[o]).packets
    {
      assert !Current(cs, o);
    }
  }

  /** The heap obligations of slot c alone change with its receive state. */
  lemma UpdateHeap(cs: seq<Connection>, queue: seq<nat>, heap: map<nat, Message>, c: nat, d: Connection)
    requires HeapOk(cs, queue, heap)
    requires c < |cs| && SameSlot(cs[c], d)
    requires d.ifnewrecvMem == cs[c].ifnewrecvMem && d.pnewMemPointer == cs[c].pnewMemPointer
    ensures HeapOk(cs[c := d], queue, heap)
  {
    var cs' := cs[c := d];
    forall a | a in heap
      ensures a in queue || Receiving(cs', heap[a].conn, a)
    {
      assert Receiving(cs, heap[a].conn, a) ==> Receiving(cs', heap[a].conn, a);
    }
  }

  /** A slot is untouched by what happens to other slots' buffers and streams. */
  lemma SlotFrame(c: Connection, i: nat, heap: map<nat, Message>, heap': map<nat, Message>,
                  received: map<Owner, seq<Byte>>, received': map<Owner, seq<Byte>>,
                  history: seq<Message>, history': seq<Message>)
    requires SlotOk(c, i, heap, received, history) && Owned(c)
    requires c.ifnewrecvMem ==>
      c.pnewMemPointer.Some? && c.pnewMemPointer.value in heap && c.pnewMemPointer.value in heap'
      && heap[c.pnewMemPointer.value] == heap'[c.pnewMemPointer.value]
    requires var o := Owner(i, c.iCurrsequence);
      o in received' && received'[o] == received[o] && PacketsOf(history', o) == PacketsOf(history, o)
    ensures SlotOk(c, i, heap', received', history')
  {
    hide Parse, PacketsOf, WellFormed;
  }

  lemma SlotOtherOwner(c: Connection, i: nat, heap: map<nat, Message>,
                       received: map<Owner, seq<Byte>>, history: seq<Message>, o: Owner, s: seq<Byte>)
    requires SlotOk(c, i, heap, received, history) && i != o.slot
    ensures SlotOk(c, i, heap, received[o := s], history)
  {
    hide Parse, PacketsOf;
  }

  // ---------- Receiving bytes ----------

  /** Bytes stored at offset off of a buffer. */
  function Store(b: seq<Byte>, off: nat, bytes: seq<Byte>): (r: seq<Byte>)
    requires off + |bytes| <= |b|
    ensures |r| == |b|
  {
    b[..off] + bytes + b[off + |bytes|..]
  }

  /** The bytes of a receive land inside the buffer, right after those already held. */
  lemma StoreExtends(b: seq<Byte>, off: nat, bytes: seq<Byte>)
    requires off + |bytes| <= |b|
    ensures Store(b, off, bytes)[..off + |bytes|] == b[..off] + bytes
  {
  }

  lemma ReceivePending(received: map<Owner, seq<Byte>>, history: seq<Message>, o: Owner,
                       held: seq<Byte>, bytes: seq<Byte>)
    requires o in received && Parse(received[o]) == Parsed(PacketsOf(history, o), held)
    ensures Pending(received[o := received[o] + bytes], history, o, held + bytes)
  {
    hide Parse, PacketsOf;
    ParseAppend(received[o], bytes);
  }

  lemma ReceiveOwners(cs: seq<Connection>, received: map<Owner, seq<Byte>>, history: seq<Message>,
                      o: Owner, s: seq<Byte>)
    requires OwnersOk(cs, received, history) && EndedOk(cs, received, history)
    requires Current(cs, o) && o in received
    ensures OwnersOk(cs, received[o := s], history) && EndedOk(cs, received[o := s], history)
  {
    hide Parse, PacketsOf;
  }

  /** The packet being filled changes its bytes only. */
  lemma WriteHeap(cs: seq<Connection>, queue: seq<nat>, heap: map<nat, Message>, history: seq<Message>,
                  parsedAt: map<nat, nat>, gets: seq<nat>, closes: seq<nat>, a: nat, pkg: seq<Byte>)
    requires HeapOk(cs, queue, heap) && QueueSuffix(queue, heap, history) && StaleOk(heap, parsedAt, gets, closes)
    requires a in heap && a !in queue
    ensures var heap' := heap[a := heap[a].(pkg := pkg)];
      HeapOk(cs, queue, heap') && QueueSuffix(queue, heap', history) && StaleOk(heap', parsedAt, gets, closes)
  {
    hide Distinct;
    var heap' := heap[a := heap[a].(pkg := pkg)];
    forall b | b in heap'
      ensures b in queue || Receiving(cs, heap'[b].conn, b)
    {
      assert heap'[b].conn == heap[b].conn;
    }
  }

  /** Without a whole frame nothing more is owed. */
  lemma PendingIncomplete(received: map<Owner, seq<Byte>>, history: seq<Message>, o: Owner, x: seq<Byte>)
    requires Pending(received, history, o, x) && FrameLen(x) == 0
    ensures Parse(received[o]) == Parsed(PacketsOf(history, o), x)
  {
    hide Parse, PacketsOf;
    ParseIncomplete(x);
  }

  /** A header with a bad length leaves no packet behind. */
  lemma PendingBadHeader(received: map<Owner, seq<Byte>>, history: seq<Message>, o: Owner, x: seq<Byte>)
    requires Pending(received, history, o, x) && |x| == HEADER_LEN && BadLen(PkgLen(x))
    ensures Parse(received[o]) == Parsed(PacketsOf(history, o), [])
  {
    hide Parse, PacketsOf;
    ParseFrame(x);
    assert x[HEADER_LEN..] == [];
    ParseIncomplete([]);
  }

  /** A whole packet is owed, and enqueueing it settles the debt. */
  lemma PendingPacket(received: map<Owner, seq<Byte>>, history: seq<Message>, o: Owner, m: Message)
    requires Pending(received, history, o, m.pkg) && WellFormed(m.pkg) && Owner(m.conn, m.iCurrsequence) == o
    ensures Parse(received[o]) == Parsed(PacketsOf(history + [m], o), [])
  {
    hide Parse, PacketsOf;
    ParseFrame(m.pkg);
    assert m.pkg[|m.pkg|..] == [] && m.pkg[..|m.pkg|] == m.pkg;
    ParseIncomplete([]);
    PacketsOfSnoc(history, m, o);
  }

  // ---------- Enqueueing and trimming ----------

  /** How many entries the trim drops from a queue of n messages. */
  function TrimCount(n: nat): nat {
    if n < QUEUE_LIMIT then 0 else n - QUEUE_KEEP
  }

  ghost function Elements(s: seq<nat>): set<nat> {
    set a | a in s
  }

  /** The finished packet of slot c moves from the slot to the queue. */
  lemma EnqueueHeap(cs: seq<Connection>, queue: seq<nat>, heap: map<nat, Message>, history: seq<Message>,
                    c: nat, d: Connection)
    requires HeapOk(cs, queue, heap) && QueueSuffix(queue, heap, history)
    requires c < |cs| && Owned(cs[c]) && cs[c].ifnewrecvMem
    requires SameSlot(cs[c], d) && !d.ifnewrecvMem
    ensures var a := cs[c].pnewMemPointer.value;
      && HeapOk(cs[c := d], queue + [a], heap) && Distinct(queue + [a])
      && QueueSuffix(queue + [a], heap, history + [heap[a]])
  {
    var a := cs[c].pnewMemPointer.value;
    var cs', queue' := cs[c := d], queue + [a];
    forall b | b in heap
      ensures b in queue' || Receiving(cs', heap[b].conn, b)
    {
      assert Receiving(cs, heap[b].conn, b) && b != a ==> heap[b].conn != c;
    }
  }

  lemma TrimMembers(queue: seq<nat>, k: nat)
    requires Distinct(queue) && k <= |queue|
    ensures forall b :: b in queue <==> b in Elements(queue[..k]) || b in queue[k..]
    ensures forall b :: b in queue[k..] ==> b !in Elements(queue[..k])
    ensures Distinct(queue[k..])
  {
    assert queue == queue[..k] + queue[k..];
    forall b | b in queue[k..]
      ensures b !in queue[..k]
    {
      var j :| 0 <= j < |queue[k..]| && queue[k..][j] == b;
      assert b == queue[k + j];
    }
  }

  /** Dropping the k oldest queue entries frees exactly their buffers. */
  lemma TrimHeap(cs: seq<Connection>, queue: seq<nat>, heap: map<nat, Message>, k: nat)
    requires HeapOk(cs, queue, heap) && k <= |queue|
    ensures var heap' := heap - Elements(queue[..k]);
      && HeapOk(cs, queue[k..], heap')
      && (forall i :: 0 <= i < |cs| && Owned(cs[i]) && cs[i].ifnewrecvMem ==>
            cs[i].pnewMemPointer.value in heap')
  {
    TrimMembers(queue, k);
    hide Distinct, Elements;
    var queue', heap' := queue[k..], heap - Elements(queue[..k]);
    forall b | b in heap'
      ensures b in queue' || Receiving(cs, heap'[b].conn, b)
    {
      assert b in queue || Receiving(cs, heap[b].conn, b);
    }
  }

  lemma TrimQueue(queue: seq<nat>, heap: map<nat, Message>, history: seq<Message>, k: nat)
    requires QueueSuffix(queue, heap, history) && k <= |queue| && Distinct(queue)
    ensures QueueSuffix(queue[k..], heap - Elements(queue[..k]), history)
  {
    TrimMembers(queue, k);
    hide Distinct, Elements;
    var queue', heap' := queue[k..], heap - Elements(queue[..k]);
    forall j | 0 <= j < |queue'|
      ensures queue'[j] in heap' && heap'[queue'[j]] == history[|history| - |queue'| + j]
    {
      var i := k + j;
      assert queue'[j] == queue[i] && queue'[j] in queue';
      assert heap[queue[i]] == history[|history| - |queue| + i];
    }
  }

  lemma EnqueueOwners(cs: seq<Connection>, received: map<Owner, seq<Byte>>, history: seq<Message>, m: Message)
    requires OwnersOk(cs, received, history) && EndedOk(cs, received, history)
    requires Current(cs, Owner(m.conn, m.iCurrsequence)) && Owner(m.conn, m.iCurrsequence) in received
    ensures OwnersOk(cs, received, history + [m]) && EndedOk(cs, received, history + [m])
  {
    hide Parse, PacketsOf;
    forall o | o in received && !Current(cs, o)
      ensures PacketsOf(history + [m], o) == Parse(received[o]).packets
    {
      PacketsOfSnoc(history, m, o);
    }
  }

  // ---------- The whole state ----------

  /** The fields of the server, and the histories: the free chain, acquisitions and releases of each
      slot, bytes received by each ownership, messages ever enqueued, closes of its slot when a
      buffer's header was parsed, and the pointers handed to epoll. */
  datatype Net = Net(
    cs: seq<Connection>, head: Option<nat>, n: int, queue: seq<nat>, heap: map<nat, Message>,
    free: seq<nat>, gets: seq<nat>, closes: seq<nat>, received: map<Owner, seq<Byte>>,
    history: seq<Message>, parsedAt: map<nat, nat>, tags: set<Tag>)

  /** Everything but the reassembly state of the slots. */
  ghost predicate Core(s: Net) {
    && PoolOk(s.cs, s.head, s.n, s.free)
    && CountsOk(s.cs, s.gets, s.closes)
    && HeapOk(s.cs, s.queue, s.heap)
    && |s.queue| < QUEUE_LIMIT
    && QueueSuffix(s.queue, s.heap, s.history)
    && StaleOk(s.heap, s.parsedAt, s.gets, s.closes)
    && TagsOk(s.tags, s.gets)
    && OwnersOk(s.cs, s.received, s.history)
    && EndedOk(s.cs, s.received, s.history)
  }

  ghost predicate SlotsOkBut(s: Net, c: int) {
    forall i :: 0 <= i < |s.cs| && i != c ==> SlotOk(s.cs[i], i, s.heap, s.received, s.history)
  }

  /** The invariant of the running server. */
  ghost predicate Inv(s: Net) {
    Core(s) && SlotsOkBut(s, -1)
  }

  lemma FreeHeadExact(s: Net)
    requires Inv(s)
    ensures s.head.None? <==> s.free == []
  {
    PoolHead(s.cs, s.head, s.n, s.free);
  }

  /** The state after a slot has been taken for socket isock. */
  ghost function Acquired(s: Net, isock: nat): Net
    requires s.head.Some? && s.head.value < |s.cs| && s.head.value < |s.gets| && s.free != []
  {
    var c := s.head.value;
    var d := NewConnection(isock, 1 - s.cs[c].instance, s.cs[c].iCurrsequence + 1);
    s.(cs := s.cs[c := d], head := s.cs[c].data, n := s.n - 1, free := s.free[1..],
       gets := s.gets[c := s.gets[c] + 1], received := s.received[Owner(c, d.iCurrsequence) := []])
  }

  lemma AcquireKeeps(s: Net, isock: nat)
    requires Inv(s) && s.head.Some?
    ensures s.head.value < |s.cs| == |s.gets| && s.free != [] && !Owned(s.cs[s.head.value])
    ensures Inv(Acquired(s, isock))
  {
    hide PoolOk, CountsOk, StaleOk, TagsOk, HeapOk, QueueSuffix, OwnersOk, EndedOk, SlotOk, Parse, PacketsOf;
    var c := s.head.value;
    PoolHead(s.cs, s.head, s.n, s.free);
    AcquireCounts(s.cs, s.gets, s.closes, s.heap, s.parsedAt, s.tags, c, isock);
    var d := NewConnection(isock, 1 - s.cs[c].instance, s.cs[c].iCurrsequence + 1);
    AcquirePool(s.cs, s.head, s.n, s.free, c, d);
    AcquireHeap(s.cs, s.queue, s.heap, c, d);
    AcquireOwners(s.cs, s.received, s.history, c, d);
    var t := Acquired(s, isock);
    forall i | 0 <= i < |s.cs|
      ensures SlotOk(t.cs[i], i, t.heap, t.received, t.history)
    {
      if i == c {
        NewSlotOk(c, isock, d.instance, d.iCurrsequence, t.heap, t.received, t.history);
      } else {
        SlotOtherOwner(s.cs[i], i, s.heap, s.received, s.history, Owner(c, d.iCurrsequence), []);
      }
    }
  }

  /** Slot c as `free_connection` leaves it, in front of the free list head. */
  function FreedSlot(c: Connection, head: Option<nat>): Connection {
    var d := c.(data := head, iCurrsequence := c.iCurrsequence + 1);
    if c.ifnewrecvMem then d.(ifnewrecvMem := false, pnewMemPointer := None) else d
  }

  function ClosedSlot(c: Connection, head: Option<nat>): Connection {
    FreedSlot(c.(fd := -1), head)
  }

  /** The state after slot c has been closed. */
  ghost function Released(s: Net, c: nat): Net
    requires c < |s.cs| && c < |s.closes|
  {
    s.(cs := s.cs[c := ClosedSlot(s.cs[c], s.head)], head := Some(c), n := s.n + 1,
       heap := s.heap - Held(s.cs[c]), free := [c] + s.free,
       closes := s.closes[c := s.closes[c] + 1], parsedAt := s.parsedAt - Held(s.cs[c]))
  }

  lemma ReleaseKeeps(s: Net, c: nat)
    requires Inv(s) && c < |s.cs| && Owned(s.cs[c])
    ensures |s.closes| == |s.cs|
    ensures s.cs[c].ifnewrecvMem ==> s.cs[c].pnewMemPointer.Some? && s.cs[c].pnewMemPointer.value in s.heap
    ensures Inv(Released(s, c))
  {
    hide PoolOk, CountsOk, StaleOk, TagsOk, HeapOk, QueueSuffix, OwnersOk, EndedOk, SlotOk, Parse, PacketsOf;
    SlotSettled(s.cs[c], c, s.heap, s.received, s.history);
    var d, dropped := ClosedSlot(s.cs[c], s.head), Held(s.cs[c]);
    ReleasePool(s.cs, s.head, s.n, s.free, c, d);
    ReleaseCounts(s.cs, s.gets, s.closes, s.heap, s.parsedAt, dropped, c, d);
    ReleaseHeap(s.cs, s.queue, s.heap, c, d, dropped);
    ReleaseOwners(s.cs, s.received, s.history, c, d);
    DropKeepsQueue(s.queue, s.heap, s.history, dropped);
    var t := Released(s, c);
    forall i | 0 <= i < |s.cs|
      ensures SlotOk(t.cs[i], i, t.heap, t.received, t.history)
    {
      if i == c {
        FreeSlotOk(d, c, t.heap, t.received, t.history);
      } else {
        SlotSettled(s.cs[i], i, s.heap, s.received, s.history);
        DropKeepsSlot(s.cs[i], i, s.heap, dropped, s.received, s.history);
      }
    }
  }

  // ---------- Reassembly ----------

  ghost function OwnerOf(s: Net, c: nat): Owner
    requires c < |s.cs|
  {
    Owner(c, s.cs[c].iCurrsequence)
  }

  /** In the middle of handling slot c: everything holds but the slot's own cursor, and the packets
      of x, the bytes it holds, are still owed. */
  ghost predicate Mid(s: Net, c: nat, x: seq<Byte>) {
    && c < |s.cs| && Owned(s.cs[c])
    && Core(s) && SlotsOkBut(s, c)
    && Pending(s.received, s.history, OwnerOf(s, c), x)
  }

  /** The state after `recv` has put bytes at the cursor of slot c. */
  ghost function Received(s: Net, c: nat, bytes: seq<Byte>): Net
    requires c < |s.cs| && CursorOk(s.cs[c], s.heap) && |bytes| <= s.cs[c].irecvlen
    requires OwnerOf(s, c) in s.received
  {
    var o := OwnerOf(s, c);
    var t := s.(received := s.received[o := s.received[o] + bytes]);
    match s.cs[c].precvbuf
    case InHead(off) =>
      t.(cs := s.cs[c := s.cs[c].(dataHeadInfo := Store(s.cs[c].dataHeadInfo, off, bytes))])
    case InPacket(buf, off) =>
      t.(heap := s.heap[buf := s.heap[buf].(pkg := Store(s.heap[buf].pkg, off, bytes))])
  }

  lemma ReceiveHeadKeeps(s: Net, c: nat, bytes: seq<Byte>)
    requires Inv(s) && c < |s.cs| && Owned(s.cs[c]) && !s.cs[c].ifnewrecvMem
    requires CursorOk(s.cs[c], s.heap) && OwnerOf(s, c) in s.received && |bytes| <= s.cs[c].irecvlen
    ensures var t := Received(s, c, bytes);
      && SameSlot(s.cs[c], t.cs[c])
      && CursorOk(t.cs[c], t.heap)
      && Mid(t, c, Filled(t.cs[c], t.heap, |bytes|))
  {
    hide PoolOk, CountsOk, StaleOk, TagsOk, HeapOk, QueueSuffix, OwnersOk, EndedOk, Parse, PacketsOf;
    var t, o := Received(s, c, bytes), OwnerOf(s, c);
    var d, off := t.cs[c], s.cs[c].precvbuf.off;
    UpdatePool(s.cs, s.head, s.n, s.free, s.gets, s.closes, c, d);
    UpdateOwners(s.cs, s.received, s.history, c, d);
    UpdateHeap(s.cs, s.queue, s.heap, c, d);
    ReceiveOwners(t.cs, s.received, s.history, o, t.received[o]);
    StoreExtends(s.cs[c].dataHeadInfo, off, bytes);
    ReceivePending(s.received, s.history, o, Filled(s.cs[c], s.heap, 0), bytes);
    hide SlotOk;
    forall i | 0 <= i < |t.cs| && i != c
      ensures SlotOk(t.cs[i], i, t.heap, t.received, t.history)
    {
      SlotOtherOwner(s.cs[i], i, s.heap, s.received, s.history, o, t.received[o]);
    }
  }

  lemma OtherBuffers(s: Net, c: nat, i: nat)
    requires HeapOk(s.cs, s.queue, s.heap)
    requires c < |s.cs| && Owned(s.cs[c]) && s.cs[c].ifnewrecvMem && s.cs[c].pnewMemPointer.Some?
    requires i < |s.cs| && i != c && Owned(s.cs[i]) && s.cs[i].ifnewrecvMem
    ensures s.cs[i].pnewMemPointer.Some? && s.cs[i].pnewMemPointer != s.cs[c].pnewMemPointer
    ensures s.cs[i].pnewMemPointer.value in s.heap
  {
  }

  lemma HeldBuffer(s: Net, c: nat)
    requires HeapOk(s.cs, s.queue, s.heap) && c < |s.cs| && Owned(s.cs[c]) && s.cs[c].ifnewrecvMem
    ensures s.cs[c].pnewMemPointer.Some?
    ensures var a := s.cs[c].pnewMemPointer.value;
      a in s.heap && a !in s.queue && s.heap[a].conn == c && s.heap[a].iCurrsequence == s.cs[c].iCurrsequence
  {
  }

  lemma ReceiveBodyKeeps(s: Net, c: nat, bytes: seq<Byte>)
    requires Inv(s) && c < |s.cs| && Owned(s.cs[c]) && s.cs[c].ifnewrecvMem
    requires CursorOk(s.cs[c], s.heap) && OwnerOf(s, c) in s.received && |bytes| <= s.cs[c].irecvlen
    ensures var t := Received(s, c, bytes);
      && SameSlot(s.cs[c], t.cs[c])
      && CursorOk(t.cs[c], t.heap)
      && Mid(t, c, Filled(t.cs[c], t.heap, |bytes|))
  {
    hide PoolOk, CountsOk, StaleOk, TagsOk, HeapOk, QueueSuffix, OwnersOk, EndedOk, Parse, PacketsOf;
    var t, o := Received(s, c, bytes), OwnerOf(s, c);
    var a, off := s.cs[c].pnewMemPointer.value, s.cs[c].precvbuf.off;
    var pkg := s.heap[a].pkg;
    HeldBuffer(s, c);
    WriteHeap(s.cs, s.queue, s.heap, s.history, s.parsedAt, s.gets, s.closes, a, Store(pkg, off, bytes));
    ReceiveOwners(t.cs, s.received, s.history, o, t.received[o]);
    StoreExtends(pkg, off, bytes);
    assert t.heap[a].pkg[..HEADER_LEN] == pkg[..HEADER_LEN];
    assert PkgLen(t.heap[a].pkg) == PkgLen(pkg);
    ReceivePending(s.received, s.history, o, Filled(s.cs[c], s.heap, 0), bytes);
    forall i | 0 <= i < |t.cs| && i != c
      ensures SlotOk(t.cs[i], i, t.heap, t.received, t.history)
    {
      if Owned(s.cs[i]) {
        if s.cs[i].ifnewrecvMem {
          OtherBuffers(s, c, i);
        }
        SlotFrame(s.cs[i], i, s.heap, t.heap, s.received, t.received, s.history, t.history);
      }
    }
  }

  /** The cursor of slot c is set to where the held bytes x end, x being no whole frame. */
  lemma SettleKeeps(s: Net, c: nat, d: Connection, x: seq<Byte>)
    requires Mid(s, c, x) && FrameLen(x) == 0
    requires SameSlot(s.cs[c], d) && d.ifnewrecvMem == s.cs[c].ifnewrecvMem
    requires d.pnewMemPointer == s.cs[c].pnewMemPointer
    requires CursorOk(d, s.heap) && Filled(d, s.heap, 0) == x
    ensures Inv(s.(cs := s.cs[c := d]))
  {
    hide PoolOk, CountsOk, StaleOk, TagsOk, HeapOk, QueueSuffix, OwnersOk, EndedOk;
    hide Parse, PacketsOf, CursorOk, Filled, FrameLen;
    UpdatePool(s.cs, s.head, s.n, s.free, s.gets, s.closes, c, d);
    UpdateOwners(s.cs, s.received, s.history, c, d);
    UpdateHeap(s.cs, s.queue, s.heap, c, d);
    PendingIncomplete(s.received, s.history, OwnerOf(s, c), x);
  }

  /** The state after a buffer for the packet of slot c has been allocated and its headers filled. */
  ghost function Allocated(s: Net, c: nat, buf: nat, pkg: seq<Byte>): Net
    requires c < |s.cs| && c < |s.closes|
  {
    s.(cs := s.cs[c := s.cs[c].(ifnewrecvMem := true, pnewMemPointer := Some(buf))],
       heap := s.heap[buf := Message(c, s.cs[c].iCurrsequence, pkg)],
       parsedAt := s.parsedAt[buf := s.closes[c]])
  }

  lemma AllocHeap(s: Net, c: nat, buf: nat, pkg: seq<Byte>)
    requires HeapOk(s.cs, s.queue, s.heap) && QueueSuffix(s.queue, s.heap, s.history)
    requires c < |s.cs| == |s.closes| && Owned(s.cs[c]) && !s.cs[c].ifnewrecvMem && buf !in s.heap
    ensures var t := Allocated(s, c, buf, pkg);
      HeapOk(t.cs, t.queue, t.heap) && QueueSuffix(t.queue, t.heap, t.history)
  {
    hide Distinct;
    var t := Allocated(s, c, buf, pkg);
    forall a | a in t.heap
      ensures a in t.queue || Receiving(t.cs, t.heap[a].conn, a)
    {
      assert a != buf && Receiving(s.cs, s.heap[a].conn, a) ==> s.heap[a].conn != c;
    }
  }

  lemma AllocStale(s: Net, c: nat, buf: nat, pkg: seq<Byte>)
    requires CountsOk(s.cs, s.gets, s.closes) && StaleOk(s.heap, s.parsedAt, s.gets, s.closes)
    requires c < |s.cs| && Owned(s.cs[c])
    ensures |s.closes| == |s.cs|
    ensures var t := Allocated(s, c, buf, pkg); StaleOk(t.heap, t.parsedAt, t.gets, t.closes)
  {
  }

  lemma AllocKeeps(s: Net, c: nat, x: seq<Byte>, buf: nat, pkg: seq<Byte>)
    requires Mid(s, c, x) && !s.cs[c].ifnewrecvMem && buf !in s.heap
    ensures |s.closes| == |s.cs|
    ensures Mid(Allocated(s, c, buf, pkg), c, x)
  {
    hide PoolOk, CountsOk, StaleOk, TagsOk, HeapOk, QueueSuffix, OwnersOk, EndedOk, Parse, PacketsOf;
    AllocStale(s, c, buf, pkg);
    AllocHeap(s, c, buf, pkg);
    var t := Allocated(s, c, buf, pkg);
    UpdatePool(s.cs, s.head, s.n, s.free, s.gets, s.closes, c, t.cs[c]);
    UpdateOwners(s.cs, s.received, s.history, c, t.cs[c]);
    forall i | 0 <= i < |t.cs| && i != c
      ensures SlotOk(t.cs[i], i, t.heap, t.received, t.history)
    {
      SlotSettled(s.cs[i], i, s.heap, s.received, s.history);
      if Owned(s.cs[i]) {
        SlotFrame(s.cs[i], i, s.heap, t.heap, s.received, t.received, s.history, t.history);
      }
    }
  }

  /** Slot c with its cursor back at the start of a header. */
  function Rewound(c: Connection): Connection {
    c.(curStat := HdInit, precvbuf := InHead(0), irecvlen := HEADER_LEN)
  }

  /** Slot c ready for the next packet. */
  function IdleSlot(c: Connection): Connection {
    Rewound(c.(ifnewrecvMem := false, pnewMemPointer := None))
  }

  /** Slot c ready for the body of the packet in buffer buf. */
  function BodySlot(c: Connection, buf: nat, n: nat): Connection
    requires n >= HEADER_LEN
  {
    c.(curStat := BdInit, precvbuf := InPacket(buf, HEADER_LEN), irecvlen := n - HEADER_LEN)
  }

  /** The state after a whole header of slot c has been handled, pkg being the content of the new
      buffer buf. */
  ghost function HeaderHandled(s: Net, c: nat, buf: nat, pkg: seq<Byte>): Net
    requires c < |s.cs| == |s.closes|
  {
    var n := PkgLen(s.cs[c].dataHeadInfo);
    if BadLen(n) then s.(cs := s.cs[c := Rewound(s.cs[c])])
    else if n == HEADER_LEN then Enqueued(Allocated(s, c, buf, pkg), c)
    else
      var t := Allocated(s, c, buf, pkg);
      t.(cs := t.cs[c := BodySlot(t.cs[c], buf, n)])
  }

  lemma HeaderDropped(s: Net, c: nat, buf: nat, pkg: seq<Byte>)
    requires c < |s.cs| == |s.closes| && BadLen(PkgLen(s.cs[c].dataHeadInfo))
    ensures HeaderHandled(s, c, buf, pkg) == s.(cs := s.cs[c := Rewound(s.cs[c])])
  {
  }

  /** Handling a header in plain terms: its first two bytes, the higher first, are a length from 8 to 29000
      and the slot waits for the rest of a packet so long or has queued one of 8 bytes, or else nothing but the
      slot's phase has changed. */
  lemma HeaderHandledIs(s: Net, c: nat, buf: nat, pkg: seq<Byte>)
    requires c < |s.cs| == |s.closes|
    requires !BadLen(PkgLen(s.cs[c].dataHeadInfo)) ==>
      buf !in s.heap && WellFormed(pkg) && pkg[..HEADER_LEN] == s.cs[c].dataHeadInfo[..HEADER_LEN]
    ensures var d := s.cs[c].dataHeadInfo; var n: int := 256 * d[0] as int + d[1] as int;
      var t := HeaderHandled(s, c, buf, pkg);
      && |t.cs| == |s.cs|
      && if n < 8 || n > 29000 then
           && t.heap == s.heap && t.queue == s.queue && t.history == s.history
           && t.cs[c].curStat == HdInit && t.cs[c].precvbuf == InHead(0) && t.cs[c].irecvlen == 8
         else
           && |pkg| == n && pkg[..8] == d[..8]
           && if n == 8 then
                && t.history == s.history + [Message(c, s.cs[c].iCurrsequence, pkg)]
                && t.cs[c].curStat == HdInit && t.cs[c].precvbuf == InHead(0) && t.cs[c].irecvlen == 8
              else
                && buf in t.heap && t.heap[buf] == Message(c, s.cs[c].iCurrsequence, pkg) && t.queue == s.queue
                && t.cs[c].curStat == BdInit && t.cs[c].precvbuf == InPacket(buf, 8) && t.cs[c].irecvlen == n - 8
  {
    if !BadLen(PkgLen(s.cs[c].dataHeadInfo)) {
      assert pkg[0] == pkg[..HEADER_LEN][0] && pkg[1] == pkg[..HEADER_LEN][1];
    }
  }

  /** What handling the receipt of bytes on slot c may change: the receive state of that slot, the
      bytes received by its owner, and at most one more message in the history. */
  ghost predicate Handled(s: Net, t: Net, c: nat, bytes: seq<Byte>) {
    && c < |s.cs| == |t.cs|
    && SameSlot(s.cs[c], t.cs[c])
    && s.cs[c].rhandler == t.cs[c].rhandler && s.cs[c].listening == t.cs[c].listening
    && (forall i :: 0 <= i < |s.cs| && i != c ==> t.cs[i] == s.cs[i])
    && OwnerOf(s, c) in s.received
    && t.received == s.received[OwnerOf(s, c) := s.received[OwnerOf(s, c)] + bytes]
    && t.gets == s.gets && t.closes == s.closes && t.free == s.free && t.tags == s.tags
    && s.history <= t.history && |t.history| <= |s.history| + 1
    && QueueGrows(s, t)
  }

  /** Without a new message the queue stays; with one it is one longer, or 500 long if it would have
      1000. */
  ghost predicate QueueGrows(s: Net, t: Net) {
    if t.history == s.history then t.queue == s.queue
    else |t.queue| == if |s.queue| + 1 < 1000 then |s.queue| + 1 else 500
  }

  /** The state after the finished packet of slot c has entered the queue and the queue has been
      trimmed. */
  ghost function Enqueued(s: Net, c: nat): Net
    requires c < |s.cs| && s.cs[c].pnewMemPointer.Some? && s.cs[c].pnewMemPointer.value in s.heap
  {
    var a := s.cs[c].pnewMemPointer.value;
    var all := s.queue + [a];
    var k := TrimCount(|all|);
    s.(cs := s.cs[c := IdleSlot(s.cs[c])], queue := all[k..], heap := s.heap - Elements(all[..k]),
       history := s.history + [s.heap[a]], parsedAt := s.parsedAt - Elements(all[..k]))
  }

  lemma MidSizes(s: Net, c: nat, x: seq<Byte>)
    requires Mid(s, c, x)
    ensures |s.closes| == |s.gets| == |s.cs| && |s.queue| < QUEUE_LIMIT
  {
  }

  /** A header with a bad length is dropped. */
  lemma BadHeaderKeeps(s: Net, c: nat)
    requires c < |s.cs| && Mid(s, c, s.cs[c].dataHeadInfo[..HEADER_LEN]) && !s.cs[c].ifnewrecvMem
    requires BadLen(PkgLen(s.cs[c].dataHeadInfo))
    ensures Inv(s.(cs := s.cs[c := Rewound(s.cs[c])]))
  {
    hide Core, SlotsOkBut, Parse, PacketsOf;
    PendingBadHeader(s.received, s.history, OwnerOf(s, c), s.cs[c].dataHeadInfo[..HEADER_LEN]);
    ParseIncomplete([]);
    SettleKeeps(s, c, Rewound(s.cs[c]), []);
  }

  /** After a good header the slot waits for the body. */
  lemma GoodHeaderKeeps(s: Net, c: nat, buf: nat, pkg: seq<Byte>)
    requires c < |s.cs| && Mid(s, c, s.cs[c].dataHeadInfo[..HEADER_LEN]) && !s.cs[c].ifnewrecvMem
    requires WellFormed(pkg) && pkg[..HEADER_LEN] == s.cs[c].dataHeadInfo[..HEADER_LEN] && buf !in s.heap
    ensures |s.closes| == |s.cs|
    ensures |pkg| > HEADER_LEN ==> Inv(HeaderHandled(s, c, buf, pkg))
    ensures |pkg| == HEADER_LEN ==> Mid(Allocated(s, c, buf, pkg), c, pkg)
  {
    hide Core, SlotsOkBut, Parse, PacketsOf, Pending;
    var x := s.cs[c].dataHeadInfo[..HEADER_LEN];
    AllocKeeps(s, c, x, buf, pkg);
    assert PkgLen(s.cs[c].dataHeadInfo) == PkgLen(x) == PkgLen(pkg) == |pkg|;
    if |pkg| > HEADER_LEN {
      var t := Allocated(s, c, buf, pkg);
      SettleKeeps(t, c, BodySlot(t.cs[c], buf, |pkg|), x);
    } else {
      assert pkg == x;
    }
  }

  lemma EnqueueKeeps(s: Net, c: nat)
    requires c < |s.cs| && s.cs[c].ifnewrecvMem
    requires s.cs[c].pnewMemPointer.Some? && s.cs[c].pnewMemPointer.value in s.heap
    requires var pkg := s.heap[s.cs[c].pnewMemPointer.value].pkg; WellFormed(pkg) && Mid(s, c, pkg)
    ensures Inv(Enqueued(s, c))
  {
    hide PoolOk, CountsOk, StaleOk, TagsOk, HeapOk, QueueSuffix, OwnersOk, EndedOk, Parse, PacketsOf;
    var a, o, d := s.cs[c].pnewMemPointer.value, OwnerOf(s, c), IdleSlot(s.cs[c]);
    var all := s.queue + [a];
    var k := TrimCount(|all|);
    var t := Enqueued(s, c);
    HeldBuffer(s, c);
    EnqueueHeap(s.cs, s.queue, s.heap, s.history, c, d);
    TrimHeap(t.cs, all, s.heap, k);
    TrimQueue(all, s.heap, t.history, k);
    TrimStale(s.heap, s.parsedAt, s.gets, s.closes, Elements(all[..k]));
    UpdatePool(s.cs, s.head, s.n, s.free, s.gets, s.closes, c, d);
    EnqueueOwners(s.cs, s.received, s.history, s.heap[a]);
    UpdateOwners(s.cs, s.received, t.history, c, d);
    PendingPacket(s.received, s.history, o, s.heap[a]);
    forall i | 0 <= i < |t.cs|
      ensures SlotOk(t.cs[i], i, t.heap, t.received, t.history)
    {
      if i != c && Owned(s.cs[i]) {
        assert t.cs[i] == s.cs[i];
        SlotSettled(s.cs[i], i, s.heap, s.received, s.history);
        PacketsOfSnoc(s.history, s.heap[a], Owner(i, s.cs[i].iCurrsequence));
        SlotFrame(s.cs[i], i, s.heap, t.heap, s.received, t.received, s.history, t.history);
      }
    }
  }

  lemma TrimStale(heap: map<nat, Message>, parsedAt: map<nat, nat>, gets: seq<nat>, closes: seq<nat>, gone: set<nat>)
    requires StaleOk(heap, parsedAt, gets, closes)
    ensures StaleOk(heap - gone, parsedAt - gone, gets, closes)
  {
  }

  function AdvancePtr(p: RecvPtr, n: nat): RecvPtr {
    match p
    case InHead(off) => InHead(off + n)
    case InPacket(buf, off) => InPacket(buf, off + n)
  }

  /** Slot c after n more bytes that do not complete its header or body. */
  function Advanced(c: Connection, n: nat): Connection
    requires n <= c.irecvlen
  {
    c.(curStat := match c.curStat
                  case HdInit => HdRecving
                  case BdInit => BdRecving
                  case other => other,
       precvbuf := AdvancePtr(c.precvbuf, n), irecvlen := c.irecvlen - n)
  }

  lemma AdvanceKeeps(s: Net, c: nat, n: nat)
    requires c < |s.cs| && CursorOk(s.cs[c], s.heap) && 1 <= n < s.cs[c].irecvlen
    requires Mid(s, c, Filled(s.cs[c], s.heap, n))
    ensures Inv(s.(cs := s.cs[c := Advanced(s.cs[c], n)]))
  {
    hide Core, SlotsOkBut, Parse, PacketsOf, Pending;
    SettleKeeps(s, c, Advanced(s.cs[c], n), Filled(s.cs[c], s.heap, n));
  }

  /** Handling in two parts: receiving the bytes, then acting on what is held. */
  lemma HandledInTwo(s: Net, t: Net, u: Net, c: nat, bytes: seq<Byte>)
    requires Handled(s, t, c, bytes) && t.history == s.history
    requires Handled(t, u, c, [])
    ensures Handled(s, u, c, bytes)
  {
    var o := OwnerOf(s, c);
    assert t.received[o] + [] == t.received[o];
    assert u.received == t.received;
  }

  lemma ReceivedIsHandled(s: Net, c: nat, bytes: seq<Byte>)
    requires c < |s.cs| && CursorOk(s.cs[c], s.heap) && |bytes| <= s.cs[c].irecvlen
    requires OwnerOf(s, c) in s.received
    ensures Handled(s, Received(s, c, bytes), c, bytes) && Received(s, c, bytes).history == s.history
  {
  }

  /** Replacing slot c by one with the same identity, and changing queue and buffers, is a step of
      handling slot c. */
  lemma UpdateIsHandled(s: Net, t: Net, c: nat)
    requires c < |s.cs| && OwnerOf(s, c) in s.received
    requires |t.cs| == |s.cs| && t.cs == s.cs[c := t.cs[c]] && SameSlot(s.cs[c], t.cs[c])
    requires s.cs[c].rhandler == t.cs[c].rhandler && s.cs[c].listening == t.cs[c].listening
    requires t.received == s.received && s.history <= t.history && |t.history| <= |s.history| + 1
    requires t.gets == s.gets && t.closes == s.closes && t.free == s.free && t.tags == s.tags
    requires QueueGrows(s, t)
    ensures Handled(s, t, c, [])
  {
    assert s.received[OwnerOf(s, c)] + [] == s.received[OwnerOf(s, c)];
  }

  lemma SlotHasOwner(s: Net, c: nat)
    requires Inv(s) && c < |s.cs| && Owned(s.cs[c])
    ensures OwnerOf(s, c) in s.received && CursorOk(s.cs[c], s.heap)
    ensures |s.closes| == |s.gets| == |s.cs|
  {
  }

  /** What slot c holds once n bytes have arrived at its cursor. */
  lemma HeldAfterReceive(s: Net, c: nat, n: nat)
    requires c < |s.cs| && CursorOk(s.cs[c], s.heap) && 1 <= n <= s.cs[c].irecvlen
    requires Mid(s, c, Filled(s.cs[c], s.heap, n))
    ensures |s.closes| == |s.cs| && OwnerOf(s, c) in s.received && |s.queue| < QUEUE_LIMIT
    ensures s.cs[c].ifnewrecvMem <==> s.cs[c].curStat.BdInit? || s.cs[c].curStat.BdRecving?
    ensures s.cs[c].curStat.HdInit? ==> s.cs[c].irecvlen == HEADER_LEN
    ensures n == s.cs[c].irecvlen && !s.cs[c].ifnewrecvMem ==> Mid(s, c, s.cs[c].dataHeadInfo[..HEADER_LEN])
    ensures s.cs[c].ifnewrecvMem ==> s.cs[c].pnewMemPointer.Some? && s.cs[c].pnewMemPointer.value in s.heap
    ensures n == s.cs[c].irecvlen && s.cs[c].ifnewrecvMem ==>
      var pkg := s.heap[s.cs[c].pnewMemPointer.value].pkg; WellFormed(pkg) && Mid(s, c, pkg)
  {
    hide Core, SlotsOkBut, Pending, Parse, PacketsOf;
    MidSizes(s, c, Filled(s.cs[c], s.heap, n));
    MidOwner(s, c, Filled(s.cs[c], s.heap, n));
    if s.cs[c].ifnewrecvMem {
      var pkg := s.heap[s.cs[c].pnewMemPointer.value].pkg;
      assert pkg[..|pkg|] == pkg;
    }
  }

  lemma MidOwner(s: Net, c: nat, x: seq<Byte>)
    requires Mid(s, c, x)
    ensures OwnerOf(s, c) in s.received
  {
  }

  lemma EnqueuedIsHandled(s: Net, c: nat)
    requires c < |s.cs| && s.cs[c].pnewMemPointer.Some? && s.cs[c].pnewMemPointer.value in s.heap
    requires OwnerOf(s, c) in s.received && |s.queue| < QUEUE_LIMIT
    ensures Handled(s, Enqueued(s, c), c, [])
  {
    UpdateIsHandled(s, Enqueued(s, c), c);
  }

  lemma HeaderIsHandled(s: Net, c: nat, buf: nat, pkg: seq<Byte>)
    requires c < |s.cs| == |s.closes| && OwnerOf(s, c) in s.received && |s.queue| < QUEUE_LIMIT
    ensures Handled(s, HeaderHandled(s, c, buf, pkg), c, [])
  {
    UpdateIsHandled(s, HeaderHandled(s, c, buf, pkg), c);
  }

  // ---------- Accepting, events and start-up ----------

  /** Slot c tied to a listening socket, with its read handler; a client's slot is also marked ready
      for writing. */
  function Labelled(c: Connection, listening: Option<nat>, handler: Handler): Connection {
    c.(listening := listening, wReady := c.wReady || handler.RequestHandler?, rhandler := handler)
  }

  lemma LabelOwned(c: Connection, listening: Option<nat>, handler: Handler)
    ensures Owned(Labelled(c, listening, handler)) <==> Owned(c)
  {
  }

  lemma LabelKeeps(s: Net, c: nat, listening: Option<nat>, handler: Handler)
    requires Inv(s) && c < |s.cs|
    ensures Inv(s.(cs := s.cs[c := Labelled(s.cs[c], listening, handler)]))
  {
    hide PoolOk, CountsOk, StaleOk, TagsOk, HeapOk, QueueSuffix, OwnersOk, EndedOk, Parse, PacketsOf;
    var d := Labelled(s.cs[c], listening, handler);
    UpdatePool(s.cs, s.head, s.n, s.free, s.gets, s.closes, c, d);
    UpdateOwners(s.cs, s.received, s.history, c, d);
    UpdateHeap(s.cs, s.queue, s.heap, c, d);
  }

  lemma TagKeeps(s: Net, c: nat)
    requires Inv(s) && c < |s.cs|
    ensures |s.gets| == |s.cs|
    ensures Inv(s.(tags := s.tags + {Tag(TagPtr(c, s.cs[c].instance), c, s.gets[c])}))
  {
    hide PoolOk, StaleOk, HeapOk, QueueSuffix, OwnersOk, EndedOk, SlotOk, InstanceOf, TagPtr;
  }

  /** The answer of `setnonblocking`, from what ioctl returned. */
  predicate SetNonBlocking(ioctl: int) {
    ioctl != 1
  }

  /** Whether the new socket is taken for a non-blocking one: accept4 makes it so itself. */
  predicate NonBlocking(useAccept4: bool, io: Outcome) {
    (useAccept4 && !io.first.NoSys?) || SetNonBlocking(io.ioctl)
  }

  /** ioctl returns 0, or -1 when it has failed. The answer is right exactly when it has not failed: a
      failure passes as success, and the new socket keeps its slot and is left blocking. */
  lemma FailureUnseen(s: Net, oldc: nat, fd: nat, useAccept4: bool, io: Outcome)
    requires Inv(s) && s.head.Some? && oldc < |s.cs| && io.added && (io.ioctl == 0 || io.ioctl == -1)
    ensures (SetNonBlocking(io.ioctl) <==> io.ioctl == 0) <==> io.ioctl == 0
    ensures s.head.value < |s.cs| == |s.gets| == |s.closes| && s.free != []
    ensures Owned(AcceptedInto(s, oldc, fd, NonBlocking(useAccept4, io), true).cs[s.head.value])
  {
    hide Inv;
    NetSizes(s);
    AcquireKeeps(s, fd);
  }

  /** The state after an accepted socket fd was given the first free slot, kept or given back. */
  ghost function AcceptedInto(s: Net, oldc: nat, fd: nat, nonblocking: bool, added: bool): Net
    requires s.head.Some? && s.head.value < |s.cs| && s.head.value < |s.gets| && s.free != []
    requires oldc < |s.cs| && |s.closes| == |s.cs|
  {
    var c := s.head.value;
    var t := Acquired(s, fd);
    if !nonblocking then Released(t, c)
    else
      var u := t.(cs := t.cs[c := Labelled(t.cs[c], t.cs[oldc].listening, RequestHandler)]);
      if added then u.(tags := u.tags + {Tag(TagPtr(c, u.cs[c].instance), c, u.gets[c])})
      else Released(u, c)
  }

  /** A socket that cannot be made ready costs the pool nothing: its slot is the first free one
      again, under a new sequence number, and no other slot has changed. */
  lemma GivenBack(s: Net, oldc: nat, fd: nat, nonblocking: bool, added: bool)
    requires Inv(s) && s.head.Some? && oldc < |s.cs| && !(nonblocking && added)
    ensures s.head.value < |s.cs| == |s.gets| == |s.closes| && s.free != []
    ensures var t, c := AcceptedInto(s, oldc, fd, nonblocking, added), s.head.value;
      && t.free == s.free && t.head == s.head && t.n == s.n && t.heap == s.heap && t.queue == s.queue
      && t.cs[c].iCurrsequence == s.cs[c].iCurrsequence + 2 && !Owned(t.cs[c])
      && forall i :: 0 <= i < |s.cs| && i != c ==> t.cs[i] == s.cs[i]
  {
    hide Inv, CountsOk;
    AcquireKeeps(s, fd);
    FreeHeadExact(s);
    NetSizes(s);
  }

  /** Every owned slot has a read handler. */
  ghost predicate Ready(s: Net) {
    forall i :: 0 <= i < |s.cs| && Owned(s.cs[i]) ==> s.cs[i].rhandler != NoHandler
  }

  lemma AcceptedReady(s: Net, oldc: nat, fd: nat, nonblocking: bool, added: bool)
    requires Inv(s) && Ready(s) && s.head.Some? && oldc < |s.cs|
    ensures s.head.value < |s.cs| == |s.gets| == |s.closes| && s.free != []
    ensures Ready(AcceptedInto(s, oldc, fd, nonblocking, added))
    ensures |Acquired(s, fd).cs| == |s.cs| && Owned(Acquired(s, fd).cs[s.head.value])
  {
    hide Inv;
    NetSizes(s);
    AcquireKeeps(s, fd);
  }

  /** What a read event on client slot c does: nothing on a retryable error, a release on another error
      or the end of the stream, else as many of the waiting bytes as the slot asks for are handled. */
  ghost predicate Served(s: Net, t: Net, c: nat, r: RecvResult)
    requires c < |s.cs|
  {
    match r
    case TryAgain => t == s
    case Failed => c < |s.closes| && t == Released(s, c)
    case Data(bytes) =>
      if bytes == [] then c < |s.closes| && t == Released(s, c)
      else
        var n := if |bytes| <= s.cs[c].irecvlen then |bytes| else s.cs[c].irecvlen;
        n >= 1 && Handled(s, t, c, bytes[..n])
  }

  /** What a read event on listening slot c does, accept4 being in use before (a) and after (b): with a
      socket from accept4 or, when the system lacks that, from accept, and a free slot, that slot is
      taken; else nothing. */
  ghost predicate Accepts(s: Net, t: Net, c: nat, a: bool, b: bool, io: Outcome)
    requires c < |s.cs|
  {
    var r := if a && io.first.NoSys? then io.second else io.first;
    && b == (a && !io.first.NoSys?)
    && if !r.Accepted? || s.head.None? then t == s
       else
         && s.head.value < |s.cs| == |s.gets| == |s.closes| && s.free != []
         && t == AcceptedInto(s, c, r.fd, (a && !io.first.NoSys?) || io.ioctl != 1, io.added)
  }

  /** What one event does. It is dispatched if it is readable and its slot is owned and has been acquired
      an even number of times since it was tagged; otherwise nothing changes. */
  ghost predicate EventStep(s: Net, t: Net, e: Event, a: bool, b: bool) {
    && (forall tag :: tag in s.tags && tag.ptr == e.ptr ==>
          && tag.slot < |s.cs| == |s.gets|
          && if e.readable && Owned(s.cs[tag.slot]) && (s.gets[tag.slot] - tag.acquired) % 2 == 0 then
               if s.cs[tag.slot].rhandler == AcceptHandler then Accepts(s, t, tag.slot, a, b, e.io)
               else a == b && Served(s, t, tag.slot, e.io.recv)
             else t == s && a == b)
    && ((forall tag :: tag in s.tags ==> tag.ptr != e.ptr) ==> t == s && a == b)
  }

  /** Slot and instance flag, read off the tagged address, decide an event as its tags do. */
  lemma StepIs(s: Net, t: Net, e: Event, a: bool, b: bool, tag: Tag, dispatched: bool)
    requires Inv(s) && tag in s.tags && tag.ptr == e.ptr
    requires tag.slot < |s.cs| && tag.slot == e.ptr / 2 && dispatched ==
      (e.readable && Owned(s.cs[e.ptr / 2]) && s.cs[e.ptr / 2].instance == e.ptr % 2)
    requires if dispatched then
        if s.cs[tag.slot].rhandler == AcceptHandler then Accepts(s, t, tag.slot, a, b, e.io)
        else a == b && Served(s, t, tag.slot, e.io.recv)
      else t == s && a == b
    ensures EventStep(s, t, e, a, b)
    ensures forall tag :: tag in s.tags && tag.ptr == e.ptr ==>
      && tag.slot == e.ptr / 2 && tag.slot < |s.cs| == |s.gets|
      && (dispatched <==> e.readable && Owned(s.cs[tag.slot]) && (s.gets[tag.slot] - tag.acquired) % 2 == 0)
  {
    hide Inv, Accepts, Served, Owned;
    forall g | g in s.tags && g.ptr == e.ptr
      ensures g.slot == e.ptr / 2 && g.slot < |s.cs| == |s.gets|
      ensures dispatched <==> e.readable && Owned(s.cs[g.slot]) && (s.gets[g.slot] - g.acquired) % 2 == 0
    {
      FilterExact(s, g);
    }
  }

  /** The states before, between and after events, each event one step. */
  ghost predicate IsTrace(trace: seq<Net>, inUse: seq<bool>, events: seq<Event>) {
    && |trace| == |inUse| == |events| + 1
    && (forall i :: 0 <= i < |trace| ==> Inv(trace[i]))
    && forall i :: 0 <= i < |events| ==> EventStep(trace[i], trace[i + 1], events[i], inUse[i], inUse[i + 1])
  }

  lemma TraceStart(s: Net, a: bool)
    requires Inv(s)
    ensures IsTrace([s], [a], [])
  {
    hide Inv;
  }

  lemma TraceSizes(trace: seq<Net>, inUse: seq<bool>, events: seq<Event>)
    requires IsTrace(trace, inUse, events)
    ensures |trace| == |inUse| == |events| + 1
  {
    hide Inv, EventStep;
  }

  lemma AcceptsIs(s: Net, t: Net, c: nat, a: bool, b: bool, io: Outcome)
    requires Inv(s) && c < |s.cs| && b == (a && !io.first.NoSys?)
    requires var r := if a && io.first.NoSys? then io.second else io.first;
      if !r.Accepted? || s.head.None? then t == s
      else
        && s.head.value < |s.cs| == |s.gets| == |s.closes| && s.free != []
        && t == AcceptedInto(s, c, r.fd, (a && !io.first.NoSys?) || io.ioctl != 1, io.added)
    ensures Accepts(s, t, c, a, b, io)
  {
    hide Inv, AcceptedInto;
  }

  lemma TraceMore(trace: seq<Net>, inUse: seq<bool>, events: seq<Event>, e: Event, t: Net, b: bool)
    requires IsTrace(trace, inUse, events) && Inv(t)
    requires EventStep(trace[|events|], t, e, inUse[|events|], b)
    ensures IsTrace(trace + [t], inUse + [b], events + [e])
  {
    hide Inv, EventStep;
  }

  lemma TraceAppend(trace: seq<Net>, inUse: seq<bool>, events: seq<Event>,
                    trace': seq<Net>, inUse': seq<bool>, events': seq<Event>)
    requires IsTrace(trace, inUse, events) && IsTrace(trace', inUse', events')
    requires trace[|events|] == trace'[0] && inUse[|events|] == inUse'[0]
    ensures IsTrace(trace + trace'[1..], inUse + inUse'[1..], events + events')
  {
    hide Inv, EventStep;
    var all, used := trace + trace'[1..], inUse + inUse'[1..];
    forall i | 0 <= i < |events + events'|
      ensures EventStep(all[i], all[i + 1], (events + events')[i], used[i], used[i + 1])
    {
      if i >= |events| {
        var k := i - |events|;
        assert all[i] == trace'[k] && all[i + 1] == trace'[k + 1];
        assert used[i] == inUse'[k] && used[i + 1] == inUse'[k + 1];
        assert EventStep(trace'[k], trace'[k + 1], events'[k], inUse'[k], inUse'[k + 1]);
      }
    }
    forall i | 0 <= i < |all|
      ensures Inv(all[i])
    {
      assert i >= |trace| ==> all[i] == trace'[i - |trace| + 1];
    }
  }

  /** A release in plain terms: the slot is free and first in line, one sequence number on; only the buffer
      it was filling is gone; everything else is as it was. */
  lemma ReleasedIs(s: Net, c: nat)
    requires Inv(s) && c < |s.cs| && Owned(s.cs[c])
    ensures |s.closes| == |s.cs|
    ensures var t := Released(s, c);
      && t.cs[c].fd == -1 && t.cs[c].iCurrsequence == s.cs[c].iCurrsequence + 1
      && t.head == Some(c) && t.cs[c].data == s.head && t.n == s.n + 1
      && (forall i :: 0 <= i < |s.cs| && i != c ==> t.cs[i] == s.cs[i])
      && (forall a :: a in t.heap <==> a in s.heap && !(s.cs[c].ifnewrecvMem && s.cs[c].pnewMemPointer == Some(a)))
      && (forall a :: a in t.heap ==> t.heap[a] == s.heap[a])
      && t.queue == s.queue && t.history == s.history && t.received == s.received && t.tags == s.tags
  {
    hide Inv;
    ReleaseKeeps(s, c);
  }

  /** An accepted socket that has been made ready in plain terms: the first free slot has it, under the next
      sequence number, waiting for a header; its handler serves requests, for the same listener; and
      epoll has its tagged pointer. */
  lemma AcceptedIs(s: Net, oldc: nat, fd: nat)
    requires Inv(s) && s.head.Some? && oldc < |s.cs|
    ensures s.head.value < |s.cs| == |s.gets| == |s.closes| && s.free != []
    ensures var t, c := AcceptedInto(s, oldc, fd, true, true), s.head.value;
      && t.cs[c].fd == fd && t.cs[c].rhandler == RequestHandler && t.cs[c].wReady
      && (oldc != c ==> t.cs[c].listening == s.cs[oldc].listening)
      && t.cs[c].iCurrsequence == s.cs[c].iCurrsequence + 1 && t.cs[c].instance == 1 - s.cs[c].instance
      && t.cs[c].curStat == HdInit && t.cs[c].irecvlen == 8 && !t.cs[c].ifnewrecvMem
      && t.gets == s.gets[c := s.gets[c] + 1]
      && t.tags == s.tags + {Tag(TagPtr(c, t.cs[c].instance), c, s.gets[c] + 1)}
      && t.free == s.free[1..] && t.heap == s.heap && t.queue == s.queue && t.history == s.history
      && forall i :: 0 <= i < |s.cs| && i != c ==> t.cs[i] == s.cs[i]
  {
    hide Inv, TagPtr;
    NetSizes(s);
    AcquireKeeps(s, fd);
  }

  lemma HandledReady(s: Net, t: Net, c: nat, r: RecvResult)
    requires Inv(s) && Ready(s) && c < |s.cs| == |s.closes| && Owned(s.cs[c]) && Served(s, t, c, r)
    ensures Ready(t)
  {
    hide Inv;
  }

  lemma SameReady(s: Net, t: Net)
    requires Ready(s) && t.cs == s.cs
    ensures Ready(t)
  {
  }

  lemma ListenerReady(s: Net, t: Net, fd: nat, listening: Option<nat>)
    requires Ready(s) && s.head.Some? && s.head.value < |s.cs| && s.head.value < |s.gets| && s.free != []
    requires var u, c := Acquired(s, fd), s.head.value;
      t == u.(cs := u.cs[c := Labelled(u.cs[c], listening, AcceptHandler)])
    ensures Ready(t) && |t.free| == |s.free| - 1
  {
  }

  lemma NetSizes(s: Net)
    requires Inv(s)
    ensures |s.gets| == |s.closes| == |s.cs|
    ensures s.head.Some? ==> s.free != [] && s.free[0] == s.head.value
  {
    PoolHead(s.cs, s.head, s.n, s.free);
  }

  /** The slot reached from the list head by following k links. */
  function Walk(cs: seq<Connection>, head: Option<nat>, k: nat): Option<nat>
    decreases k
  {
    if head.None? || head.value >= |cs| then None
    else if k == 0 then head
    else Walk(cs, cs[head.value].data, k - 1)
  }

  ghost predicate OnChain(cs: seq<Connection>, head: Option<nat>, k: nat, i: nat) {
    Walk(cs, head, k) == Some(i)
  }

  lemma ChainLink(cs: seq<Connection>, head: Option<nat>, n: int, free: seq<nat>, j: nat)
    requires PoolOk(cs, head, n, free) && j < |free|
    ensures free[j] < |cs| && cs[free[j]].data == NextOf(free, j)
  {
  }

  lemma {:induction false} WalkIsChain(cs: seq<Connection>, head: Option<nat>, n: int, free: seq<nat>, j: nat, k: nat)
    requires PoolOk(cs, head, n, free) && j + k <= |free|
    ensures var from := if j < |free| then Some(free[j]) else None;
      Walk(cs, from, k) == if j + k < |free| then Some(free[j + k]) else None
    decreases k
  {
    hide PoolOk;
    if j < |free| {
      ChainLink(cs, head, n, free, j);
      if k > 0 {
        WalkIsChain(cs, head, n, free, j + 1, k - 1);
      }
    }
  }

  lemma WalkExact(cs: seq<Connection>, head: Option<nat>, n: int, free: seq<nat>)
    requires PoolOk(cs, head, n, free)
    ensures n == |free| && Walk(cs, head, n) == None
    ensures forall k :: 0 <= k < n ==> Walk(cs, head, k) == Some(free[k])
  {
    assert n == |free| && head == if |free| > 0 then Some(free[0]) else None;
    hide PoolOk;
    forall k | 0 <= k <= |free|
      ensures Walk(cs, head, k) == if k < |free| then Some(free[k]) else None
    {
      WalkIsChain(cs, head, n, free, 0, k);
    }
  }

  lemma FreeMembers(cs: seq<Connection>, head: Option<nat>, n: int, free: seq<nat>)
    requires PoolOk(cs, head, n, free)
    ensures Distinct(free) && forall i :: 0 <= i < |cs| ==> (cs[i].fd == -1 <==> i in free)
  {
    hide NextOf;
    assert forall i :: 0 <= i < |cs| && cs[i].fd == -1 ==> !Owned(cs[i]);
  }

  /** The state after a listening socket fd, the index-th, was given the first free slot. */
  ghost function Listening(s: Net, fd: nat, index: nat, added: bool): Net
    requires s.head.Some? && s.head.value < |s.cs| && s.head.value < |s.gets| && s.free != []
  {
    var c := s.head.value;
    var u := Acquired(s, fd);
    var v := u.(cs := u.cs[c := Labelled(u.cs[c], Some(index), AcceptHandler)]);
    if added then v.(tags := v.tags + {Tag(TagPtr(c, v.cs[c].instance), c, v.gets[c])}) else v
  }

  /** Slot c belongs to listening socket fd, the index-th, and epoll has its pointer. */
  ghost predicate ListensOn(s: Net, c: nat, fd: nat, index: nat) {
    && c < |s.cs| && c < |s.gets|
    && s.cs[c].fd == fd && s.cs[c].listening == Some(index) && s.cs[c].rhandler == AcceptHandler
    && Tag(TagPtr(c, s.cs[c].instance), c, s.gets[c]) in s.tags
  }

  /** The new listener takes the first free slot. */
  lemma ListenerStarts(s: Net, fd: nat, index: nat)
    requires Inv(s) && s.head.Some?
    ensures s.head.value < |s.cs| && s.head.value < |s.gets| && s.free != [] && s.free[0] == s.head.value
    ensures ListensOn(Listening(s, fd, index, true), s.head.value, fd, index)
    ensures Listening(s, fd, index, true).free == s.free[1..]
  {
    hide Inv;
    NetSizes(s);
    AcquireKeeps(s, fd);
  }

  /** Earlier listeners go on listening. */
  lemma ListenerStays(s: Net, fd: nat, index: nat, c: nat, fd': nat, index': nat)
    requires Inv(s) && s.head.Some? && ListensOn(s, c, fd', index')
    ensures s.head.value < |s.cs| && s.head.value < |s.gets| && s.free != []
    ensures ListensOn(Listening(s, fd, index, true), c, fd', index')
  {
    hide Inv;
    NetSizes(s);
    AcquireKeeps(s, fd);
  }

  /** The free list: following the links from the head meets m_free_connection_n slots, each once,
      then ends; they are exactly the slots without a socket, and those are exactly the slots with an
      even sequence number. */
  lemma FreeListExact(s: Net, i: nat)
    requires Inv(s) && i < |s.cs|
    ensures s.n >= 0 && Walk(s.cs, s.head, s.n) == None
    ensures forall j, k :: 0 <= j < k < s.n ==> Walk(s.cs, s.head, j) != Walk(s.cs, s.head, k)
    ensures s.cs[i].fd == -1 <==> exists k: nat :: k < s.n && OnChain(s.cs, s.head, k, i)
    ensures s.cs[i].fd == -1 <==> s.cs[i].iCurrsequence % 2 == 0
  {
    hide PoolOk, CountsOk, HeapOk, QueueSuffix, StaleOk, TagsOk, OwnersOk, EndedOk, SlotsOkBut, Walk;
    WalkExact(s.cs, s.head, s.n, s.free);
    FreeMembers(s.cs, s.head, s.n, s.free);
    EvenIffFree(s.cs, s.gets, s.closes, i);
    FreeIffWalked(s.cs, s.head, s.n, s.free, i);
  }

  lemma FreeIffWalked(cs: seq<Connection>, head: Option<nat>, n: int, free: seq<nat>, i: nat)
    requires n == |free| && forall k :: 0 <= k < n ==> Walk(cs, head, k) == Some(free[k])
    ensures i in free <==> exists k: nat :: k < n && OnChain(cs, head, k, i)
  {
    if i in free {
      var k :| 0 <= k < |free| && free[k] == i;
      assert OnChain(cs, head, k, i);
    }
    if k: nat :| k < n && OnChain(cs, head, k, i) {
      assert free[k] == i;
    }
  }

  lemma EvenIffFree(cs: seq<Connection>, gets: seq<nat>, closes: seq<nat>, i: nat)
    requires CountsOk(cs, gets, closes) && i < |cs|
    ensures cs[i].fd == -1 <==> cs[i].iCurrsequence % 2 == 0
  {
    hide InstanceOf;
    assert cs[i].iCurrsequence == 2 * closes[i] + if Owned(cs[i]) then 1 else 0;
  }

  /** An event passes the stale filter exactly when its slot is owned and has been acquired an even
      number of times since the pointer was tagged: never on a free slot, never after an odd number
      of re-acquisitions. */
  lemma FilterExact(s: Net, t: Tag)
    requires Inv(s) && t in s.tags
    ensures t.slot < |s.cs| == |s.gets| && t.acquired <= s.gets[t.slot] && t.ptr / 2 == t.slot
    ensures Owned(s.cs[t.slot]) && s.cs[t.slot].instance == t.ptr % 2
            <==> Owned(s.cs[t.slot]) && (s.gets[t.slot] - t.acquired) % 2 == 0
  {
    hide *;
    TagAndSlot(s, t);
    Untag(t.slot, InstanceOf(t.acquired));
    SameParity(s.gets[t.slot], t.acquired);
  }

  lemma TagAndSlot(s: Net, t: Tag)
    requires Inv(s) && t in s.tags
    ensures t.slot < |s.cs| == |s.gets| && t.acquired <= s.gets[t.slot]
    ensures t.ptr == TagPtr(t.slot, InstanceOf(t.acquired))
    ensures s.cs[t.slot].instance == InstanceOf(s.gets[t.slot])
  {
    hide PoolOk, StaleOk, HeapOk, QueueSuffix, OwnersOk, EndedOk, SlotsOkBut, InstanceOf, TagPtr;
  }

  lemma Untag(slot: nat, bit: Bit)
    ensures TagPtr(slot, bit) / 2 == slot && TagPtr(slot, bit) % 2 == bit
  {
  }

  lemma SameParity(g: nat, a: nat)
    requires a <= g
    ensures InstanceOf(g) == InstanceOf(a) <==> (g - a) % 2 == 0
  {
    var r, q := (g + 1) % 2, (a + 1) % 2;
    HalfParity(g - a, (g + 1) / 2 - (a + 1) / 2, r - q);
  }

  lemma HalfParity(d: nat, k: int, r: int)
    requires d == 2 * k + r && -1 <= r <= 1
    ensures d % 2 == 0 <==> r == 0
  {
  }

  /** Stale detection: a queued message carries its slot's current sequence number exactly while
      the slot has not been closed since the message's header was parsed. */
  lemma StaleMessageExact(s: Net, a: nat)
    requires Inv(s) && a in s.queue
    ensures a in s.heap && a in s.parsedAt && s.heap[a].conn < |s.cs| == |s.closes|
    ensures s.heap[a].iCurrsequence == s.cs[s.heap[a].conn].iCurrsequence
            <==> s.closes[s.heap[a].conn] == s.parsedAt[a]
  {
    hide PoolOk, QueueSuffix, OwnersOk, EndedOk, SlotsOkBut, Parse, PacketsOf, TagsOk;
  }

  /** Refinement: for every ownership the server ever had, the packets enqueued from it are those of
      a plain parse of the bytes it received, and a live one holds exactly the unfinished rest. */
  lemma EnqueuedIsParse(s: Net, o: Owner)
    requires Inv(s) && o in s.received
    ensures PacketsOf(s.history, o) == Parse(s.received[o]).packets
    ensures Current(s.cs, o) ==>
      CursorOk(s.cs[o.slot], s.heap) && Parse(s.received[o]).rest == Filled(s.cs[o.slot], s.heap, 0)
  {
    hide PoolOk, CountsOk, StaleOk, HeapOk, QueueSuffix, TagsOk, Parse, PacketsOf, CursorOk, Filled;
  }

  /** Slot i is in a body phase, its packet going into buffer a. */
  ghost predicate Filling(s: Net, i: nat, a: nat) {
    && i < |s.cs| && Owned(s.cs[i])
    && (s.cs[i].curStat.BdInit? || s.cs[i].curStat.BdRecving?)
    && s.cs[i].pnewMemPointer == Some(a)
  }

  lemma FillingIsReceiving(s: Net, i: nat, a: nat)
    requires Inv(s)
    ensures Filling(s, i, a) <==> Receiving(s.cs, i, a)
  {
    hide Core, Parse, PacketsOf, Filled, WellFormed;
    if i < |s.cs| {
      assert SlotOk(s.cs[i], i, s.heap, s.received, s.history);
    }
  }

  /** Conservation: a buffer is live exactly when it is queued or belongs to a slot in a body phase;
      it is never both, no two slots share one, and the queue stays short, holding the latest
      messages in the order they were enqueued. */
  lemma BuffersConserved(s: Net, a: nat)
    requires Inv(s)
    ensures a in s.heap <==> a in s.queue || exists i: nat :: Filling(s, i, a)
    ensures forall i: nat :: Filling(s, i, a) ==> a !in s.queue
    ensures forall i: nat, j: nat :: Filling(s, i, a) && Filling(s, j, a) ==> i == j
    ensures |s.queue| < QUEUE_LIMIT && Distinct(s.queue) && |s.queue| <= |s.history|
    ensures forall k :: 0 <= k < |s.queue| ==>
              s.queue[k] in s.heap && s.heap[s.queue[k]] == s.history[|s.history| - |s.queue| + k]
  {
    hide PoolOk, CountsOk, StaleOk, TagsOk, OwnersOk, EndedOk, SlotsOkBut, Filling;
    forall i: nat
      ensures Filling(s, i, a) <==> Receiving(s.cs, i, a)
    {
      FillingIsReceiving(s, i, a);
    }
    if a in s.heap && a !in s.queue {
      assert Receiving(s.cs, s.heap[a].conn, a);
    }
  }

  /** The pool as `epoll_init` builds it. */
  ghost predicate IsInitial(s: Net) {
    && |s.gets| == |s.closes| == |s.free| == |s.cs| == s.n
    && s.head == (if s.cs == [] then None else Some(0))
    && (forall i :: 0 <= i < |s.cs| ==>
          && s.cs[i].fd == -1 && s.cs[i].instance == 1 && s.cs[i].iCurrsequence == 0
          && s.cs[i].data == (if i + 1 < |s.cs| then Some(i + 1) else None)
          && s.gets[i] == 0 && s.closes[i] == 0 && s.free[i] == i)
    && s.queue == [] && s.heap == map[] && s.received == map[] && s.history == []
    && s.parsedAt == map[] && s.tags == {}
  }

  lemma InitialPool(s: Net)
    requires IsInitial(s)
    ensures PoolOk(s.cs, s.head, s.n, s.free)
  {
    forall k | 0 <= k < |s.free|
      ensures s.free[k] < |s.cs| && !Owned(s.cs[s.free[k]]) && s.cs[s.free[k]].data == NextOf(s.free, k)
    {
      assert s.free[k] == k;
      if k + 1 < |s.free| {
        assert s.free[k + 1] == k + 1;
      }
    }
    assert Distinct(s.free) by {
      forall j, k | 0 <= j < k < |s.free|
        ensures s.free[j] != s.free[k]
      {
        assert s.free[j] == j && s.free[k] == k;
      }
    }
    forall i | 0 <= i < |s.cs|
      ensures i in s.free
    {
      assert s.free[i] == i;
    }
    assert s.free != [] ==> s.free[0] == 0;
    hide Distinct, NextOf;
  }

  lemma InitialInv(s: Net)
    requires IsInitial(s)
    ensures Inv(s)
  {
    hide PoolOk, Parse, PacketsOf, CursorOk;
    InitialPool(s);
  }

  lemma InitialReady(s: Net)
    requires IsInitial(s)
    ensures Ready(s)
  {
  }
}
