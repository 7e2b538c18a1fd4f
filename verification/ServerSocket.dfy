/** The server's connection engine: the pool of connection slots, the stale-event filter, packet
    reassembly and the trimmed queue of received messages. */
module ServerSocket {
  import opened Bytes
  import opened PacketParser
  import opened ServerState

  class CSocket {
    var conns: array<Connection>         // m_pconnections
    var freeHead: Option<nat>            // m_pfree_connections
    var freeN: int                       // m_free_connection_n
    var queue: seq<nat>                  // m_MsgRecvQueue
    var heap: map<nat, Message>          // the packet buffers Memory has handed out
    var nextAddr: nat                    // above every live buffer address
    var useAccept4: bool
    var interest: set<nat>               // the pointers epoll has been handed

    // Histories: the free chain, acquisitions and releases of each slot, bytes received by each
    // ownership, messages ever enqueued, closes of its slot when a buffer's header was parsed, and
    // the pointers handed to epoll.
    ghost var free: seq<nat>
    ghost var gets: seq<nat>
    ghost var closes: seq<nat>
    ghost var received: map<Owner, seq<Byte>>
    ghost var history: seq<Message>
    ghost var parsedAt: map<nat, nat>
    ghost var tags: set<Tag>

    ghost function Snapshot(): Net
      reads this, conns
    {
      Net(conns[..], freeHead, freeN, queue, heap, free, gets, closes, received, history, parsedAt, tags)
    }

    /** The bounds on addresses and the kernel's copy of the tagged pointers. */
    ghost predicate Sane()
      reads this`heap, this`nextAddr, this`interest, this`tags
    {
      && (forall a :: a in heap ==> a < nextAddr)
      && (forall p :: p in interest <==> exists t :: t in tags && t.ptr == p)
    }

    /** The invariant of the running server. */
    ghost predicate Valid()
      reads this, conns
    {
      Inv(Snapshot()) && Sane()
    }

    // ---------- The pool ----------

    /** Takes the first free slot, or answers None exactly when there is none. */
    method GetConnection(isock: nat) returns (ret: Option<nat>)
      requires Valid()
      modifies this`freeHead, this`freeN, this`free, this`gets, this`received, conns
      ensures Valid()
      ensures ret == old(freeHead) && (ret.None? <==> old(free) == [])
      ensures ret.None? ==> Snapshot() == old(Snapshot())
      ensures ret.Some? ==>
        && ret.value < conns.Length && |old(gets)| == conns.Length && !Owned(old(conns[ret.value]))
        && Snapshot() == Acquired(old(Snapshot()), isock)
    {
      hide Inv, Sane;
      ghost var s := Snapshot();
      FreeHeadExact(s);
      if freeHead.None? {
        return None;
      }
      AcquireKeeps(s, isock);
      var c := freeHead.value;
      freeHead := conns[c].data;
      freeN := freeN - 1;
      var instance := conns[c].instance;
      var sequence := conns[c].iCurrsequence;
      conns[c] := NewConnection(isock, 1 - instance, sequence + 1);
      free := free[1..];
      gets := gets[c := gets[c] + 1];
      received := received[Owner(c, sequence + 1) := []];
      assert conns[..] == s.cs[c := conns[c]];
      ret := Some(c);
    }

    /** Puts slot c at the head of the free list, freeing the buffer it was filling. */
    method FreeConnection(c: nat)
      requires c < conns.Length
      requires conns[c].ifnewrecvMem ==> conns[c].pnewMemPointer.Some? && conns[c].pnewMemPointer.value in heap
      requires Sane()
      modifies this`freeHead, this`freeN, this`heap, conns
      ensures Sane()
      ensures heap == old(heap) - Held(old(conns[c]))
      ensures freeHead == Some(c) && freeN == old(freeN) + 1
      ensures conns[..] == old(conns[..])[c := FreedSlot(old(conns[c]), old(freeHead))]
    {
      if conns[c].ifnewrecvMem {
        heap := heap - {conns[c].pnewMemPointer.value};
        conns[c] := conns[c].(ifnewrecvMem := false, pnewMemPointer := None);
      }
      conns[c] := conns[c].(data := freeHead, iCurrsequence := conns[c].iCurrsequence + 1);
      freeHead := Some(c);
      freeN := freeN + 1;
    }

    /** Ends the ownership of slot c. Its buffer in progress, and nothing else, is freed. */
    method CloseConnection(c: nat)
      requires Valid() && c < conns.Length && Owned(conns[c])
      modifies this`freeHead, this`freeN, this`heap, this`free, this`closes, this`parsedAt, conns
      ensures Valid()
      ensures |old(closes)| == conns.Length && Snapshot() == Released(old(Snapshot()), c)
    {
      hide Inv, Sane, FreedSlot;
      ghost var s := Snapshot();
      ReleaseKeeps(s, c);
      conns[c] := conns[c].(fd := -1);
      assert Held(conns[c]) == Held(s.cs[c]);
      assert conns[..] == s.cs[c := s.cs[c].(fd := -1)];
      hide Held, Owned;
      FreeConnection(c);
      assert conns[..] == s.cs[c := ClosedSlot(s.cs[c], s.head)];
      hide ClosedSlot;
      SlotClosed(s, c);
    }

    /** Bookkeeping: the real fields have changed from s as they do when slot c is closed. */
    ghost method SlotClosed(s: Net, c: nat)
      requires c < |s.cs| == |s.closes| && Sane() && Inv(Released(s, c))
      requires conns[..] == Released(s, c).cs && freeHead == Some(c) && freeN == s.n + 1
      requires heap == Released(s, c).heap && queue == s.queue && free == s.free && gets == s.gets
      requires closes == s.closes && received == s.received && history == s.history
      requires parsedAt == s.parsedAt && tags == s.tags
      modifies this`free, this`closes, this`parsedAt
      ensures Valid() && Snapshot() == Released(s, c)
    {
      hide Inv, Sane, ClosedSlot, Held;
      closes, free, parsedAt := closes[c := closes[c] + 1], [c] + free, parsedAt - Held(s.cs[c]);
    }

    // ---------- Receiving ----------

    /** Reads up to irecvlen bytes at the cursor of slot c, or closes the slot. */
    method RecvProc(c: nat, r: RecvResult) returns (n: int)
      requires Valid() && c < conns.Length && Owned(conns[c])
      modifies this`freeHead, this`freeN, this`heap, this`free, this`closes, this`received, this`parsedAt, conns
      ensures Sane()
      ensures r.TryAgain? ==> n == -1 && Snapshot() == old(Snapshot())
      ensures r.Failed? || (r.Data? && r.bytes == []) ==>
        && n == -1 && Valid()
        && |old(closes)| == conns.Length && Snapshot() == Released(old(Snapshot()), c)
      ensures r.Data? && r.bytes != [] ==>
        && CursorOk(old(conns[c]), old(heap)) && old(OwnerOf(Snapshot(), c)) in old(received)
        && n == (if |r.bytes| <= old(conns[c]).irecvlen then |r.bytes| else old(conns[c]).irecvlen)
        && Snapshot() == Received(old(Snapshot()), c, r.bytes[..n])
        && 1 <= n <= conns[c].irecvlen == old(conns[c]).irecvlen
        && CursorOk(conns[c], heap)
        && Mid(Snapshot(), c, Filled(conns[c], heap, n))
    {
      hide Inv, Mid, Released, Filled, WellFormed;
      ghost var s := Snapshot();
      SlotHasOwner(s, c);
      match r
      case TryAgain =>
        return -1;
      case Failed =>
        CloseConnection(c);
        return -1;
      case Data(bytes) =>
        n := if |bytes| <= conns[c].irecvlen then |bytes| else conns[c].irecvlen;
        if n == 0 {
          CloseConnection(c);
          return -1;
        }
        if conns[c].ifnewrecvMem {
          ReceiveBodyKeeps(s, c, bytes[..n]);
        } else {
          ReceiveHeadKeeps(s, c, bytes[..n]);
        }
        received := received[OwnerOf(s, c) := received[OwnerOf(s, c)] + bytes[..n]];
        match conns[c].precvbuf
        case InHead(off) =>
          conns[c] := conns[c].(dataHeadInfo := Store(conns[c].dataHeadInfo, off, bytes[..n]));
          assert conns[..] == s.cs[c := conns[c]];
        case InPacket(buf, off) =>
          heap := heap[buf := heap[buf].(pkg := Store(heap[buf].pkg, off, bytes[..n]))];
          assert conns[..] == s.cs;
    }

    /** Keeps the queue short: once it holds QUEUE_LIMIT messages the oldest are freed until
        QUEUE_KEEP are left. */
    method TrimMsgRecvQueue()
      requires Distinct(queue) && forall a :: a in queue ==> a in heap
      modifies this`queue, this`heap
      ensures var k := TrimCount(|old(queue)|);
        queue == old(queue)[k..] && heap == old(heap) - Elements(old(queue)[..k])
      ensures |old(queue)| < 1000 ==> queue == old(queue) && heap == old(heap)
      ensures |old(queue)| >= 1000 ==> |queue| == 500 && queue == old(queue)[|old(queue)| - 500..]
    {
      if |queue| < QUEUE_LIMIT {
        return;
      }
      var cha := |queue| - QUEUE_KEEP;
      for i := 0 to cha
        invariant queue == old(queue)[i..]
        invariant heap == old(heap) - Elements(old(queue)[..i])
      {
        assert queue[0] == old(queue)[i] && queue[0] !in old(queue)[..i];
        assert Elements(old(queue)[..i + 1]) == Elements(old(queue)[..i]) + {queue[0]};
        var msgBuf := queue[0];
        queue := queue[1..];
        heap := heap - {msgBuf};
      }
    }

    /** Appends buf to the queue, then trims. */
    method InMsgRecvQueue(buf: nat)
      requires Distinct(queue) && forall a :: a in queue ==> a in heap
      requires buf in heap && buf !in queue
      modifies this`queue, this`heap, this`history, this`parsedAt
      ensures var all := old(queue) + [buf];
        var k := TrimCount(|all|);
        && queue == all[k..] && heap == old(heap) - Elements(all[..k])
        && parsedAt == old(parsedAt) - Elements(all[..k])
        && history == old(history) + [old(heap)[buf]]
      ensures |old(queue)| + 1 < 1000 ==> queue == old(queue) + [buf]
      ensures |old(queue)| + 1 >= 1000 ==> |queue| == 500 && queue[499] == buf
    {
      queue := queue + [buf];
      history := history + [heap[buf]];
      parsedAt := parsedAt - Elements(queue[..TrimCount(|queue|)]);
      TrimMsgRecvQueue();
    }

    /** A packet is complete: its buffer moves to the queue and the slot starts over. */
    method ProcPlast(c: nat)
      requires c < conns.Length && conns[c].ifnewrecvMem
      requires conns[c].pnewMemPointer.Some? && conns[c].pnewMemPointer.value in heap
      requires var pkg := heap[conns[c].pnewMemPointer.value].pkg;
        WellFormed(pkg) && Mid(Snapshot(), c, pkg)
      modifies this`queue, this`heap, this`history, this`parsedAt, conns
      ensures Inv(Snapshot()) && Snapshot() == Enqueued(old(Snapshot()), c)
      ensures heap.Keys <= old(heap).Keys
    {
      hide PoolOk, CountsOk, StaleOk, TagsOk, QueueSuffix, OwnersOk, EndedOk, SlotOk, Parse, PacketsOf, TrimCount;
      ghost var s := Snapshot();
      HeldBuffer(s, c);
      EnqueueKeeps(s, c);
      InMsgRecvQueue(conns[c].pnewMemPointer.value);
      conns[c] := conns[c].(ifnewrecvMem := false, pnewMemPointer := None);
      conns[c] := conns[c].(curStat := HdInit, precvbuf := InHead(0), irecvlen := HEADER_LEN);
      assert conns[..] == s.cs[c := IdleSlot(s.cs[c])];
    }

    /** A buffer of n bytes with arbitrary content at an address not in use. */
    method AllocMemory(n: nat) returns (buf: nat, content: seq<Byte>)
      requires Sane()
      modifies this`nextAddr
      ensures buf !in heap && |content| == n
      ensures nextAddr > buf && nextAddr >= old(nextAddr)
    {
      content := *;
      if |content| != n {
        content := seq(n, _ => 0);
      }
      buf := *;
      if buf in heap {
        buf := nextAddr;
      }
      if buf >= nextAddr {
        nextAddr := buf + 1;
      }
    }

    /** Allocates the buffer of slot c's packet, of n bytes, and fills in both headers. */
    method AllocPacket(c: nat, n: nat) returns (buf: nat, ghost pkg: seq<Byte>)
      requires c < conns.Length == |closes| && n >= HEADER_LEN
      requires Sane()
      modifies this`heap, this`parsedAt, this`nextAddr, conns
      ensures buf !in old(heap) && |pkg| == n && pkg[..HEADER_LEN] == old(conns[c]).dataHeadInfo[..HEADER_LEN]
      ensures Snapshot() == Allocated(old(Snapshot()), c, buf, pkg)
      ensures Sane()
    {
      ghost var s := Snapshot();
      var content;
      buf, content := AllocMemory(n);
      conns[c] := conns[c].(ifnewrecvMem := true, pnewMemPointer := Some(buf));
      StoreExtends(content, 0, conns[c].dataHeadInfo[..HEADER_LEN]);
      content := Store(content, 0, conns[c].dataHeadInfo[..HEADER_LEN]);
      heap := heap[buf := Message(c, conns[c].iCurrsequence, content)];
      parsedAt := parsedAt[buf := closes[c]];
      pkg := content;
      assert conns[..] == s.cs[c := conns[c]];
    }

    /** The header in dataHeadInfo is complete: drop it if its length is bad, else allocate the
        packet's buffer and wait for the body, or enqueue a packet that has none. */
    method ProcP1(c: nat) returns (ghost buf: nat, ghost pkg: seq<Byte>)
      requires c < conns.Length && !conns[c].ifnewrecvMem
      requires Mid(Snapshot(), c, conns[c].dataHeadInfo[..HEADER_LEN])
      requires Sane()
      modifies this`queue, this`heap, this`history, this`parsedAt, this`nextAddr, conns
      ensures Valid() && |closes| == conns.Length
      ensures !BadLen(PkgLen(old(conns[c]).dataHeadInfo)) ==>
        buf !in old(heap) && WellFormed(pkg) && pkg[..HEADER_LEN] == old(conns[c]).dataHeadInfo[..HEADER_LEN]
      ensures |old(closes)| == conns.Length && Snapshot() == HeaderHandled(old(Snapshot()), c, buf, pkg)
      ensures var d := old(conns[c]).dataHeadInfo; var n: int := 256 * d[0] as int + d[1] as int;
        if n < 8 || n > 29000 then
          && heap == old(heap) && queue == old(queue) && history == old(history)
          && conns[c].curStat == HdInit && conns[c].precvbuf == InHead(0) && conns[c].irecvlen == 8
        else
          && |pkg| == n && pkg[..8] == d[..8]
          && if n == 8 then
               && history == old(history) + [Message(c, old(conns[c]).iCurrsequence, pkg)]
               && conns[c].curStat == HdInit && conns[c].precvbuf == InHead(0) && conns[c].irecvlen == 8
             else
               && buf in heap && heap[buf] == Message(c, old(conns[c]).iCurrsequence, pkg) && queue == old(queue)
               && conns[c].curStat == BdInit && conns[c].precvbuf == InPacket(buf, 8) && conns[c].irecvlen == n - 8
    {
      hide Core, SlotsOkBut, Parse, PacketsOf, Pending, Mid, Inv, HeaderHandled, Rewound, WellFormed;
      ghost var s := Snapshot();
      var pkgLen := PkgLen(conns[c].dataHeadInfo);
      buf, pkg := 0, [];
      MidSizes(s, c, conns[c].dataHeadInfo[..HEADER_LEN]);
      if pkgLen < HEADER_LEN {
        BadHeaderKeeps(s, c);
        HeaderDropped(s, c, buf, pkg);
        Rewind(c);
      } else if pkgLen > MAX_LEN {
        BadHeaderKeeps(s, c);
        HeaderDropped(s, c, buf, pkg);
        Rewind(c);
      } else {
        buf, pkg := StartPacket(c, pkgLen);
      }
      HeaderHandledIs(s, c, buf, pkg);
    }

    /** The slot waits for a header again. */
    method Rewind(c: nat)
      requires c < conns.Length
      modifies conns
      ensures conns[..] == old(conns[..])[c := Rewound(old(conns[c]))]
    {
      ghost var cs := conns[..];
      conns[c] := conns[c].(curStat := HdInit, precvbuf := InHead(0), irecvlen := HEADER_LEN);
      assert conns[..] == cs[c := Rewound(cs[c])];
    }

    /** The header announces a packet of n bytes: allocate its buffer, and wait for the body or enqueue a
        packet that has none. */
    method StartPacket(c: nat, n: nat) returns (ghost buf: nat, ghost pkg: seq<Byte>)
      requires c < conns.Length && !conns[c].ifnewrecvMem && Sane()
      requires Mid(Snapshot(), c, conns[c].dataHeadInfo[..HEADER_LEN])
      requires n == PkgLen(conns[c].dataHeadInfo) && !BadLen(n)
      modifies this`queue, this`heap, this`history, this`parsedAt, this`nextAddr, conns
      ensures Valid() && |closes| == conns.Length
      ensures buf !in old(heap) && WellFormed(pkg)
      ensures pkg[..HEADER_LEN] == old(conns[c]).dataHeadInfo[..HEADER_LEN]
      ensures |old(closes)| == conns.Length && Snapshot() == HeaderHandled(old(Snapshot()), c, buf, pkg)
    {
      hide Core, SlotsOkBut, Parse, PacketsOf, Pending, Mid, Inv;
      ghost var s := Snapshot();
      MidSizes(s, c, conns[c].dataHeadInfo[..HEADER_LEN]);
      var tmp;
      tmp, pkg := AllocPacket(c, n);
      buf := tmp;
      assert PkgLen(pkg[..HEADER_LEN]) == n;
      GoodHeaderKeeps(s, c, buf, pkg);
      if n == HEADER_LEN {
        ProcPlast(c);
      } else {
        conns[c] := conns[c].(curStat := BdInit, precvbuf := InPacket(tmp, HEADER_LEN), irecvlen := n - HEADER_LEN);
        assert Snapshot().cs == HeaderHandled(s, c, buf, pkg).cs;
      }
    }

    /** Bytes were received but the header or body is still incomplete: move the cursor on. */
    method AdvanceCursor(c: nat, reco: nat)
      requires c < conns.Length && CursorOk(conns[c], heap) && 1 <= reco < conns[c].irecvlen
      requires Mid(Snapshot(), c, Filled(conns[c], heap, reco))
      requires Sane()
      modifies conns
      ensures Valid() && conns[..] == old(conns[..])[c := Advanced(old(conns[c]), reco)]
    {
      hide Mid, Inv, CursorOk, Filled;
      ghost var s := Snapshot();
      AdvanceKeeps(s, c, reco);
      if conns[c].curStat.HdInit? {
        conns[c] := conns[c].(curStat := HdRecving);
      } else if conns[c].curStat.BdInit? {
        conns[c] := conns[c].(curStat := BdRecving);
      }
      conns[c] := conns[c].(precvbuf := AdvancePtr(conns[c].precvbuf, reco), irecvlen := conns[c].irecvlen - reco);
      assert conns[..] == s.cs[c := Advanced(s.cs[c], reco)];
    }

    /** The read handler of a client slot: one `recv`, then whatever the phase asks for. */
    method WaitRequestHandler(c: nat, r: RecvResult)
      requires Valid() && c < conns.Length && Owned(conns[c])
      modifies this`freeHead, this`freeN, this`heap, this`nextAddr, this`queue, this`free, this`closes,
               this`received, this`history, this`parsedAt, conns
      ensures Valid() && Served(old(Snapshot()), Snapshot(), c, r)
      ensures r.TryAgain? ==> Snapshot() == old(Snapshot())
      ensures r.Failed? || (r.Data? && r.bytes == []) ==>
        |old(closes)| == conns.Length && Snapshot() == Released(old(Snapshot()), c)
      ensures r.Data? && r.bytes != [] ==>
        var n := if |r.bytes| <= old(conns[c]).irecvlen then |r.bytes| else old(conns[c]).irecvlen;
        n >= 1 && Handled(old(Snapshot()), Snapshot(), c, r.bytes[..n])
    {
      hide Core, SlotsOkBut, Mid, Inv, CursorOk, Filled, Received, Released, HeaderHandled, Enqueued, Handled;
      ghost var s := Snapshot();
      var reco := RecvProc(c, r);
      if reco <= 0 {
        return;
      }
      ghost var t := Snapshot();
      ReceivedIsHandled(s, c, r.bytes[..reco]);
      HeldAfterReceive(t, c, reco);
      if conns[c].curStat.HdInit? || conns[c].curStat.HdRecving? {
        if reco == if conns[c].curStat.HdInit? then HEADER_LEN else conns[c].irecvlen {
          ghost var buf, pkg := ProcP1(c);
          HeaderIsHandled(t, c, buf, pkg);
        } else {
          AdvanceCursor(c, reco);
          UpdateIsHandled(t, Snapshot(), c);
        }
      } else {
        if reco == conns[c].irecvlen {
          ProcPlast(c);
          EnqueuedIsHandled(t, c);
        } else {
          AdvanceCursor(c, reco);
          UpdateIsHandled(t, Snapshot(), c);
        }
      }
      HandledInTwo(s, t, Snapshot(), c, r.bytes[..reco]);
    }

    // ---------- Events ----------

    /** Hands epoll the slot's pointer, tagged with its instance flag. */
    method EpollAddEvent(c: nat, added: bool) returns (ok: bool)
      requires Valid() && c < conns.Length
      modifies this`tags, this`interest
      ensures Valid() && ok == added && |gets| == conns.Length
      ensures tags == if added then old(tags) + {Tag(TagPtr(c, conns[c].instance), c, gets[c])} else old(tags)
    {
      hide Inv;
      NetSizes(Snapshot());
      TagKeeps(Snapshot(), c);
      var ptr := TagPtr(c, conns[c].instance);
      if !added {
        return false;
      }
      ghost var t := Tag(ptr, c, gets[c]);
      tags := tags + {t};
      interest := interest + {ptr};
      ok := true;
    }

    /** Ties slot c to a listening socket and sets its read handler. */
    method SetHandler(c: nat, listening: Option<nat>, handler: Handler)
      requires Valid() && c < conns.Length
      modifies conns
      ensures Valid() && conns[..] == old(conns[..])[c := Labelled(old(conns[c]), listening, handler)]
    {
      hide Inv;
      ghost var s := Snapshot();
      LabelKeeps(s, c, listening, handler);
      conns[c] := conns[c].(listening := listening, rhandler := handler);
      if handler.RequestHandler? {
        conns[c] := conns[c].(wReady := true);
      }
      assert conns[..] == s.cs[c := Labelled(s.cs[c], listening, handler)];
    }

    /** The part of `event_accept` after a socket has been accepted. */
    method AcceptSocket(oldc: nat, fd: nat, io: Outcome)
      requires Valid() && Ready(Snapshot()) && oldc < conns.Length && Owned(conns[oldc])
      requires |gets| == |closes| == conns.Length && (freeHead.Some? ==> free != [] && free[0] == freeHead.value)
      modifies this`freeHead, this`freeN, this`heap, this`free, this`gets, this`closes,
               this`received, this`parsedAt, this`tags, this`interest, conns
      ensures Valid() && Ready(Snapshot())
      ensures if old(freeHead).None? then Snapshot() == old(Snapshot())
        else
          && old(freeHead).value < conns.Length && old(free) != []
          && Snapshot() == AcceptedInto(old(Snapshot()), oldc, fd, useAccept4 || SetNonBlocking(io.ioctl), io.added)
    {
      hide Inv, Sane, Ready, Acquired, Released, TagPtr, Labelled, Owned;
      ghost var s := Snapshot();
      if freeHead.Some? {
        AcceptedReady(s, oldc, fd, useAccept4 || SetNonBlocking(io.ioctl), io.added);
      }
      var newc := GetConnection(fd);
      if newc.None? {
        return;
      }
      var c := newc.value;
      if !useAccept4 && !SetNonBlocking(io.ioctl) {
        CloseConnection(c);
        return;
      }
      LabelOwned(conns[c], conns[oldc].listening, RequestHandler);
      SetHandler(c, conns[oldc].listening, RequestHandler);
      var ok := EpollAddEvent(c, io.added);
      if !ok {
        CloseConnection(c);
      }
    }

    /** The read handler of a listening slot: one `accept`, falling back from accept4, then a slot
        for the new socket, given back again if it cannot be made ready. */
    method EventAccept(oldc: nat, io: Outcome)
      requires Valid() && Ready(Snapshot()) && oldc < conns.Length && Owned(conns[oldc])
      modifies this`freeHead, this`freeN, this`heap, this`free, this`gets, this`closes,
               this`received, this`parsedAt, this`tags, this`interest, this`useAccept4, conns
      ensures Valid() && Ready(Snapshot()) && |old(gets)| == |old(closes)| == conns.Length
      ensures useAccept4 == (old(useAccept4) && !io.first.NoSys?)
      ensures var r := if old(useAccept4) && io.first.NoSys? then io.second else io.first;
        if !r.Accepted? || old(freeHead).None? then Snapshot() == old(Snapshot())
        else
          && old(freeHead).value < conns.Length && old(free) != []
          && Snapshot() == AcceptedInto(old(Snapshot()), oldc, r.fd,
                                        (old(useAccept4) && !io.first.NoSys?) || io.ioctl != 1, io.added)
    {
      hide Inv, Sane, Ready, AcceptedInto;
      NetSizes(Snapshot());
      var first := true;
      while true
        invariant Valid() && Snapshot() == old(Snapshot()) && conns[..] == old(conns[..])
        invariant if first then useAccept4 == old(useAccept4)
                  else old(useAccept4) && io.first.NoSys? && !useAccept4
        decreases useAccept4
      {
        var r := if first then io.first else io.second;
        if r.NoSys? && useAccept4 {
          useAccept4 := false;
          first := false;
          continue;
        }
        if !r.Accepted? {
          return;
        }
        AcceptSocket(oldc, r.fd, io);
        return;
      }
    }

    /** One event of the batch: untag the pointer, drop the event if it is stale, else call the
        slot's read handler. */
    method ProcessEvent(e: Event) returns (dispatched: bool)
      requires Valid() && Ready(Snapshot()) && e.ptr in interest
      modifies this, conns
      ensures Valid() && Ready(Snapshot()) && conns == old(conns)
      ensures forall t :: t in old(tags) && t.ptr == e.ptr ==>
        && t.slot < conns.Length && |old(gets)| == conns.Length
        && (dispatched <==>
              e.readable && Owned(old(conns[t.slot])) && (old(gets)[t.slot] - t.acquired) % 2 == 0)
        && (dispatched && old(conns[t.slot]).rhandler == AcceptHandler ==>
              Accepts(old(Snapshot()), Snapshot(), t.slot, old(useAccept4), useAccept4, e.io))
        && (dispatched && old(conns[t.slot]).rhandler != AcceptHandler ==>
              useAccept4 == old(useAccept4) && Served(old(Snapshot()), Snapshot(), t.slot, e.io.recv))
      ensures !dispatched ==> Snapshot() == old(Snapshot()) && useAccept4 == old(useAccept4)
      ensures EventStep(old(Snapshot()), Snapshot(), e, old(useAccept4), useAccept4)
    {
      hide Inv, Ready, Handled, Released, AcceptedInto, Served, Accepts, Sane, EventStep;
      ghost var s, a := Snapshot(), useAccept4;
      ghost var tag := KnownPointer(e.ptr);
      NetSizes(s);
      FilterExact(s, tag);
      var instance := e.ptr % 2;
      var c := (e.ptr - instance) / 2;
      if conns[c].fd == -1 {
        StepIs(s, s, e, a, a, tag, false);
        return false;
      }
      if conns[c].instance != instance {
        StepIs(s, s, e, a, a, tag, false);
        return false;
      }
      if !e.readable {
        StepIs(s, s, e, a, a, tag, false);
        return false;
      }
      dispatched := true;
      if conns[c].rhandler.AcceptHandler? {
        EventAccept(c, e.io);
        AcceptsIs(s, Snapshot(), c, a, useAccept4, e.io);
      } else {
        WaitRequestHandler(c, e.io.recv);
        HandledReady(s, Snapshot(), c, e.io.recv);
      }
      StepIs(s, Snapshot(), e, a, useAccept4, tag, true);
    }

    /** The pointer of an event is that of a tag. */
    ghost method KnownPointer(ptr: nat) returns (t: Tag)
      requires Sane() && ptr in interest
      ensures t in tags && t.ptr == ptr
    {
      t :| t in tags && t.ptr == ptr;
    }

    /** One round of the event loop over whatever epoll reports; epoll reports only pointers it has
        been handed. Each event of the round is one step, in order. */
    method ProcessEvents(events: seq<Event>) returns (ghost trace: seq<Net>, ghost inUse: seq<bool>)
      requires Valid() && Ready(Snapshot())
      modifies this, conns
      ensures Valid() && Ready(Snapshot()) && conns == old(conns)
      ensures IsTrace(trace, inUse, events)
      ensures trace[0] == old(Snapshot()) && trace[|events|] == Snapshot()
      ensures inUse[0] == old(useAccept4) && inUse[|events|] == useAccept4
    {
      hide Inv, Ready, Sane, EventStep, IsTrace;
      trace, inUse := [Snapshot()], [useAccept4];
      TraceStart(Snapshot(), useAccept4);
      for i := 0 to |events|
        invariant Valid() && Ready(Snapshot()) && conns == old(conns)
        invariant IsTrace(trace, inUse, events[..i]) && |trace| == |inUse| == i + 1
        invariant trace[0] == old(Snapshot()) && trace[i] == Snapshot()
        invariant inUse[0] == old(useAccept4) && inUse[i] == useAccept4
      {
        assert events[..i + 1] == events[..i] + [events[i]];
        if events[i].ptr in interest {
          var _ := ProcessEvent(events[i]);
        } else {
          UnknownPointer(events[i]);
        }
        TraceMore(trace, inUse, events[..i], events[i], Snapshot(), useAccept4);
        trace, inUse := trace + [Snapshot()], inUse + [useAccept4];
      }
      assert events[..|events|] == events;
    }

    lemma UnknownPointer(e: Event)
      requires Sane() && e.ptr !in interest
      ensures EventStep(Snapshot(), Snapshot(), e, useAccept4, useAccept4)
    {
    }

    // ---------- Start-up ----------

    /** Builds the pool: every slot free, chained from the first to the last. What else the new
        slots contain is left as it happens to be. */
    static method BuildPool(n: nat) returns (pool: array<Connection>, head: Option<nat>)
      ensures fresh(pool) && pool.Length == n
      ensures head == if n == 0 then None else Some(0)
      ensures forall k :: 0 <= k < n ==>
        && pool[k].fd == -1 && pool[k].instance == 1 && pool[k].iCurrsequence == 0
        && pool[k].data == if k + 1 < n then Some(k + 1) else None
    {
      pool := new Connection[n];
      head := None;
      var i := n;
      while i > 0
        invariant i <= n
        invariant head == if i < n then Some(i) else None
        invariant forall k :: i <= k < n ==>
          && pool[k].fd == -1 && pool[k].instance == 1 && pool[k].iCurrsequence == 0
          && pool[k].data == if k + 1 < n then Some(k + 1) else None
      {
        i := i - 1;
        pool[i] := pool[i].(data := head, fd := -1, instance := 1, iCurrsequence := 0);
        head := Some(i);
      }
    }

    constructor (n: nat)
      ensures Inv(Snapshot()) && Sane() && Ready(Snapshot()) && IsInitial(Snapshot())
      ensures fresh(conns) && conns.Length == n
    {
      var pool, head := BuildPool(n);
      conns, freeHead, freeN := pool, head, n;
      queue, heap, nextAddr, useAccept4, interest := [], map[], 0, true, {};
      free, gets, closes := seq(n, i => i), seq(n, i => 0), seq(n, i => 0);
      received, history, parsedAt, tags := map[], [], map[], {};
      new;
      hide Inv, Ready;
      assert IsInitial(Snapshot()) by {
        assert conns[..] == pool[..];
      }
      InitialInv(Snapshot());
      InitialReady(Snapshot());
    }

    /** Gives one listening socket a slot, as `epoll_init` does after building the pool. */
    method AddListener(fd: nat, index: nat, added: bool) returns (ok: bool)
      requires Valid() && Ready(Snapshot())
      modifies this`freeHead, this`freeN, this`free, this`gets, this`received, this`tags, this`interest, conns
      ensures Valid() && Ready(Snapshot())
      ensures ok <==> old(freeHead).Some? && added
      ensures old(freeHead).None? ==> Snapshot() == old(Snapshot())
      ensures old(freeHead).Some? ==>
        && old(freeHead).value < conns.Length == |old(gets)| && old(free) != []
        && Snapshot() == Listening(old(Snapshot()), fd, index, added)
    {
      hide Inv, Ready, Sane, Acquired, TagPtr;
      ghost var s := Snapshot();
      NetSizes(s);
      var c := GetConnection(fd);
      if c.None? {
        return false;
      }
      SetHandler(c.value, Some(index), AcceptHandler);
      ListenerReady(s, Snapshot(), fd, Some(index));
      ghost var t := Snapshot();
      ok := EpollAddEvent(c.value, added);
      SameReady(t, Snapshot());
    }

    /** The listening sockets take the first slots of the pool, in order; false if there are too few or
        epoll refuses one. */
    method AddListeners(fds: seq<nat>, added: seq<bool>) returns (ok: bool)
      requires Valid() && Ready(Snapshot()) && |added| == |fds|
      modifies this, conns
      ensures Valid() && Ready(Snapshot()) && conns == old(conns)
      ensures ok <==> |fds| <= |old(free)| && false !in added
      ensures ok ==> free == old(free)[|fds|..]
      ensures ok ==> forall i :: 0 <= i < |fds| ==> ListensOn(Snapshot(), old(free)[i], fds[i], i)
    {
      hide Inv, Ready, Sane, Listening, ListensOn;
      for i := 0 to |fds|
        invariant Valid() && Ready(Snapshot()) && conns == old(conns)
        invariant i <= |old(free)| && free == old(free)[i..] && false !in added[..i]
        invariant forall k :: 0 <= k < i ==> ListensOn(Snapshot(), old(free)[k], fds[k], k)
      {
        ghost var s := Snapshot();
        FreeHeadExact(s);
        ok := AddListener(fds[i], i, added[i]);
        assert added[..i + 1] == added[..i] + [added[i]];
        if !ok {
          assert added[i] in added;
          return;
        }
        ListenerStarts(s, fds[i], i);
        forall k | 0 <= k < i
          ensures ListensOn(Snapshot(), old(free)[k], fds[k], k)
        {
          ListenerStays(s, fds[i], i, old(free)[k], fds[k], k);
        }
      }
      assert added[..|fds|] == added;
      ok := true;
    }
  }

  /** The events of all rounds. */
  function AllEvents(rounds: seq<seq<Event>>): seq<Event> {
    if rounds == [] then [] else AllEvents(rounds[..|rounds| - 1]) + rounds[|rounds| - 1]
  }

  /** A whole run: any pool size, any listeners, and any rounds of events with any outcomes of the
      system calls, in any interleaving over the connections. If the listeners can be set up, each event of
      each round is one step of the trace that leads to the final state. In all states the invariant
      holds, so the lemmas EnqueuedIsParse, BuffersConserved, StaleMessageExact and FilterExact of
      ServerState apply to them. */
  method Run(n: nat, fds: seq<nat>, added: seq<bool>, rounds: seq<seq<Event>>)
    returns (server: CSocket, ghost trace: seq<Net>, ghost inUse: seq<bool>)
    requires |added| == |fds|
    ensures server.Valid() && fresh(server)
    ensures var events := if |fds| <= n && false !in added then AllEvents(rounds) else [];
      && IsTrace(trace, inUse, events) && trace[|events|] == server.Snapshot()
    ensures |fds| <= n && false !in added ==> forall i :: 0 <= i < |fds| ==> ListensOn(trace[0], i, fds[i], i)
    ensures forall o :: o in server.received ==>
              PacketsOf(server.history, o) == Parse(server.received[o]).packets
  {
    hide Inv, Ready, PacketsOf, Parse, ListensOn, IsTrace;
    server := new CSocket(n);
    ghost var start := server.free;
    var ok := server.AddListeners(fds, added);
    ghost var first := server.Snapshot();
    trace, inUse := [first], [server.useAccept4];
    TraceStart(first, server.useAccept4);
    if ok {
      for i := 0 to |rounds|
        invariant server.Valid() && Ready(server.Snapshot()) && fresh(server) && fresh(server.conns)
        invariant |trace| == |inUse| == |AllEvents(rounds[..i])| + 1
        invariant IsTrace(trace, inUse, AllEvents(rounds[..i])) && trace[0] == first
        invariant trace[|trace| - 1] == server.Snapshot() && inUse[|inUse| - 1] == server.useAccept4
      {
        ghost var steps, used := server.ProcessEvents(rounds[i]);
        TraceAppend(trace, inUse, AllEvents(rounds[..i]), steps, used, rounds[i]);
        assert rounds[..i + 1][..i] == rounds[..i] && rounds[..i + 1][i] == rounds[i];
        TraceSizes(steps, used, rounds[i]);
        trace, inUse := trace + steps[1..], inUse + used[1..];
      }
      assert rounds[..|rounds|] == rounds;
    }
    forall o | o in server.received
      ensures PacketsOf(server.history, o) == Parse(server.received[o]).packets
    {
      EnqueuedIsParse(server.Snapshot(), o);
    }
  }
}
