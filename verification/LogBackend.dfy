/** The background side of the logger: it merges the logging threads' queues by timestamp, renders
    each message into a buffer and writes the buffer to the log file. The queues are the abstract
    first-in-first-out queues that the ring refines, and quiet while one poll runs. */
module LogBackend {
  import opened Bytes
  import opened LogFile
  import opened LogMerge
  import opened LogRecords

  const SIZE_T: nat := 0x1_0000_0000_0000_0000

  /** `i++` and `i--` on a size_t. */
  function Succ(i: nat): nat {
    (i + 1) % SIZE_T
  }

  function Pred(i: nat): nat {
    (i + SIZE_T - 1) % SIZE_T
  }

  lemma SuccIs(i: nat)
    requires i + 1 < SIZE_T
    ensures Succ(i) == i + 1 && Succ(Pred(i)) == i
  {
    assert Pred(i) == if i == 0 then SIZE_T - 1 else i - 1;
  }

  lemma Snoc<T>(a: seq<T>, b: seq<T>, x: T)
    ensures (a + b) + [x] == a + (b + [x])
  {
  }

  class Backend {
    const render: Renderer
    const tsc2ns: int -> int

    var nodes: seq<HeapNode>                // bgThreadBuffers
    var threadBuffers: seq<nat>             // registered since the last poll
    var buffers: map<nat, ThreadBuffer>     // the live ThreadBuffer objects
    var nextTb: nat
    var logInfos: seq<LogInfo>
    var bgLogInfos: seq<LogInfo>

    var membuf: string
    var file: Option<string>                // outputFp: the contents of the open file
    var manageFp: bool
    var fpos: int
    var nextFlushTime: Option<int>          // None for the largest time
    var flushDelay: int
    var flushBufSize: nat
    var flushLogLevel: nat
    var minCBLogLevel: Option<nat>          // None while no callback is set

    // Histories: everything handled, everything ever logged to each buffer, and each buffer's name.
    ghost var handled: seq<Entry>
    ghost var logged: map<nat, seq<LogMsg>>
    ghost var names: map<nat, string>

    // What each file held when it was let go of.
    ghost var closed: seq<string>

    // And since the file was opened: its first contents, how much had been handled before, the records
    // rendered, which of them were to be reported, the callbacks made and the position error.
    ghost var base: string
    ghost var handledBefore: nat
    ghost var records: seq<string>
    ghost var asked: seq<bool>
    ghost var reports: seq<Report>
    ghost var skew: int

    ghost predicate FileOk()
      reads this`file, this`membuf, this`manageFp, this`fpos,
            this`base, this`records, this`asked, this`reports, this`skew
    {
      && StreamOk(file, membuf, base, records)
      && PositionOk(file, manageFp, fpos, skew)
      && ReportsOk(base, records, asked, reports, skew, manageFp)
    }

    function Buffered(): Sink
      reads this`membuf, this`nextFlushTime
    {
      Sink(membuf, nextFlushTime)
    }

    /** Between polls buffered text, and only that, has a flush deadline. */
    ghost predicate SinkOk()
      reads this`file, this`membuf, this`manageFp, this`fpos, this`nextFlushTime,
            this`base, this`records, this`asked, this`reports, this`skew
    {
      FileOk() && (membuf != "" <==> nextFlushTime.Some?)
    }

    /** The records since the file was opened are the renderings of what was handled since. */
    ghost predicate RecordsOk()
      reads this`handled, this`handledBefore, this`records, this`bgLogInfos, this`names
    {
      handledBefore <= |handled| && Rendered(render, bgLogInfos, names, handled[handledBefore..], records)
    }

    ghost predicate QueuesOk()
      reads this`nodes, this`buffers, this`threadBuffers, this`nextTb, this`handled, this`logged, this`names
    {
      && BuffersOk(nodes, buffers, threadBuffers, nextTb)
      && HistoryOk(buffers, handled, logged, nextTb)
      && NamesOk(names, buffers) && names.Keys == logged.Keys
    }

    /** The invariant between polls. The first four entries are those of messages logged without
        registration. */
    ghost predicate Valid()
      reads this
    {
      QueuesOk() && SinkOk() && RecordsOk() && 4 <= |bgLogInfos|
    }

    // ---------- The heap ----------

    /** Among node i and its children, one that none of the others is before. */
    method LeastOfFamily(i: nat) returns (minI: nat)
      ensures minI == i || (i < minI < |nodes| && Parent(minI) == i && Less(nodes[minI].header, nodes[i].header))
      ensures forall j :: 1 <= j < |nodes| && Parent(j) == i ==> !Less(nodes[j].header, nodes[minI].header)
    {
      minI := i;
      var ch := i * 2 + 1;
      var end := if ch + 2 < |nodes| then ch + 2 else |nodes|;
      while ch < end
        invariant i * 2 + 1 <= ch && (ch <= end || ch == i * 2 + 1)
        invariant minI == i || (i * 2 + 1 <= minI < ch && minI < |nodes| && Less(nodes[minI].header, nodes[i].header))
        invariant forall j :: i * 2 + 1 <= j < ch && j < |nodes| ==> !Less(nodes[j].header, nodes[minI].header)
      {
        if Less(nodes[ch].header, nodes[minI].header) {
          minI := ch;
        }
        ch := ch + 1;
      }
    }

    /** Sifts a node down until no child is before it, restoring the heap from that node on. */
    method AdjustHeap(start: nat)
      requires HeapFrom(nodes, start + 1) && DistinctTbs(nodes)
      modifies this`nodes
      ensures HeapFrom(nodes, start) && DistinctTbs(nodes)
      ensures multiset(nodes) == multiset(old(nodes))
    {
      hide HeapBut, Sifting, DistinctTbs, Less;
      SiftStart(nodes, start);
      var i := start;
      while true
        invariant start <= i && |nodes| == |old(nodes)|
        invariant i < |nodes| || i == start
        invariant Sifting(nodes, start, i)
        invariant DistinctTbs(nodes) && multiset(nodes) == multiset(old(nodes))
        decreases |nodes| - i
      {
        var minI := LeastOfFamily(i);
        if minI == i {
          SiftEnd(nodes, start, i);
          break;
        }
        SiftStep(nodes, start, i, minI);
        nodes := Swap(nodes, i, minI);
        i := minI;
      }
    }

    /** Makes a heap of the swept nodes, whatever their order. */
    method BuildHeap()
      requires nodes != [] && DistinctTbs(nodes) && AllCached(nodes, buffers) && Tbs(nodes) == buffers.Keys
      requires QueuesOk() && threadBuffers == []
      modifies this`nodes
      ensures Merging(nodes, buffers) && multiset(nodes) == multiset(old(nodes)) && |nodes| == |old(nodes)|
      ensures QueuesOk()
    {
      hide BuffersOk, HistoryOk, NamesOk, AllCached, Tbs, DistinctTbs;
      var i := |nodes| / 2;
      while i >= 0
        invariant -1 <= i <= |nodes| / 2
        invariant HeapFrom(nodes, i + 1) && DistinctTbs(nodes) && multiset(nodes) == multiset(old(nodes))
        invariant |nodes| == |old(nodes)|
        decreases i
      {
        AdjustHeap(i);
        SamePermutation(nodes, old(nodes));
        i := i - 1;
      }
      PermutedCached(old(nodes), nodes, buffers);
      BuffersStayOk(nodes, buffers, buffers, old(nodes), nextTb);
    }

    // ---------- Sweeping ----------

    /** Caches the missing heads, and destroys the buffers of threads that have gone and have nothing
        left to read. The index may wrap below zero: removing node 0 takes it to the largest size_t,
        from where the increment brings it back. */
    method Sweep()
      requires QueuesOk() && threadBuffers == [] && |nodes| < SIZE_T
      modifies this`nodes, this`buffers
      ensures QueuesOk() && DistinctTbs(nodes)
      ensures AllCached(nodes, buffers) && Tbs(nodes) == buffers.Keys
      ensures buffers == Survivors(old(buffers)) && |nodes| <= |old(nodes)|
      ensures forall tb :: tb in buffers <==>
        tb in old(buffers) && !(old(buffers)[tb].q == [] && old(buffers)[tb].shouldDeallocate)
    {
      hide BuffersOk, Swept, Front, Dead, Tbs, AllCached, HistoryOk, NamesOk, DistinctTbs, Survivors, Succ, Pred;
      SweepStart(nodes, buffers, nextTb);
      var i := 0;
      while i < |nodes|
        invariant |nodes| <= |old(nodes)| && 0 <= i <= |nodes|
        invariant Swept(nodes, buffers, old(buffers), i)
        decreases 2 * |nodes| - i
      {
        CacheKeeps(nodes, buffers, old(buffers), i);
        SuccIs(i);
        if nodes[i].header.Some? {
          SweptMore(nodes, buffers, old(buffers), i);
          i := Succ(i);
          continue;
        }
        nodes := nodes[i := nodes[i].(header := Front(buffers[nodes[i].tb].q))];
        if nodes[i].header.None? && buffers[nodes[i].tb].shouldDeallocate {
          RemoveKeeps(nodes, buffers, old(buffers), i);
          buffers := buffers - {nodes[i].tb};
          nodes := nodes[i := nodes[|nodes| - 1]];
          nodes := nodes[..|nodes| - 1];
          i := Pred(i);
        } else {
          SweptMore(nodes, buffers, old(buffers), i);
        }
        i := Succ(i);
      }
      SweepEnd(nodes, buffers, old(buffers), old(nodes), nextTb);
      HistorySweep(old(buffers), buffers, handled, logged, nextTb);
      SurvivorsKeys(old(buffers));
      NamesSurvive(names, old(buffers));
    }

    // ---------- The file ----------

    /** Writes the buffer to the file, or drops it when there is none. */
    method FlushLogFile()
      modifies this`membuf, this`file, this`fpos, this`nextFlushTime
      ensures Buffered() == Sink("", None)
      ensures file == if old(file).Some? then Some(old(file).value + old(membuf)) else None
      ensures fpos == if old(file).Some? && manageFp then old(fpos) + |old(membuf)| else old(fpos)
      ensures old(FileOk()) ==> FileOk()
    {
      hide StreamOk, ReportsOk;
      if file.Some? {
        if StreamOk(file, membuf, base, records) {
          Flushed(file.value, membuf, base, records);
        }
        file := Some(file.value + membuf);
        if manageFp {
          fpos := fpos + |membuf|;
        }
      } else {
        NoFile(base, records);
      }
      membuf := "";
      nextFlushTime := None;
    }

    /** Writes what is buffered and lets go of the file; later records go nowhere, but are reported. */
    method CloseLogFile()
      requires membuf == "" ==> nextFlushTime.None?
      requires manageFp ==> file.Some?
      modifies this`membuf, this`file, this`fpos, this`nextFlushTime, this`manageFp, this`closed
      ensures Buffered() == Sink("", None) && file.None? && !manageFp
      ensures closed == old(closed) + if old(file).Some? then [old(file).value + old(membuf)] else []
      ensures fpos == if old(manageFp) then old(fpos) + |old(membuf)| else old(fpos)
      ensures old(SinkOk()) ==> SinkOk()
    {
      if SinkOk() {
        NoFile(base, records);
      }
      hide StreamOk;
      if |membuf| > 0 {
        FlushLogFile();
      }
      assert file.Some? ==> file.value == old(file).value + old(membuf);
      closed := closed + if file.Some? then [file.value] else [];
      file := None;
      manageFp := false;
    }

    /** Opens a file by name. The position is taken before the old file is closed, so it is too large
        by what closing adds to it: by the text still buffered for a managed file. */
    method SetLogFileByName(contents: string)
      requires SinkOk()
      modifies this`membuf, this`file, this`fpos, this`nextFlushTime, this`manageFp, this`closed,
               this`base, this`handledBefore, this`records, this`asked, this`reports, this`skew
      ensures SinkOk() && RecordsOk() && file == Some(contents) && manageFp && Buffered() == Sink("", None)
      ensures base == contents && handledBefore == |handled|
      ensures records == [] && asked == [] && reports == []
      ensures closed == old(closed) + if old(file).Some? then [old(file).value + old(membuf)] else []
      ensures skew == if old(manageFp) then |old(membuf)| else 0
    {
      hide FileOk, SinkOk, RecordsOk, StreamOk, ReportsOk, PositionOk, QueuesOk, Valid;
      SinkKnown();
      fpos := |contents|;
      CloseLogFile();
      file := Some(contents);
      manageFp := true;
      StartHistory(contents, fpos - |contents|);
    }

    lemma SinkKnown()
      requires SinkOk()
      ensures FileOk() && (manageFp ==> file.Some?) && (membuf == "" ==> nextFlushTime.None?)
    {
    }

    /** Bookkeeping: a file has just been opened, its position off by error. */
    ghost method StartHistory(contents: string, error: int)
      requires file == Some(contents) && Buffered() == Sink("", None)
      requires manageFp ==> fpos == |contents| + error
      modifies this`base, this`handledBefore, this`records, this`asked, this`reports, this`skew
      ensures SinkOk() && RecordsOk()
      ensures base == contents && handledBefore == |handled| && records == [] && asked == [] && reports == []
      ensures skew == error
    {
      hide FileOk, SinkOk, RecordsOk;
      base, handledBefore, records, asked, reports, skew := contents, |handled|, [], [], [], error;
      JustOpened(contents);
    }

    lemma JustOpened(contents: string)
      requires file == Some(contents) && base == contents && Buffered() == Sink("", None)
      requires handledBefore == |handled| && records == [] && asked == [] && reports == []
      requires manageFp ==> fpos == |contents| + skew
      ensures SinkOk() && RecordsOk()
    {
      FreshFile(contents, skew, manageFp);
    }

    /** Takes over an already open file, managed or not. Here the position is taken last. */
    method SetLogFile(contents: string, manage: bool)
      requires SinkOk()
      modifies this`membuf, this`file, this`fpos, this`nextFlushTime, this`manageFp, this`closed,
               this`base, this`handledBefore, this`records, this`asked, this`reports, this`skew
      ensures SinkOk() && RecordsOk() && file == Some(contents) && manageFp == manage
      ensures Buffered() == Sink("", None)
      ensures base == contents && handledBefore == |handled| && skew == 0
      ensures records == [] && asked == [] && reports == []
      ensures closed == old(closed) + if old(file).Some? then [old(file).value + old(membuf)] else []
    {
      hide FileOk, SinkOk, RecordsOk, StreamOk, ReportsOk, PositionOk, QueuesOk, Valid;
      SinkKnown();
      CloseLogFile();
      fpos := if manage then |contents| else 0;
      file := Some(contents);
      manageFp := manage;
      StartHistory(contents, 0);
    }

    /** Renders one message into the buffer, reports it, and flushes if size or level ask for it. */
    method HandleLog(name: string, header: LogMsg) returns (ghost text: string)
      requires FileOk() && header.logId < |bgLogInfos|
      modifies this`membuf, this`file, this`fpos, this`nextFlushTime, this`records, this`asked, this`reports
      ensures FileOk() && file.Some? == old(file).Some?
      ensures text == render(name, bgLogInfos[header.logId], header)
      ensures var info := bgLogInfos[header.logId];
        var ask := minCBLogLevel.Some? && info.level >= minCBLogLevel.value;
        && records == old(records) + [text] && asked == old(asked) + [ask]
        && reports == old(reports) + (if ask then [Report(old(fpos) + |old(membuf)|, text)] else [])
        && Buffered() == AddLine(old(Buffered()), text, info.level >= flushLogLevel, flushBufSize)
      ensures file.Some? ==> file.value + membuf == old(file).value + old(membuf) + text + "\n"
      ensures if |old(membuf)| + |text| + 1 >= flushBufSize || bgLogInfos[header.logId].level >= flushLogLevel then
          membuf == "" && nextFlushTime.None?
        else
          membuf == old(membuf) + text + "\n" && nextFlushTime == old(nextFlushTime)
    {
      hide FileOk;
      text := RenderLine(name, header);
      if file.Some? {
        LineInFile(file.value, old(membuf), text);
      }
      if |membuf| >= flushBufSize || bgLogInfos[header.logId].level >= flushLogLevel {
        FlushLogFile();
      }
    }

    /** Renders one message as a line at the end of the buffer and reports it. */
    method RenderLine(name: string, header: LogMsg) returns (ghost text: string)
      requires FileOk() && header.logId < |bgLogInfos|
      modifies this`membuf, this`records, this`asked, this`reports
      ensures FileOk() && text == render(name, bgLogInfos[header.logId], header)
      ensures membuf == old(membuf) + text + "\n"
      ensures var ask := minCBLogLevel.Some? && bgLogInfos[header.logId].level >= minCBLogLevel.value;
        && records == old(records) + [text] && asked == old(asked) + [ask]
        && reports == old(reports) + if ask then [Report(fpos + |old(membuf)|, text)] else []
    {
      hide StreamOk, ReportsOk, PositionOk;
      var info := bgLogInfos[header.logId];
      text := render(name, info, header);
      ghost var ask := Asks(minCBLogLevel, info.level);
      ghost var owed := if ask then [Report(fpos + |membuf|, text)] else [];
      StreamGrows(text);
      ReportsGrowBy(text, ask, owed);
      owed := reports + owed;
      var headerPos := |membuf|;
      membuf := membuf + render(name, info, header);
      if minCBLogLevel.Some? && info.level >= minCBLogLevel.value {
        reports := reports + [Report(fpos + headerPos, membuf[headerPos..])];
        assert membuf[headerPos..] == text;
      }
      assert reports == owed;
      membuf := membuf + "\n";
      records := records + [text];
      asked := asked + [ask];
    }

    lemma LineInFile(file: string, membuf: string, text: string)
      ensures file + (membuf + text + "\n") == file + membuf + text + "\n"
      ensures file + (membuf + text + "\n") + "" == file + (membuf + text + "\n")
    {
    }

    lemma StreamGrows(text: string)
      requires FileOk()
      ensures StreamOk(file, membuf + text + "\n", base, records + [text])
    {
      hide ReportsOk;
      if file.Some? {
        AppendRecord(file.value, membuf, base, records, text);
      }
    }

    lemma ReportsGrowBy(text: string, ask: bool, owed: seq<Report>)
      requires FileOk() && owed == if ask then [Report(fpos + |membuf|, text)] else []
      ensures ReportsOk(base, records + [text], asked + [ask], reports + owed, skew, manageFp)
    {
      StreamEnd();
      hide FileOk, ReportsOk, StreamOk;
      ReportsGrow(base, records, asked, reports, skew, manageFp, text, ask, fpos + |membuf|);
    }

    /** In a managed file the buffer's position plus its length is the end of the stream. */
    lemma StreamEnd()
      requires FileOk()
      ensures ReportsOk(base, records, asked, reports, skew, manageFp)
      ensures manageFp ==> fpos + |membuf| == |base + Lines(records)| + skew
    {
      hide ReportsOk;
    }

    // ---------- Polling ----------

    /** Handles the earliest heads first until none is left, due and registered. */
    method Merge(tsc: int) returns (ghost out: seq<Entry>, ghost texts: seq<string>)
      requires QueuesOk() && threadBuffers == [] && Merging(nodes, buffers) && FileOk()
      modifies this`nodes, this`buffers, this`handled, this`membuf, this`file, this`fpos, this`nextFlushTime,
               this`records, this`asked, this`reports
      ensures QueuesOk() && nodes != [] && FileOk()
      ensures Merged(old(buffers), buffers, out, |bgLogInfos|, tsc) && buffers.Keys == old(buffers).Keys
      ensures Stops(nodes[0].header, |bgLogInfos|, tsc)
      ensures handled == old(handled) + out && records == old(records) + texts
      ensures Rendered(render, bgLogInfos, names, out, texts) && |texts| == |out|
      ensures asked == old(asked) + Asked(bgLogInfos, minCBLogLevel, out)
      ensures Buffered() ==
        AddLines(old(Buffered()), texts, Urgent(bgLogInfos, flushLogLevel, out), flushBufSize)
      ensures |nodes| == |old(nodes)|
    {
      hide QueuesOk, FileOk, Merging, Merged, MergedSoFar, Popped, Rendered, Asked, Asks, Urgent, AddLine, AddLines,
           QueuedLen, Order;
      ghost var before, sink := buffers, Buffered();
      ghost var order := Order(nodes);
      out, texts := [], [];
      MergeStart(before, |bgLogInfos|, tsc);
      NothingYet(sink);
      OrderIsAll();
      while !Stops(nodes[0].header, |bgLogInfos|, tsc)
        invariant QueuesOk() && Merging(nodes, buffers) && FileOk() && nodes != []
        invariant MergedSoFar(before, buffers, out, |bgLogInfos|, tsc)
        invariant handled == old(handled) + out && records == old(records) + texts
        invariant Rendered(render, bgLogInfos, names, out, texts) && |texts| == |out|
        invariant asked == old(asked) + Asked(bgLogInfos, minCBLogLevel, out)
        invariant Buffered() == AddLines(sink, texts, Urgent(bgLogInfos, flushLogLevel, out), flushBufSize)
        invariant |nodes| == |old(nodes)|
        invariant (forall tb :: tb in order <==> tb in buffers) && buffers.Keys == before.Keys
        decreases QueuedLen(order, buffers)
      {
        MergeStep(before, nodes, buffers, out, |bgLogInfos|, tsc);
        PopShortens(order, buffers, nodes[0].tb);
        ghost var e, text := HandleRoot();
        OneMore(sink, out, texts, e);
        Snoc(old(handled), out, e);
        Snoc(old(records), texts, text);
        Snoc(old(asked), Asked(bgLogInfos, minCBLogLevel, out), asked[|asked| - 1]);
        texts := texts + [text];
        out := out + [e];
      }
      MergeEnd(before, nodes, buffers, out, |bgLogInfos|, tsc);
    }

    lemma OrderIsAll()
      requires Merging(nodes, buffers)
      ensures nodes != [] && forall tb :: tb in Order(nodes) <==> tb in buffers
    {
      forall tb
        ensures tb in Order(nodes) <==> tb in buffers
      {
        OrderCovers(nodes, tb);
      }
    }

    lemma NothingYet(sink: Sink)
      ensures Rendered(render, bgLogInfos, names, [], [])
      ensures Asked(bgLogInfos, minCBLogLevel, []) == [] && Urgent(bgLogInfos, flushLogLevel, []) == []
      ensures AddLines(sink, [], [], flushBufSize) == sink
    {
    }

    lemma OneMore(sink: Sink, out: seq<Entry>, texts: seq<string>, e: Entry)
      requires Rendered(render, bgLogInfos, names, out, texts) && |texts| == |out|
      requires e.tb in names && e.msg.logId < |bgLogInfos|
      ensures var info := bgLogInfos[e.msg.logId]; var text := render(names[e.tb], info, e.msg);
        var more, flags := out + [e], Urgent(bgLogInfos, flushLogLevel, out);
        && Rendered(render, bgLogInfos, names, more, texts + [text])
        && Asked(bgLogInfos, minCBLogLevel, more)
           == Asked(bgLogInfos, minCBLogLevel, out)
              + [minCBLogLevel.Some? && info.level >= minCBLogLevel.value]
        && AddLines(sink, texts + [text], Urgent(bgLogInfos, flushLogLevel, more), flushBufSize)
           == AddLine(AddLines(sink, texts, flags, flushBufSize), text, info.level >= flushLogLevel, flushBufSize)
    {
      hide Rendered, Asked, Urgent, AddLine, AddLines;
      var info := bgLogInfos[e.msg.logId];
      var text := render(names[e.tb], info, e.msg);
      RenderedMore(render, bgLogInfos, names, out, texts, e);
      AskedMore(bgLogInfos, minCBLogLevel, out, e);
      UrgentMore(bgLogInfos, flushLogLevel, out, e);
      AddLinesSnoc(sink, texts, Urgent(bgLogInfos, flushLogLevel, out), flushBufSize, text,
                   info.level >= flushLogLevel);
    }

    /** Handles the message at the root and moves its queue on. */
    method HandleRoot() returns (ghost e: Entry, ghost text: string)
      requires nodes != [] && QueuesOk() && threadBuffers == [] && Merging(nodes, buffers) && FileOk()
      requires nodes[0].header.Some? && nodes[0].header.value.logId < |bgLogInfos|
      modifies this`nodes, this`buffers, this`handled, this`membuf, this`file, this`fpos, this`nextFlushTime,
               this`records, this`asked, this`reports
      ensures QueuesOk() && Merging(nodes, buffers) && FileOk() && |nodes| == |old(nodes)|
      ensures e.tb == old(nodes[0].tb) && Some(e.msg) == old(nodes[0].header)
      ensures handled == old(handled) + [e] && e.msg.logId < |bgLogInfos|
      ensures e.tb in old(buffers) && old(buffers)[e.tb].q != [] && buffers == Popped(old(buffers), e.tb)
      ensures e.tb in names && text == render(names[e.tb], bgLogInfos[e.msg.logId], e.msg)
      ensures var info := bgLogInfos[e.msg.logId];
        var ask := minCBLogLevel.Some? && info.level >= minCBLogLevel.value;
        && records == old(records) + [text] && asked == old(asked) + [ask]
        && reports == old(reports) + (if ask then [Report(old(fpos) + |old(membuf)|, text)] else [])
        && Buffered() == AddLine(old(Buffered()), text, info.level >= flushLogLevel, flushBufSize)
    {
      hide QueuesOk, FileOk, Merging, Popped, AddLine, Asks;
      RootKnown();
      var tb := nodes[0].tb;
      var h := nodes[0].header.value;
      e := Entry(tb, h);
      text := HandleLog(buffers[tb].name, h);
      PopAndReheap();
    }

    lemma RootKnown()
      requires QueuesOk() && threadBuffers == [] && Merging(nodes, buffers) && nodes[0].header.Some?
      ensures nodes != [] && nodes[0].tb in buffers && buffers[nodes[0].tb].q != []
      ensures nodes[0].header == Front(buffers[nodes[0].tb].q)
      ensures nodes[0].tb in names && names[nodes[0].tb] == buffers[nodes[0].tb].name
    {
      AdvanceKeeps(nodes, buffers);
      hide BuffersOk, HistoryOk, HeapBut, AllCached, DistinctTbs, Tbs;
    }

    /** Pops the root's queue, caches the new head and restores the heap. */
    method PopAndReheap()
      requires QueuesOk() && threadBuffers == [] && Merging(nodes, buffers) && nodes[0].header.Some?
      modifies this`nodes, this`buffers, this`handled
      ensures QueuesOk() && Merging(nodes, buffers) && |nodes| == |old(nodes)| > 0
      ensures old(nodes)[0].tb in old(buffers) && old(buffers)[old(nodes)[0].tb].q != []
      ensures buffers == Popped(old(buffers), old(nodes)[0].tb)
      ensures handled == old(handled) + [Entry(old(nodes)[0].tb, old(nodes)[0].header.value)]
    {
      hide BuffersOk, HistoryOk, NamesOk, HeapBut, AllCached, DistinctTbs, Tbs;
      AdvanceKeeps(nodes, buffers);
      var tb := nodes[0].tb;
      HistoryPop(buffers, handled, logged, nextTb, tb);
      NamesPopped(names, buffers, tb);
      ghost var ns, bs := nodes, buffers;
      handled := handled + [Entry(tb, nodes[0].header.value)];
      buffers := buffers[tb := buffers[tb].(q := buffers[tb].q[1..])];
      nodes := nodes[0 := nodes[0].(header := Front(buffers[tb].q))];
      ghost var mid := nodes;
      AdjustHeap(0);
      PermutedCached(mid, nodes, buffers);
      BuffersStayOk(nodes, buffers, bs, ns, nextTb);
    }

    /** The end of a poll: buffered text is written at once unless the file is managed, when forced,
        or when its deadline has passed; otherwise it has a deadline. */
    method FlushAfterPoll(now: int, forceFlush: bool)
      requires FileOk() && (membuf == "" ==> nextFlushTime.None?)
      modifies this`membuf, this`file, this`fpos, this`nextFlushTime
      ensures SinkOk() && Buffered() == Settle(old(Buffered()), now, flushDelay, !manageFp || forceFlush)
      ensures old(membuf) == "" ==> Buffered() == old(Buffered()) && file == old(file)
      ensures old(membuf) != "" && (!manageFp || forceFlush) ==> membuf == "" && nextFlushTime.None?
      ensures old(membuf) != "" && manageFp && !forceFlush && old(nextFlushTime).Some? ==>
        if now > old(nextFlushTime).value then membuf == "" && nextFlushTime.None?
        else membuf == old(membuf) && nextFlushTime == old(nextFlushTime)
      ensures old(membuf) != "" && manageFp && !forceFlush && old(nextFlushTime).None? ==>
        membuf == old(membuf) && nextFlushTime == Some(now + flushDelay)
      ensures file.Some? == old(file).Some?
      ensures file.Some? ==> file.value == old(file).value + if membuf == "" then old(membuf) else ""
    {
      hide FileOk;
      if |membuf| == 0 {
        return;
      }
      if !manageFp || forceFlush {
        FlushLogFile();
        return;
      }
      if nextFlushTime.Some? && now > nextFlushTime.value {
        FlushLogFile();
      } else if nextFlushTime.None? {
        nextFlushTime := Some(now + flushDelay);
      }
    }

    /** Takes over what call sites and threads have registered since the last poll. */
    method TakeRegistrations()
      requires QueuesOk()
      modifies this`logInfos, this`bgLogInfos, this`threadBuffers, this`nodes
      ensures bgLogInfos == old(bgLogInfos) + old(logInfos) && logInfos == []
      ensures threadBuffers == [] && QueuesOk()
      ensures |nodes| == |old(nodes)| + |old(threadBuffers)|
    {
      hide BuffersOk, HistoryOk, NamesOk;
      if |logInfos| > 0 {
        bgLogInfos := bgLogInfos + logInfos;
        logInfos := [];
      }
      assert bgLogInfos == old(bgLogInfos) + old(logInfos);
      for i := 0 to |threadBuffers|
        invariant i <= |threadBuffers| && |nodes| == |old(nodes)| + i
        invariant BuffersOk(nodes, buffers, threadBuffers[i..], nextTb)
        modifies this`nodes
      {
        TakeBuffer(nodes, buffers, threadBuffers[i..], nextTb);
        assert threadBuffers[i..][1..] == threadBuffers[i + 1..];
        nodes := nodes + [HeapNode(threadBuffers[i], None)];
      }
      assert threadBuffers[|threadBuffers|..] == [];
      threadBuffers := [];
    }

    /** The buffered text after a poll that made these records. */
    function Drained(s: Sink, out: seq<Entry>, texts: seq<string>, tsc: int, forceFlush: bool): Sink
      requires |texts| == |out|
      reads this`bgLogInfos, this`flushLogLevel, this`flushBufSize, this`flushDelay, this`manageFp
    {
      Settle(AddLines(s, texts, Urgent(bgLogInfos, flushLogLevel, out), flushBufSize),
             tsc2ns(tsc), flushDelay, !manageFp || forceFlush)
    }

    /** The part of a poll after the sweep; nothing, not even a flush, without a buffer. */
    method MergeSurvivors(tsc: int, forceFlush: bool) returns (ghost out: seq<Entry>, ghost texts: seq<string>)
      requires QueuesOk() && threadBuffers == [] && SinkOk()
      requires DistinctTbs(nodes) && AllCached(nodes, buffers) && Tbs(nodes) == buffers.Keys
      modifies this`nodes, this`buffers, this`handled, this`membuf, this`file, this`fpos, this`nextFlushTime,
               this`records, this`asked, this`reports
      ensures QueuesOk() && SinkOk() && |nodes| == |old(nodes)|
      ensures Merged(old(buffers), buffers, out, |bgLogInfos|, tsc) && buffers.Keys == old(buffers).Keys
      ensures handled == old(handled) + out && records == old(records) + texts
      ensures Rendered(render, bgLogInfos, names, out, texts) && |texts| == |out|
      ensures asked == old(asked) + Asked(bgLogInfos, minCBLogLevel, out)
      ensures Buffered() == if old(buffers) == map[] then old(Buffered())
                            else Drained(old(Buffered()), out, texts, tsc, forceFlush)
    {
      hide QueuesOk, SinkOk, FileOk, Merging, DistinctTbs, AllCached, Tbs, Merged, Stops, Rendered, Asked, Urgent,
           AddLine, AddLines, Settle;
      NoNodes(nodes);
      if |nodes| == 0 {
        out, texts := [], [];
        NothingToMerge(buffers, |bgLogInfos|, tsc);
        NothingYet(Buffered());
        return;
      }
      SinkKnown();
      BuildHeap();
      ghost var sink := Buffered();
      out, texts := Merge(tsc);
      DueStays(sink, texts, Urgent(bgLogInfos, flushLogLevel, out), flushBufSize);
      FlushAfterPoll(tsc2ns(tsc), forceFlush);
    }

    /** A poll's work on the queues. */
    method SweepAndMerge(tsc: int, forceFlush: bool) returns (ghost out: seq<Entry>, ghost texts: seq<string>)
      requires QueuesOk() && SinkOk() && |nodes| + |threadBuffers| < SIZE_T
      modifies this`logInfos, this`bgLogInfos, this`threadBuffers, this`nodes, this`buffers, this`handled,
               this`membuf, this`file, this`fpos, this`nextFlushTime,
               this`records, this`asked, this`reports
      ensures QueuesOk() && SinkOk() && threadBuffers == [] && logInfos == []
      ensures bgLogInfos == old(bgLogInfos) + old(logInfos)
      ensures buffers.Keys == Survivors(old(buffers)).Keys
      ensures Merged(Survivors(old(buffers)), buffers, out, |bgLogInfos|, tsc)
      ensures handled == old(handled) + out && records == old(records) + texts && |texts| == |out|
      ensures Rendered(render, bgLogInfos, names, out, texts)
      ensures asked == old(asked) + Asked(bgLogInfos, minCBLogLevel, out)
      ensures |nodes| <= |old(nodes)| + |old(threadBuffers)|
      ensures Buffered() == if Survivors(old(buffers)) == map[] then old(Buffered())
                            else Drained(old(Buffered()), out, texts, tsc, forceFlush)
    {
      hide QueuesOk, SinkOk, FileOk, DistinctTbs, AllCached, Tbs, Merged, Survivors, Rendered, Asked, Drained;
      TakeRegistrations();
      Sweep();
      out, texts := MergeSurvivors(tsc, forceFlush);
    }

    /** One poll over quiet queues. It destroys exactly the buffers of gone threads with nothing left and
        merges the others. Each message handled becomes one record, reported at its own place if its
        level asks for it. Text stays buffered as size, level and deadline have it, and a forced poll
        leaves some exactly when there was some and no thread buffer survives: it then returns before the
        flush. */
    method Poll(tsc: int, forceFlush: bool) returns (ghost out: seq<Entry>, ghost texts: seq<string>)
      requires Valid() && |nodes| + |threadBuffers| < SIZE_T
      modifies this`logInfos, this`bgLogInfos, this`threadBuffers, this`nodes, this`buffers, this`handled,
               this`membuf, this`file, this`fpos, this`nextFlushTime,
               this`records, this`asked, this`reports
      ensures Valid() && threadBuffers == [] && logInfos == []
      ensures bgLogInfos == old(bgLogInfos) + old(logInfos)
      ensures buffers.Keys == Survivors(old(buffers)).Keys
      ensures Merged(Survivors(old(buffers)), buffers, out, |bgLogInfos|, tsc)
      ensures handled == old(handled) + out && records == old(records) + texts && |texts| == |out|
      ensures Rendered(render, bgLogInfos, names, out, texts)
      ensures asked == old(asked) + Asked(bgLogInfos, minCBLogLevel, out)
      ensures Reported(reports, old(reports) + ReportsFrom(old(fpos) + |old(membuf)|, texts,
                                                           Asked(bgLogInfos, minCBLogLevel, out)), manageFp)
      ensures |nodes| <= |old(nodes)| + |old(threadBuffers)|
      ensures Buffered() == if Survivors(old(buffers)) == map[] then old(Buffered())
                            else Drained(old(Buffered()), out, texts, tsc, forceFlush)
      ensures forall tb :: tb in buffers <==>
        tb in old(buffers) && !(old(buffers)[tb].q == [] && old(buffers)[tb].shouldDeallocate)
      ensures buffers.Keys == {} ==> Buffered() == old(Buffered())
      ensures buffers.Keys != {} ==>
        var merged := AddLines(old(Buffered()), texts, Urgent(bgLogInfos, flushLogLevel, out), flushBufSize);
        if merged.membuf == "" || !manageFp || forceFlush then Buffered() == Sink("", None)
        else if merged.deadline.None? then Buffered() == Sink(merged.membuf, Some(tsc2ns(tsc) + flushDelay))
        else if tsc2ns(tsc) > merged.deadline.value then Buffered() == Sink("", None)
        else Buffered() == merged
      ensures forceFlush ==> (membuf != "" <==> old(membuf) != "" && Survivors(old(buffers)) == map[])
    {
      hide QueuesOk, SinkOk, RecordsOk, FileOk, ReportsOk, DistinctTbs, AllCached, Tbs, Merged, Survivors,
           Rendered, Asked, ReportsFrom, Reported, Drained, AddLines, Urgent;
      ghost var h, r, a, rs, infos, pos := handled, records, asked, reports, bgLogInfos, fpos + |membuf|;
      SinkKnown();
      StreamEnd();
      RecordsKnown();
      out, texts := SweepAndMerge(tsc, forceFlush);
      MoreRecords(h, out, r, texts, infos);
      SinkKnown();
      PolledReports(r, a, rs, texts, Asked(bgLogInfos, minCBLogLevel, out), pos);
      SurvivorsKeys(old(buffers));
      DrainedIs(old(Buffered()), out, texts, tsc, forceFlush);
    }

    lemma FileStreams()
      requires FileOk()
      ensures StreamOk(file, membuf, base, records) && (manageFp ==> file.Some? && fpos == |file.value| + skew)
    {
      hide StreamOk, ReportsOk;
    }

    lemma HistoryKnown()
      requires QueuesOk()
      ensures HistoryOk(buffers, handled, logged, nextTb)
    {
      hide BuffersOk, HistoryOk, NamesOk;
    }

    lemma RecordsKnown()
      requires RecordsOk()
      ensures handledBefore <= |handled| && Rendered(render, bgLogInfos, names, handled[handledBefore..], records)
    {
    }

    /** What is left after the merge is written now, or because its deadline has passed, or waits for it. */
    lemma DrainedIs(s: Sink, out: seq<Entry>, texts: seq<string>, tsc: int, forceFlush: bool)
      requires |texts| == |out| && (s.membuf == "" ==> s.deadline.None?)
      ensures var t := Drained(s, out, texts, tsc, forceFlush);
        var merged := AddLines(s, texts, Urgent(bgLogInfos, flushLogLevel, out), flushBufSize);
        if merged.membuf == "" || !manageFp || forceFlush then t == Sink("", None)
        else if merged.deadline.None? then t == Sink(merged.membuf, Some(tsc2ns(tsc) + flushDelay))
        else if tsc2ns(tsc) > merged.deadline.value then t == Sink("", None)
        else t == merged
    {
      DueStays(s, texts, Urgent(bgLogInfos, flushLogLevel, out), flushBufSize);
      hide AddLines, Urgent;
    }

    lemma PolledReports(records0: seq<string>, asked0: seq<bool>, reports0: seq<Report>,
                        texts: seq<string>, flags: seq<bool>, pos: int)
      requires FileOk() && records == records0 + texts && asked == asked0 + flags && |flags| == |texts|
      requires ReportsOk(base, records0, asked0, reports0, skew, manageFp)
      requires manageFp ==> pos == |base + Lines(records0)| + skew
      ensures Reported(reports, reports0 + ReportsFrom(pos, texts, flags), manageFp)
    {
      hide StreamOk;
      ReportsSince(base, records0, asked0, reports0, texts, flags, reports, skew, manageFp, pos);
    }

    /** The records after a poll, from those before. */
    lemma MoreRecords(before: seq<Entry>, out: seq<Entry>, records0: seq<string>, texts: seq<string>,
                      infos: seq<LogInfo>)
      requires handledBefore <= |before| && handled == before + out && records == records0 + texts
      requires Rendered(render, infos, names, before[handledBefore..], records0) && infos <= bgLogInfos
      requires Rendered(render, bgLogInfos, names, out, texts)
      ensures RecordsOk()
    {
      hide Rendered;
      RenderedStays(render, infos, names, bgLogInfos, names, before[handledBefore..], records0);
      RenderedAppend(render, bgLogInfos, names, before[handledBefore..], records0, out, texts);
      assert handled[handledBefore..] == before[handledBefore..] + out;
    }

    // ---------- The rest of the interface ----------

    /** Four call-site entries for messages logged without registration, no callback, and standard
        output, not managed, as the file. */
    constructor (render: Renderer, tsc2ns: int -> int)
      ensures Valid() && this.render == render && this.tsc2ns == tsc2ns
      ensures nodes == [] && threadBuffers == [] && buffers == map[] && logInfos == []
      ensures |bgLogInfos| == 4 && forall level :: 0 <= level < 4 ==> bgLogInfos[level].level == level
      ensures file == Some("") && !manageFp && Buffered() == Sink("", None) && minCBLogLevel.None?
      ensures flushDelay == 3000000000 && flushBufSize == 8 * 1024 && flushLogLevel == 4
      ensures handled == [] && logged == map[] && records == [] && reports == [] && closed == []
    {
      this.render, this.tsc2ns := render, tsc2ns;
      nodes, threadBuffers, buffers, nextTb := [], [], map[], 0;
      logInfos, bgLogInfos := [], seq(4, i requires 0 <= i < 4 => LogInfo(i, i, "", ""));
      membuf, file, manageFp, fpos, nextFlushTime := "", Some(""), false, 0, None;
      flushDelay, flushBufSize, flushLogLevel, minCBLogLevel := 3000000000, 8 * 1024, 4, None;
      handled, logged, names, closed := [], map[], map[], [];
      base, handledBefore, records, asked, reports, skew := "", 0, [], [], [], 0;
    }

    /** A thread's first log call creates its buffer. */
    method Preallocate(name: string) returns (tb: nat)
      requires Valid()
      modifies this`buffers, this`threadBuffers, this`nextTb, this`logged, this`names
      ensures Valid() && tb !in old(buffers) && tb !in old(logged)
      ensures buffers == old(buffers)[tb := ThreadBuffer([], false, name)]
      ensures threadBuffers == old(threadBuffers) + [tb] && logged == old(logged)[tb := []]
      ensures names == old(names)[tb := name] && nextTb == tb + 1
    {
      hide BuffersOk, HistoryOk, NamesOk, SinkOk, FileOk, Rendered;
      tb := nextTb;
      NewBuffer(name);
      nextTb := nextTb + 1;
      buffers := buffers[tb := ThreadBuffer([], false, name)];
      threadBuffers := threadBuffers + [tb];
      logged := logged[tb := []];
      names := names[tb := name];
    }

    lemma NewBuffer(name: string)
      requires QueuesOk() && RecordsOk()
      ensures nextTb !in buffers && nextTb !in logged
      ensures BuffersOk(nodes, buffers[nextTb := ThreadBuffer([], false, name)], threadBuffers + [nextTb], nextTb + 1)
      ensures HistoryOk(buffers[nextTb := ThreadBuffer([], false, name)], handled, logged[nextTb := []], nextTb + 1)
      ensures NamesOk(names[nextTb := name], buffers[nextTb := ThreadBuffer([], false, name)])
      ensures names[nextTb := name].Keys == logged[nextTb := []].Keys
      ensures Rendered(render, bgLogInfos, names[nextTb := name], handled[handledBefore..], records)
    {
      assert forall e :: e in handled ==> e.tb < nextTb;
      NothingHandledYet(handled, nextTb);
      AddBuffer(nodes, buffers, threadBuffers, nextTb, name);
      HistoryNew(buffers, handled, logged, nextTb, name);
      hide BuffersOk, HistoryOk;
      RenderedStays(render, bgLogInfos, names, bgLogInfos, names[nextTb := name], handled[handledBefore..], records);
    }

    /** A thread logs a message. A cached queue head stays the queue's front. */
    method Log(tb: nat, m: LogMsg)
      requires Valid() && tb in buffers && !buffers[tb].shouldDeallocate
      modifies this`buffers, this`logged
      ensures Valid() && tb in old(logged)
      ensures buffers == old(buffers)[tb := old(buffers)[tb].(q := old(buffers)[tb].q + [m])]
      ensures logged == old(logged)[tb := old(logged)[tb] + [m]]
    {
      hide SinkOk, FileOk, RecordsOk, BuffersOk, HistoryOk;
      HistoryLog(buffers, handled, logged, nextTb, tb, m);
      ReplaceBuffer(nodes, buffers, threadBuffers, nextTb, tb, buffers[tb].(q := buffers[tb].q + [m]));
      buffers := buffers[tb := buffers[tb].(q := buffers[tb].q + [m])];
      logged := logged[tb := logged[tb] + [m]];
    }

    /** A call site registers, unless another thread has done so for it since it found its id zero. The
        id is never zero, and indexes the site's own entry once the poller has taken it over. */
    method RegisterLogInfo(logId: nat, info: LogInfo) returns (id: nat)
      requires Valid()
      modifies this`logInfos
      ensures Valid() && id != 0
      ensures if logId != 0 then id == logId && logInfos == old(logInfos)
              else id == |bgLogInfos + old(logInfos)| && bgLogInfos + logInfos == bgLogInfos + old(logInfos) + [info]
    {
      if logId != 0 {
        return logId;
      }
      id := |logInfos| + |bgLogInfos|;
      logInfos := logInfos + [info];
    }

    /** A thread ends; its buffer is left for the poller to destroy. */
    method ThreadExit(tb: nat)
      requires Valid() && tb in buffers
      modifies this`buffers
      ensures Valid() && buffers == old(buffers)[tb := old(buffers)[tb].(shouldDeallocate := true)]
    {
      hide SinkOk, FileOk, RecordsOk, BuffersOk;
      ReplaceBuffer(nodes, buffers, threadBuffers, nextTb, tb, buffers[tb].(shouldDeallocate := true));
      buffers := buffers[tb := buffers[tb].(shouldDeallocate := true)];
    }
  }
}
