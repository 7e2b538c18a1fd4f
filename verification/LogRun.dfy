/** Whole runs of the logger's background side, and two runs in which it does not do what it promises. */
module LogRun {
  import opened Bytes
  import opened LogFile
  import opened LogMerge
  import opened LogRecords
  import opened LogBackend

  /** What can happen to the logger between and including polls. */
  datatype Op =
    | Start(name: string)
    | Send(tb: nat, msg: LogMsg)
    | Exit(tb: nat)
    | Register(info: LogInfo)
    | OpenByName(contents: string)
    | Adopt(contents: string, manage: bool)
    | Close
    | Poll(tsc: int, forceFlush: bool)

  predicate Opens(op: Op) {
    op.OpenByName? || op.Adopt?
  }

  /** Of what was handled in the run since a file was last opened, exactly the messages at the callback's
      level are to be reported; `anew` tells whether a file was opened in the run, `asked0` and `handled0`
      what had been before it. */
  ghost predicate AskedOk(b: Backend, anew: bool, asked0: seq<bool>, handled0: nat)
    reads b
  {
    var from := if anew then b.handledBefore else handled0;
    && b.handledBefore <= from <= |b.handled|
    && b.asked == (if anew then [] else asked0) + Asked(b.bgLogInfos, b.minCBLogLevel, b.handled[from..])
  }

  /** With every thread's messages in order and their ids known, all that were logged before time tsc have
      been handled. */
  ghost predicate AllDueHandled(b: Backend, tsc: int)
    reads b
  {
    (forall tb :: tb in b.logged ==>
       SortedQueue(b.logged[tb]) && forall m :: m in b.logged[tb] ==> m.logId < |b.bgLogInfos|)
    ==>
      forall tb, m :: tb in b.logged && m in b.logged[tb] && m.tsc < tsc ==> m in Proj(b.handled, tb)
  }

  /** What holds right after an operation. */
  ghost predicate Done(b: Backend, op: Op)
    reads b
  {
    match op
    case Start(name) =>
      b.nextTb > 0 && b.nextTb - 1 in b.buffers && b.buffers[b.nextTb - 1] == ThreadBuffer([], false, name)
    case Send(tb, m) =>
      tb in b.buffers && !b.buffers[tb].shouldDeallocate ==>
        && b.buffers[tb].q != [] && b.buffers[tb].q[|b.buffers[tb].q| - 1] == m
        && tb in b.logged && b.logged[tb] != [] && b.logged[tb][|b.logged[tb]| - 1] == m
    case Exit(tb) => tb in b.buffers ==> b.buffers[tb].shouldDeallocate
    case Register(info) => HasSite(b, info.site)
    case OpenByName(contents) => b.file == Some(contents) && b.manageFp && b.membuf == "" && b.records == []
    case Adopt(contents, manage) =>
      b.file == Some(contents) && b.manageFp == manage && b.membuf == "" && b.records == []
    case Close => b.file.None? && b.membuf == ""
    case Poll(tsc, forceFlush) =>
      && b.logInfos == [] && b.threadBuffers == [] && AllDueHandled(b, tsc)
      && (b.buffers.Keys != {} && (forceFlush || !b.manageFp) ==> b.membuf == "")
  }

  ghost predicate HasSite(b: Backend, site: nat)
    reads b
  {
    exists k :: 0 < k < |b.bgLogInfos + b.logInfos| && (b.bgLogInfos + b.logInfos)[k].site == site
  }

  /** The id kept for a site names an entry of that site. */
  ghost predicate IdsOk(b: Backend, ids: map<nat, nat>)
    reads b
  {
    forall site :: site in ids ==>
      0 < ids[site] < |b.bgLogInfos + b.logInfos| && (b.bgLogInfos + b.logInfos)[ids[site]].site == site
  }

  /** A poll leaves in the queues nothing that was due. */
  lemma NothingDueLeft(before: map<nat, ThreadBuffer>, handled0: seq<Entry>, after: map<nat, ThreadBuffer>,
                       handled: seq<Entry>, out: seq<Entry>, logged: map<nat, seq<LogMsg>>, nextTb: nat,
                       registered: nat, tsc: int)
    requires HistoryOk(before, handled0, logged, nextTb) && HistoryOk(after, handled, logged, nextTb)
    requires Merged(Survivors(before), after, out, registered, tsc)
    requires forall tb :: tb in logged ==>
      SortedQueue(logged[tb]) && forall m :: m in logged[tb] ==> m.logId < registered
    ensures forall tb, m :: tb in logged && m in logged[tb] && m.tsc < tsc ==> m in Proj(handled, tb)
  {
    hide Proj, OutFirst, SortedOut, Split;
    forall tb | tb in Survivors(before)
      ensures SortedQueue(before[tb].q)
    {
      SuffixSorted(Proj(handled0, tb), before[tb].q);
    }
    forall tb, m | tb in Survivors(before) && m in before[tb].q
      ensures m.logId < registered
    {
      assert m in logged[tb];
    }
    assert QueuesSorted(Survivors(before)) && AllRegistered(Survivors(before), registered);
    forall tb, m | tb in logged && m in logged[tb] && m.tsc < tsc
      ensures m in Proj(handled, tb)
    {
      if tb in after {
        assert logged[tb] == Proj(handled, tb) + after[tb].q;
      }
    }
  }

  lemma SuffixSorted(a: seq<LogMsg>, b: seq<LogMsg>)
    requires SortedQueue(a + b)
    ensures SortedQueue(b)
  {
    forall j, k | 0 <= j < k < |b|
      ensures b[j].tsc <= b[k].tsc
    {
      assert (a + b)[|a| + j] == b[j] && (a + b)[|a| + k] == b[k];
    }
  }

  lemma AskedAtStart(b: Backend)
    requires b.RecordsOk()
    ensures AskedOk(b, false, b.asked, |b.handled|)
  {
    assert b.handled[|b.handled|..] == [];
  }

  lemma AskedAnew(b: Backend, asked0: seq<bool>, handled0: nat)
    requires b.handledBefore == |b.handled| && b.asked == []
    ensures AskedOk(b, true, asked0, handled0)
  {
    assert b.handled[|b.handled|..] == [];
  }

  lemma AskedPolled(infos: seq<LogInfo>, moreInfos: seq<LogInfo>, min: Option<nat>, names: map<nat, string>,
                    render: Renderer, records: seq<string>, handledBefore: nat, handled: seq<Entry>, from: nat,
                    out: seq<Entry>)
    requires infos <= moreInfos && handledBefore <= from <= |handled|
    requires Rendered(render, infos, names, handled[handledBefore..], records)
    ensures Asked(moreInfos, min, (handled + out)[from..])
            == Asked(infos, min, handled[from..]) + Asked(moreInfos, min, out)
  {
    hide Asked;
    assert (handled + out)[from..] == handled[from..] + out;
    forall e | e in handled[from..]
      ensures e.msg.logId < |infos|
    {
      var k :| 0 <= k < |handled[from..]| && handled[from..][k] == e;
      assert handled[handledBefore..][from - handledBefore + k] == e;
    }
    AskedAppend(infos, min, moreInfos, handled[from..], out);
  }

  method StepPoll(b: Backend, tsc: int, forceFlush: bool,
                  ghost anew: bool, ghost asked0: seq<bool>, ghost handled0: nat)
    requires b.Valid() && |b.nodes| + |b.threadBuffers| < SIZE_T && AskedOk(b, anew, asked0, handled0)
    modifies b
    ensures b.Valid() && |b.nodes| + |b.threadBuffers| <= old(|b.nodes| + |b.threadBuffers|)
    ensures AskedOk(b, anew, asked0, handled0) && Done(b, Op.Poll(tsc, forceFlush))
    ensures b.bgLogInfos + b.logInfos == old(b.bgLogInfos + b.logInfos)
    ensures b.base == old(b.base) && b.handledBefore == old(b.handledBefore) && b.skew == old(b.skew)
  {
    hide Backend.QueuesOk, Backend.SinkOk, Backend.RecordsOk, Backend.FileOk, Backend.Drained;
    hide Merged, Survivors, Rendered, Asked, Reported, ReportsFrom, AddLines, Urgent, HistoryOk;
    b.RecordsKnown();
    b.HistoryKnown();
    ghost var buffers := b.buffers;
    ghost var infos, names, records, handled := b.bgLogInfos, b.names, b.records, b.handled;
    ghost var from := if anew then b.handledBefore else handled0;
    ghost var out, _ := b.Poll(tsc, forceFlush);
    AskedPolled(infos, b.bgLogInfos, b.minCBLogLevel, names, b.render, records, b.handledBefore, handled, from, out);
    ghost var first := if anew then [] else asked0;
    Appended(first, Asked(infos, b.minCBLogLevel, handled[from..]), Asked(b.bgLogInfos, b.minCBLogLevel, out));
    b.HistoryKnown();
    AllDue(b, buffers, handled, out, tsc);
  }

  lemma AllDue(b: Backend, before: map<nat, ThreadBuffer>, handled0: seq<Entry>, out: seq<Entry>, tsc: int)
    requires HistoryOk(before, handled0, b.logged, b.nextTb) && HistoryOk(b.buffers, b.handled, b.logged, b.nextTb)
    requires Merged(Survivors(before), b.buffers, out, |b.bgLogInfos|, tsc)
    ensures AllDueHandled(b, tsc)
  {
    hide HistoryOk, Merged, SortedQueue, Proj, Survivors;
    if forall tb :: tb in b.logged ==>
         SortedQueue(b.logged[tb]) && forall m :: m in b.logged[tb] ==> m.logId < |b.bgLogInfos| {
      NothingDueLeft(before, handled0, b.buffers, b.handled, out, b.logged, b.nextTb, |b.bgLogInfos|, tsc);
    }
  }

  lemma Appended<T>(a: seq<T>, b: seq<T>, c: seq<T>)
    ensures (a + b) + c == a + (b + c)
  {
  }

  /** A thread starts, logs or ends. */
  method StepThread(b: Backend, op: Op)
    requires b.Valid() && (op.Start? || op.Send? || op.Exit?)
    modifies b`buffers, b`threadBuffers, b`nextTb, b`logged, b`names
    ensures b.Valid() && |b.threadBuffers| <= old(|b.threadBuffers|) + 1 && Done(b, op)
  {
    hide Backend.QueuesOk, Backend.SinkOk, Backend.RecordsOk, Backend.FileOk, AllDueHandled;
    match op
    case Start(name) =>
      var _ := b.Preallocate(name);
    case Send(tb, m) =>
      if tb in b.buffers && !b.buffers[tb].shouldDeallocate {
        b.Log(tb, m);
      }
    case Exit(tb) =>
      if tb in b.buffers {
        b.ThreadExit(tb);
      }
  }

  /** A file is opened, taken over or closed. */
  method StepFile(b: Backend, op: Op, ghost asked0: seq<bool>, ghost handled0: nat)
    requires b.Valid() && (op.OpenByName? || op.Adopt? || op.Close?)
    modifies b`membuf, b`file, b`fpos, b`nextFlushTime, b`manageFp, b`closed,
             b`base, b`handledBefore, b`records, b`asked, b`reports, b`skew
    ensures b.Valid() && Done(b, op) && (Opens(op) ==> AskedOk(b, true, asked0, handled0))
    ensures op.Close? ==>
      && b.base == old(b.base) && b.handledBefore == old(b.handledBefore) && b.skew == old(b.skew)
      && b.asked == old(b.asked)
  {
    hide Backend.QueuesOk, Backend.SinkOk, Backend.RecordsOk, Backend.FileOk, Asked, AskedOk, AllDueHandled;
    match op
    case OpenByName(contents) =>
      b.SetLogFileByName(contents);
      AskedAnew(b, asked0, handled0);
    case Adopt(contents, manage) =>
      b.SetLogFile(contents, manage);
      AskedAnew(b, asked0, handled0);
    case Close =>
      b.SinkKnown();
      b.CloseLogFile();
  }

  method StepRegister(b: Backend, info: LogInfo, ids: map<nat, nat>) returns (ids': map<nat, nat>)
    requires b.Valid() && IdsOk(b, ids)
    modifies b`logInfos
    ensures b.Valid() && IdsOk(b, ids') && Done(b, Op.Register(info))
  {
    hide Backend.QueuesOk, Backend.SinkOk, Backend.RecordsOk, Backend.FileOk;
    var id := b.RegisterLogInfo(if info.site in ids then ids[info.site] else 0, info);
    ids' := ids[info.site := id];
    assert (b.bgLogInfos + b.logInfos)[id].site == info.site;
  }

  lemma IdsKnown(b: Backend, ids: map<nat, nat>)
    requires IdsOk(b, ids)
    ensures forall site :: site in ids ==>
      0 < ids[site] < |b.bgLogInfos + b.logInfos| && (b.bgLogInfos + b.logInfos)[ids[site]].site == site
  {
  }

  lemma IdsStay(b: Backend, infos: seq<LogInfo>, ids: map<nat, nat>)
    requires b.bgLogInfos + b.logInfos == infos
    requires forall site :: site in ids ==> 0 < ids[site] < |infos| && infos[ids[site]].site == site
    ensures IdsOk(b, ids)
  {
  }

  /** One operation. A call site's id, zero at first, is kept under its site. */
  method Step(b: Backend, op: Op, ids: map<nat, nat>, ghost anew: bool, ghost asked0: seq<bool>, ghost handled0: nat)
    returns (ids': map<nat, nat>)
    requires b.Valid() && |b.nodes| + |b.threadBuffers| < SIZE_T && AskedOk(b, anew, asked0, handled0)
    requires IdsOk(b, ids)
    modifies b
    ensures b.Valid() && |b.nodes| + |b.threadBuffers| <= old(|b.nodes| + |b.threadBuffers|) + 1
    ensures AskedOk(b, anew || Opens(op), asked0, handled0) && IdsOk(b, ids') && Done(b, op)
    ensures !Opens(op) ==>
      b.base == old(b.base) && b.handledBefore == old(b.handledBefore) && b.skew == old(b.skew)
  {
    hide Backend.Valid, Done, IdsOk, Asked;
    ids' := ids;
    ghost var infos := b.bgLogInfos + b.logInfos;
    IdsKnown(b, ids);
    match op {
      case Start(_) => StepThread(b, op);
      case Send(_, _) => StepThread(b, op);
      case Exit(_) => StepThread(b, op);
      case Register(info) => ids' := StepRegister(b, info, ids);
      case OpenByName(_) => StepFile(b, op, asked0, handled0);
      case Adopt(_, _) => StepFile(b, op, asked0, handled0);
      case Close => StepFile(b, op, asked0, handled0);
      case Poll(tsc, forceFlush) => StepPoll(b, tsc, forceFlush, anew, asked0, handled0);
    }
    if !op.Register? {
      IdsStay(b, infos, ids);
    }
  }

  /** Any run of threads starting, logging and ending, of registrations, file changes and polls.
      Whatever the order, each thread's handled messages are a prefix of what it logged, all of it once
      its buffer is destroyed. The file and the buffer hold what the file held when opened, and then the
      record of every message handled since, in that order. Every message at the callback's level, and no
      other, has been reported, at the place of its record in the file if the position was taken right. Each
      operation has done its work: a run may end with any of them. */
  method Run(b: Backend, ops: seq<Op>)
    requires b.Valid() && b.nodes == [] && b.threadBuffers == [] && |ops| < SIZE_T
    modifies b
    ensures b.Valid()
    ensures forall tb :: tb in b.logged ==> Proj(b.handled, tb) <= b.logged[tb]
    ensures forall tb :: tb in b.logged && tb !in b.buffers ==> Proj(b.handled, tb) == b.logged[tb]
    ensures b.file.Some? ==> b.file.value + b.membuf == b.base + Lines(b.records)
    ensures b.handledBefore <= |b.handled|
    ensures Rendered(b.render, b.bgLogInfos, b.names, b.handled[b.handledBefore..], b.records)
    ensures ReportsOk(b.base, b.records, b.asked, b.reports, b.skew, b.manageFp)
    ensures AskedOk(b, exists op :: op in ops && Opens(op), old(b.asked), |old(b.handled)|)
    ensures b.manageFp && b.skew == 0 ==>
      b.file.Some? && forall r :: r in b.reports ==> LineAt(b.file.value + b.membuf, r.pos, r.text)
    ensures (forall op :: op in ops ==> !Opens(op)) ==>
      b.base == old(b.base) && b.handledBefore == old(b.handledBefore) && b.skew == old(b.skew)
    ensures ops != [] ==> Done(b, ops[|ops| - 1])
  {
    hide Done, IdsOk, Backend.QueuesOk, Backend.SinkOk, Backend.RecordsOk, Backend.FileOk, AskedOk;
    ghost var asked0, handled0 := b.asked, |b.handled|;
    var ids: map<nat, nat> := map[];
    ghost var anew := false;
    AskedAtStart(b);
    NoIds(b);
    for i := 0 to |ops|
      invariant b.Valid() && |b.nodes| + |b.threadBuffers| <= i
      invariant anew <==> exists op :: op in ops[..i] && Opens(op)
      invariant AskedOk(b, anew, asked0, handled0) && IdsOk(b, ids)
      invariant i > 0 ==> Done(b, ops[i - 1])
      invariant !anew ==>
        b.base == old(b.base) && b.handledBefore == old(b.handledBefore) && b.skew == old(b.skew)
    {
      assert ops[..i + 1] == ops[..i] + [ops[i]];
      ids := Step(b, ops[i], ids, anew, asked0, handled0);
      anew := anew || Opens(ops[i]);
    }
    assert ops[..|ops|] == ops;
    RunEnd(b);
  }

  lemma NoIds(b: Backend)
    ensures IdsOk(b, map[])
  {
  }

  /** What the invariant says. */
  lemma RunEnd(b: Backend)
    requires b.Valid()
    ensures forall tb :: tb in b.logged ==> Proj(b.handled, tb) <= b.logged[tb]
    ensures forall tb :: tb in b.logged && tb !in b.buffers ==> Proj(b.handled, tb) == b.logged[tb]
    ensures b.file.Some? ==> b.file.value + b.membuf == b.base + Lines(b.records)
    ensures b.handledBefore <= |b.handled|
    ensures Rendered(b.render, b.bgLogInfos, b.names, b.handled[b.handledBefore..], b.records)
    ensures ReportsOk(b.base, b.records, b.asked, b.reports, b.skew, b.manageFp)
    ensures b.manageFp && b.skew == 0 ==>
      b.file.Some? && forall r :: r in b.reports ==> LineAt(b.file.value + b.membuf, r.pos, r.text)
  {
    hide BuffersOk, HistoryOk, NamesOk, Rendered, LineAt, Lines, ReportsOk;
    HandledIsPrefix(b.buffers, b.handled, b.logged, b.nextTb);
    if b.manageFp && b.skew == 0 {
      forall r | r in b.reports
        ensures LineAt(b.file.value + b.membuf, r.pos, r.text)
      {
        ReportsAreExact(b.file.value, b.membuf, b.base, b.records, b.asked, b.reports, r);
      }
    }
  }

  // ---------- Two promises not kept ----------

  /** A file opened by name, and the first record then handled and reported: the position reported is too
      large by what was buffered for a managed file, so the record lies there if and only if nothing was. */
  method ReportAfterReopening(b: Backend, contents: string, name: string, header: LogMsg)
    requires b.SinkOk() && header.logId < |b.bgLogInfos|
    requires Asks(b.minCBLogLevel, b.bgLogInfos[header.logId].level)
    modifies b
    ensures |b.reports| == 1 && b.records == [b.reports[0].text]
    ensures var skew := if old(b.manageFp) then |old(b.membuf)| else 0; b.reports[0].pos == |contents| + skew
    ensures LineAt(b.base + Lines(b.records), b.reports[0].pos, b.reports[0].text)
            <==> !(old(b.manageFp) && old(b.membuf) != "")
  {
    hide LineAt, StreamOk, ReportsOk, Lines, AddLine, Backend.SinkOk, Backend.FileOk, Backend.RecordsOk;
    b.SetLogFileByName(contents);
    b.SinkKnown();
    b.FileStreams();
    ReportExactIff(contents, "", contents, [], b.render(name, b.bgLogInfos[header.logId], header), b.skew);
    ghost var text := b.HandleLog(name, header);
    assert b.records == [] + [text] == [text];
  }

  /** The merge of a single due message. */
  lemma OnlyMessage(before: map<nat, ThreadBuffer>, after: map<nat, ThreadBuffer>, out: seq<Entry>,
                    registered: nat, tsc: int, tb: nat, m: LogMsg)
    requires before.Keys == {tb} && before[tb].q == [m] && m.tsc < tsc && m.logId < registered
    requires Merged(before, after, out, registered, tsc)
    ensures out == [Entry(tb, m)] && after == map[tb := before[tb].(q := [])]
  {
    hide Proj, SortedOut, OutFirst, Merged, AllRegistered, QueuesSorted, Split;
    OneQueue(before, registered, tb, m);
    MergeIsExact(before, after, out, registered, tsc, tb);
    assert before[tb].q[0].tsc < tsc;
    OnlyFrom(before, after, out, registered, tsc, tb);
    var first := Proj(out, tb);
    assert |first| == 1 && (first + after[tb].q)[0] == m && |first + after[tb].q| == 1;
    assert first == [m] && after[tb].q == [];
    ProjAll(out, tb);
    ProjOnly(out, tb, m);
  }

  lemma OneQueue(before: map<nat, ThreadBuffer>, registered: nat, tb: nat, m: LogMsg)
    requires before.Keys == {tb} && before[tb].q == [m] && m.logId < registered
    ensures QueuesSorted(before) && AllRegistered(before, registered)
  {
  }

  lemma OnlyFrom(before: map<nat, ThreadBuffer>, after: map<nat, ThreadBuffer>, out: seq<Entry>,
                 registered: nat, tsc: int, tb: nat)
    requires before.Keys == {tb} && Merged(before, after, out, registered, tsc)
    ensures forall e :: e in out ==> e.tb == tb
    ensures after.Keys == {tb} && after == map[tb := before[tb].(q := after[tb].q)]
  {
    hide Proj, SortedOut, OutFirst, AllRegistered, QueuesSorted;
  }

  lemma {:induction false} ProjAll(out: seq<Entry>, tb: nat)
    requires forall e :: e in out ==> e.tb == tb
    ensures |Proj(out, tb)| == |out|
    decreases |out|
  {
    if out != [] {
      ProjAll(out[..|out| - 1], tb);
    }
  }

  const MESSAGE: LogMsg := LogMsg(0, 0, [])

  /** The log goes to an empty managed file; all other settings are the default. */
  method StartManaged() returns (b: Backend)
    ensures fresh(b) && b.Valid() && b.manageFp && b.file == Some("") && b.base == "" && b.skew == 0
    ensures b.records == [] && b.buffers == map[] && b.nodes == [] && b.threadBuffers == []
    ensures b.Buffered() == Sink("", None) && |b.bgLogInfos| == 4 && b.bgLogInfos[0].level == 0
    ensures b.logInfos == [] && b.flushBufSize == 8192 && b.flushLogLevel == 4 && b.flushDelay == 3000000000
    ensures forall name, info, m :: b.render(name, info, m) == "record"
    ensures forall tsc :: b.tsc2ns(tsc) == tsc
  {
    hide Backend.QueuesOk, Backend.SinkOk, Backend.RecordsOk, Backend.FileOk;
    b := new Backend((name, info, m) => "record", tsc => tsc);
    b.SetLogFile("", true);
  }

  /** A thread has logged one message. */
  method LogOnce() returns (b: Backend, tb: nat)
    ensures fresh(b) && b.Valid() && b.manageFp && b.file == Some("") && b.base == "" && b.skew == 0
    ensures b.records == []
    ensures b.buffers == map[tb := ThreadBuffer([MESSAGE], false, "1")] && b.Buffered() == Sink("", None)
    ensures |b.nodes| + |b.threadBuffers| == 1 && |b.bgLogInfos| == 4 && b.bgLogInfos[0].level == 0
    ensures b.logInfos == [] && b.flushBufSize == 8192 && b.flushLogLevel == 4 && b.flushDelay == 3000000000
    ensures forall name, info, m :: b.render(name, info, m) == "record"
    ensures forall tsc :: b.tsc2ns(tsc) == tsc
  {
    hide Backend.Valid;
    b := StartManaged();
    tb := b.Preallocate("1");
    b.Log(tb, MESSAGE);
    assert [] + [MESSAGE] == [MESSAGE];
  }

  lemma Surviving(buffers: map<nat, ThreadBuffer>, tb: nat)
    requires buffers.Keys == {tb}
    ensures Survivors(buffers) == if Dead(buffers[tb]) then map[] else buffers
  {
  }

  lemma HasMember<T>(s: seq<T>)
    requires s != []
    ensures exists x :: x in s
  {
    assert s[0] in s;
  }

  lemma NothingHandled(after: map<nat, ThreadBuffer>, out: seq<Entry>, registered: nat, tsc: int)
    requires Merged(map[], after, out, registered, tsc)
    ensures out == [] && after == map[]
  {
    if out != [] {
      HasMember(out);
    }
  }

  /** What a poll buffers of one message below the flush level. */
  lemma OneLine(b: Backend, out: seq<Entry>, texts: seq<string>, tb: nat)
    requires |b.bgLogInfos| == 4 && b.bgLogInfos[0].level == 0 && b.flushBufSize == 8192 && b.flushLogLevel == 4
    requires b.manageFp && forall name, info, m :: b.render(name, info, m) == "record"
    requires out == [Entry(tb, MESSAGE)] && Rendered(b.render, b.bgLogInfos, b.names, out, texts)
    ensures texts == ["record"]
    ensures b.Drained(Sink("", None), out, texts, 1, false) == Sink("record\n", Some(b.tsc2ns(1) + b.flushDelay))
  {
    var urgent := Urgent(b.bgLogInfos, b.flushLogLevel, out);
    assert urgent == [false] && texts == ["record"];
    assert AddLines(Sink("", None), texts[..0], urgent[..0], 8192) == Sink("", None);
    assert AddLines(Sink("", None), texts, urgent, 8192) == Sink("record\n", None);
  }

  /** A poll has then buffered its record. */
  method BufferOnce() returns (b: Backend, tb: nat)
    ensures fresh(b) && b.Valid() && b.manageFp && b.base == "" && b.skew == 0
    ensures b.buffers == map[tb := ThreadBuffer([], false, "1")]
    ensures b.membuf == "record\n" && b.records == ["record"] && |b.nodes| + |b.threadBuffers| <= 1
  {
    hide Backend.Valid, Backend.Drained, Merged, Rendered, Reported, ReportsFrom, Asked, Survivors;
    hide AddLines, Urgent, AskedOk, Proj;
    b, tb := LogOnce();
    ghost var before := b.buffers;
    Surviving(before, tb);
    ghost var out, texts := b.Poll(1, false);
    OnlyMessage(before, b.buffers, out, 4, 1, tb, MESSAGE);
    OneLine(b, out, texts, tb);
  }

  /** A thread logs to a managed file, a poll buffers its record, the thread ends, and a forced poll
      destroys its buffer and leaves the record unwritten. */
  method ForcedPollLeavesText() returns (b: Backend)
    ensures fresh(b) && b.Valid() && b.manageFp && b.buffers == map[]
    ensures b.file == Some("") && b.membuf == "record\n" && b.records == ["record"]
  {
    hide Backend.Valid, Backend.Drained, Merged, Rendered, Reported, ReportsFrom, Asked, Survivors, ReportsOk;
    hide AddLines, Urgent, AskedOk, Proj;
    var tb;
    b, tb := BufferOnce();
    b.ThreadExit(tb);
    Surviving(b.buffers, tb);
    ghost var out, _ := b.Poll(2, true);
    NothingHandled(b.buffers, out, |b.bgLogInfos|, 2);
    RunEnd(b);
    assert Lines(["record"]) == "record\n" by {
      assert ["record"][..0] == [];
    }
  }
}
