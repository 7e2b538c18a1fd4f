/** From handled messages to records: how they are rendered, which are reported, and how the text in
    front of the file fills and empties. */
module LogRecords {
  import opened Bytes
  import opened LogFile
  import opened LogMerge

  /** What a call site registered. */
  datatype LogInfo = LogInfo(site: nat, level: nat, location: string, format: string)

  /** Renders header and body from the thread's name, the call site's entry and the message. */
  type Renderer = (string, LogInfo, LogMsg) -> string

  // ---------- Rendering ----------

  /** The texts are those of the handled messages, in the order they were handled: each rendered with
      its own thread's name and its own call site's entry. */
  ghost predicate Rendered(render: Renderer, infos: seq<LogInfo>, names: map<nat, string>,
                           out: seq<Entry>, texts: seq<string>)
  {
    && |texts| == |out|
    && forall k :: 0 <= k < |out| ==>
         && out[k].tb in names && out[k].msg.logId < |infos|
         && texts[k] == render(names[out[k].tb], infos[out[k].msg.logId], out[k].msg)
  }

  lemma RenderedMore(render: Renderer, infos: seq<LogInfo>, names: map<nat, string>,
                     out: seq<Entry>, texts: seq<string>, e: Entry)
    requires Rendered(render, infos, names, out, texts)
    requires e.tb in names && e.msg.logId < |infos|
    ensures Rendered(render, infos, names, out + [e],
                     texts + [render(names[e.tb], infos[e.msg.logId], e.msg)])
  {
  }

  lemma RenderedAppend(render: Renderer, infos: seq<LogInfo>, names: map<nat, string>,
                       a: seq<Entry>, x: seq<string>, b: seq<Entry>, y: seq<string>)
    requires Rendered(render, infos, names, a, x) && Rendered(render, infos, names, b, y)
    ensures Rendered(render, infos, names, a + b, x + y)
  {
  }

  /** Neither later registrations nor later threads change what a message's text is. */
  lemma RenderedStays(render: Renderer, infos: seq<LogInfo>, names: map<nat, string>,
                      moreInfos: seq<LogInfo>, moreNames: map<nat, string>,
                      out: seq<Entry>, texts: seq<string>)
    requires Rendered(render, infos, names, out, texts)
    requires infos <= moreInfos && forall tb :: tb in names ==> tb in moreNames && moreNames[tb] == names[tb]
    ensures Rendered(render, moreInfos, moreNames, out, texts)
  {
  }

  /** The names by which records are rendered are those of the buffers. */
  ghost predicate NamesOk(names: map<nat, string>, buffers: map<nat, ThreadBuffer>) {
    forall tb :: tb in buffers ==> tb in names && names[tb] == buffers[tb].name
  }

  lemma NamesPopped(names: map<nat, string>, buffers: map<nat, ThreadBuffer>, tb: nat)
    requires NamesOk(names, buffers) && tb in buffers && buffers[tb].q != []
    ensures NamesOk(names, Popped(buffers, tb))
  {
  }

  lemma NamesSurvive(names: map<nat, string>, buffers: map<nat, ThreadBuffer>)
    requires NamesOk(names, buffers)
    ensures NamesOk(names, Survivors(buffers))
  {
  }

  // ---------- Levels ----------

  /** A callback is set and wants messages of this level. */
  predicate Asks(min: Option<nat>, level: nat) {
    min.Some? && level >= min.value
  }

  function Level(infos: seq<LogInfo>, m: LogMsg): nat {
    if m.logId < |infos| then infos[m.logId].level else 0
  }

  /** Which of the handled messages are reported. */
  function Asked(infos: seq<LogInfo>, min: Option<nat>, out: seq<Entry>): (r: seq<bool>)
    ensures |r| == |out|
  {
    seq(|out|, k requires 0 <= k < |out| => Asks(min, Level(infos, out[k].msg)))
  }

  /** Which of the handled messages force a flush by their level. */
  function Urgent(infos: seq<LogInfo>, level: nat, out: seq<Entry>): (r: seq<bool>)
    ensures |r| == |out|
  {
    seq(|out|, k requires 0 <= k < |out| => Level(infos, out[k].msg) >= level)
  }

  lemma AskedMore(infos: seq<LogInfo>, min: Option<nat>, out: seq<Entry>, e: Entry)
    ensures Asked(infos, min, out + [e]) == Asked(infos, min, out) + [Asks(min, Level(infos, e.msg))]
  {
  }

  lemma UrgentMore(infos: seq<LogInfo>, level: nat, out: seq<Entry>, e: Entry)
    ensures Urgent(infos, level, out + [e]) == Urgent(infos, level, out) + [Level(infos, e.msg) >= level]
  {
  }

  /** Entries handled since, and registrations, leave the flags of those handled before. */
  lemma AskedAppend(infos: seq<LogInfo>, min: Option<nat>, moreInfos: seq<LogInfo>, a: seq<Entry>, b: seq<Entry>)
    requires infos <= moreInfos && forall e :: e in a ==> e.msg.logId < |infos|
    ensures Asked(moreInfos, min, a + b) == Asked(infos, min, a) + Asked(moreInfos, min, b)
  {
    forall k | 0 <= k < |a|
      ensures Asked(moreInfos, min, a + b)[k] == Asked(infos, min, a)[k]
    {
      assert a[k] in a;
    }
  }

  // ---------- The buffer in front of the file ----------

  /** The buffered text and the time by which it is to be written; None for the largest time. */
  datatype Sink = Sink(membuf: string, deadline: Option<int>)

  /** One more record; the buffer is emptied when it has grown to `size` or the record is urgent. */
  function AddLine(s: Sink, text: string, urgent: bool, size: nat): Sink {
    var m := s.membuf + text + "\n";
    if |m| >= size || urgent then Sink("", None) else Sink(m, s.deadline)
  }

  function AddLines(s: Sink, texts: seq<string>, urgent: seq<bool>, size: nat): Sink
    requires |urgent| == |texts|
    decreases |texts|
  {
    if texts == [] then s
    else
      var n := |texts| - 1;
      AddLine(AddLines(s, texts[..n], urgent[..n], size), texts[n], urgent[n], size)
  }

  lemma AddLinesSnoc(s: Sink, texts: seq<string>, urgent: seq<bool>, size: nat, text: string, u: bool)
    requires |urgent| == |texts|
    ensures AddLines(s, texts + [text], urgent + [u], size) == AddLine(AddLines(s, texts, urgent, size), text, u, size)
  {
    assert (texts + [text])[..|texts|] == texts && (urgent + [u])[..|texts|] == urgent;
  }

  /** Nothing buffered has no deadline. */
  lemma {:induction false} DueStays(s: Sink, texts: seq<string>, urgent: seq<bool>, size: nat)
    requires |urgent| == |texts| && (s.membuf == "" ==> s.deadline.None?)
    ensures var t := AddLines(s, texts, urgent, size); t.membuf == "" ==> t.deadline.None?
    decreases |texts|
  {
    if texts != [] {
      var n := |texts| - 1;
      DueStays(s, texts[..n], urgent[..n], size);
    }
  }

  /** Every record stays buffered, behind what was there, exactly when none of them is urgent and all
      of it together is shorter than `size`; otherwise what is left is the shorter end of it. */
  lemma {:induction false} AllStayIff(s: Sink, texts: seq<string>, urgent: seq<bool>, size: nat)
    requires |urgent| == |texts| && texts != []
    ensures var t := AddLines(s, texts, urgent, size); var all := s.membuf + Lines(texts);
      && (if true !in urgent && |all| < size then t == Sink(all, s.deadline) else |t.membuf| < |all|)
      && t.membuf == all[|all| - |t.membuf|..]
    decreases |texts|
  {
    var n := |texts| - 1;
    var a, x := texts[..n], urgent[..n];
    LinesSnoc(a, texts[n]);
    assert a + [texts[n]] == texts && x + [urgent[n]] == urgent;
    var all := s.membuf + Lines(texts);
    assert all == s.membuf + Lines(a) + texts[n] + "\n";
    if n == 0 {
      assert a == [] && Lines(a) == "";
    } else {
      AllStayIff(s, a, x, size);
    }
  }

  /** The end of a poll: buffered text is written now, or because its deadline has passed, or else has
      a deadline. */
  function Settle(s: Sink, now: int, delay: int, writeNow: bool): Sink {
    if s.membuf == "" then s
    else if writeNow || (s.deadline.Some? && now > s.deadline.value) then Sink("", None)
    else if s.deadline.None? then Sink(s.membuf, Some(now + delay))
    else s
  }
}
