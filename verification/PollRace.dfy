/** The poller's sweep and merge interleaved with running threads: every call of `front`, every `pop`,
    every test of a thread's end, and every push and end of a thread is a turn of its own. Queues are
    the first-in-first-out queues that the ring refines; the order of the merge is left open. */
module PollRace {
  import opened Bytes

  type Message = nat

  /** A thread's buffer; `head` tells whether its node caches the queue's front. */
  datatype Buffer = Buffer(q: seq<Message>, gone: bool, head: bool)

  /** A handled message and the buffer it came from. */
  datatype Entry = Entry(tb: nat, m: Message)

  /** Where the poller stands: anywhere, or in the sweep between a `front` that found buffer tb empty and
      the test of `shouldDeallocate`; `missed` has been pushed to tb since. */
  datatype Poller = Free | Testing(tb: nat, missed: seq<Message>)

  /** The live buffers, and the histories: what was handled, logged, and given up with a buffer. */
  datatype State = State(buffers: map<nat, Buffer>, poller: Poller, handled: seq<Entry>,
                         logged: map<nat, seq<Message>>, lost: map<nat, seq<Message>>)

  datatype Turn = Start(tb: nat) | Push(tb: nat, m: Message) | Exit(tb: nat)
                | Front(tb: nat) | Test | Pop(tb: nat) | Refill(tb: nat)

  function Init(): State {
    State(map[], Free, [], map[], map[])
  }

  /** What is pushed while the poller is about to test its buffer. */
  function Missed(p: Poller, tb: nat, m: Message): Poller {
    if p.Testing? && p.tb == tb then p.(missed := p.missed + [m]) else p
  }

  function Next(s: State, turn: Turn): State {
    match turn
    case Start(tb) =>
      if tb in s.logged then s
      else s.(buffers := s.buffers[tb := Buffer([], false, false)], logged := s.logged[tb := []])
    case Push(tb, m) =>
      if tb in s.buffers && tb in s.logged && !s.buffers[tb].gone then
        s.(buffers := s.buffers[tb := s.buffers[tb].(q := s.buffers[tb].q + [m])],
           poller := Missed(s.poller, tb, m), logged := s.logged[tb := s.logged[tb] + [m]])
      else s
    case Exit(tb) =>
      if tb in s.buffers then s.(buffers := s.buffers[tb := s.buffers[tb].(gone := true)]) else s
    case Front(tb) =>
      if s.poller.Free? && tb in s.buffers && !s.buffers[tb].head then
        if s.buffers[tb].q == [] then s.(poller := Testing(tb, []))
        else s.(buffers := s.buffers[tb := s.buffers[tb].(head := true)])
      else s
    case Test =>
      if s.poller.Free? then s
      else
        var tb := s.poller.tb;
        if tb in s.buffers && s.buffers[tb].gone then
          s.(buffers := s.buffers - {tb}, poller := Free, lost := s.lost[tb := s.poller.missed])
        else s.(poller := Free)
    case Pop(tb) =>
      if s.poller.Free? && tb in s.buffers && s.buffers[tb].head && s.buffers[tb].q != [] then
        s.(buffers := s.buffers[tb := s.buffers[tb].(q := s.buffers[tb].q[1..], head := false)],
           handled := s.handled + [Entry(tb, s.buffers[tb].q[0])])
      else s
    case Refill(tb) =>
      if s.poller.Free? && tb in s.buffers then
        s.(buffers := s.buffers[tb := s.buffers[tb].(head := s.buffers[tb].q != [])])
      else s
  }

  function Run(s: State, turns: seq<Turn>): State
    decreases |turns|
  {
    if turns == [] then s else Run(Next(s, turns[0]), turns[1..])
  }

  /** The messages handled from one buffer. */
  function Proj(handled: seq<Entry>, tb: nat): seq<Message> {
    if handled == [] then []
    else
      var last := |handled| - 1;
      Proj(handled[..last], tb) + if handled[last].tb == tb then [handled[last].m] else []
  }

  lemma ProjSnoc(handled: seq<Entry>, e: Entry, tb: nat)
    ensures Proj(handled + [e], tb) == Proj(handled, tb) + if e.tb == tb then [e.m] else []
  {
    assert (handled + [e])[..|handled|] == handled;
  }

  // ---------- The invariant ----------

  ghost predicate BufferOk(s: State, tb: nat) {
    && (tb in s.buffers ==>
          && tb in s.logged && s.logged[tb] == Proj(s.handled, tb) + s.buffers[tb].q
          && (s.buffers[tb].head ==> s.buffers[tb].q != [])
          && (s.poller.Testing? && s.poller.tb == tb ==> !s.buffers[tb].head && s.buffers[tb].q == s.poller.missed))
    && (tb in s.logged && tb !in s.buffers ==> tb in s.lost && s.logged[tb] == Proj(s.handled, tb) + s.lost[tb])
    && (tb !in s.logged ==> Proj(s.handled, tb) == [])
  }

  ghost predicate Inv(s: State) {
    (s.poller.Testing? ==> s.poller.tb in s.buffers) && forall tb: nat :: BufferOk(s, tb)
  }

  lemma PopKeeps(s: State, tb: nat, t: nat)
    requires Inv(s)
    ensures BufferOk(Next(s, Pop(tb)), t)
  {
    assert BufferOk(s, t) && BufferOk(s, tb);
    if Next(s, Pop(tb)) != s {
      var q := s.buffers[tb].q;
      assert q == [q[0]] + q[1..];
      ProjSnoc(s.handled, Entry(tb, q[0]), t);
    }
  }

  lemma OtherKeeps(s: State, turn: Turn, t: nat)
    requires Inv(s) && !turn.Pop?
    ensures BufferOk(Next(s, turn), t)
  {
    hide Proj;
    assert BufferOk(s, t);
  }

  lemma NextKeeps(s: State, turn: Turn)
    requires Inv(s)
    ensures Inv(Next(s, turn))
  {
    forall t: nat
      ensures BufferOk(Next(s, turn), t)
    {
      if turn.Pop? {
        PopKeeps(s, turn.tb, t);
      } else {
        OtherKeeps(s, turn, t);
      }
    }
    hide BufferOk;
  }

  lemma {:induction false} RunKeeps(s: State, turns: seq<Turn>)
    requires Inv(s)
    ensures Inv(Run(s, turns))
    decreases |turns|
  {
    if turns != [] {
      NextKeeps(s, turns[0]);
      RunKeeps(Next(s, turns[0]), turns[1..]);
    }
  }

  // ---------- What becomes of each message ----------

  /** In every interleaving the messages handled from a thread's buffer are a prefix of those it logged, and
      the rest is still queued; of a destroyed buffer, the rest is what was pushed after the `front`
      that found it empty. */
  lemma HandledIsPrefix(turns: seq<Turn>, tb: nat)
    requires tb in Run(Init(), turns).logged
    ensures var s := Run(Init(), turns);
      && Proj(s.handled, tb) <= s.logged[tb]
      && (tb in s.buffers ==> s.logged[tb] == Proj(s.handled, tb) + s.buffers[tb].q)
      && (tb !in s.buffers ==> tb in s.lost && s.logged[tb] == Proj(s.handled, tb) + s.lost[tb])
  {
    assert Inv(Init());
    RunKeeps(Init(), turns);
    assert BufferOk(Run(Init(), turns), tb);
  }

  /** Progress: a poller free to go on that looks at a live buffer handles the oldest message there; and one
      that finds the buffer of an ended thread empty destroys it. */
  lemma PollerMoves(turns: seq<Turn>, tb: nat)
    requires var s := Run(Init(), turns); s.poller.Free? && tb in s.buffers
    ensures var s := Run(Init(), turns);
      && (s.buffers[tb].q != [] ==>
            var t := Next(Next(s, Refill(tb)), Pop(tb));
            && t.handled == s.handled + [Entry(tb, s.buffers[tb].q[0])]
            && tb in t.buffers && t.buffers[tb].q == s.buffers[tb].q[1..])
      && (s.buffers[tb].q == [] ==>
            var t := Next(Next(s, Front(tb)), Test);
            t.handled == s.handled && (tb in t.buffers <==> !s.buffers[tb].gone))
  {
    assert Inv(Init());
    RunKeeps(Init(), turns);
    assert BufferOk(Run(Init(), turns), tb);
    hide Run, Proj;
  }

  /** A message of a destroyed buffer was never handled. */
  ghost predicate Loses(s: State, tb: nat) {
    tb in s.logged && tb !in s.buffers && Proj(s.handled, tb) != s.logged[tb]
  }

  /** Turns of threads, not of the poller. */
  predicate OfThreads(turns: seq<Turn>) {
    forall t :: t in turns ==> t.Start? || t.Push? || t.Exit?
  }

  /** The thread, unless it has ended before, pushes and then ends. */
  predicate PushThenExit(turns: seq<Turn>, tb: nat, gone: bool) {
    if turns == [] || gone then false
    else if turns[0] == Exit(tb) then false
    else if turns[0].Push? && turns[0].tb == tb then Exit(tb) in turns
    else PushThenExit(turns[1..], tb, gone)
  }

  /** Between `front` and the test only pushes and ends matter. */
  lemma {:induction false} WhileTesting(s: State, turns: seq<Turn>, tb: nat)
    requires OfThreads(turns) && s.poller.Testing? && s.poller.tb == tb && tb in s.buffers && tb in s.logged
    ensures var t := Run(s, turns);
      && t.poller.Testing? && t.poller.tb == tb && tb in t.buffers && tb in t.logged
      && t.handled == s.handled
      && (t.buffers[tb].gone <==> s.buffers[tb].gone || Exit(tb) in turns)
      && (s.poller.missed != [] ==> t.poller.missed != [])
      && (s.poller.missed == [] ==>
            (t.poller.missed != [] && t.buffers[tb].gone <==> PushThenExit(turns, tb, s.buffers[tb].gone)))
    decreases |turns|
  {
    if turns != [] {
      assert turns == [turns[0]] + turns[1..] && turns[0] in turns;
      WhileTesting(Next(s, turns[0]), turns[1..], tb);
    }
  }

  lemma {:induction false} RunAppend(s: State, a: seq<Turn>, b: seq<Turn>)
    ensures Run(s, a + b) == Run(Run(s, a), b)
    decreases |a|
  {
    if a == [] {
      assert a + b == b;
    } else {
      assert (a + b)[1..] == a[1..] + b;
      RunAppend(Next(s, a[0]), a[1..], b);
    }
  }

  /** Why `front` and the test must not be torn apart: a sweep that finds a thread's queue empty loses
      messages if and only if, before it tests for the thread's end, the thread pushes and ends. */
  lemma LosesIff(before: seq<Turn>, between: seq<Turn>, tb: nat)
    requires OfThreads(between)
    requires var s := Run(Init(), before);
      s.poller.Free? && tb in s.buffers && !s.buffers[tb].head && s.buffers[tb].q == []
    ensures Loses(Run(Init(), before + [Front(tb)] + between + [Test]), tb)
            <==> PushThenExit(between, tb, Run(Init(), before).buffers[tb].gone)
  {
    var all := before + [Front(tb)] + between + [Test];
    var s := Run(Init(), before);
    assert Inv(Init());
    RunKeeps(Init(), before);
    assert BufferOk(s, tb);
    var t := s.(poller := Testing(tb, []));
    var u := Run(t, between);
    WhileTesting(t, between, tb);
    RunSplits(before, between, tb);
    RunKeeps(Init(), all);
    hide Run, PushThenExit, Proj, Next;
    assert BufferOk(Next(u, Test), tb) && Run(Init(), all) == Next(u, Test);
    TestEnds(u);
  }

  lemma RunSplits(before: seq<Turn>, between: seq<Turn>, tb: nat)
    requires var s := Run(Init(), before);
      s.poller.Free? && tb in s.buffers && !s.buffers[tb].head && s.buffers[tb].q == []
    ensures var t := Run(Init(), before).(poller := Testing(tb, []));
      Run(Init(), before + [Front(tb)] + between + [Test]) == Next(Run(t, between), Test)
  {
    var s := Run(Init(), before);
    RunAppend(Init(), before + [Front(tb)] + between, [Test]);
    RunAppend(Init(), before + [Front(tb)], between);
    RunAppend(Init(), before, [Front(tb)]);
    RunOne(s, Front(tb));
    RunOne(Run(Run(s, [Front(tb)]), between), Test);
  }

  lemma RunOne(s: State, turn: Turn)
    ensures Run(s, [turn]) == Next(s, turn)
  {
    assert [turn][1..] == [];
  }

  lemma TestEnds(u: State)
    requires u.poller.Testing? && u.poller.tb in u.buffers && u.poller.tb in u.logged
    ensures var v, tb := Next(u, Test), u.poller.tb;
      && v.logged == u.logged && v.handled == u.handled
      && (tb in v.buffers <==> !u.buffers[tb].gone)
      && (tb !in v.buffers ==> tb in v.lost && v.lost[tb] == u.poller.missed)
  {
  }

  /** Even if it happens once only: a push and the thread's end right after the `front`. */
  lemma LossExample()
    ensures Loses(Run(Init(), [Start(1)] + [Front(1)] + [Push(1, 7), Exit(1)] + [Test]), 1)
  {
    RunOne(Init(), Start(1));
    assert Exit(1) in [Push(1, 7), Exit(1)];
    LosesIff([Start(1)], [Push(1, 7), Exit(1)], 1);
  }
}
