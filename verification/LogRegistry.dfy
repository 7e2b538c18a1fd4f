/** How call sites get their ids while the poller moves their entries: any number of logging threads
    and one poller, interleaved at every read of an id and every locked section. */
module LogRegistry {
  import opened Bytes

  type Site = nat

  /** Where a thread stands in `log`: it has found the site's id zero, or knows it is not. */
  datatype Pc = Outside | Unregistered(site: Site) | Registered(site: Site)

  /** A logged message: the site that logged it and the id written into its header. */
  datatype Message = Message(site: Site, id: nat)

  /** A handled message: the site that logged it and the entry it was formatted with. */
  datatype Output = Output(site: Site, info: Option<Site>)

  /** Entries name the site that registered them; the first four belong to no site. */
  datatype State = State(ids: map<Site, nat>, logInfos: seq<Option<Site>>, bgLogInfos: seq<Option<Site>>,
                         threads: map<nat, Pc>, queued: seq<Message>, outputs: seq<Output>)

  datatype Turn = Check(thread: nat, site: Site) | Register(thread: nat) | Enqueue(thread: nat) | Move | Handle(k: nat)

  function Init(): State {
    State(map[], [], [None, None, None, None], map[], [], [])
  }

  /** The id variable of a call site, zero until it is registered. */
  function IdOf(s: State, site: Site): nat {
    if site in s.ids then s.ids[site] else 0
  }

  function PcOf(s: State, thread: nat): Pc {
    if thread in s.threads then s.threads[thread] else Outside
  }

  /** `registerLogInfo`, under its lock: the id is checked again. */
  function RegisterSite(s: State, site: Site): State {
    if IdOf(s, site) != 0 then s
    else s.(ids := s.ids[site := |s.logInfos| + |s.bgLogInfos|], logInfos := s.logInfos + [Some(site)])
  }

  function Next(s: State, turn: Turn): State {
    match turn
    case Check(t, site) =>
      if PcOf(s, t).Outside? then
        s.(threads := s.threads[t := if IdOf(s, site) == 0 then Unregistered(site) else Registered(site)])
      else s
    case Register(t) =>
      var pc := PcOf(s, t);
      if pc.Unregistered? then RegisterSite(s, pc.site).(threads := s.threads[t := Registered(pc.site)]) else s
    case Enqueue(t) =>
      var pc := PcOf(s, t);
      if pc.Registered? then
        s.(threads := s.threads[t := Outside], queued := s.queued + [Message(pc.site, IdOf(s, pc.site))])
      else s
    case Move =>
      s.(bgLogInfos := s.bgLogInfos + s.logInfos, logInfos := [])
    case Handle(k) =>
      // a message whose id is not yet known to the poller waits
      if k < |s.queued| && s.queued[k].id < |s.bgLogInfos| then
        s.(queued := s.queued[..k] + s.queued[k + 1..],
           outputs := s.outputs + [Output(s.queued[k].site, s.bgLogInfos[s.queued[k].id])])
      else s
  }

  function Run(s: State, turns: seq<Turn>): State
    decreases |turns|
  {
    if turns == [] then s else Run(Next(s, turns[0]), turns[1..])
  }

  function Entries(s: State): seq<Option<Site>> {
    s.bgLogInfos + s.logInfos
  }

  /** Every registered site's id names its own entry, and no site has two. */
  ghost predicate EntriesOk(ids: map<Site, nat>, entries: seq<Option<Site>>) {
    && (forall site :: site in ids ==> 4 <= ids[site] < |entries| && entries[ids[site]] == Some(site))
    && (forall k :: 0 <= k < |entries| && entries[k].Some? ==>
          entries[k].value in ids && ids[entries[k].value] == k)
  }

  ghost predicate Inv(s: State) {
    && 4 <= |s.bgLogInfos|
    && EntriesOk(s.ids, Entries(s))
    && (forall t :: t in s.threads && s.threads[t].Registered? ==> s.threads[t].site in s.ids)
    && (forall m :: m in s.queued ==> m.site in s.ids && m.id == s.ids[m.site])
    && (forall o :: o in s.outputs ==> o.info == Some(o.site))
  }

  /** Ids and entries, once there, stay. */
  ghost predicate Extends(s: State, t: State) {
    && Entries(s) <= Entries(t)
    && (forall site :: site in s.ids ==> site in t.ids && t.ids[site] == s.ids[site])
  }

  lemma RegisterKeeps(s: State, site: Site)
    requires Inv(s)
    ensures Inv(RegisterSite(s, site)) && Extends(s, RegisterSite(s, site))
    ensures site in RegisterSite(s, site).ids && RegisterSite(s, site).threads == s.threads
  {
    var t := RegisterSite(s, site);
    if IdOf(s, site) == 0 {
      assert Entries(t) == Entries(s) + [Some(site)];
    }
  }

  lemma HandleKeeps(s: State, k: nat)
    requires Inv(s) && k < |s.queued| && s.queued[k].id < |s.bgLogInfos|
    ensures Inv(Next(s, Handle(k))) && Extends(s, Next(s, Handle(k)))
  {
    var m, t := s.queued[k], Next(s, Handle(k));
    assert m in s.queued;
    assert Entries(s)[m.id] == s.bgLogInfos[m.id] == Some(m.site);
    assert Entries(t) == Entries(s);
    hide EntriesOk;
    assert forall x :: x in t.queued ==> x in s.queued;
  }

  lemma MoveKeeps(s: State)
    requires Inv(s)
    ensures Inv(Next(s, Move)) && Extends(s, Next(s, Move))
    ensures forall m :: m in Next(s, Move).queued ==> m.id < |Next(s, Move).bgLogInfos|
  {
    assert Entries(Next(s, Move)) == Entries(s);
  }

  lemma ThreadKeeps(s: State, turn: Turn)
    requires Inv(s) && (turn.Check? || turn.Enqueue?)
    ensures Inv(Next(s, turn)) && Extends(s, Next(s, turn))
  {
    assert Entries(Next(s, turn)) == Entries(s);
    assert forall site :: IdOf(s, site) != 0 ==> site in s.ids;
    hide EntriesOk;
  }

  lemma NextKeeps(s: State, turn: Turn)
    requires Inv(s)
    ensures Inv(Next(s, turn)) && Extends(s, Next(s, turn))
  {
    hide EntriesOk, Entries, RegisterSite;
    match turn
    case Check(t, site) => ThreadKeeps(s, turn);
    case Enqueue(t) => ThreadKeeps(s, turn);
    case Move => MoveKeeps(s);
    case Register(t) =>
      if PcOf(s, t).Unregistered? {
        RegisterKeeps(s, PcOf(s, t).site);
        RelabelKeeps(RegisterSite(s, PcOf(s, t).site), t, PcOf(s, t).site);
      }
    case Handle(k) =>
      if k < |s.queued| && s.queued[k].id < |s.bgLogInfos| {
        HandleKeeps(s, k);
      }
  }

  /** A known message is output with its entry, and leaves the queue. */
  lemma HandleOutputs(s: State, k: nat)
    requires Inv(s) && k < |s.queued| && s.queued[k].id < |s.bgLogInfos|
    ensures var t, m := Next(s, Handle(k)), s.queued[k];
      && t.outputs == s.outputs + [Output(m.site, Some(m.site))]
      && t.queued == s.queued[..k] + s.queued[k + 1..]
  {
    assert s.queued[k] in s.queued;
    assert Entries(s)[s.queued[k].id] == s.bgLogInfos[s.queued[k].id];
  }

  /** Progress: in every reachable state a thread's log call, followed by a batch move, gets its message
      output with its own site's entry, whether the site was registered or not. */
  lemma LoggedIsOutput(turns: seq<Turn>, thread: nat, site: Site)
    requires PcOf(Run(Init(), turns), thread).Outside?
    ensures var s := Run(Init(), turns);
      var q := Next(Next(Next(s, Check(thread, site)), Register(thread)), Enqueue(thread));
      var t := Next(Next(q, Move), Handle(|q.queued| - 1));
      && |q.queued| == |s.queued| + 1 && q.queued[..|s.queued|] == s.queued
      && t.outputs == s.outputs + [Output(site, Some(site))] && t.queued == s.queued
  {
    InitOk();
    hide *;
    RunKeeps(Init(), turns);
    var s := Run(Init(), turns);
    CallEnqueues(s, thread, site);
    var a := Next(s, Check(thread, site));
    var b := Next(a, Register(thread));
    var q := Next(b, Enqueue(thread));
    NextKeeps(s, Check(thread, site));
    NextKeeps(a, Register(thread));
    NextKeeps(b, Enqueue(thread));
    MovedIsOutput(q, s.queued);
  }

  lemma InitOk()
    ensures Inv(Init())
  {
  }

  lemma MovedIsOutput(q: State, queued: seq<Message>)
    requires Inv(q) && |q.queued| == |queued| + 1 && q.queued[..|queued|] == queued
    ensures var t, site := Next(Next(q, Move), Handle(|queued|)), q.queued[|queued|].site;
      t.outputs == q.outputs + [Output(site, Some(site))] && t.queued == queued
  {
    hide Inv;
    var m := Next(q, Move);
    NextKeeps(q, Move);
    MoveKeeps(q);
    assert m.queued == q.queued && m.queued[|queued|] in m.queued;
    HandleOutputs(m, |queued|);
    assert q.queued[..|queued|] + q.queued[|queued| + 1..] == queued;
  }

  lemma CallEnqueues(s: State, thread: nat, site: Site)
    requires Inv(s) && PcOf(s, thread).Outside?
    ensures var q := Next(Next(Next(s, Check(thread, site)), Register(thread)), Enqueue(thread));
      && |q.queued| == |s.queued| + 1 && q.queued[..|s.queued|] == s.queued
      && q.queued[|s.queued|].site == site && q.outputs == s.outputs
  {
    hide Inv, Entries, EntriesOk;
  }

  lemma RelabelKeeps(s: State, t: nat, site: Site)
    requires Inv(s) && site in s.ids
    ensures Inv(s.(threads := s.threads[t := Registered(site)]))
    ensures Entries(s.(threads := s.threads[t := Registered(site)])) == Entries(s)
  {
    hide EntriesOk;
  }

  lemma {:induction false} RunKeeps(s: State, turns: seq<Turn>)
    requires Inv(s)
    ensures Inv(Run(s, turns)) && Extends(s, Run(s, turns))
    decreases |turns|
  {
    if turns != [] {
      NextKeeps(s, turns[0]);
      RunKeeps(Next(s, turns[0]), turns[1..]);
    }
  }

  /** In every interleaving every handled message is formatted with the entry of the very site that
      logged it. */
  lemma HandledWithOwnInfo(turns: seq<Turn>, o: Output)
    requires o in Run(Init(), turns).outputs
    ensures o.info == Some(o.site)
  {
    RunKeeps(Init(), turns);
  }

  /** A site gets one nonzero id, for good: it names the site's only entry, at the same index whether
      the entry still waits or the poller has taken it over. */
  lemma IdIsForever(before: seq<Turn>, after: seq<Turn>, site: Site)
    requires IdOf(Run(Init(), before), site) != 0
    ensures var s := Run(Init(), before); var t := Run(s, after);
      && IdOf(t, site) == IdOf(s, site) < |Entries(t)|
      && forall k :: 0 <= k < |Entries(t)| ==> (Entries(t)[k] == Some(site) <==> k == IdOf(s, site))
  {
    RunKeeps(Init(), before);
    RunKeeps(Run(Init(), before), after);
  }
}
