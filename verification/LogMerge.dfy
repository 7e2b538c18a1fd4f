/** What the background poller merges: the queues of the logging threads, a heap of their heads, and
    the order in which messages are handled. */
module LogMerge {
  import opened Bytes

  datatype LogMsg = LogMsg(logId: nat, tsc: int, data: seq<Byte>)

  /** A logging thread's buffer: its queue, oldest message first, and whether the thread has gone. */
  datatype ThreadBuffer = ThreadBuffer(q: seq<LogMsg>, shouldDeallocate: bool, name: string)

  /** A node of the merge heap: a thread buffer's address and its cached queue head. */
  datatype HeapNode = HeapNode(tb: nat, header: Option<LogMsg>)

  /** A handled message and the buffer it came from. */
  datatype Entry = Entry(tb: nat, msg: LogMsg)

  function Front(q: seq<LogMsg>): Option<LogMsg> {
    if q == [] then None else Some(q[0])
  }

  // ---------- The heap ----------

  /** An absent head counts as later than every message. */
  predicate Less(a: Option<LogMsg>, b: Option<LogMsg>) {
    a.Some? && (b.None? || a.value.tsc < b.value.tsc)
  }

  function Parent(j: nat): nat
    requires j > 0
  {
    (j - 1) / 2
  }

  /** No node is before its parent, for parents from k on; `but` names a parent that is exempt. */
  ghost predicate HeapBut(nodes: seq<HeapNode>, k: nat, but: int) {
    forall j :: 1 <= j < |nodes| && Parent(j) >= k && Parent(j) != but ==>
      !Less(nodes[j].header, nodes[Parent(j)].header)
  }

  ghost predicate HeapFrom(nodes: seq<HeapNode>, k: nat) {
    HeapBut(nodes, k, -1)
  }

  /** The root of a heap is not after any node. */
  lemma {:induction false} RootIsLeast(nodes: seq<HeapNode>, i: nat)
    requires HeapFrom(nodes, 0) && i < |nodes|
    ensures !Less(nodes[i].header, nodes[0].header)
  {
    if i > 0 {
      RootIsLeast(nodes, Parent(i));
    }
  }

  function Swap(nodes: seq<HeapNode>, i: nat, j: nat): seq<HeapNode>
    requires i < |nodes| && j < |nodes|
  {
    nodes[i := nodes[j]][j := nodes[i]]
  }

  lemma SwapKeepsNodes(nodes: seq<HeapNode>, i: nat, j: nat)
    requires i < |nodes| && j < |nodes|
    ensures multiset(Swap(nodes, i, j)) == multiset(nodes)
  {
  }

  ghost predicate DistinctTbs(nodes: seq<HeapNode>) {
    forall j, k :: 0 <= j < k < |nodes| ==> nodes[j].tb != nodes[k].tb
  }

  /** Everything adjustHeap needs of the node it starts at: only its own children may be before it,
      and they are not before its parent. */
  ghost predicate Sifting(nodes: seq<HeapNode>, k: nat, i: nat) {
    && HeapBut(nodes, k, i)
    && (i > k && i > 0 && Parent(i) >= k ==>
          forall j :: 1 <= j < |nodes| && Parent(j) == i ==> !Less(nodes[j].header, nodes[Parent(i)].header))
  }

  lemma SiftStart(nodes: seq<HeapNode>, k: nat)
    requires HeapFrom(nodes, k + 1)
    ensures Sifting(nodes, k, k)
  {
  }

  lemma SiftEnd(nodes: seq<HeapNode>, k: nat, i: nat)
    requires Sifting(nodes, k, i)
    requires forall j :: 1 <= j < |nodes| && Parent(j) == i ==> !Less(nodes[j].header, nodes[i].header)
    ensures HeapFrom(nodes, k)
  {
  }

  /** Moving the least child up leaves at most the child's own place in disorder. */
  lemma SiftStep(nodes: seq<HeapNode>, k: nat, i: nat, m: nat)
    requires i < |nodes| && m < |nodes| && k <= i && 1 <= m && Parent(m) == i
    requires Sifting(nodes, k, i) && DistinctTbs(nodes)
    requires Less(nodes[m].header, nodes[i].header)
    requires forall j :: 1 <= j < |nodes| && Parent(j) == i ==> !Less(nodes[j].header, nodes[m].header)
    ensures Sifting(Swap(nodes, i, m), k, m) && DistinctTbs(Swap(nodes, i, m))
    ensures multiset(Swap(nodes, i, m)) == multiset(nodes)
  {
    var t := Swap(nodes, i, m);
    forall j | 1 <= j < |t| && Parent(j) >= k && Parent(j) != m
      ensures !Less(t[j].header, t[Parent(j)].header)
    {
    }
    SwapKeepsNodes(nodes, i, m);
  }

  // ---------- Nodes and buffers ----------

  ghost function Tbs(nodes: seq<HeapNode>): set<nat> {
    set n | n in nodes :: n.tb
  }

  lemma SamePermutation(a: seq<HeapNode>, b: seq<HeapNode>)
    requires multiset(a) == multiset(b)
    ensures |a| == |b| && (forall n :: n in a <==> n in b) && Tbs(a) == Tbs(b)
  {
    assert forall n :: n in a <==> n in multiset(a);
    assert forall n :: n in b <==> n in multiset(b);
    assert |multiset(a)| == |multiset(b)|;
  }

  /** Every node's buffer is live, and a cached head is the front of its queue. */
  ghost predicate HeadersOk(nodes: seq<HeapNode>, buffers: map<nat, ThreadBuffer>) {
    forall n :: n in nodes ==>
      n.tb in buffers && (n.header.Some? ==> n.header == Front(buffers[n.tb].q))
  }

  /** Every node's head is cached, if there is one. */
  ghost predicate AllCached(nodes: seq<HeapNode>, buffers: map<nat, ThreadBuffer>) {
    forall n :: n in nodes ==> n.tb in buffers && n.header == Front(buffers[n.tb].q)
  }

  /** A buffer the sweep destroys: its thread has gone and nothing is left to read. */
  predicate Dead(b: ThreadBuffer) {
    b.q == [] && b.shouldDeallocate
  }

  /** The sweep has looked at the first i nodes: their heads are cached and none is dead; exactly
      dead buffers have been destroyed. */
  ghost predicate Swept(nodes: seq<HeapNode>, buffers: map<nat, ThreadBuffer>,
                        before: map<nat, ThreadBuffer>, i: nat) {
    && i <= |nodes|
    && DistinctTbs(nodes) && HeadersOk(nodes, buffers) && Tbs(nodes) == buffers.Keys
    && (forall k :: 0 <= k < i ==>
          nodes[k].tb in buffers && nodes[k].header == Front(buffers[nodes[k].tb].q) && !Dead(buffers[nodes[k].tb]))
    && (forall tb :: tb in buffers ==> tb in before && buffers[tb] == before[tb])
    && (forall tb :: tb in before && tb !in buffers ==> Dead(before[tb]))
  }

  /** Node i with its head cached. */
  function Cached(nodes: seq<HeapNode>, buffers: map<nat, ThreadBuffer>, i: nat): seq<HeapNode>
    requires i < |nodes| && nodes[i].tb in buffers
  {
    nodes[i := nodes[i].(header := Front(buffers[nodes[i].tb].q))]
  }

  lemma CacheKeeps(nodes: seq<HeapNode>, buffers: map<nat, ThreadBuffer>, before: map<nat, ThreadBuffer>, i: nat)
    requires Swept(nodes, buffers, before, i) && i < |nodes|
    ensures nodes[i] in nodes && nodes[i].tb in buffers
    ensures Swept(Cached(nodes, buffers, i), buffers, before, i)
  {
    assert nodes[i] in nodes;
    var t := Cached(nodes, buffers, i);
    forall n | n in t
      ensures n.tb in Tbs(nodes) && (n.header.Some? ==> n.header == Front(buffers[n.tb].q))
    {
      var k :| 0 <= k < |t| && t[k] == n;
      assert nodes[k] in nodes;
    }
    assert Tbs(t) == Tbs(nodes) by {
      forall tb | tb in Tbs(nodes)
        ensures tb in Tbs(t)
      {
        var k :| 0 <= k < |nodes| && nodes[k].tb == tb;
        assert t[k] in t;
      }
    }
  }

  /** The nodes without node i, the last one moved into its place. */
  function Removed(nodes: seq<HeapNode>, i: nat): seq<HeapNode>
    requires i < |nodes|
  {
    nodes[i := nodes[|nodes| - 1]][..|nodes| - 1]
  }

  lemma RemovedTbs(nodes: seq<HeapNode>, i: nat)
    requires DistinctTbs(nodes) && i < |nodes|
    ensures Tbs(Removed(nodes, i)) == Tbs(nodes) - {nodes[i].tb}
    ensures forall n :: n in Removed(nodes, i) ==> n in nodes
    ensures DistinctTbs(Removed(nodes, i))
  {
    var t := Removed(nodes, i);
    forall n | n in t
      ensures n in nodes && n.tb != nodes[i].tb
    {
      var k :| 0 <= k < |t| && t[k] == n;
    }
    forall tb | tb in Tbs(nodes) && tb != nodes[i].tb
      ensures tb in Tbs(t)
    {
      var k :| 0 <= k < |nodes| && nodes[k].tb == tb;
      assert t[if k == |nodes| - 1 then i else k] in t;
    }
  }

  lemma RemoveKeeps(nodes: seq<HeapNode>, buffers: map<nat, ThreadBuffer>, before: map<nat, ThreadBuffer>, i: nat)
    requires Swept(nodes, buffers, before, i) && i < |nodes|
    requires nodes[i].tb in buffers && buffers[nodes[i].tb].shouldDeallocate
    requires Front(buffers[nodes[i].tb].q).None?
    ensures Swept(Removed(nodes, i), buffers - {nodes[i].tb}, before, i)
  {
    assert Dead(buffers[nodes[i].tb]);
    hide Dead;
    RemovedTbs(nodes, i);
    var t, left := Removed(nodes, i), buffers - {nodes[i].tb};
    forall n | n in t
      ensures n.tb in left && (n.header.Some? ==> n.header == Front(left[n.tb].q))
    {
      assert n.tb in Tbs(t);
    }
    forall k | 0 <= k < i
      ensures t[k] == nodes[k] && t[k] in t
    {
    }
  }

  lemma SweptMore(nodes: seq<HeapNode>, buffers: map<nat, ThreadBuffer>, before: map<nat, ThreadBuffer>, i: nat)
    requires Swept(nodes, buffers, before, i) && i < |nodes|
    requires nodes[i].tb in buffers
    requires nodes[i].header.None? ==> Front(buffers[nodes[i].tb].q).None? && !buffers[nodes[i].tb].shouldDeallocate
    ensures Swept(nodes, buffers, before, i + 1)
  {
    assert nodes[i] in nodes;
  }

  lemma SweptAll(nodes: seq<HeapNode>, buffers: map<nat, ThreadBuffer>, before: map<nat, ThreadBuffer>)
    requires Swept(nodes, buffers, before, |nodes|)
    ensures AllCached(nodes, buffers)
    ensures forall tb :: tb in buffers <==> tb in before && !Dead(before[tb])
  {
    forall n | n in nodes
      ensures n.header == Front(buffers[n.tb].q) && !Dead(buffers[n.tb])
    {
      var k :| 0 <= k < |nodes| && nodes[k] == n;
    }
    forall tb | tb in buffers
      ensures !Dead(before[tb])
    {
      assert tb in Tbs(nodes);
    }
  }

  /** Every live buffer is registered once: waiting, or as a node of the poller. */
  ghost predicate BuffersOk(nodes: seq<HeapNode>, buffers: map<nat, ThreadBuffer>,
                            waiting: seq<nat>, nextTb: nat) {
    && HeadersOk(nodes, buffers) && DistinctTbs(nodes)
    && (forall j, k :: 0 <= j < k < |waiting| ==> waiting[j] != waiting[k])
    && (forall tb :: tb in waiting ==> tb in buffers && tb !in Tbs(nodes))
    && (forall tb :: tb in buffers ==> tb < nextTb && (tb in waiting || tb in Tbs(nodes)))
  }

  lemma SweepStart(nodes: seq<HeapNode>, buffers: map<nat, ThreadBuffer>, nextTb: nat)
    requires BuffersOk(nodes, buffers, [], nextTb)
    ensures Swept(nodes, buffers, buffers, 0)
  {
  }

  /** The buffers the sweep leaves. */
  function Survivors(buffers: map<nat, ThreadBuffer>): map<nat, ThreadBuffer> {
    map tb | tb in buffers && !Dead(buffers[tb]) :: buffers[tb]
  }

  lemma SurvivorsKeys(buffers: map<nat, ThreadBuffer>)
    ensures forall tb :: tb in Survivors(buffers) <==>
      tb in buffers && !(buffers[tb].q == [] && buffers[tb].shouldDeallocate)
  {
  }

  lemma SurvivorsAre(before: map<nat, ThreadBuffer>, buffers: map<nat, ThreadBuffer>)
    requires forall tb :: tb in buffers <==> tb in before && !Dead(before[tb])
    requires forall tb :: tb in buffers ==> buffers[tb] == before[tb]
    ensures buffers == Survivors(before)
  {
    hide Dead;
  }

  lemma SweepEnd(nodes: seq<HeapNode>, buffers: map<nat, ThreadBuffer>, before: map<nat, ThreadBuffer>,
                 oldNodes: seq<HeapNode>, nextTb: nat)
    requires BuffersOk(oldNodes, before, [], nextTb) && Swept(nodes, buffers, before, |nodes|)
    ensures BuffersOk(nodes, buffers, [], nextTb) && Tbs(nodes) == buffers.Keys && DistinctTbs(nodes)
    ensures AllCached(nodes, buffers) && buffers == Survivors(before)
  {
    SweptAll(nodes, buffers, before);
    SurvivorsAre(before, buffers);
  }

  // ---------- The merged order ----------

  /** The messages of one buffer, in the order they were handled. */
  function Proj(out: seq<Entry>, tb: nat): seq<LogMsg> {
    if out == [] then []
    else
      var e := out[|out| - 1];
      Proj(out[..|out| - 1], tb) + if e.tb == tb then [e.msg] else []
  }

  lemma ProjSnoc(out: seq<Entry>, e: Entry, tb: nat)
    ensures Proj(out + [e], tb) == Proj(out, tb) + if e.tb == tb then [e.msg] else []
  {
    assert (out + [e])[..|out|] == out;
  }

  lemma {:induction false} ProjAppend(a: seq<Entry>, b: seq<Entry>, tb: nat)
    ensures Proj(a + b, tb) == Proj(a, tb) + Proj(b, tb)
    decreases |b|
  {
    if b == [] {
      assert a + b == a;
    } else {
      var last := |b| - 1;
      assert a + b == (a + b[..last]) + [b[last]] && b == b[..last] + [b[last]];
      ProjSnoc(a + b[..last], b[last], tb);
      ProjSnoc(b[..last], b[last], tb);
      ProjAppend(a, b[..last], tb);
    }
  }

  lemma {:induction false} ProjMember(out: seq<Entry>, e: Entry)
    requires e in out
    ensures e.msg in Proj(out, e.tb)
  {
    var last := |out| - 1;
    if out[last] != e {
      assert out == out[..last] + [out[last]];
      ProjMember(out[..last], e);
    }
  }

  ghost predicate SortedQueue(q: seq<LogMsg>) {
    forall j, k :: 0 <= j < k < |q| ==> q[j].tsc <= q[k].tsc
  }

  ghost predicate SortedOut(out: seq<Entry>) {
    forall j, k :: 0 <= j < k < |out| ==> out[j].msg.tsc <= out[k].msg.tsc
  }

  /** The queues were emptied from the front into out. */
  ghost predicate Split(before: map<nat, ThreadBuffer>, after: map<nat, ThreadBuffer>, out: seq<Entry>) {
    && before.Keys == after.Keys
    && (forall tb :: tb in after ==> before[tb].q == Proj(out, tb) + after[tb].q)
    && (forall tb :: tb in after ==> after[tb] == before[tb].(q := after[tb].q))
    && (forall e :: e in out ==> e.tb in before)
  }

  /** Nothing still queued is earlier than anything in out. */
  ghost predicate OutFirst(buffers: map<nat, ThreadBuffer>, out: seq<Entry>) {
    forall tb, m, e :: tb in buffers && m in buffers[tb].q && e in out ==> e.msg.tsc <= m.tsc
  }

  ghost predicate QueuesSorted(buffers: map<nat, ThreadBuffer>) {
    forall tb :: tb in buffers ==> SortedQueue(buffers[tb].q)
  }

  /** The state after the root's message has been handled and popped. */
  function Popped(buffers: map<nat, ThreadBuffer>, tb: nat): map<nat, ThreadBuffer>
    requires tb in buffers && buffers[tb].q != []
  {
    buffers[tb := buffers[tb].(q := buffers[tb].q[1..])]
  }

  /** A message moving from the front of a queue to the end of the history. */
  lemma ProjPop(buffers: map<nat, ThreadBuffer>, handled: seq<Entry>, tb: nat, t: nat)
    requires tb in buffers && buffers[tb].q != []
    ensures var handled' := handled + [Entry(tb, buffers[tb].q[0])];
      && (t in buffers ==> Proj(handled', t) + Popped(buffers, tb)[t].q == Proj(handled, t) + buffers[t].q)
      && (t !in buffers ==> Proj(handled', t) == Proj(handled, t))
  {
    var m := buffers[tb].q[0];
    ProjSnoc(handled, Entry(tb, m), t);
    hide Proj;
    if t == tb {
      var p := Proj(handled, t);
      assert p + buffers[tb].q == p + [m] + buffers[tb].q[1..];
    }
  }

  lemma PopKeepsSplit(before: map<nat, ThreadBuffer>, buffers: map<nat, ThreadBuffer>, out: seq<Entry>, tb: nat)
    requires Split(before, buffers, out) && tb in buffers && buffers[tb].q != []
    ensures Split(before, Popped(buffers, tb), out + [Entry(tb, buffers[tb].q[0])])
  {
    var after := Popped(buffers, tb);
    forall t | t in after
      ensures before[t].q == Proj(out + [Entry(tb, buffers[tb].q[0])], t) + after[t].q
    {
      ProjPop(buffers, out, tb, t);
      hide Proj, Popped;
    }
    hide Proj;
  }

  /** Nothing queued is earlier than m. */
  ghost predicate NoneBefore(buffers: map<nat, ThreadBuffer>, m: LogMsg) {
    forall tb, x :: tb in buffers && x in buffers[tb].q ==> m.tsc <= x.tsc
  }

  /** The root's message comes next in the merge. */
  lemma RootIsNext(nodes: seq<HeapNode>, buffers: map<nat, ThreadBuffer>)
    requires nodes != [] && HeapFrom(nodes, 0) && AllCached(nodes, buffers) && Tbs(nodes) == buffers.Keys
    requires nodes[0].header.Some? && QueuesSorted(buffers)
    ensures NoneBefore(buffers, nodes[0].header.value)
  {
    forall tb, x | tb in buffers && x in buffers[tb].q
      ensures nodes[0].header.value.tsc <= x.tsc
    {
      HeadIsLeast(nodes, buffers, tb, x);
    }
  }

  lemma PoppedMembers(buffers: map<nat, ThreadBuffer>, tb: nat, t: nat, x: LogMsg)
    requires tb in buffers && buffers[tb].q != [] && t in buffers && x in Popped(buffers, tb)[t].q
    ensures x in buffers[t].q
  {
  }

  lemma PopKeepsOrder(buffers: map<nat, ThreadBuffer>, out: seq<Entry>, tb: nat)
    requires tb in buffers && buffers[tb].q != [] && NoneBefore(buffers, buffers[tb].q[0])
    requires OutFirst(buffers, out) && SortedOut(out)
    ensures OutFirst(Popped(buffers, tb), out + [Entry(tb, buffers[tb].q[0])])
    ensures SortedOut(out + [Entry(tb, buffers[tb].q[0])])
  {
    var m := buffers[tb].q[0];
    var after, out' := Popped(buffers, tb), out + [Entry(tb, m)];
    forall t, x, e | t in after && x in after[t].q && e in out'
      ensures e.msg.tsc <= x.tsc
    {
      PoppedMembers(buffers, tb, t, x);
      hide Popped;
    }
    assert m in buffers[tb].q;
  }

  lemma PopKeepsSorted(buffers: map<nat, ThreadBuffer>, tb: nat)
    requires tb in buffers && buffers[tb].q != [] && QueuesSorted(buffers)
    ensures QueuesSorted(Popped(buffers, tb))
  {
    assert SortedQueue(buffers[tb].q);
  }

  /** No queued message is before the root of the heap of heads. */
  lemma HeadIsLeast(nodes: seq<HeapNode>, buffers: map<nat, ThreadBuffer>, tb: nat, x: LogMsg)
    requires nodes != [] && HeapFrom(nodes, 0) && AllCached(nodes, buffers) && Tbs(nodes) == buffers.Keys
    requires tb in buffers && SortedQueue(buffers[tb].q) && x in buffers[tb].q
    ensures nodes[0].header.Some? && nodes[0].header.value.tsc <= x.tsc
  {
    assert tb in Tbs(nodes);
    var n :| n in nodes && n.tb == tb;
    var i :| 0 <= i < |nodes| && nodes[i] == n;
    RootIsLeast(nodes, i);
    assert n.header == Some(buffers[tb].q[0]);
    assert buffers[tb].q[0].tsc <= x.tsc;
  }

  /** Where the merge stops: no head, or one that is not yet registered or not yet due. */
  predicate Stops(head: Option<LogMsg>, registered: nat, tsc: int) {
    head.None? || head.value.logId >= registered || head.value.tsc >= tsc
  }

  ghost predicate AllRegistered(buffers: map<nat, ThreadBuffer>, registered: nat) {
    forall tb, m :: tb in buffers && m in buffers[tb].q ==> m.logId < registered
  }

  /** What one merge over quiet queues achieves. */
  ghost predicate Merged(before: map<nat, ThreadBuffer>, after: map<nat, ThreadBuffer>, out: seq<Entry>,
                         registered: nat, tsc: int) {
    && Split(before, after, out)
    && (forall e :: e in out ==> e.msg.tsc < tsc && e.msg.logId < registered)
    && (QueuesSorted(before) ==> SortedOut(out) && OutFirst(after, out))
    && (QueuesSorted(before) && AllRegistered(before, registered) ==>
          forall tb, m :: tb in after && m in after[tb].q ==> m.tsc >= tsc)
  }

  /** With sorted queues and known ids the merge is exact: its output is sorted, keeps each queue's
      order, takes from each queue exactly the longest prefix before tsc, and leaves the rest. */
  lemma MergeIsExact(before: map<nat, ThreadBuffer>, after: map<nat, ThreadBuffer>, out: seq<Entry>,
                     registered: nat, tsc: int, tb: nat)
    requires Merged(before, after, out, registered, tsc)
    requires QueuesSorted(before) && AllRegistered(before, registered) && tb in before
    ensures SortedOut(out)
    ensures tb in after && before[tb].q == Proj(out, tb) + after[tb].q
    ensures forall k :: 0 <= k < |before[tb].q| ==>
              (k < |Proj(out, tb)| <==> before[tb].q[k].tsc < tsc)
  {
    var p := Proj(out, tb);
    forall k | 0 <= k < |before[tb].q|
      ensures k < |p| <==> before[tb].q[k].tsc < tsc
    {
      if k < |p| {
        ProjOnly(out, tb, p[k]);
      } else {
        assert before[tb].q[k] == after[tb].q[k - |p|];
      }
    }
  }

  lemma {:induction false} ProjOnly(out: seq<Entry>, tb: nat, m: LogMsg)
    requires m in Proj(out, tb)
    ensures Entry(tb, m) in out
  {
    var last := |out| - 1;
    if out[last] != Entry(tb, m) {
      assert out == out[..last] + [out[last]];
      ProjOnly(out[..last], tb, m);
    }
  }

  // ---------- Termination and steps of the merge ----------

  function QueuedLen(order: seq<nat>, buffers: map<nat, ThreadBuffer>): nat
    requires forall tb :: tb in order ==> tb in buffers
  {
    if order == [] then 0 else |buffers[order[0]].q| + QueuedLen(order[1..], buffers)
  }

  /** The buffers of the nodes, in some fixed order. */
  function Order(nodes: seq<HeapNode>): seq<nat> {
    seq(|nodes|, k requires 0 <= k < |nodes| => nodes[k].tb)
  }

  lemma OrderCovers(nodes: seq<HeapNode>, tb: nat)
    ensures tb in Order(nodes) <==> tb in Tbs(nodes)
  {
    if tb in Tbs(nodes) {
      var k :| 0 <= k < |nodes| && nodes[k].tb == tb;
      assert Order(nodes)[k] == tb;
    }
  }

  lemma {:induction false} PopShortens(order: seq<nat>, buffers: map<nat, ThreadBuffer>, tb: nat)
    requires forall t :: t in order ==> t in buffers
    requires tb in buffers && buffers[tb].q != []
    ensures Popped(buffers, tb).Keys == buffers.Keys
    ensures QueuedLen(order, Popped(buffers, tb)) <= QueuedLen(order, buffers)
    ensures tb in order ==> QueuedLen(order, Popped(buffers, tb)) < QueuedLen(order, buffers)
  {
    if order != [] {
      PopShortens(order[1..], buffers, tb);
    }
  }

  /** The heap of heads is complete and covers every live buffer. */
  ghost predicate Merging(nodes: seq<HeapNode>, buffers: map<nat, ThreadBuffer>) {
    nodes != [] && HeapFrom(nodes, 0) && DistinctTbs(nodes) && AllCached(nodes, buffers) && Tbs(nodes) == buffers.Keys
  }

  /** The root's buffer after its message was popped, the new head cached. */
  function Advanced(nodes: seq<HeapNode>, buffers: map<nat, ThreadBuffer>): seq<HeapNode>
    requires nodes != [] && nodes[0].tb in buffers
  {
    nodes[0 := nodes[0].(header := Front(buffers[nodes[0].tb].q))]
  }

  lemma AdvanceKeeps(nodes: seq<HeapNode>, buffers: map<nat, ThreadBuffer>)
    requires Merging(nodes, buffers) && nodes[0].header.Some?
    ensures nodes[0].tb in buffers && buffers[nodes[0].tb].q != []
    ensures nodes[0].header == Some(buffers[nodes[0].tb].q[0])
    ensures var after := Popped(buffers, nodes[0].tb);
      var t := Advanced(nodes, after);
      && HeapFrom(t, 1) && DistinctTbs(t) && AllCached(t, after) && Tbs(t) == after.Keys
  {
    assert nodes[0] in nodes;
    var after := Popped(buffers, nodes[0].tb);
    var t := Advanced(nodes, after);
    forall n | n in t
      ensures n.tb in after && n.header == Front(after[n.tb].q)
    {
      var k :| 0 <= k < |t| && t[k] == n;
      assert nodes[k] in nodes;
    }
    forall tb | tb in Tbs(nodes)
      ensures tb in Tbs(t)
    {
      var k :| 0 <= k < |nodes| && nodes[k].tb == tb;
      assert t[k] in t;
    }
  }

  lemma BuffersStayOk(nodes: seq<HeapNode>, buffers: map<nat, ThreadBuffer>,
                      before: map<nat, ThreadBuffer>, oldNodes: seq<HeapNode>, nextTb: nat)
    requires BuffersOk(oldNodes, before, [], nextTb)
    requires DistinctTbs(nodes) && AllCached(nodes, buffers) && Tbs(nodes) == buffers.Keys == before.Keys
    ensures BuffersOk(nodes, buffers, [], nextTb)
  {
  }

  lemma PermutedCached(a: seq<HeapNode>, b: seq<HeapNode>, buffers: map<nat, ThreadBuffer>)
    requires multiset(a) == multiset(b) && AllCached(a, buffers)
    ensures AllCached(b, buffers) && Tbs(a) == Tbs(b) && |a| == |b|
  {
    SamePermutation(a, b);
  }

  /** The merge so far, from the queues as they were at its start. */
  ghost predicate MergedSoFar(before: map<nat, ThreadBuffer>, buffers: map<nat, ThreadBuffer>,
                              out: seq<Entry>, registered: nat, tsc: int) {
    && Split(before, buffers, out)
    && (forall e :: e in out ==> e.msg.tsc < tsc && e.msg.logId < registered)
    && (QueuesSorted(before) ==> QueuesSorted(buffers) && SortedOut(out) && OutFirst(buffers, out))
  }

  lemma MergeStart(buffers: map<nat, ThreadBuffer>, registered: nat, tsc: int)
    ensures MergedSoFar(buffers, buffers, [], registered, tsc)
  {
  }

  lemma MergeStep(before: map<nat, ThreadBuffer>, nodes: seq<HeapNode>, buffers: map<nat, ThreadBuffer>,
                  out: seq<Entry>, registered: nat, tsc: int)
    requires MergedSoFar(before, buffers, out, registered, tsc) && Merging(nodes, buffers)
    requires !Stops(nodes[0].header, registered, tsc)
    ensures nodes[0].tb in buffers && buffers[nodes[0].tb].q != []
    ensures MergedSoFar(before, Popped(buffers, nodes[0].tb), out + [Entry(nodes[0].tb, nodes[0].header.value)],
                        registered, tsc)
  {
    hide HeapBut, Split, SortedOut, OutFirst, QueuesSorted, Popped, DistinctTbs;
    AdvanceKeeps(nodes, buffers);
    var tb := nodes[0].tb;
    PopKeepsSplit(before, buffers, out, tb);
    if QueuesSorted(before) {
      RootIsNext(nodes, buffers);
      PopKeepsOrder(buffers, out, tb);
      PopKeepsSorted(buffers, tb);
    }
  }

  lemma MergeEnd(before: map<nat, ThreadBuffer>, nodes: seq<HeapNode>, buffers: map<nat, ThreadBuffer>,
                 out: seq<Entry>, registered: nat, tsc: int)
    requires MergedSoFar(before, buffers, out, registered, tsc) && Merging(nodes, buffers)
    requires Stops(nodes[0].header, registered, tsc)
    ensures Merged(before, buffers, out, registered, tsc)
  {
    hide SortedOut, OutFirst, SortedQueue;
    if QueuesSorted(before) && AllRegistered(before, registered) {
      forall tb, m | tb in buffers && m in buffers[tb].q
        ensures m.tsc >= tsc
      {
        hide HeapBut;
        HeadIsLeast(nodes, buffers, tb, m);
        var n :| n in nodes && n == nodes[0];
        assert n.header.value in buffers[n.tb].q;
        assert n.header.value in before[n.tb].q;
      }
    }
  }

  // ---------- Over many polls ----------

  /** Nothing logged is ever lost or reordered: each buffer's messages are those handled, then those
      still queued; a destroyed buffer's messages were all handled. */
  ghost predicate HistoryOk(buffers: map<nat, ThreadBuffer>, handled: seq<Entry>,
                            logged: map<nat, seq<LogMsg>>, nextTb: nat) {
    && (forall tb :: tb in buffers ==> tb in logged && logged[tb] == Proj(handled, tb) + buffers[tb].q)
    && (forall tb :: tb in logged && tb !in buffers ==> logged[tb] == Proj(handled, tb))
    && (forall tb :: tb in logged ==> tb < nextTb)
    && (forall e :: e in handled ==> e.tb < nextTb)
  }

  lemma HistoryPop(buffers: map<nat, ThreadBuffer>, handled: seq<Entry>, logged: map<nat, seq<LogMsg>>,
                   nextTb: nat, tb: nat)
    requires HistoryOk(buffers, handled, logged, nextTb) && tb in buffers && buffers[tb].q != []
    ensures HistoryOk(Popped(buffers, tb), handled + [Entry(tb, buffers[tb].q[0])], logged, nextTb)
  {
    var after, handled' := Popped(buffers, tb), handled + [Entry(tb, buffers[tb].q[0])];
    assert after.Keys == buffers.Keys;
    forall t | t in logged
      ensures t in after ==> logged[t] == Proj(handled', t) + after[t].q
      ensures t !in after ==> logged[t] == Proj(handled', t)
    {
      ProjPop(buffers, handled, tb, t);
      hide Proj, Popped;
    }
    hide Proj, Popped;
  }

  lemma HistorySweep(before: map<nat, ThreadBuffer>, buffers: map<nat, ThreadBuffer>, handled: seq<Entry>,
                     logged: map<nat, seq<LogMsg>>, nextTb: nat)
    requires HistoryOk(before, handled, logged, nextTb) && buffers == Survivors(before)
    ensures HistoryOk(buffers, handled, logged, nextTb)
  {
  }

  lemma HistoryLog(buffers: map<nat, ThreadBuffer>, handled: seq<Entry>, logged: map<nat, seq<LogMsg>>,
                   nextTb: nat, tb: nat, m: LogMsg)
    requires HistoryOk(buffers, handled, logged, nextTb) && tb in buffers
    ensures tb in logged
    ensures HistoryOk(buffers[tb := buffers[tb].(q := buffers[tb].q + [m])], handled,
                      logged[tb := logged[tb] + [m]], nextTb)
  {
  }

  lemma {:induction false} NothingHandledYet(handled: seq<Entry>, tb: nat)
    requires forall e :: e in handled ==> e.tb != tb
    ensures Proj(handled, tb) == []
  {
    if handled != [] {
      NothingHandledYet(handled[..|handled| - 1], tb);
    }
  }

  // ---------- A whole poll ----------

  lemma NoNodes(nodes: seq<HeapNode>)
    ensures nodes == [] <==> Tbs(nodes) == {}
  {
    if nodes != [] {
      assert nodes[0] in nodes;
      assert nodes[0].tb in Tbs(nodes);
    }
  }

  lemma NothingToMerge(buffers: map<nat, ThreadBuffer>, registered: nat, tsc: int)
    requires buffers.Keys == {}
    ensures Merged(buffers, buffers, [], registered, tsc) && buffers == map[]
  {
  }

  lemma TakeBuffer(nodes: seq<HeapNode>, buffers: map<nat, ThreadBuffer>, waiting: seq<nat>, nextTb: nat)
    requires BuffersOk(nodes, buffers, waiting, nextTb) && waiting != []
    ensures BuffersOk(nodes + [HeapNode(waiting[0], None)], buffers, waiting[1..], nextTb)
  {
    var node := HeapNode(waiting[0], None);
    var t := nodes + [node];
    assert Tbs(t) == Tbs(nodes) + {waiting[0]} by {
      assert node in t;
      assert forall n :: n in nodes ==> n in t;
    }
    forall k | 0 <= k < |nodes|
      ensures nodes[k].tb != waiting[0]
    {
      assert nodes[k].tb in Tbs(nodes);
    }
    forall n | n in t
      ensures n.tb in buffers && (n.header.Some? ==> n.header == Front(buffers[n.tb].q))
    {
      assert n in nodes || n == node;
      assert waiting[0] in waiting;
    }
  }

  // ---------- Threads coming, logging and going ----------

  lemma AddBuffer(nodes: seq<HeapNode>, buffers: map<nat, ThreadBuffer>, waiting: seq<nat>, nextTb: nat, name: string)
    requires BuffersOk(nodes, buffers, waiting, nextTb)
    ensures nextTb !in buffers
    ensures BuffersOk(nodes, buffers[nextTb := ThreadBuffer([], false, name)], waiting + [nextTb], nextTb + 1)
  {
    assert nextTb !in Tbs(nodes);
  }

  lemma HistoryNew(buffers: map<nat, ThreadBuffer>, handled: seq<Entry>, logged: map<nat, seq<LogMsg>>,
                   nextTb: nat, name: string)
    requires HistoryOk(buffers, handled, logged, nextTb) && Proj(handled, nextTb) == []
    ensures nextTb !in logged
    ensures HistoryOk(buffers[nextTb := ThreadBuffer([], false, name)], handled, logged[nextTb := []], nextTb + 1)
  {
    hide Proj;
  }

  /** Appending to a queue, or marking its thread as gone, keeps every cached head right. */
  lemma ReplaceBuffer(nodes: seq<HeapNode>, buffers: map<nat, ThreadBuffer>, waiting: seq<nat>, nextTb: nat,
                      tb: nat, b: ThreadBuffer)
    requires BuffersOk(nodes, buffers, waiting, nextTb) && tb in buffers
    requires buffers[tb].q <= b.q
    ensures BuffersOk(nodes, buffers[tb := b], waiting, nextTb)
  {
    hide Tbs, DistinctTbs;
    assert buffers[tb].q != [] ==> Front(b.q) == Front(buffers[tb].q);
  }

  lemma HandledIsPrefix(buffers: map<nat, ThreadBuffer>, handled: seq<Entry>, logged: map<nat, seq<LogMsg>>,
                        nextTb: nat)
    requires HistoryOk(buffers, handled, logged, nextTb)
    ensures forall tb :: tb in logged ==> Proj(handled, tb) <= logged[tb]
    ensures forall tb :: tb in logged && tb !in buffers ==> Proj(handled, tb) == logged[tb]
  {
    hide Proj;
  }
}
