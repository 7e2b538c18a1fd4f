/** The clock's parameters behind a sequence lock: one writer, any number of readers, one shared
    access per turn. A reader does not wait for an even sequence number, it masks the lowest bit. */
module SeqLock {
  import opened Bytes

  const WRAP: nat := 0x1_0000_0000

  /** What one call of `saveParam` stores. */
  datatype Params = Params(tsc: int, ns: int, ratio: real)

  /** Where the writer stands in `saveParam`. */
  datatype Writer =
    | Resting
    | StoreTsc(p: Params)
    | StoreNs(p: Params)
    | StoreRatio(p: Params)
    | Finish(p: Params)

  /** Where a reader stands in `tsc2ns`: it has masked a sequence number and reads the three
      parameters in any order. `start` records how many sequence stores preceded its first read. */
  datatype Reader =
    | Away
    | Reading(before: nat, tsc: Option<int>, ns: Option<int>, ratio: Option<real>, start: nat)

  /** A return of `tsc2ns`: the parameters it used, and the sequence stores before its first and its
      last read. */
  datatype Result = Result(used: Params, start: nat, end: nat)

  datatype State = State(paramSeq: nat, cur: Params, writer: Writer, readers: map<nat, Reader>,
                         saved: seq<Params>, results: seq<Result>)

  datatype Turn = Save(p: Params) | ReadSeq(id: nat) | ReadTsc(id: nat) | ReadNs(id: nat) | ReadRatio(id: nat)

  function Init(p: Params): State {
    State(0, p, Resting, map[], [p], [])
  }

  /** How often the sequence number has been stored: twice for each finished save. */
  function Stage(s: State): nat {
    2 * |s.saved| + if s.writer.Resting? then 0 else 1
  }

  function WriterTurn(s: State, p: Params): State {
    match s.writer
    case Resting => s.(paramSeq := (s.paramSeq + 1) % WRAP, writer := StoreTsc(p))
    case StoreTsc(q) => s.(cur := s.cur.(tsc := q.tsc), writer := StoreNs(q))
    case StoreNs(q) => s.(cur := s.cur.(ns := q.ns), writer := StoreRatio(q))
    case StoreRatio(q) => s.(cur := s.cur.(ratio := q.ratio), writer := Finish(q))
    case Finish(q) => s.(paramSeq := (s.paramSeq + 1) % WRAP, writer := Resting, saved := s.saved + [q])
  }

  function ReaderOf(s: State, id: nat): Reader {
    if id in s.readers then s.readers[id] else Away
  }

  /** The first read of the sequence number masks it; the second compares and returns or retries. */
  function ReadSeqTurn(s: State, id: nat): State {
    match ReaderOf(s, id)
    case Away =>
      s.(readers := s.readers[id := Reading(s.paramSeq - s.paramSeq % 2, None, None, None, Stage(s))])
    case Reading(before, Some(tsc), Some(ns), Some(ratio), start) =>
      var t := s.(readers := s.readers[id := Away]);
      if before == s.paramSeq then t.(results := s.results + [Result(Params(tsc, ns, ratio), start, Stage(s))])
      else t
    case _ => s
  }

  function Next(s: State, turn: Turn): State {
    match turn
    case Save(p) => WriterTurn(s, p)
    case ReadSeq(id) => ReadSeqTurn(s, id)
    case ReadTsc(id) =>
      var r := ReaderOf(s, id);
      if r.Reading? && r.tsc.None? then s.(readers := s.readers[id := r.(tsc := Some(s.cur.tsc))]) else s
    case ReadNs(id) =>
      var r := ReaderOf(s, id);
      if r.Reading? && r.ns.None? then s.(readers := s.readers[id := r.(ns := Some(s.cur.ns))]) else s
    case ReadRatio(id) =>
      var r := ReaderOf(s, id);
      if r.Reading? && r.ratio.None? then s.(readers := s.readers[id := r.(ratio := Some(s.cur.ratio))]) else s
  }

  function Run(s: State, turns: seq<Turn>): State
    decreases |turns|
  {
    if turns == [] then s else Run(Next(s, turns[0]), turns[1..])
  }

  // ---------- The invariant ----------

  /** While no save is under way, what the reader has read since it started is what is stored now. */
  ghost predicate ReaderInv(s: State, r: Reader) {
    r.Reading? ==>
      && r.start <= Stage(s)
      && r.before == (r.start - r.start % 2 - 2) % WRAP
      && 2 <= r.start
      && (r.start == Stage(s) && s.writer.Resting? ==>
            && (r.tsc.Some? ==> r.tsc.value == s.cur.tsc)
            && (r.ns.Some? ==> r.ns.value == s.cur.ns)
            && (r.ratio.Some? ==> r.ratio.value == s.cur.ratio))
  }

  /** A result is a snapshot unless the sequence number came round while it was being read. */
  ghost predicate ResultInv(s: State, r: Result) {
    r.start <= r.end && 2 <= r.start && r.end <= Stage(s)
    && (r.end - r.start < WRAP - 1 ==>
          r.start == r.end && r.start % 2 == 0 && r.start / 2 <= |s.saved| && r.used == s.saved[r.start / 2 - 1])
  }

  ghost predicate Inv(s: State) {
    && s.saved != []
    && s.paramSeq == (Stage(s) - 2) % WRAP
    && (s.writer.Resting? ==> s.cur == s.saved[|s.saved| - 1])
    && (s.writer.StoreNs? ==> s.cur.tsc == s.writer.p.tsc)
    && (s.writer.StoreRatio? ==> s.cur.tsc == s.writer.p.tsc && s.cur.ns == s.writer.p.ns)
    && (s.writer.Finish? ==> s.cur == s.writer.p)
    && (forall id :: id in s.readers ==> ReaderInv(s, s.readers[id]))
    && (forall r :: r in s.results ==> ResultInv(s, r))
  }

  lemma WriterKeeps(s: State, p: Params)
    requires Inv(s)
    ensures Inv(WriterTurn(s, p))
  {
    var t := WriterTurn(s, p);
    assert Stage(t) == Stage(s) + if s.writer.Resting? || s.writer.Finish? then 1 else 0;
    forall r | r in t.results
      ensures ResultInv(t, r)
    {
      assert ResultInv(s, r);
    }
    forall id | id in t.readers
      ensures ReaderInv(t, t.readers[id])
    {
      assert ReaderInv(s, s.readers[id]);
    }
  }

  /** Two even distances that agree modulo 2^32 and lie less than 2^32 apart are equal. */
  lemma SameStage(start: nat, end: nat)
    requires 2 <= start <= end && end - start < WRAP - 1
    requires (start - start % 2 - 2) % WRAP == (end - 2) % WRAP
    ensures start == end && start % 2 == 0
  {
    var a, b := start - start % 2 - 2, end - 2;
    assert 0 <= b - a < WRAP;
    assert (b - a) % WRAP == 0;
  }

  lemma ReturnKeeps(s: State, id: nat, x: Result)
    requires Inv(s) && x in ReadSeqTurn(s, id).results
    ensures ResultInv(s, x)
  {
    if x !in s.results {
      assert ReaderInv(s, ReaderOf(s, id));
      if x.end - x.start < WRAP - 1 {
        SameStage(x.start, x.end);
      }
    }
  }

  lemma ReadSeqKeeps(s: State, id: nat)
    requires Inv(s)
    ensures Inv(ReadSeqTurn(s, id))
  {
    var t := ReadSeqTurn(s, id);
    assert Stage(t) == Stage(s) && t.saved == s.saved;
    forall x | x in t.results
      ensures ResultInv(t, x)
    {
      ReturnKeeps(s, id, x);
    }
    MaskedSeq(Stage(s));
    hide ResultInv;
    forall i | i in t.readers
      ensures ReaderInv(t, t.readers[i])
    {
      assert i != id ==> ReaderInv(s, s.readers[i]);
    }
  }

  lemma MaskedSeq(stage: nat)
    requires 2 <= stage
    ensures var q := (stage - 2) % WRAP; q - q % 2 == (stage - stage % 2 - 2) % WRAP
  {
  }

  /** Reader id has read one more parameter, as it is stored now. */
  lemma ReaderKeeps(s: State, id: nat, r: Reader)
    requires Inv(s) && ReaderInv(s, r)
    ensures Inv(s.(readers := s.readers[id := r]))
  {
    var t := s.(readers := s.readers[id := r]);
    assert Stage(t) == Stage(s);
    forall x | x in t.results
      ensures ResultInv(t, x)
    {
      assert ResultInv(s, x);
    }
    hide ResultInv;
    forall i | i in t.readers
      ensures ReaderInv(t, t.readers[i])
    {
      assert i != id ==> ReaderInv(s, s.readers[i]);
    }
  }

  lemma ReadTscKeeps(s: State, id: nat)
    requires Inv(s)
    ensures Inv(Next(s, ReadTsc(id)))
  {
    hide ResultInv;
    var r := ReaderOf(s, id);
    if r.Reading? && r.tsc.None? {
      ReaderKeeps(s, id, r.(tsc := Some(s.cur.tsc)));
    }
  }

  lemma ReadNsKeeps(s: State, id: nat)
    requires Inv(s)
    ensures Inv(Next(s, ReadNs(id)))
  {
    hide ResultInv;
    var r := ReaderOf(s, id);
    if r.Reading? && r.ns.None? {
      ReaderKeeps(s, id, r.(ns := Some(s.cur.ns)));
    }
  }

  lemma ReadRatioKeeps(s: State, id: nat)
    requires Inv(s)
    ensures Inv(Next(s, ReadRatio(id)))
  {
    hide ResultInv;
    var r := ReaderOf(s, id);
    if r.Reading? && r.ratio.None? {
      ReaderKeeps(s, id, r.(ratio := Some(s.cur.ratio)));
    }
  }

  lemma NextKeeps(s: State, turn: Turn)
    requires Inv(s)
    ensures Inv(Next(s, turn))
  {
    match turn
    case Save(p) => WriterKeeps(s, p);
    case ReadSeq(id) => ReadSeqKeeps(s, id);
    case ReadTsc(id) => ReadTscKeeps(s, id);
    case ReadNs(id) => ReadNsKeeps(s, id);
    case ReadRatio(id) => ReadRatioKeeps(s, id);
  }

  lemma {:induction false} RunKeeps(s: State, turns: seq<Turn>)
    requires Inv(s)
    ensures Inv(Run(s, turns))
    decreases |turns|
  {
    if turns != [] {
      NextKeeps(s, turns[0]);
      RunKeeps(Next(s, turns[0]), turns[1..]);
    }
  }

  /** All three parameters used were stored by one save, the last one finished when the read began. */
  ghost predicate Snapshot(s: State, r: Result) {
    && r.start % 2 == 0 && 2 <= r.start <= 2 * |s.saved|
    && r.used == s.saved[r.start / 2 - 1]
  }

  /** Seqlock safety: in every interleaving, each value returned was computed from three parameters
      stored by one and the same `saveParam` call (or the initial ones), and that call was the last
      one finished, with none under way, from the reader's first read to its last. The one escape is
      2^32 - 1 sequence stores during a single read, when the number comes round again. */
  lemma SnapshotIsConsistent(init: Params, turns: seq<Turn>, r: Result)
    requires var s := Run(Init(init), turns); r in s.results && r.end - r.start < WRAP - 1
    ensures r.start == r.end && Snapshot(Run(Init(init), turns), r)
  {
    RunKeeps(Init(init), turns);
    assert ResultInv(Run(Init(init), turns), r);
  }

  // ---------- A reader left alone ----------

  lemma LoneReadsFrom(s: State, id: nat, p: Params)
    requires s.writer.Resting? && ReaderOf(s, id).Away? && s.paramSeq % 2 == 0 && s.cur == p
    ensures var t := Run(s, [ReadSeq(id), ReadTsc(id), ReadNs(id)] + [ReadRatio(id), ReadSeq(id)]);
      t.results == s.results + [Result(p, Stage(s), Stage(s))] && ReaderOf(t, id).Away?
  {
    var a, b := [ReadSeq(id), ReadTsc(id), ReadNs(id)], [ReadRatio(id), ReadSeq(id)];
    RunAppend(s, a, b);
    RunThree(s, ReadSeq(id), ReadTsc(id), ReadNs(id));
    RunTwo(Run(s, a), ReadRatio(id), ReadSeq(id));
  }

  /** Progress: between saves, in every reachable state, a reader left alone returns at its first try, with the
      last save's parameters. */
  lemma LoneReaderReturns(init: Params, turns: seq<Turn>, id: nat)
    requires Run(Init(init), turns).writer.Resting? && ReaderOf(Run(Init(init), turns), id).Away?
    ensures var s := Run(Init(init), turns);
      var t := Run(s, [ReadSeq(id), ReadTsc(id), ReadNs(id)] + [ReadRatio(id), ReadSeq(id)]);
      s.saved != [] && t.results == s.results + [Result(s.saved[|s.saved| - 1], Stage(s), Stage(s))]
  {
    RunKeeps(Init(init), turns);
    var s := Run(Init(init), turns);
    EvenBetween(2 * |s.saved| - 2);
    assert s.paramSeq % 2 == 0;
    LoneReadsFrom(s, id, s.cur);
  }

  lemma EvenBetween(n: int)
    requires n % 2 == 0
    ensures n % WRAP % 2 == 0
  {
  }

  // ---------- The bound is exact ----------

  lemma {:induction false} RunAppend(s: State, a: seq<Turn>, b: seq<Turn>)
    ensures Run(s, a + b) == Run(Run(s, a), b)
    decreases |a|
  {
    if a == [] {
      assert a + b == b;
    } else {
      assert (a + b)[1..] == a[1..] + b;
      RunAppend(Next(s, a[0]), a[1..], b);
    }
  }

  /** k whole saves of q. */
  function Saves(q: Params, k: nat): seq<Turn> {
    if k == 0 then [] else [Save(q), Save(q), Save(q), Save(q), Save(q)] + Saves(q, k - 1)
  }

  function Copies(q: Params, k: nat): seq<Params> {
    seq(k, _ => q)
  }

  lemma RunTwo(s: State, a: Turn, b: Turn)
    ensures Run(s, [a, b]) == Next(Next(s, a), b)
  {
    hide Next;
    assert [a, b][1..] == [b] && [b][1..] == [];
    assert Run(Next(s, a), [b]) == Run(Next(Next(s, a), b), []);
  }

  lemma RunThree(s: State, a: Turn, b: Turn, c: Turn)
    ensures Run(s, [a, b, c]) == Next(Next(Next(s, a), b), c)
  {
    hide Next;
    assert [a, b, c][1..] == [b, c];
    RunTwo(Next(s, a), b, c);
  }

  /** The sequence number after two more stores. */
  function SeqAfterSave(n: nat): nat {
    ((n + 1) % WRAP + 1) % WRAP
  }

  lemma SeqAfterSaves(n: nat, k: nat)
    requires k > 0
    ensures (SeqAfterSave(n) + 2 * (k - 1)) % WRAP == (n + 2 * k) % WRAP
  {
    SameModulo(n + 1, 1);
    SameModulo(n + 2, 2 * (k - 1));
  }

  lemma SameModulo(a: nat, b: nat)
    ensures (a % WRAP + b) % WRAP == (a + b) % WRAP
  {
  }

  lemma OneSave(s: State, q: Params)
    requires s.writer.Resting?
    ensures Run(s, [Save(q), Save(q), Save(q), Save(q), Save(q)])
            == s.(paramSeq := SeqAfterSave(s.paramSeq), cur := q, saved := s.saved + [q])
  {
    var a, b := [Save(q), Save(q), Save(q)], [Save(q), Save(q)];
    assert [Save(q), Save(q), Save(q), Save(q), Save(q)] == a + b;
    RunAppend(s, a, b);
    RunThree(s, Save(q), Save(q), Save(q));
    RunTwo(Run(s, a), Save(q), Save(q));
    hide Run;
  }

  /** k saves by a writer left alone. */
  lemma {:induction false} SavesRun(s: State, q: Params, k: nat)
    requires s.writer.Resting? && s.paramSeq < WRAP
    ensures Run(s, Saves(q, k)) == s.(paramSeq := (s.paramSeq + 2 * k) % WRAP,
                                     cur := if k == 0 then s.cur else q, saved := s.saved + Copies(q, k))
    decreases k
  {
    if k == 0 {
      assert s.saved + Copies(q, 0) == s.saved;
    } else {
      var one := [Save(q), Save(q), Save(q), Save(q), Save(q)];
      OneSave(s, q);
      RunAppend(s, one, Saves(q, k - 1));
      hide Run;
      var t := s.(paramSeq := SeqAfterSave(s.paramSeq), cur := q, saved := s.saved + [q]);
      SavesRun(t, q, k - 1);
      SeqAfterSaves(s.paramSeq, k);
      hide SeqAfterSave;
      assert t.saved + Copies(q, k - 1) == s.saved + Copies(q, k);
    }
  }

  /** A reader takes the first parameter before the saves, the others after them, and then returns.
      With `begun`, its first read of the sequence number comes after the first save's first store. */
  function Straddle(q: Params, begun: bool, k: nat): seq<Turn>
    requires k > 0
  {
    (if begun then [Save(q), ReadSeq(0), ReadTsc(0)] + ([Save(q), Save(q)] + [Save(q), Save(q)])
     else [ReadSeq(0), ReadTsc(0)])
    + Saves(q, if begun then k - 1 else k) + [ReadNs(0), ReadRatio(0), ReadSeq(0)]
  }

  /** What Straddle's turns up to the saves have read. */
  function Started(p: Params, start: nat): Reader {
    Reading(0, Some(p.tsc), None, None, start)
  }

  lemma StraddleStart(p: Params, q: Params)
    ensures Run(Init(p), [ReadSeq(0), ReadTsc(0)]) == Init(p).(readers := map[0 := Started(p, 2)])
    ensures Run(Init(p), [Save(q), ReadSeq(0), ReadTsc(0)] + ([Save(q), Save(q)] + [Save(q), Save(q)]))
            == State(2, q, Resting, map[0 := Started(p, 3)], [p, q], [])
  {
    RunTwo(Init(p), ReadSeq(0), ReadTsc(0));
    var a, b := [Save(q), ReadSeq(0), ReadTsc(0)], [Save(q), Save(q)];
    RunAppend(Init(p), a, b + b);
    RunThree(Init(p), Save(q), ReadSeq(0), ReadTsc(0));
    var s := Run(Init(p), a);
    RunAppend(s, b, b);
    RunTwo(s, Save(q), Save(q));
    RunTwo(Run(s, b), Save(q), Save(q));
  }

  lemma StraddleEnd(s: State, p: Params, start: nat)
    requires s.paramSeq == 0 && s.writer.Resting? && s.results == []
    requires s.readers == map[0 := Started(p, start)]
    ensures var t := Run(s, [ReadNs(0), ReadRatio(0), ReadSeq(0)]);
      && t.results == [Result(Params(p.tsc, s.cur.ns, s.cur.ratio), start, 2 * |s.saved|)]
      && t.saved == s.saved
  {
    RunThree(s, ReadNs(0), ReadRatio(0), ReadSeq(0));
  }

  /** The reader then returns values of two saves: the number has come round after WRAP stores, or
      after WRAP - 1 when it began during a save. */
  lemma Escapes(p: Params, q: Params, begun: bool, k: nat)
    requires 2 * k == WRAP
    ensures var s := Run(Init(p), Straddle(q, begun, k));
      && s.results == [Result(Params(p.tsc, q.ns, q.ratio), if begun then 3 else 2, 2 + WRAP)]
      && s.saved == [p] + Copies(q, k)
  {
    var head := if begun then [Save(q), ReadSeq(0), ReadTsc(0)] + ([Save(q), Save(q)] + [Save(q), Save(q)])
                else [ReadSeq(0), ReadTsc(0)];
    var n := if begun then k - 1 else k;
    var tail := [ReadNs(0), ReadRatio(0), ReadSeq(0)];
    RunAppend(Init(p), head + Saves(q, n), tail);
    RunAppend(Init(p), head, Saves(q, n));
    StraddleStart(p, q);
    hide Run, Saves;
    var s := Run(Init(p), head);
    SavesRun(s, q, n);
    var t := Run(s, Saves(q, n));
    assert t.saved == [p] + Copies(q, k);
    StraddleEnd(t, p, if begun then 3 else 2);
  }

  /** Some save, of whatever age, stored all three parameters used. */
  ghost predicate FromOneSave(s: State, r: Result) {
    r.used in s.saved
  }

  /** Reads during which fewer than `bound` sequence stores happen return snapshots. */
  ghost predicate SafeBelow(bound: nat) {
    forall init, turns, r :: r in Run(Init(init), turns).results && r.end - r.start < bound ==>
      Snapshot(Run(Init(init), turns), r)
  }

  /** They do, in every interleaving, if and only if the bound is at most 2^32 - 1 stores. */
  lemma SafeBelowIff(bound: nat)
    ensures SafeBelow(bound) <==> bound <= WRAP - 1
  {
    if bound <= WRAP - 1 {
      forall init, turns, r | r in Run(Init(init), turns).results && r.end - r.start < bound
        ensures Snapshot(Run(Init(init), turns), r)
      {
        SnapshotIsConsistent(init, turns, r);
      }
    } else {
      var p, q, k := Params(0, 0, 1.0), Params(1, 1, 1.0), WRAP / 2;
      MixedRead(p, q, true, k);
    }
  }

  /** Beyond the bound the values of two saves are mixed, whatever two different saves they are: one
      run with WRAP - 1 stores during the read, one with WRAP. */
  lemma MixedRead(p: Params, q: Params, begun: bool, k: nat)
    requires 2 * k == WRAP && p.tsc != q.tsc && (p.ns, p.ratio) != (q.ns, q.ratio)
    ensures var s := Run(Init(p), Straddle(q, begun, k));
      exists r :: r in s.results && r.end - r.start == (if begun then WRAP - 1 else WRAP)
                  && !FromOneSave(s, r) && !Snapshot(s, r)
  {
    Escapes(p, q, begun, k);
    hide Run, Straddle;
    var s := Run(Init(p), Straddle(q, begun, k));
    var r := Result(Params(p.tsc, q.ns, q.ratio), if begun then 3 else 2, 2 + WRAP);
    assert r in s.results;
    assert forall x :: x in s.saved ==> x == p || x == q;
  }
}
