/** The log file and the text still buffered in front of it. */
module LogFile {
  import opened Bytes

  /** What a log callback was told: a record's text and its position in the file. */
  datatype Report = Report(pos: int, text: string)

  /** Records as they appear in the file, each followed by a newline. */
  function Lines(records: seq<string>): string {
    if records == [] then ""
    else Lines(records[..|records| - 1]) + records[|records| - 1] + "\n"
  }

  lemma LinesSnoc(records: seq<string>, text: string)
    ensures Lines(records + [text]) == Lines(records) + text + "\n"
  {
    assert (records + [text])[..|records|] == records;
  }

  /** File and buffer together hold what the file held when opened, then every record since. */
  ghost predicate StreamOk(file: Option<string>, membuf: string, base: string, records: seq<string>) {
    file.Some? ==> file.value + membuf == base + Lines(records)
  }

  /** The tracked position of the buffer is the file's length, up to an error fixed at opening. */
  ghost predicate PositionOk(file: Option<string>, manageFp: bool, fpos: int, skew: int) {
    manageFp ==> file.Some? && fpos == |file.value| + skew
  }

  /** The text lies at offset pos of the stream as a whole line. */
  ghost predicate LineAt(stream: string, pos: int, text: string) {
    0 <= pos && pos + |text| + 1 <= |stream| && stream[pos..pos + |text| + 1] == text + "\n"
  }

  /** The reports owed for texts written one after the other from offset `from` on: one for each text
      asked for, at the offset where it begins. */
  function ReportsFrom(from: int, texts: seq<string>, asked: seq<bool>): seq<Report>
    requires |asked| == |texts|
    decreases |texts|
  {
    if texts == [] then []
    else
      (if asked[0] then [Report(from, texts[0])] else [])
      + ReportsFrom(from + |texts[0]| + 1, texts[1..], asked[1..])
  }

  /** The reports made are those owed, each with its text; for a managed file with the position, too. */
  ghost predicate Reported(reports: seq<Report>, owed: seq<Report>, managed: bool) {
    && |reports| == |owed|
    && forall k :: 0 <= k < |owed| ==>
         reports[k].text == owed[k].text && (managed ==> reports[k].pos == owed[k].pos)
  }

  /** Since the file was opened every record asked for, and no other, has been reported in order; in a
      managed file at its own offset, off by skew. */
  ghost predicate ReportsOk(base: string, records: seq<string>, asked: seq<bool>, reports: seq<Report>,
                            skew: int, managed: bool)
  {
    && |asked| == |records|
    && Reported(reports, ReportsFrom(|base| + skew, records, asked), managed)
  }

  lemma {:induction false} LinesAppend(a: seq<string>, b: seq<string>)
    ensures Lines(a + b) == Lines(a) + Lines(b)
    decreases |b|
  {
    if b == [] {
      assert a + b == a;
    } else {
      var n := |b| - 1;
      assert (a + b)[..|a + b| - 1] == a + b[..n];
      LinesAppend(a, b[..n]);
    }
  }

  lemma LinesCons(text: string, rest: seq<string>)
    ensures Lines([text] + rest) == text + "\n" + Lines(rest)
  {
    LinesAppend([text], rest);
    assert [text][..0] == [];
    assert Lines([text]) == text + "\n";
  }

  lemma ReportsCons(from: int, texts: seq<string>, asked: seq<bool>)
    requires |asked| == |texts| && texts != []
    ensures ReportsFrom(from, texts, asked)
            == (if asked[0] then [Report(from, texts[0])] else [])
               + ReportsFrom(from + |texts[0]| + 1, texts[1..], asked[1..])
  {
  }

  lemma {:induction false} ReportsAppend(from: int, a: seq<string>, b: seq<string>, x: seq<bool>, y: seq<bool>)
    requires |x| == |a| && |y| == |b|
    ensures ReportsFrom(from, a + b, x + y)
            == ReportsFrom(from, a, x) + ReportsFrom(from + |Lines(a)|, b, y)
    decreases |a|
  {
    if a == [] {
      assert a + b == b && x + y == y;
    } else {
      var next := from + |a[0]| + 1;
      var first := if x[0] then [Report(from, a[0])] else [];
      ReportsCons(from, a + b, x + y);
      ReportsCons(from, a, x);
      LinesCons(a[0], a[1..]);
      hide *;
      assert (a + b)[1..] == a[1..] + b && (x + y)[1..] == x[1..] + y && [a[0]] + a[1..] == a;
      assert (a + b)[0] == a[0] && (x + y)[0] == x[0];
      ReportsAppend(next, a[1..], b, x[1..], y);
      InFront(first, ReportsFrom(next, a[1..], x[1..]), ReportsFrom(from + |Lines(a)|, b, y));
    }
  }

  lemma InFront(a: seq<Report>, b: seq<Report>, c: seq<Report>)
    ensures a + (b + c) == (a + b) + c
  {
  }

  /** A report that is owed is for a record, and gives the offset of that record's line. */
  lemma {:induction false} OwedAtLine(from: int, lead: string, texts: seq<string>, asked: seq<bool>, r: Report)
    requires |asked| == |texts| && r in ReportsFrom(from, texts, asked)
    ensures r.text in texts && LineAt(lead + Lines(texts), r.pos - from + |lead|, r.text)
    decreases |texts|
  {
    var rest := texts[1..];
    LinesCons(texts[0], rest);
    assert [texts[0]] + rest == texts;
    var line := texts[0] + "\n";
    assert lead + (line + Lines(rest)) == (lead + line) + Lines(rest);
    if r == Report(from, texts[0]) {
      assert (lead + line + Lines(rest))[|lead|..|lead| + |texts[0]| + 1] == line;
    } else {
      OwedAtLine(from + |line|, lead + line, rest, asked[1..], r);
    }
  }

  lemma LineStays(stream: string, more: string, pos: int, text: string)
    requires LineAt(stream, pos, text)
    ensures LineAt(stream + more, pos, text)
  {
    assert (stream + more)[pos..pos + |text| + 1] == stream[pos..pos + |text| + 1];
  }

  /** A record appended to the buffer extends the stream by one line, at the position reported. */
  lemma AppendRecord(file: string, membuf: string, base: string, records: seq<string>, text: string)
    requires file + membuf == base + Lines(records)
    ensures file + (membuf + text + "\n") == base + Lines(records + [text])
    ensures LineAt(base + Lines(records + [text]), |file| + |membuf|, text)
    ensures base + Lines(records + [text]) == base + Lines(records) + (text + "\n")
  {
    LinesSnoc(records, text);
    var s := base + Lines(records);
    assert file + (membuf + text + "\n") == (file + membuf) + (text + "\n") == s + (text + "\n");
    assert base + (Lines(records) + text + "\n") == s + (text + "\n");
    assert (s + (text + "\n"))[|s|..|s| + |text| + 1] == text + "\n";
  }

  /** A further record, with or without its report, leaves the reports exact. */
  lemma ReportsGrow(base: string, records: seq<string>, asked: seq<bool>, reports: seq<Report>,
                    skew: int, managed: bool, text: string, ask: bool, pos: int)
    requires ReportsOk(base, records, asked, reports, skew, managed)
    requires managed ==> pos == |base + Lines(records)| + skew
    ensures ReportsOk(base, records + [text], asked + [ask],
                      reports + if ask then [Report(pos, text)] else [], skew, managed)
  {
    ReportsAppend(|base| + skew, records, [text], asked, [ask]);
    var at := |base| + skew + |Lines(records)|;
    assert ReportsFrom(at, [text], [ask]) == if ask then [Report(at, text)] else [];
  }

  /** Where reports begin matters to their positions only. */
  lemma {:induction false} SameReports(from: int, other: int, texts: seq<string>, asked: seq<bool>, managed: bool)
    requires |asked| == |texts| && (managed ==> from == other)
    ensures Reported(ReportsFrom(from, texts, asked), ReportsFrom(other, texts, asked), managed)
    decreases |texts|
  {
    if texts != [] {
      SameReports(from + |texts[0]| + 1, other + |texts[0]| + 1, texts[1..], asked[1..], managed);
    }
  }

  /** With the reports exact before and after some more records, those made in between are those owed
      for these records. */
  lemma ReportsSince(base: string, records: seq<string>, asked: seq<bool>, reports: seq<Report>,
                     texts: seq<string>, more: seq<bool>, all: seq<Report>, skew: int, managed: bool, pos: int)
    requires ReportsOk(base, records, asked, reports, skew, managed) && |more| == |texts|
    requires ReportsOk(base, records + texts, asked + more, all, skew, managed)
    requires managed ==> pos == |base + Lines(records)| + skew
    ensures Reported(all, reports + ReportsFrom(pos, texts, more), managed)
  {
    var from := |base| + skew;
    hide ReportsFrom, Lines, Reported;
    ReportsAppend(from, records, texts, asked, more);
    SameReports(pos, from + |Lines(records)|, texts, more, managed);
    ReportsTail(reports, ReportsFrom(from, records, asked), all, ReportsFrom(from + |Lines(records)|, texts, more),
                ReportsFrom(pos, texts, more), managed);
  }

  lemma ReportsTail(a: seq<Report>, owed: seq<Report>, all: seq<Report>, late: seq<Report>, tail: seq<Report>,
                    managed: bool)
    requires Reported(a, owed, managed) && Reported(all, owed + late, managed) && Reported(tail, late, managed)
    ensures Reported(all, a + tail, managed)
  {
    forall k | 0 <= k < |all|
      ensures all[k].text == (a + tail)[k].text && (managed ==> all[k].pos == (a + tail)[k].pos)
    {
      assert (owed + late)[k] == if k < |owed| then owed[k] else late[k - |owed|];
    }
  }

  lemma FreshFile(contents: string, skew: int, managed: bool)
    ensures StreamOk(Some(contents), "", contents, [])
    ensures ReportsOk(contents, [], [], [], skew, managed)
  {
    assert contents + "" == contents;
  }

  lemma Flushed(file: string, membuf: string, base: string, records: seq<string>)
    requires StreamOk(Some(file), membuf, base, records)
    ensures StreamOk(Some(file + membuf), "", base, records)
  {
    assert (file + membuf) + "" == file + membuf;
  }

  /** Every reported position is the exact offset of its record: in the file as it is now or, for a
      record still buffered, as it will be once the buffer is written, and ever after. */
  lemma ReportsAreExact(file: string, membuf: string, base: string, records: seq<string>, asked: seq<bool>,
                        reports: seq<Report>, r: Report)
    requires StreamOk(Some(file), membuf, base, records)
    requires ReportsOk(base, records, asked, reports, 0, true) && r in reports
    ensures r.text in records && LineAt(file + membuf, r.pos, r.text)
    ensures r.pos + |r.text| + 1 <= |file| ==> LineAt(file, r.pos, r.text)
    ensures forall later: string :: LineAt(file + membuf + later, r.pos, r.text)
  {
    var k :| 0 <= k < |reports| && reports[k] == r;
    var owed := ReportsFrom(|base| + 0, records, asked);
    assert owed[k] == r && r in owed;
    OwedAtLine(|base|, base, records, asked, r);
    var s := file + membuf;
    if r.pos + |r.text| + 1 <= |file| {
      assert s[r.pos..r.pos + |r.text| + 1] == file[r.pos..r.pos + |r.text| + 1];
    }
    forall later: string
      ensures LineAt(s + later, r.pos, r.text)
    {
      LineStays(s, later, r.pos, r.text);
    }
  }

  lemma NoFile(base: string, records: seq<string>)
    ensures StreamOk(None, "", base, records)
  {
  }

  /** At the moment a record is reported, with the position off by skew, the position is right
      exactly when the skew is zero. */
  lemma ReportExactIff(file: string, membuf: string, base: string, records: seq<string>, text: string, skew: nat)
    requires StreamOk(Some(file), membuf, base, records)
    ensures LineAt(base + Lines(records + [text]), |file| + skew + |membuf|, text) <==> skew == 0
  {
    AppendRecord(file, membuf, base, records, text);
    assert |base + Lines(records + [text])| == |file| + |membuf| + |text| + 1;
  }
}
