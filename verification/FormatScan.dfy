/** The loop that rewrites format strings, the buffer it writes into, and the header pattern. */
module FormatScan {
  import opened Bytes
  import opened FormatRewrite

  // ---------- The names met ----------

  /** The argument positions met while scanning the characters. */
  function ScanIds(s: string, named: seq<NamedArg>): seq<nat> {
    if s == "" || s == "{" then []
    else if s[0] != '{' then ScanIds(s[1..], named)
    else if IsNameStart(s[1]) then
      var n := NameLen(s[1..]);
      var id := Lookup(named, s[1..1 + n]);
      if id.None? then [] else [id.value] + ScanIds(s[1 + n..], named)
    else ScanIds(s[2..], named)
  }

  lemma {:induction false} ScanDigits(ds: string, rest: string, named: seq<NamedArg>)
    requires forall i :: 0 <= i < |ds| ==> IsDigit(ds[i])
    ensures ScanIds(ds + rest, named) == ScanIds(rest, named)
  {
    if ds == "" {
      assert ds + rest == rest;
    } else {
      assert (ds + rest)[1..] == ds[1..] + rest && (ds + rest)[0] == ds[0];
      ScanDigits(ds[1..], rest, named);
    }
  }

  lemma ScanNumber(s: string, named: seq<NamedArg>)
    requires |s| > 1 && s[0] == '{' && IsDigit(s[1])
    ensures ScanIds(s, named) == ScanIds(s[1 + DigitLen(s[1..])..], named)
  {
    var n := DigitLen(s[1..]);
    DigitsAhead(s);
    assert ScanIds(s, named) == ScanIds(s[2..], named);
    hide ScanIds, DigitLen;
    ScanDigits(s[1..1 + n][1..], s[1 + n..], named);
  }

  /** The first token, and how many characters it takes. */
  function HeadTok(s: string): Tok
    requires s != "" && s != "{"
  {
    if s[0] != '{' then Ch(s[0])
    else if s[1] == '{' then Esc
    else if IsNameStart(s[1]) then Field(Name(s[1..1 + NameLen(s[1..])]))
    else if IsDigit(s[1]) then Field(Num(ParseDec(s[1..1 + DigitLen(s[1..])])))
    else Field(Auto)
  }

  function HeadLen(s: string): (n: nat)
    requires s != "" && s != "{"
    ensures 1 <= n <= |s|
  {
    if s[0] != '{' then 1
    else if s[1] == '{' then 2
    else if IsNameStart(s[1]) then 1 + NameLen(s[1..])
    else if IsDigit(s[1]) then 1 + DigitLen(s[1..])
    else 1
  }

  lemma TokenizeStep(s: string)
    requires s != "" && s != "{"
    ensures Tokenize(s) == Cons(HeadTok(s), Tokenize(s[HeadLen(s)..]))
  {
    hide DigitLen, NameLen, ParseDec, Cons;
  }

  lemma ScanStep(s: string, named: seq<NamedArg>)
    requires s != "" && s != "{"
    ensures var t, rest := HeadTok(s), ScanIds(s[HeadLen(s)..], named);
      ScanIds(s, named) ==
        if !(t.Field? && t.id.Name?) then rest
        else if Lookup(named, t.id.s).None? then []
        else [Lookup(named, t.id.s).value] + rest
  {
    hide DigitLen, NameLen, ParseDec, Lookup;
    if s[0] == '{' && IsDigit(s[1]) {
      ScanNumber(s, named);
    } else if s[0] == '{' && s[1] != '{' && !IsNameStart(s[1]) {
      assert s[1..][1..] == s[2..];
    }
  }

  /** Scanning meets the names of the tokens. */
  lemma {:induction false} ScanIsTokens(s: string, named: seq<NamedArg>)
    requires Tokenize(s).Some? && Known(Tokenize(s).value, named)
    ensures ScanIds(s, named) == IdsOf(Tokenize(s).value, named)
    decreases |s|
  {
    if s != "" {
      TokenizeStep(s);
      ScanStep(s, named);
      hide Tokenize, ScanIds, HeadTok, HeadLen, Known, Lookup, IdsOf;
      var rest := s[HeadLen(s)..];
      IdsCons(HeadTok(s), Tokenize(rest).value, named);
      ScanIsTokens(rest, named);
    }
  }

  // ---------- The end of the string ----------

  /** The part of a string in front of the first NUL: the scan stops there, whatever the length. */
  function Cut(s: string): (t: string)
    ensures |t| <= |s| && t == s[..|t|] && '\0' !in t && (|t| < |s| ==> s[|t|] == '\0')
  {
    if s == "" || s[0] == '\0' then "" else [s[0]] + Cut(s[1..])
  }

  lemma {:induction false} CutWhole(s: string)
    requires '\0' !in s
    ensures Cut(s) == s
  {
    if s != "" {
      assert s == [s[0]] + s[1..];
      CutWhole(s[1..]);
    }
  }

  /** The character at p of a NUL-terminated string. */
  function At(s: string, p: nat): char {
    if p < |s| then s[p] else '\0'
  }

  lemma AtCut(s: string, p: nat)
    requires p <= |Cut(s)|
    ensures At(s, p) == '\0' <==> p == |Cut(s)|
    ensures p < |Cut(s)| ==> s[p] == At(s, p) == Cut(s)[p]
  {
  }

  lemma CutSlice(s: string, begin: nat, p: nat)
    requires begin <= p <= |Cut(s)|
    ensures s[begin..p] == Cut(s)[begin..p]
  {
    var t := Cut(s);
    hide Cut;
    assert t == s[..|t|];
    assert s[..|t|][begin..p] == s[begin..p];
  }

  lemma Copied(out: string, s: string, begin: nat, p: nat)
    requires begin <= p <= |s|
    ensures begin == p ==> out + s[begin..p] == out
    ensures p < |s| ==> out + s[begin..p + 1] == out + s[begin..p] + [s[p]]
  {
    if p < |s| {
      assert s[begin..p + 1] == s[begin..p] + [s[p]];
    }
  }

  /** One name: where it ends, and the argument it stands for. */
  method ScanName(s: string, start: nat, named: seq<NamedArg>) returns (p: nat, id: Option<nat>)
    requires start < |Cut(s)| && IsNameStart(s[start])
    ensures start < p <= |Cut(s)| && p == start + NameLen(Cut(s)[start..])
    ensures id == Lookup(named, Cut(s)[start..p])
  {
    hide Cut, Lookup;
    ghost var t := Cut(s);
    AtCut(s, start);
    p := start + 1;
    AtCut(s, p);
    while IsNameStart(At(s, p)) || IsDigit(At(s, p))
      invariant start < p <= |t|
      invariant start + NameLen(t[start..]) == p + NameLen(t[p..])
      decreases |t| - p
    {
      AtCut(s, p);
      assert t[p..][1..] == t[p + 1..];
      p := p + 1;
    }
    AtCut(s, p);
    assert NameLen(t[p..]) == 0;
    CutSlice(s, start, p);
    hide NameLen;
    NothingLooked(named, t[start..p]);
    id := None;
    var i := 0;
    while i < |named|
      invariant 0 <= i <= |named| && id.None?
      invariant Lookup(named, t[start..p]) == Lookup(named[i..], t[start..p])
    {
      LookupStep(named, i, t[start..p]);
      if named[i].name == s[start..p] {
        id := Some(named[i].id);
        break;
      }
      i := i + 1;
    }
  }

  lemma NothingLooked(named: seq<NamedArg>, name: string)
    ensures Lookup(named[|named|..], name) == None && named[0..] == named
  {
  }

  lemma LookupStep(named: seq<NamedArg>, i: nat, name: string)
    requires i < |named|
    ensures Lookup(named[i..], name)
            == if named[i].name == name then Some(named[i].id) else Lookup(named[i + 1..], name)
  {
    assert named[i..][1..] == named[i + 1..];
  }

  // ---------- The output buffer ----------

  /** How many characters the loop writes, to the end of the string or until it throws. */
  function Emitted(s: string, named: seq<NamedArg>, reorder: bool): nat {
    if s == "" then 0
    else if s[0] != '{' then 1 + Emitted(s[1..], named, reorder)
    else if |s| == 1 then 1
    else if IsNameStart(s[1]) then
      var n := NameLen(s[1..]);
      var id := Lookup(named, s[1..1 + n]);
      if id.None? then 1
      else 1 + (if reorder then 0 else |Decimal(id.value)|) + Emitted(s[1 + n..], named, reorder)
    else 2 + Emitted(s[2..], named, reorder)
  }

  /** By how much the names met are shorter than their numbers. */
  function Growth(s: string, named: seq<NamedArg>): int {
    if s == "" || s == "{" then 0
    else if s[0] != '{' then Growth(s[1..], named)
    else if IsNameStart(s[1]) then
      var n := NameLen(s[1..]);
      var id := Lookup(named, s[1..1 + n]);
      if id.None? then 0 else |Decimal(id.value)| - n + Growth(s[1 + n..], named)
    else Growth(s[2..], named)
  }

  /** Without an error the loop writes the rewritten string, longer or shorter by the growth of its
      names; in a header pattern, and whenever it throws, never more than the growth accounts for. */
  lemma {:induction false} EmittedIs(s: string, named: seq<NamedArg>, reorder: bool)
    ensures Rewrite(s, named, reorder).Some? ==> |Rewrite(s, named, reorder).value| == Emitted(s, named, reorder)
    ensures reorder ==> Emitted(s, named, reorder) <= |s|
    ensures !reorder && Rewrite(s, named, reorder).Some? ==> Emitted(s, named, reorder) == |s| + Growth(s, named)
    ensures !reorder ==> Emitted(s, named, reorder) <= |s| + Growth(s, named)
    decreases |s|
  {
    hide Decimal, Lookup, NameLen;
    if s == "" || s == "{" {
    } else if s[0] != '{' {
      EmittedIs(s[1..], named, reorder);
    } else if IsNameStart(s[1]) {
      NameIsLong(s);
      EmittedIs(s[1 + NameLen(s[1..])..], named, reorder);
    } else {
      EmittedIs(s[2..], named, reorder);
    }
  }

  lemma NameIsLong(s: string)
    requires |s| > 1 && IsNameStart(s[1])
    ensures 1 <= NameLen(s[1..]) < |s|
  {
  }

  /** The size of the buffer allocated for the rewritten string. */
  function Capacity(s: string, named: seq<NamedArg>): nat {
    |s| + 1 + |named| * 5
  }

  /** A rewriting by numbers stays inside its buffer if and only if the names grow by no more than the
      five characters allowed for each named argument, and one; it does not matter how often each is used. */
  lemma FitsIff(s: string, named: seq<NamedArg>)
    requires '\0' !in s && Rewrite(s, named, false).Some?
    ensures Emitted(Cut(s), named, false) <= Capacity(s, named) <==> Growth(s, named) <= |named| * 5 + 1
  {
    CutWhole(s);
    EmittedIs(s, named, false);
  }

  /** A header pattern always stays inside. */
  lemma HeaderFits(s: string, named: seq<NamedArg>)
    ensures Emitted(Cut(s), named, true) <= Capacity(s, named)
  {
    EmittedIs(Cut(s), named, true);
  }

  function Times(s: string, n: nat): string {
    if n == 0 then "" else s + Times(s, n - 1)
  }

  /** One named argument in the eleventh place, used n times, overruns the buffer from n == 7 on. */
  lemma {:induction false} OverrunExample(n: nat)
    ensures var s, named := Times("{a}", n), [NamedArg("a", 10)];
      && '\0' !in s && |s| == 3 * n && Rewrite(s, named, false).Some?
      && Emitted(Cut(s), named, false) == 4 * n
      && (Emitted(Cut(s), named, false) <= Capacity(s, named) <==> n < 7)
  {
    var s, named := Times("{a}", n), [NamedArg("a", 10)];
    RepeatedField(n, named);
    CutWhole(s);
    EmittedIs(s, named, false);
  }

  lemma {:induction false} RepeatedField(n: nat, named: seq<NamedArg>)
    requires named == [NamedArg("a", 10)]
    ensures var s := Times("{a}", n);
      && '\0' !in s && |s| == 3 * n && Rewrite(s, named, false).Some?
      && |Rewrite(s, named, false).value| == 4 * n
  {
    hide Rewrite;
    if n == 0 {
      ShortRewrite(named, false);
    } else {
      RepeatedField(n - 1, named);
      OneField(Times("{a}", n - 1), named);
    }
  }

  lemma OneField(rest: string, named: seq<NamedArg>)
    requires named == [NamedArg("a", 10)] && Rewrite(rest, named, false).Some?
    ensures var r := Rewrite("{a}" + rest, named, false);
      r.Some? && |r.value| == 4 + |Rewrite(rest, named, false).value|
  {
    hide Rewrite, Tokenize, Decimal, Lookup, Ends;
    EleventhArg(named, rest);
    NamedField("a", ['}'] + rest, named, false);
    Plain('}', rest, named, false);
    assert "{a}" + rest == "{" + "a" + (['}'] + rest);
  }

  lemma EleventhArg(named: seq<NamedArg>, rest: string)
    requires named == [NamedArg("a", 10)]
    ensures Lookup(named, "a") == Some(10) && |Decimal(10)| == 2 && Ends("a", ['}'] + rest)
  {
  }

  /** The eleventh argument's name becomes its number, in decimal. */
  lemma NumberExample()
    ensures Rewrite("{a}", [NamedArg("a", 10)], false) == Some("{10}")
  {
    var named := [NamedArg("a", 10)];
    assert Lookup(named, "a") == Some(10) && Decimal(10) == "10" && Ends("a", "}");
    hide Decimal, Lookup, Ends;
    NamedField("a", "}", named, false);
    Closed(named, false);
    hide Rewrite, Tokenize;
    assert "{" + "a" + "}" == "{a}" && "{" + "10" + "}" == "{10}";
  }

  // ---------- The loop ----------

  /** The scan has reached p: `done` is the rewritten part, and the table, to which `met` names have
      been assigned, lacks only the names still ahead. */
  ghost predicate Scanned(s: string, p: nat, named: seq<NamedArg>, reorder: bool, done: string,
                          met: nat, table: seq<nat>, before: seq<nat>)
  {
    && p <= |s| && |table| == |before|
    && Rewrite(s, named, reorder) == Prepend(done, Rewrite(s[p..], named, reorder))
    && Emitted(s, named, reorder) == |done| + Emitted(s[p..], named, reorder)
    && AllBelow(ScanIds(s, named), |before|) && AllBelow(ScanIds(s[p..], named), |before|)
    && if reorder then Assign(ScanIds(s, named), 0, before) == Assign(ScanIds(s[p..], named), met, table)
       else table == before
  }

  lemma ScanStart(s: string, named: seq<NamedArg>, reorder: bool, table: seq<nat>)
    requires forall k :: 0 <= k < |named| ==> named[k].id < |table|
    ensures Scanned(s, 0, named, reorder, "", 0, table, table)
  {
    assert s[0..] == s;
    PrependNothing(Rewrite(s, named, reorder));
    ScanBounded(s, named, |table|);
  }

  lemma ScanEnd(s: string, named: seq<NamedArg>, reorder: bool, done: string,
                met: nat, table: seq<nat>, before: seq<nat>)
    requires Scanned(s, |s|, named, reorder, done, met, table, before)
    ensures Rewrite(s, named, reorder) == Some(done) && Emitted(s, named, reorder) == |done|
    ensures AllBelow(ScanIds(s, named), |before|)
    ensures table == if reorder then Assign(ScanIds(s, named), 0, before) else before
  {
    assert s[|s|..] == "" && done + "" == done;
  }

  /** A character outside the opening of a field is copied. */
  lemma ScanPlain(s: string, p: nat, named: seq<NamedArg>, reorder: bool, done: string,
                  met: nat, table: seq<nat>, before: seq<nat>)
    requires Scanned(s, p, named, reorder, done, met, table, before) && p < |s| && s[p] != '{'
    ensures Scanned(s, p + 1, named, reorder, done + [s[p]], met, table, before)
  {
    assert s[p..][1..] == s[p + 1..];
    PrependTwice(done, [s[p]], Rewrite(s[p + 1..], named, reorder));
  }

  /** An opening brace and a character that starts no name are copied together. */
  lemma ScanOther(s: string, p: nat, named: seq<NamedArg>, reorder: bool, done: string,
                  met: nat, table: seq<nat>, before: seq<nat>)
    requires Scanned(s, p, named, reorder, done, met, table, before)
    requires p + 1 < |s| && s[p] == '{' && !IsNameStart(s[p + 1])
    ensures Scanned(s, p + 2, named, reorder, done + [s[p]] + [s[p + 1]], met, table, before)
  {
    assert s[p..][2..] == s[p + 2..];
    PrependTwice(done, [s[p], s[p + 1]], Rewrite(s[p + 2..], named, reorder));
    assert done + [s[p], s[p + 1]] == done + [s[p]] + [s[p + 1]];
  }

  /** The code throws here, and so does the rewriting. */
  lemma ScanFails(s: string, p: nat, end: nat, named: seq<NamedArg>, reorder: bool, done: string,
                  met: nat, table: seq<nat>, before: seq<nat>)
    requires Scanned(s, p, named, reorder, done, met, table, before) && p < |s| && s[p] == '{'
    requires p + 1 == |s| ||
      (p + 1 < end <= |s| && IsNameStart(s[p + 1]) && end == p + 1 + NameLen(s[p + 1..])
       && Lookup(named, s[p + 1..end]).None?)
    ensures Rewrite(s, named, reorder) == None && Emitted(s, named, reorder) == |done| + 1
  {
    if p + 1 == |s| {
      assert s[p..] == "{";
    } else {
      assert s[p..][1..] == s[p + 1..];
      assert s[p..][1..1 + NameLen(s[p + 1..])] == s[p + 1..end];
    }
  }

  /** A name is replaced by its number, or dropped and its argument assigned the next field. */
  lemma ScanNamed(s: string, p: nat, end: nat, named: seq<NamedArg>, reorder: bool, done: string,
                  met: nat, table: seq<nat>, before: seq<nat>, id: nat)
    requires Scanned(s, p, named, reorder, done, met, table, before)
    requires p + 1 < end <= |s| && s[p] == '{' && IsNameStart(s[p + 1]) && end == p + 1 + NameLen(s[p + 1..])
    requires Lookup(named, s[p + 1..end]) == Some(id)
    ensures id < |table|
    ensures reorder ==>
      Scanned(s, end, named, reorder, done + [s[p]], met + 1, table[id := met % 256], before)
    ensures !reorder ==> Scanned(s, end, named, reorder, done + [s[p]] + Decimal(id), met, table, before)
  {
    NameAhead(s, p, end, named, reorder, id);
    var head, rest := "{" + (if reorder then "" else Decimal(id)), ScanIds(s[end..], named);
    PrependTwice(done, head, Rewrite(s[end..], named, reorder));
    assert done + head == done + [s[p]] + if reorder then "" else Decimal(id);
    assert done + [s[p]] + "" == done + [s[p]];
    AssignStep(id, rest, met, table);
    hide Rewrite, ScanIds, Assign, Decimal, NameLen, Lookup;
  }

  lemma NameAhead(s: string, p: nat, end: nat, named: seq<NamedArg>, reorder: bool, id: nat)
    requires p + 1 < end <= |s| && s[p] == '{' && IsNameStart(s[p + 1]) && end == p + 1 + NameLen(s[p + 1..])
    requires Lookup(named, s[p + 1..end]) == Some(id)
    ensures Rewrite(s[p..], named, reorder)
            == Prepend("{" + (if reorder then "" else Decimal(id)), Rewrite(s[end..], named, reorder))
    ensures Emitted(s[p..], named, reorder)
            == 1 + (if reorder then 0 else |Decimal(id)|) + Emitted(s[end..], named, reorder)
    ensures ScanIds(s[p..], named) == [id] + ScanIds(s[end..], named)
  {
    hide Decimal;
    assert s[p..][1..] == s[p + 1..];
    var n := NameLen(s[p + 1..]);
    assert s[p..][1..1 + n] == s[p + 1..end] && s[p..][1 + n..] == s[end..];
  }

  lemma AssignStep(id: nat, rest: seq<nat>, met: nat, table: seq<nat>)
    requires AllBelow([id] + rest, |table|)
    ensures id < |table| && AllBelow(rest, |table|)
    ensures Assign([id] + rest, met, table) == Assign(rest, met + 1, table[id := met % 256])
  {
    assert ([id] + rest)[0] == id && ([id] + rest)[1..] == rest;
    forall k | 0 <= k < |rest|
      ensures rest[k] < |table|
    {
      assert ([id] + rest)[k + 1] == rest[k];
    }
  }

  /** What follows an opening brace: a name, whose number is appended or whose argument is assigned
      the next field, or a character that is copied. */
  method ReplaceField(s: string, begin: nat, named: seq<NamedArg>, reorder: bool, reorderIdx: array<nat>,
                      argIdx: nat, out: string, ghost done: string, ghost met: nat, ghost before: seq<nat>)
    returns (p: nat, nextIdx: nat, r: Option<string>, ghost met': nat)
    requires 0 < begin <= |Cut(s)| && s[begin - 1] == '{'
    requires out == done + ['{'] && argIdx == met % 256
    requires Scanned(Cut(s), begin - 1, named, reorder, done, met, reorderIdx[..], before)
    modifies reorderIdx
    ensures r.None? ==> Rewrite(Cut(s), named, reorder) == None && Emitted(Cut(s), named, reorder) == |out|
    ensures !reorder ==> reorderIdx[..] == old(reorderIdx[..])
    ensures r.Some? ==>
      && begin < p <= |Cut(s)| && nextIdx == met' % 256
      && Scanned(Cut(s), p, named, reorder, r.value, met', reorderIdx[..], before)
  {
    hide Rewrite, Assign, ScanIds, NameLen, Lookup, Scanned, Decimal, IsNameStart, Emitted, Cut;
    ghost var t := Cut(s);
    nextIdx, met' := argIdx, met;
    AtCut(s, begin);
    AtCut(s, begin - 1);
    var c := At(s, begin);
    p := begin + 1;
    if c == '\0' {
      ScanFails(t, begin - 1, |t|, named, reorder, done, met, reorderIdx[..], before);
      return p, nextIdx, None, met';
    }
    if !IsNameStart(c) {
      ScanOther(t, begin - 1, named, reorder, done, met, reorderIdx[..], before);
      return p, nextIdx, Some(out + [c]), met';
    }
    var id;
    p, id := ScanName(s, begin, named);
    if id.None? {
      ScanFails(t, begin - 1, p, named, reorder, done, met, reorderIdx[..], before);
      return p, nextIdx, None, met';
    }
    ScanNamed(t, begin - 1, p, named, reorder, done, met, reorderIdx[..], before, id.value);
    if reorder {
      reorderIdx[id.value] := argIdx;
      nextIdx, r, met' := (argIdx + 1) % 256, Some(out), met + 1;
    } else {
      r := Some(out + Decimal(id.value));
    }
  }

  /** The rewriting as the code does it: copy up to each brace, look at the character behind it,
      and replace a name. Without named arguments the string is returned as it is. `written` is how
      far the buffer has been filled at the end or when an error is thrown. */
  method UnNameFormat(s: string, named: seq<NamedArg>, reorder: bool, reorderIdx: array<nat>)
    returns (r: Option<string>, written: nat)
    requires forall k :: 0 <= k < |named| ==> named[k].id < reorderIdx.Length
    modifies reorderIdx
    ensures r == if named == [] then Some(s) else Rewrite(Cut(s), named, reorder)
    ensures written == if named == [] then 0 else Emitted(Cut(s), named, reorder)
    ensures !reorder || named == [] ==> reorderIdx[..] == old(reorderIdx[..])
    ensures reorder && named != [] && r.Some? ==>
      && AllBelow(ScanIds(Cut(s), named), reorderIdx.Length)
      && reorderIdx[..] == Assign(ScanIds(Cut(s), named), 0, old(reorderIdx[..]))
  {
    if named == [] {
      return Some(s), 0;
    }
    hide Rewrite, Assign, ScanIds, Scanned, AllBelow, Emitted, Cut, At;
    ghost var t := Cut(s);
    ghost var before := reorderIdx[..];
    ScanStart(t, named, reorder, before);
    var begin, p := 0, 0;
    var out := "";
    var argIdx := 0;
    ghost var met, done := 0, "";
    while true
      invariant 0 <= begin <= p <= |t| && argIdx == met % 256
      invariant done == out + s[begin..p]
      invariant Scanned(t, p, named, reorder, done, met, reorderIdx[..], before)
      invariant !reorder ==> reorderIdx[..] == before
      decreases |t| - p
    {
      AtCut(s, p);
      var c := At(s, p);
      p := p + 1;
      if c == '\0' {
        out := out + s[begin..p - 1];
        break;
      }
      if c != '{' {
        ScanPlain(t, p - 1, named, reorder, done, met, reorderIdx[..], before);
        Copied(out, s, begin, p - 1);
        done := done + [c];
        continue;
      }
      Copied(out, s, begin, p - 1);
      out := out + s[begin..p];
      var field;
      p, argIdx, field, met := ReplaceField(s, p, named, reorder, reorderIdx, argIdx, out, done, met, before);
      if field.None? {
        return None, |out|;
      }
      out := field.value;
      Copied(out, s, p, p);
      begin, done := p, out;
    }
    ScanEnd(t, named, reorder, out, met, reorderIdx[..], before);
    r, written := Some(out), |out|;
  }

  lemma {:induction false} ScanBounded(s: string, named: seq<NamedArg>, n: nat)
    requires forall k :: 0 <= k < |named| ==> named[k].id < n
    ensures AllBelow(ScanIds(s, named), n)
    decreases |s|
  {
    if s == "" || s == "{" {
    } else if s[0] != '{' {
      ScanBounded(s[1..], named, n);
    } else if IsNameStart(s[1]) {
      var m := NameLen(s[1..]);
      LookupBounded(named, s[1..1 + m], n);
      ScanBounded(s[1 + m..], named, n);
    } else {
      ScanBounded(s[2..], named, n);
    }
  }

  lemma {:induction false} LookupBounded(named: seq<NamedArg>, name: string, n: nat)
    requires forall k :: 0 <= k < |named| ==> named[k].id < n
    ensures Lookup(named, name).Some? ==> Lookup(named, name).value < n
  {
    if named != [] {
      LookupBounded(named[1..], name, n);
    }
  }

  // ---------- The header pattern ----------

  /** All the header's arguments are named, in order. */
  function HeaderArgs(names: seq<string>): seq<NamedArg> {
    seq(|names|, i requires 0 <= i < |names| => NamedArg(names[i], i))
  }

  /** The named ones among a call's arguments, each with its position among all of them. */
  function StoreNamedArgs(args: seq<Option<string>>, idx: nat): seq<NamedArg> {
    if args == [] then []
    else if args[0].Some? then [NamedArg(args[0].value, idx)] + StoreNamedArgs(args[1..], idx + 1)
    else StoreNamedArgs(args[1..], idx + 1)
  }

  /** A name stands for the first argument that has it. */
  lemma {:induction false} StoredAt(args: seq<Option<string>>, idx: nat, k: nat)
    requires k < |args| && args[k].Some? && forall j :: 0 <= j < k ==> args[j] != args[k]
    ensures Lookup(StoreNamedArgs(args, idx), args[k].value) == Some(idx + k)
    decreases k
  {
    if k > 0 {
      StoredAt(args[1..], idx + 1, k - 1);
    }
  }

  /** A name that no argument has stands for none. */
  lemma {:induction false} NotStored(args: seq<Option<string>>, idx: nat, name: string)
    requires Some(name) !in args
    ensures Lookup(StoreNamedArgs(args, idx), name) == None
    decreases |args|
  {
    if args != [] {
      assert args[0] in args && forall a :: a in args[1..] ==> a in args;
      NotStored(args[1..], idx + 1, name);
    }
  }

  lemma {:induction false} AllStored(args: seq<Option<string>>, idx: nat)
    requires forall k :: 0 <= k < |args| ==> args[k].Some?
    ensures |StoreNamedArgs(args, idx)| == |args|
    ensures forall k :: 0 <= k < |args| ==> StoreNamedArgs(args, idx)[k] == NamedArg(args[k].value, idx + k)
    decreases |args|
  {
    if args != [] {
      AllStored(args[1..], idx + 1);
      forall k | 0 <= k < |args|
        ensures StoreNamedArgs(args, idx)[k] == NamedArg(args[k].value, idx + k)
      {
        assert k > 0 ==> args[k] == args[1..][k - 1];
      }
    }
  }

  /** The header's arguments are all named. */
  lemma HeaderArgsStored(args: seq<Option<string>>, names: seq<string>)
    requires |args| == |names| && forall k :: 0 <= k < |args| ==> args[k] == Some(names[k])
    ensures StoreNamedArgs(args, 0) == HeaderArgs(names)
  {
    AllStored(args, 0);
    hide StoreNamedArgs;
  }

  ghost predicate Different(names: seq<string>) {
    forall j, k :: 0 <= j < k < |names| ==> names[j] != names[k]
  }

  lemma {:induction false} LookupFrom(named: seq<NamedArg>, k: nat)
    requires k < |named| && forall j :: 0 <= j < k ==> named[j].name != named[k].name
    ensures Lookup(named, named[k].name) == Some(named[k].id)
  {
    if k > 0 {
      LookupFrom(named[1..], k - 1);
    }
  }

  /** Among different names each is found in its own place. */
  lemma HeaderLookup(names: seq<string>, k: nat)
    requires Different(names) && k < |names|
    ensures Lookup(HeaderArgs(names), names[k]) == Some(k)
  {
    LookupFrom(HeaderArgs(names), k);
  }

  lemma {:induction false} LookupFinds(named: seq<NamedArg>, name: string)
    ensures Lookup(named, name).Some? ==>
      exists k :: 0 <= k < |named| && named[k].name == name && Lookup(named, name) == Some(named[k].id)
  {
    if named != [] && named[0].name != name {
      LookupFinds(named[1..], name);
      if Lookup(named, name).Some? {
        var k :| 0 <= k < |named[1..]| && named[1..][k].name == name && Lookup(named, name) == Some(named[1..][k].id);
        assert named[k + 1].name == name;
      }
    }
  }

  lemma {:induction false} NamesAndIds(ts: seq<Tok>, named: seq<NamedArg>)
    requires Known(ts, named)
    ensures |Names(ts)| == |IdsOf(ts, named)|
    ensures forall j :: 0 <= j < |Names(ts)| ==> Lookup(named, Names(ts)[j]) == Some(IdsOf(ts, named)[j])
    decreases |ts|
  {
    if ts != [] {
      var t, rest := ts[0], ts[1..];
      assert [t] + rest == ts;
      IdsCons(t, rest, named);
      hide Known, IdsOf, Lookup;
      NamesAndIds(rest, named);
    }
  }

  /** The names a pattern uses, and the argument each of them is. */
  lemma FieldsAre(pattern: string, names: seq<string>)
    requires Rewrite(pattern, HeaderArgs(names), true).Some? && Different(names)
    ensures Tokenize(pattern).Some?
    ensures var ids := ScanIds(pattern, HeaderArgs(names)); var fields := Names(Tokenize(pattern).value);
      && |fields| == |ids|
      && forall j :: 0 <= j < |ids| ==> ids[j] < |names| && names[ids[j]] == fields[j]
  {
    var named := HeaderArgs(names);
    RewriteIsSound(pattern, named, true);
    assert Tokenize(pattern).Some? && Known(Tokenize(pattern).value, named);
    hide Tokenize, Rewrite, Known, ScanIds, Names;
    ScanIsTokens(pattern, named);
    NamesAndIds(Tokenize(pattern).value, named);
    var ids, fields := ScanIds(pattern, named), Names(Tokenize(pattern).value);
    forall j | 0 <= j < |ids|
      ensures ids[j] < |names| && names[ids[j]] == fields[j]
    {
      LookupFinds(named, fields[j]);
    }
  }

  /** What a slot of the argument table holds: the value of the name in its field, if the name is used once;
      in the last of 25 fields only if no later name is unused. */
  ghost predicate SlotsHold<V>(fields: seq<string>, names: seq<string>, values: seq<V>, args: seq<V>)
    requires |names| == |values| && |fields| <= |args|
  {
    forall j, k ::
      && 0 <= j < |fields| && 0 <= k < |names| && fields[j] == names[k]
      && (forall i :: 0 <= i < |fields| && i != j ==> fields[i] != names[k])
      && (j == 24 ==> forall y :: k < y < |names| ==> names[y] in fields)
      ==> args[j] == values[k]
  }

  lemma SlotsAre<V>(ids: seq<nat>, fields: seq<string>, names: seq<string>, values: seq<V>, stale: seq<V>)
    requires Different(names) && |names| == |values| == PATTERN_ARGS <= |stale| && |fields| == |ids| <= PATTERN_ARGS
    requires forall j :: 0 <= j < |ids| ==> ids[j] < |names| && names[ids[j]] == fields[j]
    ensures AllBelow(ids, PATTERN_ARGS)
    ensures SlotsHold(fields, names, values, SetArgs(0, Assign(ids, 0, EmptyTable()), values, stale))
  {
    hide SetArgs, Assign;
    var args := SetArgs(0, Assign(ids, 0, EmptyTable()), values, stale);
    forall j, k |
      && 0 <= j < |fields| && 0 <= k < |names| && fields[j] == names[k]
      && (forall i :: 0 <= i < |fields| && i != j ==> fields[i] != names[k])
      && (j == 24 ==> forall y :: k < y < |names| ==> names[y] in fields)
      ensures args[j] == values[k]
    {
      assert ids[j] == k;
      forall i | 0 <= i < |ids| && i != j
        ensures ids[i] != ids[j]
      {
        assert fields[i] != names[k];
      }
      if j == 24 {
        forall y | k < y < PATTERN_ARGS
          ensures y in ids
        {
          var i :| 0 <= i < |fields| && fields[i] == names[y];
          assert ids[i] == y;
        }
      }
      OnceUsedFieldGets(ids, values, stale, j, k);
    }
  }

  lemma SetArgsLast<V>(i: nat, table: seq<nat>, values: seq<V>, args: seq<V>)
    requires |values| == |table| && i < |table|
    ensures SetArgs(i, table, values, args)
            == SetArgs(i + 1, table, values, if table[i] < |args| then args[table[i] := values[i]] else args)
  {
  }

  lemma SetArgsDone<V>(table: seq<nat>, values: seq<V>, args: seq<V>)
    requires |values| == |table|
    ensures SetArgs(|table|, table, values, args) == args
  {
  }

  /** Rewrites the pattern and stores each value where the table says. A store beyond the arguments is
      recorded in `outside`: the code makes it all the same. */
  method SetHeaderPattern<V>(pattern: string, names: seq<string>, values: seq<V>,
                             reorderIdx: array<nat>, args: array<V>) returns (header: Option<string>, outside: bool)
    requires |names| == |values| == reorderIdx.Length == PATTERN_ARGS <= args.Length
    requires reorderIdx as object != args
    modifies reorderIdx, args
    ensures header == Rewrite(Cut(pattern), HeaderArgs(names), true)
    ensures header.None? ==> !outside && args[..] == old(args[..])
    ensures header.Some? ==>
      var ids := ScanIds(Cut(pattern), HeaderArgs(names));
      && AllBelow(ids, PATTERN_ARGS)
      && reorderIdx[..] == Assign(ids, 0, EmptyTable())
      && args[..] == SetArgs(0, reorderIdx[..], values, old(args[..]))
      && (outside <==> exists k :: 0 <= k < PATTERN_ARGS && reorderIdx[..][k] >= args.Length)
    ensures header.Some? && Different(names) ==>
      && Tokenize(Cut(pattern)).Some?
      && var fields := Names(Tokenize(Cut(pattern)).value);
         |fields| <= PATTERN_ARGS ==> !outside && SlotsHold(fields, names, values, args[..])
    ensures Different(names) && PlainPattern(Cut(pattern), names) ==>
      header.Some? && !outside && HeaderPrints(header.value, Cut(pattern), names, values, args[..])
  {
    hide Rewrite, Assign, ScanIds, SetArgs, Emitted, Cut, Tokenize, Names, PlainPattern, HeaderPrints, SlotsHold;
    outside := false;
    if Different(names) && PlainPattern(Cut(pattern), names) {
      HeaderPrintsValues(Cut(pattern), names, values, args[..]);
    }
    for i := 0 to PATTERN_ARGS
      invariant forall k :: 0 <= k < i ==> reorderIdx[k] == PATTERN_ARGS - 1
      invariant args[..] == old(args[..])
    {
      reorderIdx[i] := PATTERN_ARGS - 1;
    }
    assert reorderIdx[..] == EmptyTable();
    var rewritten, _ := UnNameFormat(pattern, HeaderArgs(names), true, reorderIdx);
    header := rewritten;
    if header.None? {
      return;
    }
    ghost var table := reorderIdx[..];
    for i := 0 to PATTERN_ARGS
      invariant reorderIdx[..] == table
      invariant SetArgs(0, table, values, old(args[..])) == SetArgs(i, table, values, args[..])
      invariant outside <==> exists k :: 0 <= k < i && table[k] >= args.Length
    {
      SetArgsLast(i, table, values, args[..]);
      assert reorderIdx[i] == table[i];
      if reorderIdx[i] < args.Length {
        args[reorderIdx[i]] := values[i];
      } else {
        outside := true;
      }
    }
    SetArgsDone(table, values, args[..]);
    if Different(names) {
      SlotsFilled(Cut(pattern), names, values, old(args[..]));
    }
  }

  lemma SlotsFilled<V>(pattern: string, names: seq<string>, values: seq<V>, stale: seq<V>)
    requires Rewrite(pattern, HeaderArgs(names), true).Some? && Different(names)
    requires |names| == |values| == PATTERN_ARGS <= |stale|
    requires AllBelow(ScanIds(pattern, HeaderArgs(names)), PATTERN_ARGS)
    ensures Tokenize(pattern).Some?
    ensures var fields := Names(Tokenize(pattern).value);
      var table := Assign(ScanIds(pattern, HeaderArgs(names)), 0, EmptyTable());
      |fields| <= PATTERN_ARGS ==>
        && (forall k :: 0 <= k < PATTERN_ARGS ==> table[k] < PATTERN_ARGS)
        && SlotsHold(fields, names, values, SetArgs(0, table, values, stale))
  {
    hide Tokenize, Rewrite, ScanIds, Names, Assign, SetArgs, SlotsHold;
    FieldsAre(pattern, names);
    var ids, fields := ScanIds(pattern, HeaderArgs(names)), Names(Tokenize(pattern).value);
    if |fields| <= PATTERN_ARGS {
      TableBelow(ids);
      SlotsAre(ids, fields, names, values, stale);
    }
  }

  // ---------- What a header prints ----------

  /** A header pattern as documented: every field is one of the names, each used at most once, and is closed
      or has a format specification. */
  ghost predicate PlainPattern(pattern: string, names: seq<string>) {
    && Tokenize(pattern).Some?
    && var ts := Tokenize(pattern).value;
       && (forall t :: t in ts && t.Field? ==> t.id.Name? && t.id.s in names)
       && Delimited(ts) && Different(Names(ts))
  }

  /** Characters as they are, an escaped brace as a brace, and for each name its value. */
  ghost predicate PrintsValues<V>(ts: seq<Tok>, names: seq<string>, values: seq<V>, out: seq<Printed<V>>)
    requires |names| == |values|
  {
    && |out| == |ts|
    && forall i :: 0 <= i < |ts| ==>
         && (ts[i].Ch? ==> out[i] == C(ts[i].c))
         && (ts[i].Esc? ==> out[i] == C('{'))
         && (ts[i].Field? ==> ts[i].id.Name? && ts[i].id.s in names)
         && (ts[i].Field? ==> forall k :: 0 <= k < |names| && names[k] == ts[i].id.s ==> out[i] == V(values[k]))
  }

  lemma PrintsCons<V>(t: Tok, rest: seq<Tok>, names: seq<string>, values: seq<V>, x: Printed<V>, out: seq<Printed<V>>)
    requires |names| == |values| && PrintsValues(rest, names, values, out)
    requires (t.Ch? ==> x == C(t.c)) && (t.Esc? ==> x == C('{'))
    requires t.Field? ==> t.id.Name? && t.id.s in names
    requires t.Field? ==> forall k :: 0 <= k < |names| && names[k] == t.id.s ==> x == V(values[k])
    ensures PrintsValues([t] + rest, names, values, [x] + out)
  {
  }

  lemma EvalPiece<V>(p: Piece, ps: seq<Piece>, args: seq<V>)
    requires Eval(ps, args).Some? && (p.Arg? ==> p.k < |args|)
    ensures Eval([p] + ps, args) == Some([if p.Lit? then C(p.c) else V(args[p.k])] + Eval(ps, args).value)
  {
    assert ([p] + ps)[1..] == ps;
  }

  /** By name, a pattern prints its values. */
  lemma {:induction false} ByNamePrints<V>(ts: seq<Tok>, names: seq<string>, values: seq<V>)
    requires Different(names) && |names| == |values|
    requires forall t :: t in ts && t.Field? ==> t.id.Name? && t.id.s in names
    ensures Print(ts, HeaderArgs(names), 0, Unset).Some?
    ensures var e := Eval(Print(ts, HeaderArgs(names), 0, Unset).value, values);
      e.Some? && PrintsValues(ts, names, values, e.value)
    decreases |ts|
  {
    if ts != [] {
      var named := HeaderArgs(names);
      var t, rest := ts[0], ts[1..];
      assert ts == [t] + rest && t in ts;
      hide Print, Eval, Lookup, HeaderArgs, PrintsValues;
      ByNamePrints(rest, names, values);
      var ps := Print(rest, named, 0, Unset).value;
      var out := Eval(ps, values).value;
      if t.Field? {
        var k :| 0 <= k < |names| && names[k] == t.id.s;
        HeaderLookup(names, k);
        PrintName(ts, named, 0, Unset);
        EvalPiece(Arg(k), ps, values);
        PrintsCons(t, rest, names, values, V(values[k]), out);
      } else {
        var c := if t.Ch? then t.c else '{';
        PrintText(ts, named, 0, Unset);
        EvalPiece(Lit(c), ps, values);
        PrintsCons(t, rest, names, values, C(c), out);
      }
    } else {
      assert Print(ts, HeaderArgs(names), 0, Unset) == Some([]);
    }
  }

  /** Numbering and names apart, printing does not look at the named arguments. */
  lemma {:induction false} PrintWithoutNames(us: seq<Tok>, named: seq<NamedArg>, next: nat, mode: Mode)
    requires !HasName(us)
    ensures Print(us, named, next, mode) == Print(us, [], next, mode)
    decreases |us|
  {
    if us != [] {
      HasCons(us);
      hide HasName;
      var rest := us[1..];
      match us[0]
      case Ch(_) => PrintWithoutNames(rest, named, next, mode);
      case Esc => PrintWithoutNames(rest, named, next, mode);
      case Field(Auto) => PrintWithoutNames(rest, named, next + 1, Automatic);
      case Field(Num(_)) => PrintWithoutNames(rest, named, next, Manual);
      case Field(Name(_)) =>
    }
  }

  lemma {:induction false} NoNamesLeft(ts: seq<Tok>, named: seq<NamedArg>)
    requires Known(ts, named)
    ensures !HasName(ReplaceAll(ts, named, true))
    decreases |ts|
  {
    if ts != [] {
      var t, rest := ts[0], ts[1..];
      assert ts == [t] + rest;
      KnownCons(t, rest, named);
      ReplaceCons(ts, named, true);
      NoNamesLeft(rest, named);
      HasCons(ReplaceAll(ts, named, true));
      hide ReplaceAll, HasName, Known;
    }
  }

  /** The rewritten header, printed from the argument table, prints the values of the pattern's names. */
  ghost predicate HeaderPrints<V>(header: string, pattern: string, names: seq<string>, values: seq<V>, args: seq<V>)
    requires |names| == |values|
  {
    && Tokenize(pattern).Some? && Tokenize(header).Some?
    && var ps := Print(Tokenize(header).value, [], 0, Unset);
       ps.Some? && Eval(ps.value, args).Some?
       && PrintsValues(Tokenize(pattern).value, names, values, Eval(ps.value, args).value)
  }

  lemma {:induction false} NamesMember(ts: seq<Tok>, t: Tok)
    requires t in ts && t.Field? && t.id.Name?
    ensures t.id.s in Names(ts)
  {
    if ts[0] != t {
      assert t in ts[1..];
      NamesMember(ts[1..], t);
    }
  }

  /** A pattern as documented is one that may be reordered. */
  lemma PlainIsHeader(pattern: string, names: seq<string>)
    requires PlainPattern(pattern, names) && Different(names) && |names| == PATTERN_ARGS
    ensures HeaderPattern(pattern, HeaderArgs(names))
    ensures NoDuplicates(IdsOf(Tokenize(pattern).value, HeaderArgs(names)))
    ensures Known(Tokenize(pattern).value, HeaderArgs(names))
  {
    hide Tokenize, Delimited;
    var ts, named := Tokenize(pattern).value, HeaderArgs(names);
    forall t | t in ts && t.Field? && t.id.Name?
      ensures Lookup(named, t.id.s).Some?
    {
      var k :| 0 <= k < |names| && names[k] == t.id.s;
      HeaderLookup(names, k);
    }
    NamesAndIds(ts, named);
    hide IdsOf, Names;
    var ids, fields := IdsOf(ts, named), Names(ts);
    forall j | 0 <= j < |ids|
      ensures ids[j] < PATTERN_ARGS && names[ids[j]] == fields[j]
    {
      LookupFinds(named, fields[j]);
    }
    Pigeonhole(ids, PATTERN_ARGS);
  }

  /** Altogether: a header pattern as documented prints, for each field, the value of its name, and for all
      else what it says. */
  lemma HeaderPrintsValues<V>(pattern: string, names: seq<string>, values: seq<V>, stale: seq<V>)
    requires PlainPattern(pattern, names) && Different(names)
    requires |names| == |values| == PATTERN_ARGS <= |stale|
    ensures Rewrite(pattern, HeaderArgs(names), true).Some?
    ensures AllBelow(ScanIds(pattern, HeaderArgs(names)), PATTERN_ARGS)
    ensures var table := Assign(ScanIds(pattern, HeaderArgs(names)), 0, EmptyTable());
      && (forall k :: 0 <= k < PATTERN_ARGS ==> table[k] < PATTERN_ARGS)
      && HeaderPrints(Rewrite(pattern, HeaderArgs(names), true).value, pattern, names, values,
                      SetArgs(0, table, values, stale))
  {
    hide Tokenize, Rewrite, Delimited, IdsOf, Names, Print, Eval, SetArgs, Assign, ScanIds, Known, ReplaceAll;
    var named := HeaderArgs(names);
    var ts := Tokenize(pattern).value;
    PlainIsHeader(pattern, names);
    ReorderingPreservesPrint(pattern, named, values, stale);
    ScanIsTokens(pattern, named);
    ByNamePrints(ts, names, values);
    RewriteIsSound(pattern, named, true);
    NoNamesLeft(ts, named);
    PrintWithoutNames(ReplaceAll(ts, named, true), named, 0, Unset);
  }

  // ---------- The header as it is set up ----------

  /** The names of the header's arguments, in their order. */
  const HEADER_NAMES: seq<string> := [
    "a", "b", "C", "Y", "m", "d", "t", "F", "f", "e", "S", "M", "H", "l", "s", "g", "Ymd",
    "HMS", "HMSe", "HMSf", "HMSF", "YmdHMS", "YmdHMSe", "YmdHMSf", "YmdHMSF"]

  const DEFAULT_PATTERN: string := "{HMSf} {s:<16} {l}[{t:<6}] "

  /** Every field is one of the names and is closed or has a format specification. */
  ghost predicate PlainFields(s: string, names: seq<string>) {
    && Tokenize(s).Some?
    && (forall t :: t in Tokenize(s).value && t.Field? ==> t.id.Name? && t.id.s in names)
    && Delimited(Tokenize(s).value)
  }

  function NamesOf(s: string): seq<string>
    requires Tokenize(s).Some?
  {
    Names(Tokenize(s).value)
  }

  lemma TextAhead(c: char, rest: string, names: seq<string>, named: seq<NamedArg>)
    requires c != '{' && PlainFields(rest, names)
    ensures PlainFields([c] + rest, names) && NamesOf([c] + rest) == NamesOf(rest)
    ensures Tokenize([c] + rest).value != [] && Tokenize([c] + rest).value[0].Ch?
    ensures Rewrite([c] + rest, named, true) == Prepend([c], Rewrite(rest, named, true))
  {
    Plain(c, rest, named, true);
    var ts := Tokenize(rest).value;
    hide Tokenize, Rewrite;
    assert ([Ch(c)] + ts)[1..] == ts && [] + Names(ts) == Names(ts);
  }

  /** Text in front of a pattern. */
  lemma {:induction false} TextsAhead(text: string, rest: string, names: seq<string>, named: seq<NamedArg>)
    requires '{' !in text && PlainFields(rest, names)
    ensures PlainFields(text + rest, names) && NamesOf(text + rest) == NamesOf(rest)
    ensures text != "" ==> Tokenize(text + rest).value != [] && Tokenize(text + rest).value[0].Ch?
    ensures Rewrite(text + rest, named, true) == Prepend(text, Rewrite(rest, named, true))
    decreases |text|
  {
    hide Tokenize, Rewrite, PlainFields, NamesOf, Prepend;
    if text == "" {
      assert text + rest == rest;
      PrependNothing(Rewrite(rest, named, true));
    } else {
      TextsAhead(text[1..], rest, names, named);
      TextAhead(text[0], text[1..] + rest, names, named);
      assert [text[0]] + (text[1..] + rest) == text + rest && [text[0]] + text[1..] == text;
      PrependTwice([text[0]], text[1..], Rewrite(rest, named, true));
    }
  }

  /** A field and the text up to the next one. */
  lemma FieldAhead(name: string, text: string, rest: string, names: seq<string>, named: seq<NamedArg>)
    requires '{' !in text && text != "" && Ends(name, text) && PlainFields(rest, names)
    requires name in names && Lookup(named, name).Some?
    ensures var s := "{" + name + (text + rest);
      && PlainFields(s, names) && NamesOf(s) == [name] + NamesOf(rest)
      && Rewrite(s, named, true) == Prepend("{" + text, Rewrite(rest, named, true))
  {
    TextsAhead(text, rest, names, named);
    var o := text + rest;
    assert o[0] == text[0];
    NamedField(name, o, named, true);
    var ts := Tokenize(o).value;
    var t := Field(Name(name));
    hide Tokenize, Rewrite, Lookup, Ends;
    PrependTwice("{" + "", text, Rewrite(rest, named, true));
    assert "{" + "" == "{";
    DelimitedCons(t, ts);
    assert ([t] + ts)[1..] == ts && ([t] + ts)[0] == t;
  }

  lemma NothingAhead(names: seq<string>, named: seq<NamedArg>)
    ensures PlainFields("", names) && NamesOf("") == [] && Rewrite("", named, true) == Some("")
  {
  }

  const HEADER_LETTERS: string := "abCYmdtFfeSMHlsg"

  lemma LettersDiffer()
    ensures |HEADER_LETTERS| == 16
    ensures forall j, k :: 0 <= j < k < 16 ==> HEADER_LETTERS[j] != HEADER_LETTERS[k]
  {
  }

  lemma ShortHeaderNames()
    ensures |HEADER_NAMES| == 25
    ensures forall k :: 0 <= k < 16 ==> HEADER_NAMES[k] == [HEADER_LETTERS[k]]
    ensures forall k :: 16 <= k < 25 ==> |HEADER_NAMES[k]| > 1
  {
  }

  lemma LongHeaderNames()
    ensures |HEADER_NAMES| == 25
    ensures forall j, k :: 16 <= j < k < 25 ==> HEADER_NAMES[j] != HEADER_NAMES[k]
  {
    var n := HEADER_NAMES;
    assert |n[16]| == |n[17]| == 3 && n[16][0] != n[17][0];
    assert |n[18]| == |n[19]| == |n[20]| == 4 && |n[21]| == 6 && |n[22]| == |n[23]| == |n[24]| == 7;
    assert n[18][3] == n[22][6] == 'e' && n[19][3] == n[23][6] == 'f' && n[20][3] == n[24][6] == 'F';
  }

  lemma HeaderNamesDiffer()
    ensures Different(HEADER_NAMES) && |HEADER_NAMES| == PATTERN_ARGS == 25
  {
    LettersDiffer();
    ShortHeaderNames();
    LongHeaderNames();
    hide HEADER_NAMES, HEADER_LETTERS;
    forall j, k | 0 <= j < k < 25
      ensures HEADER_NAMES[j] != HEADER_NAMES[k]
    {
      if k < 16 {
        assert [HEADER_LETTERS[j]][0] != [HEADER_LETTERS[k]][0];
      }
    }
  }

  lemma DefaultNames()
    ensures Ends("HMSf", "} ") && Ends("s", ":<16} ") && Ends("l", "}[") && Ends("t", ":<6}] ")
    ensures HEADER_NAMES[19] == "HMSf" && HEADER_NAMES[14] == "s" && HEADER_NAMES[13] == "l" && HEADER_NAMES[6] == "t"
  {
  }

  /** The default pattern names the time, the base of the location, the level and the thread's name, which
      are arguments 19, 14, 13 and 6, and is rewritten as it should be. */
  lemma DefaultHeader()
    ensures PlainPattern(DEFAULT_PATTERN, HEADER_NAMES) && NamesOf(DEFAULT_PATTERN) == ["HMSf", "s", "l", "t"]
    ensures Rewrite(DEFAULT_PATTERN, HeaderArgs(HEADER_NAMES), true) == Some("{} {:<16} {}[{:<6}] ")
    ensures HEADER_NAMES[19] == "HMSf" && HEADER_NAMES[14] == "s" && HEADER_NAMES[13] == "l" && HEADER_NAMES[6] == "t"
  {
    hide *;
    var names, named := HEADER_NAMES, HeaderArgs(HEADER_NAMES);
    DefaultNames();
    HeaderNamesDiffer();
    HeaderLookup(names, 19);
    HeaderLookup(names, 14);
    HeaderLookup(names, 13);
    HeaderLookup(names, 6);
    NothingAhead(names, named);
    var s4 := "{" + "t" + (":<6}] " + "");
    FieldAhead("t", ":<6}] ", "", names, named);
    var s3 := "{" + "l" + ("}[" + s4);
    FieldAhead("l", "}[", s4, names, named);
    var s2 := "{" + "s" + (":<16} " + s3);
    FieldAhead("s", ":<16} ", s3, names, named);
    var s1 := "{" + "HMSf" + ("} " + s2);
    FieldAhead("HMSf", "} ", s2, names, named);
    DefaultText();
    Prepended("{:<6}] ", "");
    Prepended("{}[", "{:<6}] ");
    Prepended("{:<16} ", "{}[{:<6}] ");
    Prepended("{} ", "{:<16} {}[{:<6}] ");
    DefaultIsPlain(DEFAULT_PATTERN, names);
  }

  lemma Prepended(a: string, b: string)
    ensures Prepend(a, Some(b)) == Some(a + b)
  {
  }

  lemma DefaultText()
    ensures "{" + "HMSf" + ("} " + ("{" + "s" + (":<16} " + ("{" + "l" + ("}[" + ("{" + "t" + (":<6}] " + "")))))))
            == DEFAULT_PATTERN
    ensures "{" + ":<6}] " == "{:<6}] " && "{" + "}[" == "{}[" && "{" + ":<16} " == "{:<16} " && "{" + "} " == "{} "
    ensures "{:<6}] " + "" == "{:<6}] " && "{}[" + "{:<6}] " == "{}[{:<6}] "
    ensures "{:<16} " + "{}[{:<6}] " == "{:<16} {}[{:<6}] "
    ensures "{} " + "{:<16} {}[{:<6}] " == "{} {:<16} {}[{:<6}] "
  {
  }

  lemma DefaultIsPlain(s: string, names: seq<string>)
    requires PlainFields(s, names) && NamesOf(s) == ["HMSf"] + (["s"] + (["l"] + (["t"] + [])))
    ensures PlainPattern(s, names) && NamesOf(s) == ["HMSf", "s", "l", "t"]
  {
    hide Tokenize, Delimited, Names;
    assert ["HMSf"] + (["s"] + (["l"] + (["t"] + []))) == ["HMSf", "s", "l", "t"];
  }
}
