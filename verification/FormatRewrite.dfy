/** Format strings with named fields, `{name}`, and their rewriting to numbered or automatic fields. */
module FormatRewrite {
  import opened Bytes

  predicate IsNameStart(c: char) {
    'a' <= c <= 'z' || 'A' <= c <= 'Z' || c == '_'
  }

  predicate IsDigit(c: char) {
    '0' <= c <= '9'
  }

  predicate IsNameChar(c: char) {
    IsNameStart(c) || IsDigit(c)
  }

  // ---------- Decimal numbers ----------

  function Digit(d: nat): (c: char)
    requires d < 10
    ensures IsDigit(c)
  {
    '0' + d as char
  }

  function Decimal(n: nat): (s: string)
    ensures s != "" && forall i :: 0 <= i < |s| ==> IsDigit(s[i])
  {
    if n < 10 then [Digit(n)] else Decimal(n / 10) + [Digit(n % 10)]
  }

  function ParseDec(s: string): nat
    requires forall i :: 0 <= i < |s| ==> IsDigit(s[i])
  {
    if s == "" then 0
    else
      var last := |s| - 1;
      assert IsDigit(s[last]);
      10 * ParseDec(s[..last]) + (s[last] as int - '0' as int)
  }

  lemma {:induction false} ParseDecimal(n: nat)
    ensures ParseDec(Decimal(n)) == n
  {
    if n < 10 {
      assert Decimal(n)[..0] == "";
    } else {
      ParseDecimal(n / 10);
      assert Decimal(n)[..|Decimal(n)| - 1] == Decimal(n / 10);
    }
  }

  // ---------- What a format string says ----------

  /** The argument a field asks for: the next one, one by number, or one by name. */
  datatype Id = Auto | Num(n: nat) | Name(s: string)

  /** A character (of the text, of a field's format specification, or closing a field), an escaped
      brace, or the opening of a field. */
  datatype Tok = Ch(c: char) | Esc | Field(id: Id)

  function NameLen(s: string): (n: nat)
    ensures n <= |s| && (forall i :: 0 <= i < n ==> IsNameChar(s[i])) && (n < |s| ==> !IsNameChar(s[n]))
  {
    if s == "" || !IsNameChar(s[0]) then 0 else 1 + NameLen(s[1..])
  }

  function DigitLen(s: string): (n: nat)
    ensures n <= |s| && (forall i :: 0 <= i < n ==> IsDigit(s[i])) && (n < |s| ==> !IsDigit(s[n]))
  {
    if s == "" || !IsDigit(s[0]) then 0 else 1 + DigitLen(s[1..])
  }

  function Cons(t: Tok, ts: Option<seq<Tok>>): Option<seq<Tok>> {
    if ts.Some? then Some([t] + ts.value) else None
  }

  /** The tokens of a format string; None for one that ends right after an opening brace. */
  function Tokenize(s: string): Option<seq<Tok>> {
    if s == "" then Some([])
    else if s[0] != '{' then Cons(Ch(s[0]), Tokenize(s[1..]))
    else if |s| == 1 then None
    else if s[1] == '{' then Cons(Esc, Tokenize(s[2..]))
    else if IsNameStart(s[1]) then
      var n := NameLen(s[1..]);
      Cons(Field(Name(s[1..1 + n])), Tokenize(s[1 + n..]))
    else if IsDigit(s[1]) then
      var n := DigitLen(s[1..]);
      Cons(Field(Num(ParseDec(s[1..1 + n]))), Tokenize(s[1 + n..]))
    else Cons(Field(Auto), Tokenize(s[1..]))
  }

  // ---------- The rewriting, on characters ----------

  /** A named argument and its position among all arguments. */
  datatype NamedArg = NamedArg(name: string, id: nat)

  function Lookup(named: seq<NamedArg>, name: string): Option<nat> {
    if named == [] then None
    else if named[0].name == name then Some(named[0].id)
    else Lookup(named[1..], name)
  }

  function Prepend(a: string, r: Option<string>): Option<string> {
    if r.Some? then Some(a + r.value) else None
  }

  /** The rewritten string; None where the code throws. */
  function Rewrite(s: string, named: seq<NamedArg>, reorder: bool): Option<string> {
    if s == "" then Some("")
    else if s[0] != '{' then Prepend([s[0]], Rewrite(s[1..], named, reorder))
    else if |s| == 1 then None
    else if IsNameStart(s[1]) then
      var n := NameLen(s[1..]);
      var id := Lookup(named, s[1..1 + n]);
      if id.None? then None
      else Prepend("{" + if reorder then "" else Decimal(id.value), Rewrite(s[1 + n..], named, reorder))
    else Prepend([s[0], s[1]], Rewrite(s[2..], named, reorder))
  }

  /** The names of a format string in order of occurrence. */
  function Names(ts: seq<Tok>): seq<string> {
    if ts == [] then []
    else (if ts[0].Field? && ts[0].id.Name? then [ts[0].id.s] else []) + Names(ts[1..])
  }

  predicate Known(ts: seq<Tok>, named: seq<NamedArg>) {
    forall t :: t in ts && t.Field? && t.id.Name? ==> Lookup(named, t.id.s).Some?
  }

  /** Names replaced by numbers, or by nothing. */
  function Replace(t: Tok, named: seq<NamedArg>, reorder: bool): Tok {
    if t.Field? && t.id.Name? && Lookup(named, t.id.s).Some? then
      Field(if reorder then Auto else Num(Lookup(named, t.id.s).value))
    else t
  }

  function ReplaceAll(ts: seq<Tok>, named: seq<NamedArg>, reorder: bool): seq<Tok> {
    if ts == [] then [] else [Replace(ts[0], named, reorder)] + ReplaceAll(ts[1..], named, reorder)
  }

  /** Every name is followed by a character other than an opening brace, as in any field that is
      closed or has a format specification. */
  predicate Delimited(ts: seq<Tok>) {
    if ts == [] then true
    else (ts[0].Field? && ts[0].id.Name? ==> |ts| > 1 && ts[1].Ch?) && Delimited(ts[1..])
  }

  // ---------- The rewriting preserves the tokens ----------

  /** Rewriting s fails exactly when s is malformed or names an unknown argument; otherwise its
      tokens are those of s with the names replaced - always when replacing by numbers, and exactly
      for delimited names when replacing by nothing. */
  ghost predicate Sound(s: string, named: seq<NamedArg>, reorder: bool) {
    var ts, r := Tokenize(s), Rewrite(s, named, reorder);
    && (r.Some? <==> ts.Some? && Known(ts.value, named))
    && (r.Some? ==>
          (Tokenize(r.value) == Some(ReplaceAll(ts.value, named, reorder)) <==> (reorder ==> Delimited(ts.value))))
  }

  lemma SeqCons(t: Tok, ts: seq<Tok>, u: Tok, us: seq<Tok>)
    ensures [t] + ts == [u] + us <==> t == u && ts == us
    ensures ([t] + ts)[1..] == ts
  {
    assert ([t] + ts)[0] == t && ([t] + ts)[1..] == ts && ([u] + us)[0] == u && ([u] + us)[1..] == us;
  }

  lemma KnownCons(t: Tok, ts: seq<Tok>, named: seq<NamedArg>)
    ensures Known([t] + ts, named) <==>
      (t.Field? && t.id.Name? ==> Lookup(named, t.id.s).Some?) && Known(ts, named)
  {
    assert t in [t] + ts;
    assert forall x :: x in ts ==> x in [t] + ts;
  }

  /** A token that is copied, or replaced by a number, in front of a soundly rewritten rest. */
  lemma SoundCons(s: string, rest: string, named: seq<NamedArg>, reorder: bool, t: Tok, head: string)
    requires Sound(rest, named, reorder)
    requires Tokenize(s) == Cons(t, Tokenize(rest))
    requires t.Field? && t.id.Name? ==> !reorder && Lookup(named, t.id.s).Some?
    requires Rewrite(s, named, reorder) == Prepend(head, Rewrite(rest, named, reorder))
    requires Rewrite(rest, named, reorder).Some? ==>
      var o := Rewrite(rest, named, reorder).value;
      Tokenize(head + o) == Cons(Replace(t, named, reorder), Tokenize(o))
    ensures Sound(s, named, reorder)
  {
    hide Tokenize, Rewrite, Known, Lookup;
    var ts := Tokenize(rest);
    if ts.Some? {
      var u := Replace(t, named, reorder);
      KnownCons(t, ts.value, named);
      SeqCons(t, ts.value, t, ts.value);
      assert ReplaceAll([t] + ts.value, named, reorder) == [u] + ReplaceAll(ts.value, named, reorder);
      if Rewrite(rest, named, reorder).Some? {
        var o := Tokenize(Rewrite(rest, named, reorder).value);
        if o.Some? {
          SeqCons(u, o.value, u, ReplaceAll(ts.value, named, reorder));
        }
      }
    }
  }

  lemma RewriteHead(s: string, named: seq<NamedArg>, reorder: bool)
    requires Rewrite(s, named, reorder).Some? && s != ""
    ensures var o := Rewrite(s, named, reorder).value; o != "" && o[0] == s[0]
  {
  }

  lemma {:induction false} RewriteDigits(ds: string, rest: string, named: seq<NamedArg>, reorder: bool)
    requires forall i :: 0 <= i < |ds| ==> IsDigit(ds[i])
    ensures Rewrite(ds + rest, named, reorder) == Prepend(ds, Rewrite(rest, named, reorder))
  {
    if ds == "" {
      assert ds + rest == rest;
      PrependNothing(Rewrite(rest, named, reorder));
    } else {
      assert (ds + rest)[1..] == ds[1..] + rest && (ds + rest)[0] == ds[0];
      RewriteDigits(ds[1..], rest, named, reorder);
      PrependTwice([ds[0]], ds[1..], Rewrite(rest, named, reorder));
      assert [ds[0]] + ds[1..] == ds;
    }
  }

  lemma PrependNothing(r: Option<string>)
    ensures Prepend("", r) == r
  {
    if r.Some? {
      assert "" + r.value == r.value;
    }
  }

  lemma PrependTwice(a: string, b: string, r: Option<string>)
    ensures Prepend(a, Prepend(b, r)) == Prepend(a + b, r)
  {
    if r.Some? {
      assert a + (b + r.value) == (a + b) + r.value;
    }
  }

  lemma {:induction false} DigitLenIs(ds: string, rest: string)
    requires forall i :: 0 <= i < |ds| ==> IsDigit(ds[i])
    requires rest == "" || !IsDigit(rest[0])
    ensures DigitLen(ds + rest) == |ds|
  {
    if ds == "" {
      assert ds + rest == rest;
    } else {
      assert (ds + rest)[1..] == ds[1..] + rest;
      DigitLenIs(ds[1..], rest);
    }
  }

  lemma TokenizeNum(ds: string, rest: string)
    requires ds != "" && forall i :: 0 <= i < |ds| ==> IsDigit(ds[i])
    requires rest == "" || !IsDigit(rest[0])
    ensures Tokenize("{" + ds + rest) == Cons(Field(Num(ParseDec(ds))), Tokenize(rest))
  {
    var s := "{" + ds + rest;
    var n := |ds|;
    hide *;
    DigitLenIs(ds, rest);
    assert s[0] == '{' && s[1..] == ds + rest && s[1] == ds[0];
    assert s[1..1 + n] == ds && s[1 + n..] == rest;
    NumToken(s);
  }

  /** A brace and a digit open a numbered field. */
  lemma NumToken(s: string)
    requires |s| > 1 && s[0] == '{' && IsDigit(s[1])
    ensures var n := DigitLen(s[1..]);
      Tokenize(s) == Cons(Field(Num(ParseDec(s[1..1 + n]))), Tokenize(s[1 + n..]))
  {
    hide ParseDec, DigitLen, Cons;
  }

  lemma PlainSound(s: string, named: seq<NamedArg>, reorder: bool)
    requires s != "" && s[0] != '{' && Sound(s[1..], named, reorder)
    ensures Sound(s, named, reorder)
  {
    var r := Rewrite(s[1..], named, reorder);
    if r.Some? {
      assert ([s[0]] + r.value)[1..] == r.value;
    }
    SoundCons(s, s[1..], named, reorder, Ch(s[0]), [s[0]]);
  }

  lemma EscapeSound(s: string, named: seq<NamedArg>, reorder: bool)
    requires |s| > 1 && s[0] == s[1] == '{' && Sound(s[2..], named, reorder)
    ensures Sound(s, named, reorder)
  {
    var r := Rewrite(s[2..], named, reorder);
    if r.Some? {
      assert ([s[0], s[1]] + r.value)[2..] == r.value;
    }
    SoundCons(s, s[2..], named, reorder, Esc, [s[0], s[1]]);
  }

  lemma OtherRewrite(s: string, named: seq<NamedArg>, reorder: bool)
    requires |s| > 1 && s[0] == '{' && !IsNameStart(s[1])
    ensures Rewrite(s, named, reorder) == Prepend([s[0], s[1]], Rewrite(s[2..], named, reorder))
  {
  }

  lemma NumberSound(s: string, named: seq<NamedArg>, reorder: bool)
    requires |s| > 1 && s[0] == '{' && IsDigit(s[1]) && Sound(s[1 + DigitLen(s[1..])..], named, reorder)
    ensures Sound(s, named, reorder)
  {
    var n := DigitLen(s[1..]);
    var ds, rest := s[1..1 + n], s[1 + n..];
    NumToken(s);
    NumberRewrite(s, named, reorder);
    DigitsAhead(s);
    hide Tokenize, Rewrite, Sound, DigitLen;
    var r := Rewrite(rest, named, reorder);
    if r.Some? {
      if rest == "" {
        ShortRewrite(named, reorder);
      } else {
        RewriteHead(rest, named, reorder);
      }
      TokenizeNum(ds, r.value);
    }
    SoundCons(s, rest, named, reorder, Field(Num(ParseDec(ds))), "{" + ds);
  }

  /** The digits after the brace, and what follows them. */
  lemma DigitsAhead(s: string)
    requires |s| > 1 && s[0] == '{' && IsDigit(s[1])
    ensures var n := DigitLen(s[1..]);
      0 < n < |s| && SplitsAt(s, 1 + n)
  {
    var n := DigitLen(s[1..]);
    hide DigitLen, IsDigit;
    assert n > 0 by {
      assert s[1..][0] == s[1];
    }
    var ds, rest := s[1..1 + n], s[1 + n..];
    assert ds[0] == s[1] && s[2..] == ds[1..] + rest;
    forall i | 0 <= i < |ds|
      ensures IsDigit(ds[i])
    {
      assert ds[i] == s[1..][i];
    }
    if rest != "" {
      assert rest[0] == s[1..][n];
    }
  }

  /** The number after a brace ends at p. */
  predicate SplitsAt(s: string, p: nat)
    requires 1 < p <= |s|
  {
    var ds, rest := s[1..p], s[p..];
    && ds[0] == s[1] && s[2..] == ds[1..] + rest
    && (forall i :: 0 <= i < |ds| ==> IsDigit(ds[i]))
    && (rest != "" ==> !IsDigit(rest[0]))
  }

  lemma NumberRewrite(s: string, named: seq<NamedArg>, reorder: bool)
    requires |s| > 1 && s[0] == '{' && IsDigit(s[1])
    ensures var n := DigitLen(s[1..]);
      Rewrite(s, named, reorder) == Prepend("{" + s[1..1 + n], Rewrite(s[1 + n..], named, reorder))
  {
    var n := DigitLen(s[1..]);
    var ds, rest := s[1..1 + n], s[1 + n..];
    DigitsAhead(s);
    OtherRewrite(s, named, reorder);
    hide Rewrite, DigitLen;
    RewriteDigits(ds[1..], rest, named, reorder);
    PrependTwice([s[0], s[1]], ds[1..], Rewrite(rest, named, reorder));
    assert [s[0], s[1]] + ds[1..] == "{" + ds;
  }

  lemma AutoSound(s: string, named: seq<NamedArg>, reorder: bool)
    requires |s| > 1 && s[0] == '{' && s[1] != '{' && !IsNameChar(s[1]) && Sound(s[1..], named, reorder)
    ensures Sound(s, named, reorder)
  {
    var r := Rewrite(s[1..], named, reorder);
    assert s[1..][1..] == s[2..];
    PrependTwice("{", [s[1]], Rewrite(s[2..], named, reorder));
    assert "{" + [s[1]] == [s[0], s[1]];
    if r.Some? {
      RewriteHead(s[1..], named, reorder);
      assert ("{" + r.value)[1..] == r.value;
    }
    SoundCons(s, s[1..], named, reorder, Field(Auto), "{");
  }

  /** A brace and a letter open a named field. */
  lemma NameToken(s: string)
    requires |s| > 1 && s[0] == '{' && IsNameStart(s[1])
    ensures var n := NameLen(s[1..]);
      Tokenize(s) == Cons(Field(Name(s[1..1 + n])), Tokenize(s[1 + n..]))
  {
  }

  lemma NameRewrite(s: string, named: seq<NamedArg>, reorder: bool)
    requires |s| > 1 && s[0] == '{' && IsNameStart(s[1])
    ensures var n := NameLen(s[1..]);
      var id := Lookup(named, s[1..1 + n]);
      Rewrite(s, named, reorder) ==
        if id.None? then None
        else Prepend("{" + if reorder then "" else Decimal(id.value), Rewrite(s[1 + n..], named, reorder))
  {
    hide Decimal, Lookup, NameLen, Prepend;
  }

  lemma UnknownNameSound(s: string, rest: string, named: seq<NamedArg>, reorder: bool, name: string)
    requires Tokenize(s) == Cons(Field(Name(name)), Tokenize(rest))
    requires Lookup(named, name).None? && Rewrite(s, named, reorder).None?
    ensures Sound(s, named, reorder)
  {
    hide Tokenize, Rewrite, Known, Lookup;
    if Tokenize(rest).Some? {
      KnownCons(Field(Name(name)), Tokenize(rest).value, named);
    }
  }

  /** The name at the start of a field, and what follows it. */
  lemma NameSound(s: string, named: seq<NamedArg>, reorder: bool)
    requires |s| > 1 && s[0] == '{' && IsNameStart(s[1]) && Sound(s[1 + NameLen(s[1..])..], named, reorder)
    ensures Sound(s, named, reorder)
  {
    var n := NameLen(s[1..]);
    var name, rest := s[1..1 + n], s[1 + n..];
    var id, r := Lookup(named, name), Rewrite(rest, named, reorder);
    NameToken(s);
    NameRewrite(s, named, reorder);
    assert rest != "" ==> rest[0] == s[1..][n];
    hide Tokenize, Rewrite, Sound, Lookup, Decimal;
    if id.None? {
      UnknownNameSound(s, rest, named, reorder, name);
    } else {
      if r.Some? && rest != "" {
        RewriteHead(rest, named, reorder);
      }
      if r.Some? && rest == "" {
        ShortRewrite(named, reorder);
      }
      if reorder {
        assert "{" + "" == "{";
        DroppedNameSound(s, rest, named, name);
      } else {
        if r.Some? {
          ParseDecimal(id.value);
          TokenizeNum(Decimal(id.value), r.value);
        }
        SoundCons(s, rest, named, reorder, Field(Name(name)), "{" + Decimal(id.value));
      }
    }
  }

  lemma ShortRewrite(named: seq<NamedArg>, reorder: bool)
    ensures Rewrite("", named, reorder) == Some("")
  {
  }

  /** A dropped name leaves an automatic field exactly when what follows is neither the end nor
      another opening brace. */
  lemma DroppedNameSound(s: string, rest: string, named: seq<NamedArg>, name: string)
    requires Sound(rest, named, true) && Lookup(named, name).Some?
    requires Tokenize(s) == Cons(Field(Name(name)), Tokenize(rest))
    requires Rewrite(s, named, true) == Prepend("{", Rewrite(rest, named, true))
    requires rest != "" ==> !IsNameChar(rest[0])
    requires Rewrite(rest, named, true).Some? ==>
      var o := Rewrite(rest, named, true).value; if rest == "" then o == "" else o != "" && o[0] == rest[0]
    ensures Sound(s, named, true)
  {
    var ts := Tokenize(rest);
    var t := Field(Name(name));
    if ts.Some? {
      KnownCons(t, ts.value, named);
      SeqCons(t, ts.value, t, ts.value);
      assert ReplaceAll([t] + ts.value, named, true) == [Field(Auto)] + ReplaceAll(ts.value, named, true);
      FirstToken(rest);
      if Rewrite(rest, named, true).Some? {
        var o := Rewrite(rest, named, true).value;
        assert ("{" + o)[1..] == o;
        OpenBrace(o);
        hide Tokenize, Rewrite, Known, ReplaceAll, Delimited;
        DelimitedCons(t, ts.value);
        if Tokenize(o).Some? {
          SeqCons(Field(Auto), Tokenize(o).value, Field(Auto), ReplaceAll(ts.value, named, true));
        }
      }
    }
  }

  lemma DelimitedCons(t: Tok, ts: seq<Tok>)
    ensures Delimited([t] + ts) <==> (t.Field? && t.id.Name? ==> ts != [] && ts[0].Ch?) && Delimited(ts)
  {
    assert ([t] + ts)[1..] == ts;
  }

  lemma FirstToken(s: string)
    requires Tokenize(s).Some?
    ensures s == "" <==> Tokenize(s).value == []
    ensures s != "" ==> (Tokenize(s).value[0].Ch? <==> s[0] != '{')
  {
  }

  /** How an opening brace followed by o reads. */
  lemma OpenBrace(o: string)
    requires o == "" || !IsNameChar(o[0])
    ensures o != "" && o[0] != '{' ==> Tokenize("{" + o) == Cons(Field(Auto), Tokenize(o))
    ensures o == "" ==> Tokenize("{" + o) == None
    ensures o != "" && o[0] == '{' && Tokenize("{" + o).Some? ==>
      Tokenize("{" + o).value != [] && Tokenize("{" + o).value[0] == Esc
  {
    assert ("{" + o)[1..] == o;
  }

  lemma {:induction false} RewriteIsSound(s: string, named: seq<NamedArg>, reorder: bool)
    ensures Sound(s, named, reorder)
    decreases |s|
  {
    hide Sound;
    if s == "" || s == "{" {
      ShortSound(s, named, reorder);
    } else if s[0] != '{' {
      RewriteIsSound(s[1..], named, reorder);
      PlainSound(s, named, reorder);
    } else {
      assert |s| > 1;
      if s[1] == '{' {
        RewriteIsSound(s[2..], named, reorder);
        EscapeSound(s, named, reorder);
      } else if IsNameStart(s[1]) {
        RewriteIsSound(s[1 + NameLen(s[1..])..], named, reorder);
        NameSound(s, named, reorder);
      } else if IsDigit(s[1]) {
        RewriteIsSound(s[1 + DigitLen(s[1..])..], named, reorder);
        NumberSound(s, named, reorder);
      } else {
        RewriteIsSound(s[1..], named, reorder);
        AutoSound(s, named, reorder);
      }
    }
  }

  lemma ShortSound(s: string, named: seq<NamedArg>, reorder: bool)
    requires s == "" || s == "{"
    ensures Sound(s, named, reorder)
  {
  }

  // ---------- What is printed ----------

  /** A printed piece: a character of the layout, or the k-th argument. */
  datatype Piece = Lit(c: char) | Arg(k: nat)

  /** How fields have been numbered so far: automatic and manual numbering may not be mixed. */
  datatype Mode = Unset | Automatic | Manual

  function Add(p: Piece, ps: Option<seq<Piece>>): Option<seq<Piece>> {
    if ps.Some? then Some([p] + ps.value) else None
  }

  /** What the tokens print, given how many automatic fields precede; None for an unknown name or
      mixed numbering. A named field does not count as numbering. */
  function Print(ts: seq<Tok>, named: seq<NamedArg>, next: nat, mode: Mode): Option<seq<Piece>> {
    if ts == [] then Some([])
    else
      match ts[0]
      case Ch(c) => Add(Lit(c), Print(ts[1..], named, next, mode))
      case Esc => Add(Lit('{'), Print(ts[1..], named, next, mode))
      case Field(Auto) =>
        if mode.Manual? then None else Add(Arg(next), Print(ts[1..], named, next + 1, Automatic))
      case Field(Num(k)) =>
        if mode.Automatic? then None else Add(Arg(k), Print(ts[1..], named, next, Manual))
      case Field(Name(s)) =>
        if Lookup(named, s).None? then None
        else Add(Arg(Lookup(named, s).value), Print(ts[1..], named, next, mode))
  }

  predicate HasName(ts: seq<Tok>) {
    exists t :: t in ts && t.Field? && t.id.Name?
  }

  predicate HasAuto(ts: seq<Tok>) {
    exists t :: t in ts && t.Field? && t.id.Auto?
  }

  lemma HasCons(ts: seq<Tok>)
    requires ts != []
    ensures HasName(ts) <==> (ts[0].Field? && ts[0].id.Name?) || HasName(ts[1..])
    ensures HasAuto(ts) <==> (ts[0].Field? && ts[0].id.Auto?) || HasAuto(ts[1..])
  {
    assert ts == [ts[0]] + ts[1..];
    assert ts[0] in ts;
    assert forall t :: t in ts[1..] ==> t in ts;
  }

  lemma AddInjective(p: Piece, a: Option<seq<Piece>>, b: Option<seq<Piece>>)
    ensures Add(p, a) == Add(p, b) <==> a == b
  {
    if a.Some? && b.Some? && Add(p, a) == Add(p, b) {
      assert ([p] + a.value)[1..] == ([p] + b.value)[1..];
      assert a.value == ([p] + a.value)[1..] && b.value == ([p] + b.value)[1..];
    }
  }

  /** Replacing names by numbers, before any name was met (numbered == mode) or after. */
  lemma {:induction false} NumberedPrintsSame(ts: seq<Tok>, named: seq<NamedArg>, next: nat, mode: Mode, numbered: Mode)
    requires Print(ts, named, next, mode).Some?
    requires numbered == mode || (numbered.Manual? && mode.Unset?)
    ensures Print(ReplaceAll(ts, named, false), named, next, numbered) == Print(ts, named, next, mode)
      <==> (numbered == mode ==> !(HasName(ts) && (HasAuto(ts) || mode.Automatic?)))
           && (numbered != mode ==> !HasAuto(ts))
    decreases |ts|
  {
    if ts == [] {
    } else {
      HasCons(ts);
      ReplaceCons(ts, named, false);
      hide ReplaceAll, HasName, HasAuto;
      var rest := ts[1..];
      var others := ReplaceAll(rest, named, false);
      match ts[0]
      case Ch(c) =>
        NumberedPrintsSame(rest, named, next, mode, numbered);
        AddInjective(Lit(c), Print(others, named, next, numbered), Print(rest, named, next, mode));
      case Esc =>
        NumberedPrintsSame(rest, named, next, mode, numbered);
        AddInjective(Lit('{'), Print(others, named, next, numbered), Print(rest, named, next, mode));
      case Field(Auto) =>
        if !numbered.Manual? {
          NumberedPrintsSame(rest, named, next + 1, Automatic, Automatic);
          AddInjective(Arg(next), Print(ReplaceAll(rest, named, false), named, next + 1, Automatic),
                       Print(rest, named, next + 1, Automatic));
        }
      case Field(Num(k)) =>
        ManualHasNoAuto(rest, named, next);
        NumberedPrintsSame(rest, named, next, Manual, Manual);
        AddInjective(Arg(k), Print(others, named, next, Manual), Print(rest, named, next, Manual));
      case Field(Name(s)) =>
        if !numbered.Automatic? {
          var id := Lookup(named, s).value;
          NumberedPrintsSame(rest, named, next, mode, Manual);
          AddInjective(Arg(id), Print(others, named, next, Manual), Print(rest, named, next, mode));
          if mode.Manual? {
            ManualHasNoAuto(rest, named, next);
          }
        }
    }
  }

  lemma ReplaceCons(ts: seq<Tok>, named: seq<NamedArg>, reorder: bool)
    requires ts != []
    ensures ReplaceAll(ts, named, reorder) != []
    ensures ReplaceAll(ts, named, reorder)[0] == Replace(ts[0], named, reorder)
    ensures ReplaceAll(ts, named, reorder)[1..] == ReplaceAll(ts[1..], named, reorder)
  {
  }

  lemma {:induction false} ManualHasNoAuto(ts: seq<Tok>, named: seq<NamedArg>, next: nat)
    requires Print(ts, named, next, Manual).Some?
    ensures !HasAuto(ts)
    decreases |ts|
  {
    if ts != [] {
      HasCons(ts);
      ManualHasNoAuto(ts[1..], named, next);
    }
  }

  /** Preservation, names to numbers: for every format string that prints by name, the rewritten one
      prints the same - if and only if the format does not mix named with automatic fields, which
      numbering then forbids. */
  lemma NumberingPreservesPrint(s: string, named: seq<NamedArg>)
    requires Tokenize(s).Some? && Print(Tokenize(s).value, named, 0, Unset).Some?
    ensures Rewrite(s, named, false).Some? && Tokenize(Rewrite(s, named, false).value).Some?
    ensures Print(Tokenize(Rewrite(s, named, false).value).value, named, 0, Unset)
              == Print(Tokenize(s).value, named, 0, Unset)
            <==> !(HasName(Tokenize(s).value) && HasAuto(Tokenize(s).value))
  {
    hide Tokenize, Rewrite, Print, HasName, HasAuto;
    PrintedIsKnown(Tokenize(s).value, named, 0, Unset);
    RewriteIsSound(s, named, false);
    NumberedPrintsSame(Tokenize(s).value, named, 0, Unset, Unset);
  }

  lemma {:induction false} NameLenIs(name: string, rest: string)
    requires forall i :: 0 <= i < |name| ==> IsNameChar(name[i])
    requires rest == "" || !IsNameChar(rest[0])
    ensures NameLen(name + rest) == |name|
  {
    if name == "" {
      assert name + rest == rest;
    } else {
      assert (name + rest)[1..] == name[1..] + rest;
      NameLenIs(name[1..], rest);
    }
  }

  /** A name and what ends it. */
  predicate Ends(name: string, rest: string) {
    && name != "" && IsNameStart(name[0]) && (forall i :: 0 <= i < |name| ==> IsNameChar(name[i]))
    && (rest == "" || !IsNameChar(rest[0]))
  }

  lemma NamedField(name: string, rest: string, named: seq<NamedArg>, reorder: bool)
    requires Ends(name, rest) && Lookup(named, name).Some?
    ensures var s, id := "{" + name + rest, Lookup(named, name).value;
      && Tokenize(s) == Cons(Field(Name(name)), Tokenize(rest))
      && Rewrite(s, named, reorder)
         == Prepend("{" + if reorder then "" else Decimal(id), Rewrite(rest, named, reorder))
  {
    var s := "{" + name + rest;
    NameLenIs(name, rest);
    assert s[1..] == name + rest && s[1] == name[0];
    assert s[1..1 + |name|] == name && s[1 + |name|..] == rest;
    NameToken(s);
    NameRewrite(s, named, reorder);
    hide *;
  }

  lemma Plain(c: char, rest: string, named: seq<NamedArg>, reorder: bool)
    requires c != '{'
    ensures Tokenize([c] + rest) == Cons(Ch(c), Tokenize(rest))
    ensures Rewrite([c] + rest, named, reorder) == Prepend([c], Rewrite(rest, named, reorder))
  {
    assert ([c] + rest)[1..] == rest;
  }

  /** An empty field. */
  lemma EmptyField(rest: string, named: seq<NamedArg>, reorder: bool)
    ensures Tokenize("{}" + rest) == Cons(Field(Auto), Cons(Ch('}'), Tokenize(rest)))
    ensures Rewrite("{}" + rest, named, reorder) == Prepend("{}", Rewrite(rest, named, reorder))
  {
    var o := "}" + rest;
    assert "{" + o == "{}" + rest;
    OpenBrace(o);
    Plain('}', rest, named, reorder);
    assert ("{}" + rest)[2..] == rest;
    OtherRewrite("{}" + rest, named, reorder);
  }

  lemma Closed(named: seq<NamedArg>, reorder: bool)
    ensures Tokenize("}") == Some([Ch('}')]) && Rewrite("}", named, reorder) == Some("}")
  {
    Plain('}', "", named, reorder);
    assert [Ch('}')] + [] == [Ch('}')] && "}" + "" == "}";
  }

  lemma ShortNames()
    ensures Ends("a", "}") && Ends("t", "}") && Ends("t", "}{t}")
    ensures IsDigit('1') && !IsDigit('}') && Decimal(1) == "1"
  {
  }

  lemma MixedStrings(named: seq<NamedArg>)
    requires Lookup(named, "a") == Some(1)
    ensures Rewrite("{}{a}", named, false) == Some("{}{1}")
    ensures Tokenize("{}{a}") == Some([Field(Auto), Ch('}'), Field(Name("a")), Ch('}')])
    ensures Tokenize("{}{1}") == Some([Field(Auto), Ch('}'), Field(Num(ParseDec("1"))), Ch('}')])
  {
    hide *;
    ShortNames();
    EmptyField("{a}", named, false);
    EmptyField("{1}", named, false);
    NamedField("a", "}", named, false);
    TokenizeNum("1", "}");
    Closed(named, false);
    assert "{}" + "{a}" == "{}{a}" && "{" + "a" + "}" == "{a}" && "{}" + "{1}" == "{}{1}";
    assert "{" + "1" + "}" == "{1}" && ("{" + "1") + "}" == "{1}";
    ConsTwice(Field(Auto), Ch('}'), Field(Name("a")), Ch('}'));
    ConsTwice(Field(Auto), Ch('}'), Field(Num(ParseDec("1"))), Ch('}'));
    PrependsTo("{}", "{1", "}");
    assert "{" + Decimal(1) == "{1" && "{}" + ("{1" + "}") == "{}{1}";
  }

  lemma PrependsTo(a: string, b: string, c: string)
    ensures Prepend(a, Prepend(b, Some(c))) == Some(a + (b + c))
  {
  }

  lemma ConsTwice(a: Tok, b: Tok, c: Tok, d: Tok)
    ensures Cons(a, Cons(b, Cons(c, Some([d])))) == Some([a, b, c, d])
  {
    assert [c] + [d] == [c, d] && [b] + [c, d] == [b, c, d] && [a] + [b, c, d] == [a, b, c, d];
  }

  /** An automatic and then a named field: it prints by name, but not once the name is a number. */
  lemma MixedFieldsExample()
    ensures var s, named := "{}{a}", [NamedArg("a", 1)];
      && Rewrite(s, named, false) == Some("{}{1}")
      && Tokenize(s).Some? && Print(Tokenize(s).value, named, 0, Unset).Some?
      && Tokenize("{}{1}").Some? && Print(Tokenize("{}{1}").value, named, 0, Unset) == None
  {
    var named := [NamedArg("a", 1)];
    assert Lookup(named, "a") == Some(1);
    MixedStrings(named);
    MixedPrints(named, ParseDec("1"));
    hide *;
  }

  lemma MixedPrints(named: seq<NamedArg>, n: nat)
    requires Lookup(named, "a").Some?
    ensures Print([Field(Auto), Ch('}'), Field(Name("a")), Ch('}')], named, 0, Unset).Some?
    ensures Print([Field(Auto), Ch('}'), Field(Num(n)), Ch('}')], named, 0, Unset) == None
  {
    var ts: seq<Tok> := [Field(Auto), Ch('}'), Field(Name("a")), Ch('}')];
    var us: seq<Tok> := [Field(Auto), Ch('}'), Field(Num(n)), Ch('}')];
    PrintAuto(ts, named, 0, Unset);
    PrintText(ts[1..], named, 1, Automatic);
    PrintName(ts[1..][1..], named, 1, Automatic);
    PrintText(ts[1..][1..][1..], named, 1, Automatic);
    assert ts[1..][1..][1..][1..] == [] && Print([], named, 1, Automatic) == Some([]);
    PrintAuto(us, named, 0, Unset);
    PrintText(us[1..], named, 1, Automatic);
    assert Print(us[1..][1..], named, 1, Automatic) == None;
    hide Print;
  }

  lemma TwiceStrings(named: seq<NamedArg>)
    requires Lookup(named, "t").Some?
    ensures Rewrite("{t}{t}", named, true) == Some("{}{}")
    ensures Tokenize("{t}{t}") == Some([Field(Name("t")), Ch('}'), Field(Name("t")), Ch('}')])
  {
    hide *;
    ShortNames();
    NamedField("t", "}{t}", named, true);
    Plain('}', "{t}", named, true);
    NamedField("t", "}", named, true);
    Closed(named, true);
    assert "{" + "t" + "}{t}" == "{t}{t}" && ['}'] + "{t}" == "}{t}" && "{" + "t" + "}" == "{t}" && "{" + "" == "{";
    ConsTwice(Field(Name("t")), Ch('}'), Field(Name("t")), Ch('}'));
    PrependsTo("}", "{", "}");
    PrependsTo("{", "}", "{}");
    assert "}" + ("{" + "}") == "}{}" && "{" + "}{}" == "{}{}";
    assert Prepend("{", Some("}{}")) == Some("{" + "}{}") by {
      PrependOnce("{", "}{}");
    }
  }

  lemma PrependOnce(a: string, b: string)
    ensures Prepend(a, Some(b)) == Some(a + b)
  {
  }

  /** A header pattern with the thread's name twice: it does not always print the same. */
  lemma DuplicateNameExample()
    ensures var s, named := "{t}{t}", [NamedArg("t", 6)];
      && HeaderPattern(s, named) && Rewrite(s, named, true) == Some("{}{}")
      && exists values: seq<bool>, stale: seq<bool> ::
           |values| == PATTERN_ARGS <= |stale| && !HeaderPrintsSame(s, named, values, stale)
  {
    hide *;
    var s, named := "{t}{t}", [NamedArg("t", 6)];
    ThreadName(named);
    TwiceStrings(named);
    TwicePattern(named, Field(Name("t")), Ch('}'));
    IsPattern(s, named);
    UsedTwice(6);
    ReorderingPreservesIffDistinct(s, named);
  }

  lemma ThreadName(named: seq<NamedArg>)
    requires named == [NamedArg("t", 6)]
    ensures Lookup(named, "t") == Some(6)
  {
  }

  lemma UsedTwice(id: nat)
    ensures !NoDuplicates([id, id])
  {
    assert [id, id][0] == [id, id][1];
  }

  lemma IsPattern(s: string, named: seq<NamedArg>)
    requires Tokenize(s).Some?
    requires var ts := Tokenize(s).value; AllNamed(ts) && Known(ts, named) && Delimited(ts)
    requires IdsOf(Tokenize(s).value, named) == [6, 6]
    ensures HeaderPattern(s, named)
  {
    hide Tokenize, AllNamed, Known, Delimited, IdsOf;
  }

  lemma TwicePattern(named: seq<NamedArg>, n: Tok, c: Tok)
    requires Lookup(named, "t") == Some(6) && n == Field(Name("t")) && c == Ch('}')
    ensures var ts := [n, c, n, c];
      AllNamed(ts) && Known(ts, named) && Delimited(ts) && IdsOf(ts, named) == [6, 6]
  {
    assert [n] + ([c] + ([n] + [c])) == [n, c, n, c] && [n] + [c] == [n, c] && [c] + [n, c] == [c, n, c];
    assert [c] + [] == [c] && Known([], named) && AllNamed([n, c, n, c]);
    KnownCons(c, [], named);
    KnownCons(n, [c], named);
    KnownCons(c, [n, c], named);
    KnownCons(n, [c, n, c], named);
    DelimitedCons(c, []);
    DelimitedCons(n, [c]);
    DelimitedCons(c, [n, c]);
    DelimitedCons(n, [c, n, c]);
    IdsCons(c, [], named);
    IdsCons(n, [c], named);
    IdsCons(c, [n, c], named);
    IdsCons(n, [c, n, c], named);
    assert Delimited([]) && IdsOf([], named) == [];
    hide Known, Delimited, IdsOf, AllNamed;
  }

  lemma {:induction false} PrintedIsKnown(ts: seq<Tok>, named: seq<NamedArg>, next: nat, mode: Mode)
    requires Print(ts, named, next, mode).Some?
    ensures Known(ts, named)
    decreases |ts|
  {
    if ts != [] {
      var next' := if ts[0] == Field(Auto) then next + 1 else next;
      var mode' := if ts[0].Field? && ts[0].id.Auto? then Automatic
                   else if ts[0].Field? && ts[0].id.Num? then Manual else mode;
      PrintedIsKnown(ts[1..], named, next', mode');
      KnownCons(ts[0], ts[1..], named);
      assert ts == [ts[0]] + ts[1..];
    }
  }

  // ---------- Names dropped and arguments reordered ----------

  /** Size of the header's argument table. */
  const PATTERN_ARGS: nat := 25

  /** The argument positions of the names, in order of occurrence. */
  function IdsOf(ts: seq<Tok>, named: seq<NamedArg>): seq<nat> {
    if ts == [] then []
    else
      (if ts[0].Field? && ts[0].id.Name? && Lookup(named, ts[0].id.s).Some?
       then [Lookup(named, ts[0].id.s).value] else [])
      + IdsOf(ts[1..], named)
  }

  predicate AllBelow(ids: seq<nat>, n: nat) {
    forall k :: 0 <= k < |ids| ==> ids[k] < n
  }

  /** The reorder table once each name's argument has been given the next field, counted in a byte. */
  function Assign(ids: seq<nat>, j: nat, table: seq<nat>): (r: seq<nat>)
    requires AllBelow(ids, |table|)
    ensures |r| == |table|
  {
    if ids == [] then table else Assign(ids[1..], j + 1, table[ids[0] := j % 256])
  }

  /** The argument table once argument i and all later ones are stored where the table says, as far as
      that lies inside. */
  function SetArgs<V>(i: nat, table: seq<nat>, values: seq<V>, args: seq<V>): (r: seq<V>)
    requires |values| == |table|
    ensures |r| == |args|
    decreases |table| - i
  {
    if i >= |table| then args
    else SetArgs(i + 1, table, values, if table[i] < |args| then args[table[i] := values[i]] else args)
  }

  ghost predicate NoDuplicates(ids: seq<nat>) {
    forall j, k :: 0 <= j < k < |ids| ==> ids[j] != ids[k]
  }

  lemma {:induction false} AssignMisses(ids: seq<nat>, j: nat, table: seq<nat>, i: nat)
    requires AllBelow(ids, |table|) && i < |table| && i !in ids
    ensures Assign(ids, j, table)[i] == table[i]
    decreases |ids|
  {
    if ids != [] {
      AssignMisses(ids[1..], j + 1, table[ids[0] := j % 256], i);
    }
  }

  /** An argument's entry is its name's last position. */
  lemma {:induction false} AssignAt(ids: seq<nat>, j: nat, table: seq<nat>, k: nat)
    requires AllBelow(ids, |table|) && k < |ids| && ids[k] !in ids[k + 1..]
    ensures ids[k] in ids && Assign(ids, j, table)[ids[k]] == (j + k) % 256
    decreases |ids|
  {
    var t := table[ids[0] := j % 256];
    if k == 0 {
      AssignMisses(ids[1..], j + 1, t, ids[0]);
    } else {
      assert ids[1..][k - 1] == ids[k] && ids[1..][k..] == ids[k + 1..];
      AssignAt(ids[1..], j + 1, t, k - 1);
    }
  }

  /** Argument x is the only one, from i on, directed to slot k. */
  ghost predicate OnlyOne(table: seq<nat>, i: nat, k: nat, x: nat) {
    && i <= x < |table| && table[x] == k
    && forall y :: i <= y < |table| && y != x ==> table[y] != k
  }

  lemma {:induction false} SlotUntouched<V>(i: nat, table: seq<nat>, values: seq<V>, args: seq<V>, k: nat)
    requires |values| == |table| && k < |args| && forall x :: 0 <= x < |table| ==> table[x] < |args|
    requires forall x :: i <= x < |table| ==> table[x] != k
    ensures SetArgs(i, table, values, args)[k] == args[k]
    decreases |table| - i
  {
    if i < |table| {
      SlotUntouched(i + 1, table, values, args[table[i] := values[i]], k);
    }
  }

  lemma {:induction false} SlotSet<V>(i: nat, table: seq<nat>, values: seq<V>, args: seq<V>, k: nat, x: nat)
    requires |values| == |table| && k < |args| && forall y :: 0 <= y < |table| ==> table[y] < |args|
    requires OnlyOne(table, i, k, x)
    ensures SetArgs(i, table, values, args)[k] == values[x]
    decreases |table| - i
  {
    if i == x {
      SlotUntouched(i + 1, table, values, args[table[i] := values[i]], k);
    } else {
      SlotSet(i + 1, table, values, args[table[i] := values[i]], k, x);
    }
  }

  /** The last argument directed to slot k fills it. */
  lemma {:induction false} SlotLast<V>(i: nat, table: seq<nat>, values: seq<V>, args: seq<V>, k: nat, x: nat)
    requires |values| == |table| && k < |args| && forall y :: 0 <= y < |table| ==> table[y] < |args|
    requires i <= x < |table| && table[x] == k && forall y :: x < y < |table| ==> table[y] != k
    ensures SetArgs(i, table, values, args)[k] == values[x]
    decreases |table| - i
  {
    if i == x {
      SlotUntouched(i + 1, table, values, args[table[i] := values[i]], k);
    } else {
      SlotLast(i + 1, table, values, args[table[i] := values[i]], k, x);
    }
  }

  /** The numbers below n. */
  function Below(n: nat): set<nat> {
    if n == 0 then {} else Below(n - 1) + {n - 1}
  }

  lemma {:induction false} BelowMembers(n: nat)
    ensures |Below(n)| == n && forall x: nat :: x in Below(n) <==> x < n
  {
    if n > 0 {
      BelowMembers(n - 1);
    }
  }

  function Members(ids: seq<nat>): set<nat> {
    set x | x in ids
  }

  /** Distinct numbers below n are at most n; when there are n, every one occurs. */
  lemma Pigeonhole(ids: seq<nat>, n: nat)
    requires NoDuplicates(ids) && AllBelow(ids, n)
    ensures |ids| <= n
    ensures |ids| == n ==> forall x: nat :: x < n ==> x in ids
  {
    BelowMembers(n);
    CountDistinct(ids);
    SubsetSize(Members(ids), Below(n));
    if |ids| == n {
      forall x: nat | x < n
        ensures x in ids
      {
        assert x in Members(ids);
      }
    }
  }

  lemma {:induction false} CountDistinct(ids: seq<nat>)
    requires NoDuplicates(ids)
    ensures |Members(ids)| == |ids|
    decreases |ids|
  {
    if ids != [] {
      CountDistinct(ids[1..]);
      assert Members(ids) == {ids[0]} + Members(ids[1..]);
      assert ids[0] !in ids[1..];
    }
  }

  lemma {:induction false} SubsetSize(a: set<nat>, b: set<nat>)
    requires a <= b
    ensures |a| <= |b| && (|a| == |b| ==> a == b)
    decreases |b|
  {
    if a != {} {
      var x :| x in a;
      SubsetSize(a - {x}, b - {x});
      if |a| == |b| {
        assert a == (a - {x}) + {x} == (b - {x}) + {x} == b;
      }
    }
  }

  /** The table before any pattern field is assigned: every argument goes to the last slot. */
  function EmptyTable(): seq<nat> {
    seq(PATTERN_ARGS, _ => PATTERN_ARGS - 1)
  }

  /** The position of the last occurrence. */
  ghost function LastIndex(ids: seq<nat>, i: nat): (k: nat)
    requires i in ids
    ensures k < |ids| && ids[k] == i && i !in ids[k + 1..]
  {
    var last := |ids| - 1;
    if ids[last] == i then last
    else
      assert ids == ids[..last] + [ids[last]];
      var at := LastIndex(ids[..last], i);
      assert ids[at + 1..] == ids[..last][at + 1..] + [ids[last]];
      at
  }

  /** Where the table sends an argument: to its name's last position, counted in a byte, or to the last
      slot. */
  lemma AssignedTo(ids: seq<nat>, i: nat)
    requires AllBelow(ids, PATTERN_ARGS) && i < PATTERN_ARGS
    ensures Assign(ids, 0, EmptyTable())[i] == if i in ids then LastIndex(ids, i) % 256 else PATTERN_ARGS - 1
  {
    if i in ids {
      AssignAt(ids, 0, EmptyTable(), LastIndex(ids, i));
    } else {
      AssignMisses(ids, 0, EmptyTable(), i);
    }
  }

  lemma AssignedFew(ids: seq<nat>, i: nat)
    requires |ids| <= 256 && AllBelow(ids, PATTERN_ARGS) && i < PATTERN_ARGS
    ensures Assign(ids, 0, EmptyTable())[i] == if i in ids then LastIndex(ids, i) else PATTERN_ARGS - 1
  {
    AssignedTo(ids, i);
  }

  /** The header's slots suffice: no argument is directed beyond the last. */
  predicate Inside(table: seq<nat>) {
    forall x :: 0 <= x < |table| ==> table[x] < PATTERN_ARGS
  }

  /** They do exactly when every name is last used, counting in a byte, in one of the first 25 fields. */
  lemma InsideIff(ids: seq<nat>)
    requires AllBelow(ids, PATTERN_ARGS)
    ensures Inside(Assign(ids, 0, EmptyTable()))
            <==> forall i :: i in ids ==> LastIndex(ids, i) % 256 < PATTERN_ARGS
  {
    var table := Assign(ids, 0, EmptyTable());
    forall x | 0 <= x < PATTERN_ARGS
      ensures table[x] == if x in ids then LastIndex(ids, x) % 256 else PATTERN_ARGS - 1
    {
      AssignedTo(ids, x);
    }
    forall i | i in ids
      ensures i < PATTERN_ARGS
    {
      var k :| 0 <= k < |ids| && ids[k] == i;
    }
  }

  /** With up to 25 fields they do; with more, up to 256, they never do. */
  lemma InsideIffFew(ids: seq<nat>)
    requires AllBelow(ids, PATTERN_ARGS) && |ids| <= 256
    ensures Inside(Assign(ids, 0, EmptyTable())) <==> |ids| <= PATTERN_ARGS
  {
    var table := Assign(ids, 0, EmptyTable());
    if |ids| <= PATTERN_ARGS {
      TableBelow(ids);
    } else {
      var last := ids[|ids| - 1];
      AssignedFew(ids, last);
      hide Assign;
      assert LastIndex(ids, last) == |ids| - 1;
      assert table[last] == |ids| - 1;
    }
  }

  lemma TableBelow(ids: seq<nat>)
    requires |ids| <= PATTERN_ARGS && AllBelow(ids, PATTERN_ARGS)
    ensures forall k :: 0 <= k < PATTERN_ARGS ==> Assign(ids, 0, EmptyTable())[k] < PATTERN_ARGS
  {
    forall k | 0 <= k < PATTERN_ARGS
      ensures Assign(ids, 0, EmptyTable())[k] < PATTERN_ARGS
    {
      AssignedTo(ids, k);
    }
  }

  /** When each name occurs at most once, every field's slot receives the value of its own name:
      used names have slots of their own, and the unused ones, all stored in the last slot, never
      overwrite a used one, even when all names are used. */
  lemma FieldGetsItsValue<V>(ids: seq<nat>, values: seq<V>, stale: seq<V>, j: nat)
    requires NoDuplicates(ids) && AllBelow(ids, PATTERN_ARGS)
    requires |values| == PATTERN_ARGS <= |stale| && j < |ids|
    ensures |ids| <= PATTERN_ARGS && ids[j] in ids
    ensures var table := Assign(ids, 0, EmptyTable());
      && (forall x :: 0 <= x < PATTERN_ARGS ==> table[x] < PATTERN_ARGS)
      && SetArgs(0, table, values, stale)[j] == values[ids[j]]
  {
    Pigeonhole(ids, PATTERN_ARGS);
    var table := Assign(ids, 0, EmptyTable());
    forall x | 0 <= x < PATTERN_ARGS
      ensures table[x] < PATTERN_ARGS && (table[x] == j <==> x == ids[j])
    {
      AssignedFew(ids, x);
    }
    SlotSet(0, table, values, stale, j, ids[j]);
  }

  /** When a name occurs again, the slot of its earlier field is never stored to: it keeps whatever
      an earlier pattern left there. */
  lemma EarlierFieldIsStale<V>(ids: seq<nat>, values: seq<V>, stale: seq<V>, j: nat, k: nat)
    requires |ids| <= PATTERN_ARGS && AllBelow(ids, PATTERN_ARGS)
    requires |values| == PATTERN_ARGS <= |stale|
    requires j < k < |ids| && ids[j] == ids[k]
    ensures var table := Assign(ids, 0, EmptyTable());
      && (forall x :: 0 <= x < PATTERN_ARGS ==> table[x] < PATTERN_ARGS)
      && SetArgs(0, table, values, stale)[j] == stale[j]
  {
    var table := Assign(ids, 0, EmptyTable());
    forall x | 0 <= x < PATTERN_ARGS
      ensures table[x] < PATTERN_ARGS && table[x] != j
    {
      AssignedFew(ids, x);
      assert ids[j + 1..][k - j - 1] == ids[j];
    }
    SlotUntouched(0, table, values, stale, j);
  }

  /** A field whose name occurs only once receives the value of its name, even if others occur again - but
      for the last of 25 fields, whose slot the unused names share: it has the value of the last argument
      of these and its own. */
  lemma OnceUsedFieldGets<V>(ids: seq<nat>, values: seq<V>, stale: seq<V>, j: nat, x: nat)
    requires |ids| <= PATTERN_ARGS && AllBelow(ids, PATTERN_ARGS) && PATTERN_ARGS == |values| <= |stale|
    requires j < |ids| && forall i :: 0 <= i < |ids| && i != j ==> ids[i] != ids[j]
    requires if j < 24 then x == ids[j]
      else x < PATTERN_ARGS && (x == ids[j] || x !in ids) && x >= ids[j]
           && forall y :: x < y < PATTERN_ARGS ==> y in ids
    ensures SetArgs(0, Assign(ids, 0, EmptyTable()), values, stale)[j] == values[x]
  {
    var table := Assign(ids, 0, EmptyTable());
    forall y | 0 <= y < PATTERN_ARGS
      ensures table[y] < PATTERN_ARGS && (table[y] == j <==> y == ids[j] || (j == 24 && y !in ids))
    {
      AssignedFew(ids, y);
      if y in ids && LastIndex(ids, y) == j {
        assert ids[j] == y;
      }
    }
    SlotLast(0, table, values, stale, j, x);
  }

  /** Every field's slot receives the value of its own name. */
  ghost predicate FieldsRight<V>(ids: seq<nat>, values: seq<V>, stale: seq<V>)
    requires |ids| <= PATTERN_ARGS && AllBelow(ids, PATTERN_ARGS) && |values| == PATTERN_ARGS <= |stale|
  {
    var table := Assign(ids, 0, EmptyTable());
    && (forall x :: 0 <= x < PATTERN_ARGS ==> table[x] < PATTERN_ARGS)
    && forall j :: 0 <= j < |ids| ==> SetArgs(0, table, values, stale)[j] == values[ids[j]]
  }

  /** The slots are right whatever the values and whatever they held before, exactly when no name is
      used twice. */
  lemma FieldsRightIffDistinct(ids: seq<nat>)
    requires |ids| <= PATTERN_ARGS && AllBelow(ids, PATTERN_ARGS)
    ensures NoDuplicates(ids) <==>
      forall values: seq<bool>, stale: seq<bool> :: |values| == PATTERN_ARGS <= |stale| ==>
        FieldsRight(ids, values, stale)
  {
    if NoDuplicates(ids) {
      forall values: seq<bool>, stale: seq<bool> | |values| == PATTERN_ARGS <= |stale|
        ensures FieldsRight(ids, values, stale)
      {
        forall x | 0 <= x < PATTERN_ARGS
          ensures Assign(ids, 0, EmptyTable())[x] < PATTERN_ARGS
        {
          AssignedTo(ids, x);
        }
        forall j | 0 <= j < |ids|
          ensures SetArgs(0, Assign(ids, 0, EmptyTable()), values, stale)[j] == values[ids[j]]
        {
          FieldGetsItsValue(ids, values, stale, j);
        }
      }
    } else {
      var j, k :| 0 <= j < k < |ids| && ids[j] == ids[k];
      var values, stale := seq(PATTERN_ARGS, _ => true), seq(PATTERN_ARGS, _ => false);
      EarlierFieldIsStale(ids, values, stale, j, k);
      assert !FieldsRight(ids, values, stale);
    }
  }

  // ---------- Printing with the reordered arguments ----------

  datatype Printed<V> = C(c: char) | V(v: V)

  function Fill<V>(p: Piece, rest: seq<Printed<V>>, args: seq<V>): Option<seq<Printed<V>>> {
    match p
    case Lit(c) => Some([C(c)] + rest)
    case Arg(k) => if k < |args| then Some([V(args[k])] + rest) else None
  }

  /** The pieces with the arguments filled in; None if an argument is missing. */
  function Eval<V>(ps: seq<Piece>, args: seq<V>): Option<seq<Printed<V>>> {
    if ps == [] then Some([])
    else if Eval(ps[1..], args).None? then None
    else Fill(ps[0], Eval(ps[1..], args).value, args)
  }

  /** Every field is named. */
  predicate AllNamed(ts: seq<Tok>) {
    forall t :: t in ts && t.Field? ==> t.id.Name?
  }

  /** From position next on, the arguments are the values of these ids. */
  ghost predicate Supplies<V>(ids: seq<nat>, next: nat, values: seq<V>, args: seq<V>) {
    forall j :: 0 <= j < |ids| ==> ids[j] < |values| && next + j < |args| && args[next + j] == values[ids[j]]
  }

  ghost predicate InReach<V>(ids: seq<nat>, next: nat, values: seq<V>, args: seq<V>) {
    AllBelow(ids, |values|) && next + |ids| <= |args|
  }

  lemma SuppliesCons<V>(ids: seq<nat>, next: nat, values: seq<V>, args: seq<V>)
    requires InReach(ids, next, values, args) && ids != []
    ensures InReach(ids[1..], next + 1, values, args) && ids[0] < |values| && next < |args|
    ensures Supplies(ids, next, values, args)
            <==> args[next] == values[ids[0]] && Supplies(ids[1..], next + 1, values, args)
  {
    if Supplies(ids, next, values, args) {
      assert next + 0 == next;
      forall j | 0 <= j < |ids[1..]|
        ensures args[(next + 1) + j] == values[ids[1..][j]]
      {
        assert ids[1..][j] == ids[j + 1] && next + (j + 1) == (next + 1) + j;
      }
    }
    if args[next] == values[ids[0]] && Supplies(ids[1..], next + 1, values, args) {
      forall j | 0 <= j < |ids|
        ensures ids[j] < |values| && next + j < |args| && args[next + j] == values[ids[j]]
      {
        if j > 0 {
          assert ids[1..][j - 1] == ids[j] && (next + 1) + (j - 1) == next + j;
        }
      }
    }
  }

  /** Both ways of printing succeed, and they print the same exactly when the arguments supplied are
      the values named. */
  ghost predicate SameIffSupplied<V>(ts: seq<Tok>, named: seq<NamedArg>, next: nat, mode: Mode,
                                     values: seq<V>, args: seq<V>)
  {
    var us := Print(ReplaceAll(ts, named, true), named, next, mode);
    var vs := Print(ts, named, 0, Unset);
    && us.Some? && vs.Some?
    && Eval(us.value, args).Some? && Eval(vs.value, values).Some?
    && (Eval(us.value, args) == Eval(vs.value, values) <==> Supplies(IdsOf(ts, named), next, values, args))
  }

  /** One token ahead of others. */
  lemma IdsCons(t: Tok, ts: seq<Tok>, named: seq<NamedArg>)
    requires Known([t] + ts, named)
    ensures Known(ts, named)
    ensures t.Field? && t.id.Name? ==> Lookup(named, t.id.s).Some?
    ensures IdsOf([t] + ts, named) ==
            (if t.Field? && t.id.Name? then [Lookup(named, t.id.s).value] else []) + IdsOf(ts, named)
  {
    KnownCons(t, ts, named);
    hide Known;
    assert ([t] + ts)[1..] == ts;
  }

  lemma PrintName(ts: seq<Tok>, named: seq<NamedArg>, next: nat, mode: Mode)
    requires ts != [] && ts[0].Field? && ts[0].id.Name? && Lookup(named, ts[0].id.s).Some?
    ensures Print(ts, named, next, mode)
            == Add(Arg(Lookup(named, ts[0].id.s).value), Print(ts[1..], named, next, mode))
  {
  }

  lemma PrintAuto(ts: seq<Tok>, named: seq<NamedArg>, next: nat, mode: Mode)
    requires ts != [] && ts[0] == Field(Auto) && !mode.Manual?
    ensures Print(ts, named, next, mode) == Add(Arg(next), Print(ts[1..], named, next + 1, Automatic))
  {
  }

  lemma PrintText(ts: seq<Tok>, named: seq<NamedArg>, next: nat, mode: Mode)
    requires ts != [] && !ts[0].Field?
    ensures Print(ts, named, next, mode)
            == Add(Lit(if ts[0].Ch? then ts[0].c else '{'), Print(ts[1..], named, next, mode))
  {
  }

  lemma {:induction false} ReorderedPrintsSame<V>(ts: seq<Tok>, named: seq<NamedArg>, next: nat, mode: Mode,
                                                  values: seq<V>, args: seq<V>)
    requires AllNamed(ts) && Known(ts, named) && !mode.Manual?
    requires InReach(IdsOf(ts, named), next, values, args)
    ensures SameIffSupplied(ts, named, next, mode, values, args)
    decreases |ts|
  {
    if ts != [] {
      var t, rest := ts[0], ts[1..];
      assert ts == [t] + rest;
      IdsCons(t, rest, named);
      ReplaceCons(ts, named, true);
      AllNamedRest(ts);
      hide ReplaceAll, Known, AllNamed, Supplies, InReach, Eval, IdsOf, Lookup, Fill, Print;
      var us, ids := ReplaceAll(ts, named, true), IdsOf(ts, named);
      if t.Field? {
        var id := Lookup(named, t.id.s).value;
        assert ids[1..] == IdsOf(rest, named) && ids[0] == id;
        PrintAuto(us, named, next, mode);
        PrintName(ts, named, 0, Unset);
        SuppliesCons(ids, next, values, args);
        ReorderedPrintsSame(rest, named, next + 1, Automatic, values, args);
        EvalCons(Arg(next), Arg(id), Print(us[1..], named, next + 1, Automatic).value,
                 Print(rest, named, 0, Unset).value, args, values);
      } else {
        assert ids == IdsOf(rest, named);
        PrintText(us, named, next, mode);
        PrintText(ts, named, 0, Unset);
        ReorderedPrintsSame(rest, named, next, mode, values, args);
        var p := Lit(if t.Ch? then t.c else '{');
        EvalCons(p, p, Print(us[1..], named, next, mode).value, Print(rest, named, 0, Unset).value, args, values);
      }
    }
  }

  lemma AllNamedRest(ts: seq<Tok>)
    requires ts != [] && AllNamed(ts)
    ensures AllNamed(ts[1..]) && (ts[0].Field? ==> ts[0].id.Name?)
  {
    assert ts == [ts[0]] + ts[1..];
    assert ts[0] in ts;
  }

  /** Pieces in front of two printable rests: characters must agree, arguments must have the same
      value. */
  lemma EvalCons<V>(p: Piece, q: Piece, ps: seq<Piece>, qs: seq<Piece>, args: seq<V>, values: seq<V>)
    requires Eval(ps, args).Some? && Eval(qs, values).Some?
    requires (p == q && p.Lit?) || (p.Arg? && q.Arg? && p.k < |args| && q.k < |values|)
    ensures Eval([p] + ps, args).Some? && Eval([q] + qs, values).Some?
    ensures Eval([p] + ps, args) == Eval([q] + qs, values)
            <==> (p.Arg? ==> args[p.k] == values[q.k]) && Eval(ps, args) == Eval(qs, values)
  {
    var e, f := Eval(ps, args).value, Eval(qs, values).value;
    assert ([p] + ps)[1..] == ps && ([q] + qs)[1..] == qs;
    if p.Lit? {
      PrintedCons(C(p.c), C(p.c), e, f);
    } else {
      PrintedCons(V(args[p.k]), V(values[q.k]), e, f);
    }
  }

  lemma PrintedCons<V>(x: Printed<V>, y: Printed<V>, xs: seq<Printed<V>>, ys: seq<Printed<V>>)
    ensures [x] + xs == [y] + ys <==> x == y && xs == ys
  {
    if [x] + xs == [y] + ys {
      assert ([x] + xs)[0] == ([y] + ys)[0] && ([x] + xs)[1..] == xs && ([y] + ys)[1..] == ys;
    }
  }

  /** A header pattern as documented, of no more fields than there are arguments: every field is a
      known name and is closed or has a format specification. */
  predicate HeaderPattern(s: string, named: seq<NamedArg>) {
    && Tokenize(s).Some?
    && var ts := Tokenize(s).value;
       && AllNamed(ts) && Known(ts, named) && Delimited(ts)
       && AllBelow(IdsOf(ts, named), PATTERN_ARGS) && |IdsOf(ts, named)| <= PATTERN_ARGS
  }

  /** The rewritten pattern prints from the reordered arguments what the pattern prints by name from
      the values. */
  ghost predicate HeaderPrintsSame<V>(s: string, named: seq<NamedArg>, values: seq<V>, stale: seq<V>)
    requires HeaderPattern(s, named) && |values| == PATTERN_ARGS <= |stale|
  {
    var ts, r := Tokenize(s).value, Rewrite(s, named, true);
    var table := Assign(IdsOf(ts, named), 0, EmptyTable());
    && r.Some? && Tokenize(r.value).Some?
    && (forall x :: 0 <= x < PATTERN_ARGS ==> table[x] < PATTERN_ARGS)
    && var us, vs := Print(Tokenize(r.value).value, named, 0, Unset), Print(ts, named, 0, Unset);
       us.Some? && vs.Some? && Eval(us.value, SetArgs(0, table, values, stale)) == Eval(vs.value, values)
  }

  /** It does so exactly when every field's slot holds the value of its own name. */
  lemma HeaderPrintsIff<V>(s: string, named: seq<NamedArg>, values: seq<V>, stale: seq<V>)
    requires HeaderPattern(s, named) && |values| == PATTERN_ARGS <= |stale|
    ensures HeaderPrintsSame(s, named, values, stale)
            <==> FieldsRight(IdsOf(Tokenize(s).value, named), values, stale)
  {
    hide Tokenize, Rewrite, Print, Eval, Known, Delimited, AllNamed, ReplaceAll, IdsOf, SetArgs, Assign;
    RewriteIsSound(s, named, true);
    var ts := Tokenize(s).value;
    var ids := IdsOf(ts, named);
    var table := Assign(ids, 0, EmptyTable());
    TableBelow(ids);
    var args := SetArgs(0, table, values, stale);
    ReorderedPrintsSame(ts, named, 0, Unset, values, args);
    assert Supplies(ids, 0, values, args) <==> FieldsRight(ids, values, stale) by {
      assert forall j :: 0 <= j < |ids| ==> args[0 + j] == args[j];
    }
  }

  /** Preservation, names dropped: a header pattern all of whose fields are different prints the same,
      whatever the values and whatever the slots held before. */
  lemma ReorderingPreservesPrint<V>(s: string, named: seq<NamedArg>, values: seq<V>, stale: seq<V>)
    requires HeaderPattern(s, named) && NoDuplicates(IdsOf(Tokenize(s).value, named))
    requires |values| == PATTERN_ARGS <= |stale|
    ensures HeaderPrintsSame(s, named, values, stale)
  {
    hide Tokenize, HeaderPrintsSame, Known, Delimited, AllNamed, IdsOf, SetArgs, Assign;
    var ids := IdsOf(Tokenize(s).value, named);
    TableBelow(ids);
    forall j | 0 <= j < |ids|
      ensures SetArgs(0, Assign(ids, 0, EmptyTable()), values, stale)[j] == values[ids[j]]
    {
      FieldGetsItsValue(ids, values, stale, j);
    }
    HeaderPrintsIff(s, named, values, stale);
  }

  /** And only such a pattern does: with a name used twice there are values, and old contents of the
      slots, for which the header printed is another one. */
  lemma ReorderingPreservesIffDistinct(s: string, named: seq<NamedArg>)
    requires HeaderPattern(s, named)
    ensures NoDuplicates(IdsOf(Tokenize(s).value, named)) <==>
      forall values: seq<bool>, stale: seq<bool> :: |values| == PATTERN_ARGS <= |stale| ==>
        HeaderPrintsSame(s, named, values, stale)
  {
    hide Tokenize, HeaderPrintsSame, FieldsRight, Known, Delimited, AllNamed, IdsOf, NoDuplicates;
    FieldsRightIffDistinct(IdsOf(Tokenize(s).value, named));
    forall values: seq<bool>, stale: seq<bool> | |values| == PATTERN_ARGS <= |stale|
      ensures HeaderPrintsSame(s, named, values, stale) <==> FieldsRight(IdsOf(Tokenize(s).value, named), values, stale)
    {
      HeaderPrintsIff(s, named, values, stale);
    }
  }
}
