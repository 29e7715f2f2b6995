/** The placeholder interpolator against the lexer: what it accepts, what it
    writes, and when its output still means what the query said. */
module Interpolate {
  import opened Basics
  import opened DecimalText
  import opened SqlLexer
  import V = Values

  /** strconv's text of a finite float is taken from the library. */
  datatype Float = NaN | PosInf | NegInf | Finite(text: string)

  /** The argument types database/sql may pass; a time is its UTC text. */
  datatype DriverValue =
    | DNil | DBool(b: bool) | DInt(n: int) | DFloat(f: Float) | DText(s: string) | DBlob(bytes: Bytes)
    | DTime(text: string) | DDecimal(d: V.Decimal) | DOther

  datatype Arg = Arg(name: string, value: DriverValue)

  datatype Rewritten = Text(sql: string) | NamedArgument | MorePlaceholders | CannotRender | FewerPlaceholders

  // ---- literals ------------------------------------------------------------------------

  /** Every quote doubled. */
  function Doubled(s: string): string
  {
    if s == "" then "" else (if s[0] == '\'' then "''" else [s[0]]) + Doubled(s[1..])
  }

  function Hex(n: nat): char
    requires n < 16
  {
    "0123456789ABCDEF"[n]
  }

  function HexBytes(bytes: Bytes): string
  {
    if bytes == [] then ""
    else HexBytes(bytes[..|bytes| - 1]) + ['\\', 'x', Hex(bytes[|bytes| - 1] / 16), Hex(bytes[|bytes| - 1] % 16)]
  }

  function IntText(n: int): string
  {
    (if n < 0 then "-" else "") + Digits(Magnitude(n))
  }

  /** literal */
  function Literal(v: DriverValue): Option<string>
  {
    match v
    case DNil => Some("NULL")
    case DBool(b) => Some(if b then "TRUE" else "FALSE")
    case DInt(n) => Some(IntText(n))
    case DFloat(NaN) => Some("'nan'::DOUBLE")
    case DFloat(PosInf) => Some("'infinity'::DOUBLE")
    case DFloat(NegInf) => Some("'-infinity'::DOUBLE")
    case DFloat(Finite(text)) => Some(text)
    case DText(s) => Some("'" + Doubled(s) + "'")
    case DBlob(bytes) => Some("'" + HexBytes(bytes) + "'::BLOB")
    case DTime(text) => Some("TIMESTAMP '" + text + "'")
    case DDecimal(d) => Some(DecimalText.Text(V.BigInt(d), d.scale))
    case DOther => None
  }

  /** literal's BLOB loop */
  method BlobLiteral(bytes: Bytes) returns (s: string)
    ensures Some(s) == Literal(DBlob(bytes))
  {
    s := "'";
    for i := 0 to |bytes|
      invariant s == "'" + HexBytes(bytes[..i])
    {
      assert bytes[..i + 1][..i] == bytes[..i];
      var c := bytes[i];
      assert ("'" + HexBytes(bytes[..i])) + ['\\', 'x', Hex(c / 16), Hex(c % 16)]
             == "'" + (HexBytes(bytes[..i]) + ['\\', 'x', Hex(c / 16), Hex(c % 16)]);
      s := s + ['\\', 'x', Hex(c / 16), Hex(c % 16)];
    }
    assert bytes[..|bytes|] == bytes;
    s := s + "'::BLOB";
  }

  // ---- the rewriting as a function of the tokens ----------------------------------------

  function Prepend(s: string, r: Rewritten): Rewritten
  {
    if r.Text? then Text(s + r.sql) else r
  }

  function Rewrite(ts: seq<Token>, args: seq<DriverValue>): Rewritten
  {
    if ts == [] then (if args == [] then Text("") else FewerPlaceholders)
    else if !ts[0].Hole? then Prepend(TextOf(ts[0]), Rewrite(ts[1..], args))
    else if args == [] then MorePlaceholders
    else
      var lit := Literal(args[0]);
      if lit.None? then CannotRender else Prepend(lit.value, Rewrite(ts[1..], args[1..]))
  }

  function ValuesOf(args: seq<Arg>): (vs: seq<DriverValue>)
    ensures |vs| == |args|
  {
    seq(|args|, i requires 0 <= i < |args| => args[i].value)
  }

  function Interpolated(query: string, args: seq<Arg>): Rewritten
  {
    if exists i :: 0 <= i < |args| && args[i].name != "" then NamedArgument
    else Rewrite(Lex(query), ValuesOf(args))
  }

  // ---- the loops ---------------------------------------------------------------------------

  lemma {:induction false} QuotedShift(s: string, k: nat, i: nat, quote: char)
    requires k <= |s| && i <= |s| - k
    ensures QuotedEnd(s, k + i, quote) == (k + QuotedEnd(s[k..], i, quote).0, QuotedEnd(s[k..], i, quote).1)
    decreases |s| - k - i
  {
    if i < |s| - k {
      if s[k + i] != quote {
        QuotedShift(s, k, i + 1, quote);
      } else if k + i + 1 < |s| && s[k + i + 1] == quote {
        QuotedShift(s, k, i + 2, quote);
      }
    }
  }

  /** skipQuoted */
  method SkipQuoted(s: string, start: nat, quote: char) returns (end: nat)
    requires start < |s|
    ensures end == start + QuotedEnd(s[start..], 1, quote).0
  {
    QuotedShift(s, start, 1, quote);
    var i := start + 1;
    while i < |s|
      invariant start < i <= |s|
      invariant QuotedEnd(s, i, quote) == QuotedEnd(s, start + 1, quote)
    {
      if s[i] == quote {
        if i + 1 < |s| && s[i + 1] == quote {
          i := i + 2;
          continue;
        }
        return i + 1;
      }
      i := i + 1;
    }
    end := |s|;
  }

  /** The rest of the rewriting, by the token at `i`. */
  lemma RewriteAt(query: string, i: nat, vs: seq<DriverValue>)
    requires i < |query|
    ensures var t := First(query[i..]);
            Rewrite(Lex(query[i..]), vs)
            == if !t.Hole? then Prepend(TextOf(t), Rewrite(Lex(query[i + |TextOf(t)|..]), vs))
               else if vs == [] then MorePlaceholders
               else if Literal(vs[0]).None? then CannotRender
               else Prepend(Literal(vs[0]).value, Rewrite(Lex(query[i + 1..]), vs[1..]))
  {
    hide First, Literal, Prepend;
    var s := query[i..];
    var t := First(s);
    var rest := s[|TextOf(t)|..];
    assert rest == query[i + |TextOf(t)|..];
    assert Lex(s) == [t] + Lex(rest);
    assert Lex(s)[0] == t && Lex(s)[1..] == Lex(rest);
  }

  /** One token further. */
  lemma Advanced(b: string, query: string, i: nat, vs: seq<DriverValue>, all: Rewritten)
    requires i < |query| && Prepend(b, Rewrite(Lex(query[i..]), vs)) == all
    ensures var t := First(query[i..]);
            && !t.Hole? ==> Prepend(b + TextOf(t), Rewrite(Lex(query[i + |TextOf(t)|..]), vs)) == all
    ensures var t := First(query[i..]);
            && t.Hole? && vs != [] && Literal(vs[0]).Some? ==>
              Prepend(b + Literal(vs[0]).value, Rewrite(Lex(query[i + 1..]), vs[1..])) == all
    ensures First(query[i..]).Hole? && vs == [] ==> all == MorePlaceholders
    ensures First(query[i..]).Hole? && vs != [] && Literal(vs[0]).None? ==> all == CannotRender
  {
    RewriteAt(query, i, vs);
    hide First, Literal, Lex, Rewrite;
    var t := First(query[i..]);
    if !t.Hole? {
      PrependTwice(b, TextOf(t), Rewrite(Lex(query[i + |TextOf(t)|..]), vs));
    } else if vs != [] && Literal(vs[0]).Some? {
      PrependTwice(b, Literal(vs[0]).value, Rewrite(Lex(query[i + 1..]), vs[1..]));
    }
  }

  lemma PrependTwice(a: string, b: string, r: Rewritten)
    ensures Prepend(a, Prepend(b, r)) == Prepend(a + b, r)
  {
    if r.Text? {
      assert a + (b + r.sql) == (a + b) + r.sql;
    }
  }

  /** A query without placeholders or arguments is its own rewriting. */
  lemma {:induction false} NothingToDo(query: string)
    requires '?' !in query
    ensures Rewrite(Lex(query), []) == Text(query)
    decreases |query|
  {
    hide First;
    if query != "" {
      var t := First(query);
      var rest := query[|TextOf(t)|..];
      assert TextOf(t)[0] == query[0] && query[0] in query;
      assert !t.Hole?;
      NothingToDo(rest);
      assert Lex(query)[1..] == Lex(rest) && query == TextOf(t) + rest;
    }
  }

  /** interpolate */
  method Render(query: string, args: seq<Arg>) returns (res: Rewritten)
    ensures res == Interpolated(query, args)
  {
    hide Rewrite, Lex;
    for j := 0 to |args|
      invariant forall i :: 0 <= i < j ==> args[i].name == ""
    {
      if args[j].name != "" {
        return NamedArgument;
      }
    }
    if |args| == 0 && '?' !in query {
      NothingToDo(query);
      assert ValuesOf(args) == [];
      return Text(query);
    }
    res := Replace(query, ValuesOf(args));
  }

  /** interpolate's loop over the query */
  method Replace(query: string, vs: seq<DriverValue>) returns (res: Rewritten)
    ensures res == Rewrite(Lex(query), vs)
  {
    hide First, Lex, Literal, Rewrite, QuotedEnd, LineEnd, BlockEnd, Prepend;
    ghost var all := Rewrite(Lex(query), vs);
    var b := "";
    var arg, i := 0, 0;
    assert query[0..] == query && vs[0..] == vs;
    PrependNothing(all);
    while i < |query|
      invariant i <= |query| && arg <= |vs|
      invariant Prepend(b, Rewrite(Lex(query[i..]), vs[arg..])) == all
    {
      var ch := query[i];
      Advanced(b, query, i, vs[arg..], all);
      FirstCases(query, i);
      if ch == '?' {
        if arg >= |vs| {
          return MorePlaceholders;
        }
        assert vs[arg..][0] == vs[arg] && vs[arg..][1..] == vs[arg + 1..];
        var lit := Literal(vs[arg]);
        if lit.None? {
          return CannotRender;
        }
        b := b + lit.value;
        arg := arg + 1;
        i := i + 1;
      } else if ch == '\'' || ch == '"' {
        var end := SkipQuoted(query, i, ch);
        b := b + query[i..end];
        i := end;
      } else if ch == '-' && i + 1 < |query| && query[i + 1] == '-' {
        var end := i + LineEnd(query[i..], 0);
        assert TextOf(First(query[i..])) != "";
        b := b + query[i..end];
        i := end;
      } else if ch == '/' && i + 1 < |query| && query[i + 1] == '*' {
        var end := i + BlockEnd(query[i..], 2).0;
        b := b + query[i..end];
        i := end;
      } else {
        b := b + [ch];
        i := i + 1;
      }
    }
    Finished(b, query, vs[arg..]);
    if arg != |vs| {
      return FewerPlaceholders;
    }
    res := Text(b);
  }

  lemma PrependNothing(r: Rewritten)
    ensures Prepend("", r) == r
  {
    if r.Text? {
      assert "" + r.sql == r.sql;
    }
  }

  lemma Finished(b: string, query: string, vs: seq<DriverValue>)
    ensures Prepend(b, Rewrite(Lex(query[|query|..]), vs)) == if vs == [] then Text(b) else FewerPlaceholders
  {
    assert query[|query|..] == "" && b + "" == b;
  }

  /** The token at `i`, by the characters the loop looks at. */
  lemma FirstCases(query: string, i: nat)
    requires i < |query|
    ensures var t, ch := First(query[i..]), query[i];
            if ch == '?' then t == Hole
            else if ch == '\'' || ch == '"' then
              t == Quoted(query[i..i + QuotedEnd(query[i..], 1, ch).0])
            else if ch == '-' && i + 1 < |query| && query[i + 1] == '-' then
              t == Comment(query[i..i + LineEnd(query[i..], 0)])
            else if ch == '/' && i + 1 < |query| && query[i + 1] == '*' then
              t == Comment(query[i..i + BlockEnd(query[i..], 2).0])
            else t == Plain(ch)
  {
    hide QuotedEnd, LineEnd, BlockEnd;
    var s := query[i..];
    assert s[0] == query[i] && (i + 1 < |query| ==> s[1] == query[i + 1]);
    if IsQuote(s[0]) {
      var e := QuotedEnd(s, 1, s[0]).0;
      assert s[..e] == query[i..i + e];
    } else if StartsLine(s) {
      var e := LineEnd(s, 0);
      assert s[..e] == query[i..i + e];
    } else if StartsBlock(s) {
      var e := BlockEnd(s, 2).0;
      assert s[..e] == query[i..i + e];
    }
  }

  // ---- when it succeeds -------------------------------------------------------------------

  function Holes(ts: seq<Token>): nat
  {
    if ts == [] then 0 else (if ts[0].Hole? then 1 else 0) + Holes(ts[1..])
  }

  /** Every token as it is, literals in the placeholders' positions. */
  function Fill(ts: seq<Token>, lits: seq<string>): string
    requires Holes(ts) == |lits|
  {
    if ts == [] then ""
    else if ts[0].Hole? then lits[0] + Fill(ts[1..], lits[1..])
    else TextOf(ts[0]) + Fill(ts[1..], lits)
  }

  predicate AllRender(vs: seq<DriverValue>)
  {
    forall i :: 0 <= i < |vs| ==> Literal(vs[i]).Some?
  }

  function Literals(vs: seq<DriverValue>): (lits: seq<string>)
    requires AllRender(vs)
    ensures |lits| == |vs|
  {
    seq(|vs|, i requires 0 <= i < |vs| => Literal(vs[i]).value)
  }

  lemma {:induction false} RewriteExactly(ts: seq<Token>, vs: seq<DriverValue>)
    ensures Rewrite(ts, vs).Text? <==> AllRender(vs) && |vs| == Holes(ts)
    ensures AllRender(vs) && |vs| == Holes(ts) ==> Rewrite(ts, vs) == Text(Fill(ts, Literals(vs)))
    decreases |ts|
  {
    hide Literal;
    if ts != [] {
      if !ts[0].Hole? {
        RewriteExactly(ts[1..], vs);
      } else if vs != [] {
        RewriteExactly(ts[1..], vs[1..]);
        assert AllRender(vs) <==> Literal(vs[0]).Some? && AllRender(vs[1..]) by {
          if Literal(vs[0]).Some? && AllRender(vs[1..]) {
            forall i | 0 <= i < |vs| ensures Literal(vs[i]).Some? {
              assert i > 0 ==> vs[i] == vs[1..][i - 1];
            }
          }
        }
        if AllRender(vs) {
          assert Literals(vs)[1..] == Literals(vs[1..]);
        }
      }
    }
  }

  /** The interpolator succeeds exactly when no argument is named, all can be
      rendered, and there are as many as placeholders outside quotes and
      comments; then every other byte is where it was. */
  lemma SucceedsExactly(query: string, args: seq<Arg>)
    ensures Interpolated(query, args).Text? <==>
              && (forall i :: 0 <= i < |args| ==> args[i].name == "")
              && AllRender(ValuesOf(args)) && |args| == Holes(Lex(query))
    ensures Interpolated(query, args).Text? ==>
              Interpolated(query, args).sql == Fill(Lex(query), Literals(ValuesOf(args)))
  {
    hide Literal, Lex, Rewrite, Fill;
    RewriteExactly(Lex(query), ValuesOf(args));
  }

  // ---- what the output means ------------------------------------------------------------------

  /** Each literal's own tokens in place of its placeholder. */
  function Substitute(ts: seq<Token>, lits: seq<string>): seq<Token>
    requires Holes(ts) == |lits|
  {
    if ts == [] then []
    else if ts[0].Hole? then Lex(lits[0]) + Substitute(ts[1..], lits[1..])
    else [ts[0]] + Substitute(ts[1..], lits)
  }

  lemma {:induction false} SubstituteText(ts: seq<Token>, lits: seq<string>)
    requires Holes(ts) == |lits|
    ensures Flat(Substitute(ts, lits)) == Fill(ts, lits)
    decreases |ts|
  {
    hide Lex;
    if ts != [] {
      if ts[0].Hole? {
        SubstituteText(ts[1..], lits[1..]);
        FlatAppend(Lex(lits[0]), Substitute(ts[1..], lits[1..]));
        FlatLex(lits[0]);
      } else {
        SubstituteText(ts[1..], lits);
        FlatAppend([ts[0]], Substitute(ts[1..], lits));
        assert Flat([ts[0]]) == TextOf(ts[0]) by { assert TextOf(ts[0]) + "" == TextOf(ts[0]); }
      }
    }
  }

  /** The first character to come, of a literal or of the query. */
  function Upcoming(ts: seq<Token>, lits: seq<string>): (c: Option<char>)
    requires Holes(ts) == |lits|
  {
    if ts == [] then None
    else if ts[0].Hole? then (if lits[0] == "" then None else Some(lits[0][0]))
    else if TextOf(ts[0]) == "" then None else Some(TextOf(ts[0])[0])
  }

  /** At every edge of a placeholder, what stands before ends before what
      comes next. */
  predicate Separated(ts: seq<Token>, lits: seq<string>)
    requires Holes(ts) == |lits|
  {
    if ts == [] then true
    else if ts[0].Hole? then
      && (Upcoming(ts[1..], lits[1..]).Some? && lits[0] != "" ==>
            Ends(Lex(lits[0])[|Lex(lits[0])| - 1], Upcoming(ts[1..], lits[1..]).value))
      && Separated(ts[1..], lits[1..])
    else
      && (|ts| > 1 && ts[1].Hole? && Upcoming(ts[1..], lits).Some? ==> Ends(ts[0], Upcoming(ts[1..], lits).value))
      && Separated(ts[1..], lits)
  }

  lemma UpcomingIs(ts: seq<Token>, lits: seq<string>)
    requires Holes(ts) == |lits| && Lexes(ts) && forall l <- lits :: l != ""
    ensures Upcoming(ts, lits).Some? <==> Fill(ts, lits) != ""
    ensures Upcoming(ts, lits).Some? ==> Upcoming(ts, lits).value == Fill(ts, lits)[0]
  {
    hide Lex, Lexes;
    if ts != [] {
      NonEmpty(ts, 0);
      if ts[0].Hole? {
        assert lits[0] in lits;
      }
    }
  }

  lemma TailLexes(ts: seq<Token>)
    requires Lexes(ts) && ts != []
    ensures Lexes(ts[1..]) && Lexes([ts[0]]) && TextOf(ts[0]) != ""
    ensures Flat(ts[1..]) != "" ==> Ends(ts[0], Flat(ts[1..])[0])
  {
    hide First, Ends;
    NonEmpty(ts, 0);
    assert ts == [ts[0]] + ts[1..];
    LexesCons(ts[0], ts[1..]);
    FirstAlone(ts[0], Flat(ts[1..]));
    LexesCons(ts[0], []);
    assert [ts[0]] + [] == [ts[0]] && TextOf(ts[0]) + "" == TextOf(ts[0]);
    Junction([ts[0]], ts[1..]);
  }

  /** Reading the output again gives the query's own tokens with each
      literal's tokens in its placeholder's position, exactly when the
      placeholders' edges are separated. */
  lemma {:induction false} RelexesExactly(ts: seq<Token>, lits: seq<string>)
    requires Lexes(ts) && Holes(ts) == |lits| && forall l <- lits :: l != ""
    ensures Lexes(Substitute(ts, lits)) <==> Separated(ts, lits)
    decreases |ts|
  {
    hide Lex, Lexes, Ends, First;
    if ts == [] {
      assert Lexes([]) by { LexesNothing(); }
    } else {
      TailLexes(ts);
      var rest := ts[1..];
      if ts[0].Hole? {
        var lit, more := lits[0], lits[1..];
        assert lit in lits && forall l <- more :: l in lits;
        RelexesExactly(rest, more);
        LexesText(lit);
        FlatLex(lit);
        Junction(Lex(lit), Substitute(rest, more));
        SubstituteText(rest, more);
        UpcomingIs(rest, more);
      } else {
        RelexesExactly(rest, lits);
        Junction([ts[0]], Substitute(rest, lits));
        SubstituteText(rest, lits);
        UpcomingIs(rest, lits);
        if rest != [] && !rest[0].Hole? {
          NonEmpty(rest, 0);
          assert Flat(rest)[0] == TextOf(rest[0])[0];
        }
      }
    }
  }

  lemma LexesNothing()
    ensures Lexes([])
  {
  }

  /** The same about the text itself. */
  lemma OutputRelexes(query: string, args: seq<Arg>)
    requires Interpolated(query, args).Text? && AllRender(ValuesOf(args)) && "" !in Literals(ValuesOf(args))
    ensures Holes(Lex(query)) == |args|
    ensures var lits := Literals(ValuesOf(args));
            Lex(Interpolated(query, args).sql) == Substitute(Lex(query), lits) <==> Separated(Lex(query), lits)
  {
    SucceedsExactly(query, args);
    var lits := Literals(ValuesOf(args));
    LexesText(query);
    hide Lex, Literals, Interpolated, Fill, Substitute, Separated;
    RelexesExactly(Lex(query), lits);
    SubstituteText(Lex(query), lits);
  }

  // ---- literals and their edges ----------------------------------------------------------------

  /** What is taken from the library: floats print as numbers, times print
      without quotes. */
  predicate FromLibrary(v: DriverValue)
  {
    (v.DFloat? && v.f.Finite? ==> IsNumber(v.f.text)) && (v.DTime? ==> '\'' !in v.text)
  }

  predicate IsWord(c: char) { IsDigit(c) || 'A' <= c <= 'Z' || 'a' <= c <= 'z' }

  /** Characters that stand for themselves, and no comment among them. */
  predicate IsPlain(s: string)
  {
    && (forall i :: 0 <= i < |s| ==> s[i] != '?' && !IsQuote(s[i]) && s[i] != '/')
    && (forall i :: 0 < i < |s| ==> !(s[i - 1] == '-' && s[i] == '-'))
  }

  lemma PlainFirst(s: string)
    requires IsPlain(s) && s != ""
    ensures First(s) == Plain(s[0])
  {
    hide QuotedEnd, LineEnd, BlockEnd;
  }

  lemma {:induction false} PlainLex(s: string)
    requires IsPlain(s)
    ensures Lex(s) == seq(|s|, i requires 0 <= i < |s| => Plain(s[i]))
    decreases |s|
  {
    if s != "" {
      PlainFirst(s);
      hide First;
      var rest := s[1..];
      assert forall i :: 0 <= i < |rest| ==> rest[i] == s[i + 1];
      PlainLex(rest);
      assert Lex(s) == [Plain(s[0])] + Lex(rest);
    }
  }

  /** A number's text is plain and has a digit at its end. */
  lemma NumberPlain(s: string)
    requires IsNumber(s)
    ensures s != "" && IsPlain(s) && IsDigit(s[|s| - 1]) && (s[0] == '-' || IsDigit(s[0]))
  {
    hide IsNumber;
    NumberShape(s);
    forall i | 0 < i < |s| ensures IsNumberChar(s[i]) && !(s[i - 1] == '-' && s[i] == '-') {
      assert Fits(s, i);
    }
  }

  lemma IntIsNumber(n: int)
    ensures IsNumber(IntText(n))
  {
    TextReadsBack(n, 0);
    assert Digits(WholePart(Magnitude(n), 0)) + "" == Digits(Magnitude(n)) by {
      assert Magnitude(n) / 1 == Magnitude(n);
      assert Digits(Magnitude(n)) + "" == Digits(Magnitude(n));
    }
  }

  lemma {:induction false} DoubledEnd(s: string, pre: string)
    ensures QuotedEnd(pre + Doubled(s) + "'", |pre|, '\'') == (|pre| + |Doubled(s)| + 1, true)
    decreases |s|
  {
    var all := pre + Doubled(s) + "'";
    if s == "" {
      assert all == pre + "'";
    } else {
      var head := if s[0] == '\'' then "''" else [s[0]];
      assert all == (pre + head) + Doubled(s[1..]) + "'";
      DoubledEnd(s[1..], pre + head);
    }
  }

  lemma {:induction false} UnquotedEnd(s: string, pre: string, post: string)
    requires '\'' !in s && (post != "" ==> post[0] != '\'')
    ensures QuotedEnd(pre + s + "'" + post, |pre|, '\'') == (|pre| + |s| + 1, true)
    decreases |s|
  {
    var all := pre + s + "'" + post;
    if s == "" {
      assert all == pre + "'" + post;
    } else {
      assert s[0] in s && all[|pre|] == s[0];
      assert all == (pre + [s[0]]) + s[1..] + "'" + post;
      UnquotedEnd(s[1..], pre + [s[0]], post);
    }
  }

  /** One quoted region and nothing else. */
  lemma QuotedAlone(s: string)
    requires |s| > 0 && s[0] == '\'' && QuotedEnd(s, 1, '\'') == (|s|, true)
    ensures Lex(s) == [Quoted(s)]
  {
    assert s[..|s|] == s && s[|s|..] == "";
    assert First(s) == Quoted(s);
  }

  /** The last token of a literal: a word character, or a quoted region. */
  predicate LiteralEnd(t: Token)
  {
    (t.Plain? && IsWord(t.c)) || (t.Quoted? && t.text != "" && t.text[0] == '\'' && QuotedEnd(t.text, 1, '\'').1)
  }

  predicate LiteralStart(c: char) { c == '-' || c == '\'' || IsWord(c) }

  ghost predicate Edges(lit: string)
  {
    && lit != "" && LiteralStart(lit[0])
    && Lex(lit) != [] && LiteralEnd(Lex(lit)[|Lex(lit)| - 1])
  }

  lemma PlainEdges(s: string)
    requires s != "" && IsPlain(s) && LiteralStart(s[0]) && IsWord(s[|s| - 1])
    ensures Edges(s)
  {
    PlainLex(s);
  }

  /** Quotes, then plain characters behind them. */
  lemma CastEdges(s: string, post: string)
    requires '\'' !in s && post != "" && post[0] != '\'' && IsPlain(post) && IsWord(post[|post| - 1])
    ensures Edges("'" + s + "'" + post)
  {
    var lit := "'" + s + "'" + post;
    UnquotedEnd(s, "'", post);
    var n := |s| + 2;
    assert First(lit) == Quoted(lit[..n]);
    assert lit[n..] == post;
    PlainLex(post);
    assert Lex(lit) == [Quoted(lit[..n])] + Lex(post);
  }

  lemma TextEdges(s: string)
    ensures Edges("'" + Doubled(s) + "'")
  {
    DoubledEnd(s, "'");
    QuotedAlone("'" + Doubled(s) + "'");
  }

  /** Plain text in front of a literal changes nothing at its end. */
  lemma PrefixEdges(word: string, lit: string)
    requires IsPlain(word) && word != "" && LiteralStart(word[0]) && word[|word| - 1] == ' ' && Edges(lit)
    ensures Edges(word + lit)
  {
    hide LiteralStart, LiteralEnd;
    PlainLex(word);
    LexesText(word);
    LexesText(lit);
    FlatLex(word);
    FlatLex(lit);
    assert Ends(Lex(word)[|word| - 1], lit[0]);
    hide Lex, Ends, IsPlain;
    Junction(Lex(word), Lex(lit));
    FlatAppend(Lex(word), Lex(lit));
  }

  lemma TimeEdges(text: string)
    requires '\'' !in text
    ensures Edges("TIMESTAMP '" + text + "'")
  {
    hide Lex;
    var quoted := "'" + text + "'";
    assert "TIMESTAMP '" + text + "'" == "TIMESTAMP " + quoted;
    UnquotedEnd(text, "'", "");
    assert quoted + "" == quoted;
    QuotedAlone(quoted);
    PrefixEdges("TIMESTAMP ", quoted);
  }

  lemma {:induction false} HexPlain(bytes: Bytes)
    ensures '\'' !in HexBytes(bytes)
    decreases |bytes|
  {
    if bytes != [] {
      HexPlain(bytes[..|bytes| - 1]);
    }
  }

  lemma NumberEdges(s: string)
    requires IsNumber(s)
    ensures Edges(s)
  {
    NumberPlain(s);
    PlainEdges(s);
  }

  lemma WordEdges()
    ensures Edges("NULL") && Edges("TRUE") && Edges("FALSE")
  {
    PlainEdges("NULL");
    PlainEdges("TRUE");
    PlainEdges("FALSE");
  }

  lemma FloatEdges(f: Float)
    requires f.Finite? ==> IsNumber(f.text)
    ensures Literal(DFloat(f)).Some? && Edges(Literal(DFloat(f)).value)
  {
    hide Edges, IsNumber, Lex, QuotedEnd;
    match f
    case NaN => CastEdges("nan", "::DOUBLE"); assert "'" + "nan" + "'" + "::DOUBLE" == "'nan'::DOUBLE";
    case PosInf => CastEdges("infinity", "::DOUBLE"); assert "'" + "infinity" + "'" + "::DOUBLE" == "'infinity'::DOUBLE";
    case NegInf => CastEdges("-infinity", "::DOUBLE"); assert "'" + "-infinity" + "'" + "::DOUBLE" == "'-infinity'::DOUBLE";
    case Finite(text) => NumberEdges(text);
  }

  lemma BlobEdges(bytes: Bytes)
    ensures Edges("'" + HexBytes(bytes) + "'::BLOB")
  {
    hide Edges, HexBytes, Lex, QuotedEnd;
    HexPlain(bytes);
    CastEdges(HexBytes(bytes), "::BLOB");
    assert "'" + HexBytes(bytes) + "'" + "::BLOB" == "'" + HexBytes(bytes) + "'::BLOB";
  }

  lemma LiteralEdges(v: DriverValue)
    requires FromLibrary(v) && Literal(v).Some?
    ensures Edges(Literal(v).value)
  {
    hide Edges, IsNumber, Doubled, HexBytes, IntText;
    match v
    case DNil => WordEdges();
    case DBool(b) => WordEdges();
    case DInt(n) => IntIsNumber(n); NumberEdges(IntText(n));
    case DFloat(f) => FloatEdges(f);
    case DText(s) => TextEdges(s);
    case DBlob(bytes) => BlobEdges(bytes);
    case DTime(text) => TimeEdges(text);
    case DDecimal(d) => TextReadsBack(V.BigInt(d), d.scale); NumberEdges(DecimalText.Text(V.BigInt(d), d.scale));
  }

  // ---- a condition on the query alone ------------------------------------------------------------

  predicate IsSingleQuoted(t: Token) { t.Quoted? && t.text != "" && t.text[0] == '\'' }

  /** No placeholder right behind a minus, a single-quoted text or another
      placeholder, none right before a single-quoted text. */
  predicate Apart(ts: seq<Token>)
  {
    && (forall i :: 0 < i < |ts| && ts[i].Hole? ==> ts[i - 1] != Plain('-') && !IsSingleQuoted(ts[i - 1]) && !ts[i - 1].Hole?)
    && (forall i :: 0 < i < |ts| && ts[i - 1].Hole? ==> !IsSingleQuoted(ts[i]))
  }

  lemma LiteralEnds(t: Token, c: char)
    requires LiteralEnd(t) && c != '\''
    ensures Ends(t, c)
  {
  }

  lemma EndsBeforeLiteral(t: Token, c: char)
    requires Ends(t, '?') && LiteralStart(c) && t != Plain('-') && !IsSingleQuoted(t)
    requires t.Quoted? ==> t.text != "" && IsQuote(t.text[0])
    ensures Ends(t, c)
  {
  }

  lemma {:induction false} ApartSeparates(ts: seq<Token>, lits: seq<string>)
    requires Lexes(ts) && Apart(ts) && Holes(ts) == |lits| && forall l <- lits :: Edges(l)
    ensures Separated(ts, lits)
    decreases |ts|
  {
    hide Ends, Lexes, Lex, LiteralStart, LiteralEnd;
    if ts != [] {
      TailLexes(ts);
      var rest := ts[1..];
      assert forall i :: 0 <= i < |rest| ==> rest[i] == ts[i + 1];
      assert Apart(rest);
      if ts[0].Hole? {
        assert lits[0] in lits && forall l <- lits[1..] :: l in lits;
        ApartSeparates(rest, lits[1..]);
        if rest != [] {
          NonEmpty(rest, 0);
          QuotedStarts(rest);
          LiteralEnds(Lex(lits[0])[|Lex(lits[0])| - 1], TextOf(rest[0])[0]);
        }
      } else {
        ApartSeparates(rest, lits);
        if rest != [] && rest[0].Hole? {
          assert lits[0] in lits && Flat(rest)[0] == '?';
          QuotedStarts(ts);
          EndsBeforeLiteral(ts[0], lits[0][0]);
        }
      }
    }
  }

  /** Quoted regions start with a quote, and only they do. */
  lemma QuotedStarts(ts: seq<Token>)
    requires Lexes(ts) && ts != [] && TextOf(ts[0]) != ""
    ensures TextOf(ts[0])[0] == '\'' ==> IsSingleQuoted(ts[0])
    ensures ts[0].Quoted? ==> IsQuote(TextOf(ts[0])[0])
  {
    var s := Flat(ts);
    assert ts[0] == First(s);
  }

  lemma AllEdges(vs: seq<DriverValue>)
    requires AllRender(vs) && forall v <- vs :: FromLibrary(v)
    ensures forall l <- Literals(vs) :: Edges(l) && l != ""
  {
    hide Literal, FromLibrary, Edges;
    forall i | 0 <= i < |vs| ensures Edges(Literals(vs)[i]) && Literals(vs)[i] != "" {
      LiteralEdges(vs[i]);
      EdgesSome(Literals(vs)[i]);
    }
  }

  lemma EdgesSome(lit: string)
    requires Edges(lit)
    ensures lit != ""
  {
  }

  /** Queries that keep their placeholders apart mean what they say: whatever
      the arguments, the output reads as the query's own tokens around each
      literal's own. */
  lemma ApartRelexes(query: string, args: seq<Arg>)
    requires Interpolated(query, args).Text? && Apart(Lex(query)) && forall a <- args :: FromLibrary(a.value)
    ensures AllRender(ValuesOf(args)) && Holes(Lex(query)) == |args|
    ensures Lex(Interpolated(query, args).sql) == Substitute(Lex(query), Literals(ValuesOf(args)))
  {
    SucceedsExactly(query, args);
    var vs := ValuesOf(args);
    assert forall v <- vs :: FromLibrary(v);
    hide *;
    AllEdges(vs);
    assert "" !in Literals(vs);
    LexesText(query);
    ApartSeparates(Lex(query), Literals(vs));
    OutputRelexes(query, args);
  }

  /** Undoubling quotes. */
  function Undoubled(s: string): string
  {
    if s == "" then ""
    else if s[0] == '\'' && |s| > 1 then "'" + Undoubled(s[2..])
    else [s[0]] + Undoubled(s[1..])
  }

  /** A text argument is one quoted region that stands for exactly the text. */
  lemma {:induction false} TextSurvives(s: string)
    ensures Lex("'" + Doubled(s) + "'") == [Quoted("'" + Doubled(s) + "'")]
    ensures Undoubled(Doubled(s)) == s
    decreases |s|
  {
    DoubledEnd(s, "'");
    QuotedAlone("'" + Doubled(s) + "'");
    if s != "" {
      TextSurvives(s[1..]);
      if s[0] == '\'' {
        assert Doubled(s)[2..] == Doubled(s[1..]);
      } else {
        assert Doubled(s)[1..] == Doubled(s[1..]);
      }
    }
  }

  /** The code adds no separator: a negative number behind a minus makes a
      comment of what follows. */
  lemma MinusMinusOne()
    ensures Interpolated("-?", [Arg("", DInt(-1))]) == Text("--1")
    ensures Lex("-?") == [Plain('-'), Hole] && Lex("--1") == [Comment("--1")]
    ensures !Separated([Plain('-'), Hole], ["-1"])
  {
    assert Lex("-?") == [Plain('-'), Hole] by {
      assert First("-?") == Plain('-') && "-?"[1..] == "?";
      assert First("?") == Hole && "?"[1..] == "";
    }
    var args := [Arg("", DInt(-1))];
    var vs := ValuesOf(args);
    assert vs == [DInt(-1)];
    assert IntText(-1) == "-1" by { assert Digits(1) == "1"; assert "-" + "1" == "-1"; }
    assert Rewrite([Hole], vs) == Text("-1") by {
      assert "-1" + "" == "-1" && vs[1..] == [] && [Hole][1..] == [];
      assert Rewrite([], []) == Text("");
    }
    assert [Plain('-'), Hole][1..] == [Hole];
    assert "-" + "-1" == "--1";
    assert LineEnd("--1", 0) == 3 by { assert LineEnd("--1", 2) == 3; }
    assert "--1"[..3] == "--1" && "--1"[3..] == "";
    assert First("--1") == Comment("--1");
  }
}
