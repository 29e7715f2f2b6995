/** Which question marks are placeholders, one character at a time: an
    automaton that knows only whether it is inside quotes or a comment. It is
    written apart from the lexer and from the loop, and agrees with both. */
module Placeholders {
  import opened SqlLexer
  import opened Interpolate

  /** Between tokens, right behind a minus or a slash there, inside quotes, in
      a line comment, in a block comment, behind a star in one. */
  datatype Mode = Code | Dash | Slash | InQuotes(quote: char) | InLine | InBlock | Star

  predicate Outside(m: Mode) { m.Code? || m.Dash? || m.Slash? }

  function Next(m: Mode, c: char): Mode
  {
    match m
    case InQuotes(quote) => if c == quote then Code else m
    case InLine => if c == '\n' then Code else InLine
    case InBlock => if c == '*' then Star else InBlock
    case Star => if c == '/' then Code else if c == '*' then Star else InBlock
    case _ =>
      if c == '\'' || c == '"' then InQuotes(c)
      else if m.Dash? && c == '-' then InLine
      else if m.Slash? && c == '*' then InBlock
      else if c == '-' then Dash
      else if c == '/' then Slash
      else Code
  }

  /** How many placeholders there are from `i` on. */
  function Marks(m: Mode, s: string, i: nat): nat
    requires i <= |s|
    decreases |s| - i
  {
    if i == |s| then 0
    else (if Outside(m) && s[i] == '?' then 1 else 0) + Marks(Next(m, s[i]), s, i + 1)
  }

  /** The text from `i` on with `lits` in the placeholders' positions. */
  function Replaced(m: Mode, s: string, i: nat, lits: seq<string>): string
    requires i <= |s| && |lits| == Marks(m, s, i)
    decreases |s| - i
  {
    if i == |s| then ""
    else if Outside(m) && s[i] == '?' then lits[0] + Replaced(Next(m, s[i]), s, i + 1, lits[1..])
    else [s[i]] + Replaced(Next(m, s[i]), s, i + 1, lits)
  }

  /** From `i` to `e` nothing is replaced and the mode becomes `n`. */
  ghost predicate Passes(m: Mode, s: string, i: nat, e: nat, n: Mode)
  {
    && i <= e <= |s| && Marks(m, s, i) == Marks(n, s, e)
    && forall lits: seq<string> :: |lits| == Marks(n, s, e) ==> Replaced(m, s, i, lits) == s[i..e] + Replaced(n, s, e, lits)
  }

  lemma PassesNone(m: Mode, s: string, i: nat)
    requires i <= |s|
    ensures Passes(m, s, i, i, m)
  {
    forall lits: seq<string> | |lits| == Marks(m, s, i) ensures Replaced(m, s, i, lits) == s[i..i] + Replaced(m, s, i, lits) {
      assert s[i..i] + Replaced(m, s, i, lits) == Replaced(m, s, i, lits);
    }
  }

  lemma PassesOne(m: Mode, s: string, i: nat, e: nat, n: Mode)
    requires i < |s| && !(Outside(m) && s[i] == '?') && Passes(Next(m, s[i]), s, i + 1, e, n)
    ensures Passes(m, s, i, e, n)
  {
    hide Next;
    forall lits: seq<string> | |lits| == Marks(n, s, e) ensures Replaced(m, s, i, lits) == s[i..e] + Replaced(n, s, e, lits) {
      assert [s[i]] + (s[i + 1..e] + Replaced(n, s, e, lits)) == s[i..e] + Replaced(n, s, e, lits);
    }
  }

  // ---- through one token -----------------------------------------------------------------

  /** Quotes: a doubled quote leaves them and enters them again. */
  lemma {:induction false} ThroughQuotes(s: string, i: nat, quote: char)
    requires i <= |s| && IsQuote(quote)
    ensures var (e, closed) := QuotedEnd(s, i, quote);
            Passes(InQuotes(quote), s, i, e, if closed then Code else InQuotes(quote))
    decreases |s| - i
  {
    hide Passes;
    var m := InQuotes(quote);
    if i == |s| {
      PassesNone(m, s, i);
    } else if s[i] != quote {
      ThroughQuotes(s, i + 1, quote);
      PassesOne(m, s, i, QuotedEnd(s, i, quote).0, if QuotedEnd(s, i, quote).1 then Code else m);
    } else if i + 1 < |s| && s[i + 1] == quote {
      ThroughQuotes(s, i + 2, quote);
      var (e, closed) := QuotedEnd(s, i, quote);
      PassesOne(Code, s, i + 1, e, if closed then Code else m);
      PassesOne(m, s, i, e, if closed then Code else m);
    } else {
      PassesNone(Code, s, i + 1);
      PassesOne(m, s, i, i + 1, Code);
    }
  }

  lemma {:induction false} ThroughLine(s: string, i: nat)
    requires i <= |s|
    ensures Passes(InLine, s, i, LineEnd(s, i), InLine)
    decreases |s| - i
  {
    hide Passes;
    if i == |s| || s[i] == '\n' {
      PassesNone(InLine, s, i);
    } else {
      ThroughLine(s, i + 1);
      PassesOne(InLine, s, i, LineEnd(s, i), InLine);
    }
  }

  /** A block comment, its end not yet half read. */
  lemma {:induction false} ThroughBlock(s: string, i: nat, m: Mode)
    requires i <= |s| && (m == InBlock || (m == Star && (i < |s| ==> s[i] != '/')))
    ensures var (e, closed) := BlockEnd(s, i);
            closed ==> Passes(m, s, i, e, Code)
    ensures var (e, closed) := BlockEnd(s, i);
            !closed ==> e == |s| && exists n :: Passes(m, s, i, e, n)
    decreases |s| - i
  {
    hide Passes;
    if i == |s| {
      PassesNone(m, s, i);
    } else if i + 1 == |s| {
      PassesNone(Next(m, s[i]), s, i + 1);
      PassesOne(m, s, i, i + 1, Next(m, s[i]));
    } else if s[i] == '*' && s[i + 1] == '/' {
      PassesNone(Code, s, i + 2);
      PassesOne(Star, s, i + 1, i + 2, Code);
      PassesOne(m, s, i, i + 2, Code);
    } else {
      ThroughBlock(s, i + 1, Next(m, s[i]));
      var (e, closed) := BlockEnd(s, i);
      if closed {
        PassesOne(m, s, i, e, Code);
      } else {
        var n :| Passes(Next(m, s[i]), s, i + 1, e, n);
        PassesOne(m, s, i, e, n);
      }
    }
  }

  /** The mode at the start of a token: what a minus, a slash or the end of a
      line comment could still become is ruled out. */
  predicate Starts(m: Mode, s: string, i: nat)
    requires i <= |s|
  {
    i < |s| ==>
      match m
      case Code => true
      case Dash => s[i] != '-'
      case Slash => s[i] != '*'
      case InLine => s[i] == '\n'
      case _ => false
  }

  /** From `i` to `e` nothing is replaced, and a token can start at `e`. */
  ghost predicate Reads(m: Mode, s: string, i: nat, e: nat)
  {
    i <= e <= |s| && exists n :: Passes(m, s, i, e, n) && Starts(n, s, e)
  }

  lemma ReadsTo(m: Mode, s: string, i: nat, e: nat, n: Mode)
    requires Passes(m, s, i, e, n) && Starts(n, s, e)
    ensures Reads(m, s, i, e)
  {
  }

  lemma {:induction false} LineShift(s: string, k: nat, i: nat)
    requires k <= |s| && i <= |s| - k
    ensures LineEnd(s, k + i) == k + LineEnd(s[k..], i)
    decreases |s| - k - i
  {
    if i < |s| - k && s[k + i] != '\n' {
      LineShift(s, k, i + 1);
    }
  }

  lemma {:induction false} BlockShift(s: string, k: nat, i: nat)
    requires k <= |s| && i <= |s| - k
    ensures BlockEnd(s, k + i) == (k + BlockEnd(s[k..], i).0, BlockEnd(s[k..], i).1)
    decreases |s| - k - i
  {
    if i + 1 < |s| - k && !(s[k + i] == '*' && s[k + i + 1] == '/') {
      BlockShift(s, k, i + 1);
    }
  }

  lemma ThroughString(m: Mode, s: string, i: nat)
    requires i < |s| && Outside(m) && IsQuote(s[i])
    ensures Reads(m, s, i, i + QuotedEnd(s[i..], 1, s[i]).0)
  {
    hide Passes;
    QuotedShift(s, i, 1, s[i]);
    ThroughQuotes(s, i + 1, s[i]);
    var (e, closed) := QuotedEnd(s, i + 1, s[i]);
    var n := if closed then Code else InQuotes(s[i]);
    PassesOne(m, s, i, e, n);
    ReadsTo(m, s, i, e, n);
  }

  lemma ThroughComment(m: Mode, s: string, i: nat)
    requires i + 1 < |s| && Outside(m) && Starts(m, s, i) && s[i] == '-' && s[i + 1] == '-'
    ensures Reads(m, s, i, i + LineEnd(s[i..], 0))
  {
    hide Passes;
    LineShift(s, i, 0);
    ThroughLine(s, i + 2);
    var e := LineEnd(s, i);
    assert e == LineEnd(s, i + 2);
    PassesOne(Dash, s, i + 1, e, InLine);
    PassesOne(m, s, i, e, InLine);
    LineStops(s, i);
    ReadsTo(m, s, i, e, InLine);
  }

  lemma {:induction false} LineStops(s: string, i: nat)
    requires i <= |s|
    ensures LineEnd(s, i) < |s| ==> s[LineEnd(s, i)] == '\n'
    decreases |s| - i
  {
    if i < |s| && s[i] != '\n' {
      LineStops(s, i + 1);
    }
  }

  lemma ThroughBlockComment(m: Mode, s: string, i: nat)
    requires i + 1 < |s| && Outside(m) && Starts(m, s, i) && s[i] == '/' && s[i + 1] == '*'
    ensures Reads(m, s, i, i + BlockEnd(s[i..], 2).0)
  {
    hide Passes;
    BlockShift(s, i, 2);
    ThroughBlock(s, i + 2, InBlock);
    var (e, closed) := BlockEnd(s, i + 2);
    var n :| Passes(InBlock, s, i + 2, e, n) && (closed ==> n == Code);
    PassesOne(Slash, s, i + 1, e, n);
    PassesOne(m, s, i, e, n);
    ReadsTo(m, s, i, e, n);
  }

  lemma ThroughPlain(m: Mode, s: string, i: nat)
    requires i < |s| && Starts(m, s, i) && (Outside(m) ==> s[i] != '?' && !IsQuote(s[i]))
    requires i + 1 < |s| && Outside(m) ==> !(s[i] == '-' && s[i + 1] == '-') && !(s[i] == '/' && s[i + 1] == '*')
    ensures Reads(m, s, i, i + 1)
  {
    hide Passes;
    PassesNone(Next(m, s[i]), s, i + 1);
    PassesOne(m, s, i, i + 1, Next(m, s[i]));
    ReadsTo(m, s, i, i + 1, Next(m, s[i]));
  }

  /** The lexer's next token is what the automaton reads in one go. */
  lemma ThroughToken(m: Mode, s: string, i: nat)
    requires i < |s| && Starts(m, s, i)
    ensures First(s[i..]).Hole? <==> Outside(m) && s[i] == '?'
    ensures var t := First(s[i..]);
            !t.Hole? ==> Reads(m, s, i, i + |TextOf(t)|)
  {
    hide Passes, Reads, QuotedEnd, LineEnd, BlockEnd;
    FirstCases(s, i);
    var ch := s[i];
    if m.InLine? {
      ThroughPlain(m, s, i);
    } else if ch == '?' {
    } else if IsQuote(ch) {
      ThroughString(m, s, i);
    } else if ch == '-' && i + 1 < |s| && s[i + 1] == '-' {
      ThroughComment(m, s, i);
    } else if ch == '/' && i + 1 < |s| && s[i + 1] == '*' {
      ThroughBlockComment(m, s, i);
    } else {
      ThroughPlain(m, s, i);
    }
  }

  // ---- through the query --------------------------------------------------------------------

  /** Both readings of the rest of the query. */
  ghost predicate Agree(m: Mode, s: string, i: nat, lits: seq<string>)
    requires i <= |s|
  {
    && Holes(Lex(s[i..])) == Marks(m, s, i)
    && (|lits| == Marks(m, s, i) ==> Fill(Lex(s[i..]), lits) == Replaced(m, s, i, lits))
  }

  lemma {:induction false} QueryAgrees(m: Mode, s: string, i: nat, lits: seq<string>)
    requires i <= |s| && Starts(m, s, i)
    ensures Agree(m, s, i, lits)
    decreases |s| - i
  {
    hide First, Starts, Next, Agree, Lex, Passes;
    if i == |s| {
      NothingLeft(m, s, lits);
    } else {
      var t := First(s[i..]);
      ThroughToken(m, s, i);
      LexAt(s, i);
      if t.Hole? {
        HoleNext(m, s, i);
        var rest := if |lits| > 0 then lits[1..] else [];
        QueryAgrees(Code, s, i + 1, rest);
        HoleAgrees(m, s, i, lits, rest);
      } else {
        var e := i + |TextOf(t)|;
        var n :| Passes(m, s, i, e, n) && Starts(n, s, e);
        QueryAgrees(n, s, e, lits);
        TokenAgrees(m, s, i, n, lits);
      }
    }
  }

  lemma NothingLeft(m: Mode, s: string, lits: seq<string>)
    ensures Agree(m, s, |s|, lits)
  {
    assert s[|s|..] == "";
  }

  lemma HoleAgrees(m: Mode, s: string, i: nat, lits: seq<string>, rest: seq<string>)
    requires i < |s| && Outside(m) && s[i] == '?' && First(s[i..]).Hole?
    requires rest == (if |lits| > 0 then lits[1..] else []) && Agree(Code, s, i + 1, rest)
    ensures Agree(m, s, i, lits)
  {
    LexAt(s, i);
    HoleNext(m, s, i);
    hide First, Lex, Next;
  }

  lemma TokenAgrees(m: Mode, s: string, i: nat, n: Mode, lits: seq<string>)
    requires i < |s| && !First(s[i..]).Hole? && i + |TextOf(First(s[i..]))| <= |s|
    requires var e := i + |TextOf(First(s[i..]))|; Passes(m, s, i, e, n) && Agree(n, s, e, lits)
    ensures Agree(m, s, i, lits)
  {
    LexAt(s, i);
    hide First, Lex, Next, Marks, Replaced;
  }

  lemma HoleNext(m: Mode, s: string, i: nat)
    requires i < |s| && Outside(m) && s[i] == '?'
    ensures Next(m, s[i]) == Code && Starts(Code, s, i + 1)
  {
  }

  lemma LexAt(s: string, i: nat)
    requires i < |s|
    ensures var t := First(s[i..]);
            && i + |TextOf(t)| <= |s| && TextOf(t) == s[i..i + |TextOf(t)|] && (t.Hole? ==> |TextOf(t)| == 1)
            && Lex(s[i..]) != [] && Lex(s[i..])[0] == t && Lex(s[i..])[1..] == Lex(s[i + |TextOf(t)|..])
  {
    hide First;
    var t := First(s[i..]);
    assert s[i..][|TextOf(t)|..] == s[i + |TextOf(t)|..];
    assert s[i..][..|TextOf(t)|] == s[i..i + |TextOf(t)|];
  }

  // ---- through the interpolator ---------------------------------------------------------------

  /** The interpolator succeeds exactly when no argument is named, every one
      can be rendered and they are as many as the question marks the automaton
      finds outside quotes and comments; its output is the query with the
      literals in their positions, character by character. */
  lemma InterpolatedByCharacter(query: string, args: seq<Arg>)
    ensures Interpolated(query, args).Text? <==>
              && (forall i :: 0 <= i < |args| ==> args[i].name == "" && !args[i].value.DOther?)
              && |args| == Marks(Code, query, 0)
    ensures Interpolated(query, args).Text? ==>
              && AllRender(ValuesOf(args))
              && Interpolated(query, args).sql == Replaced(Code, query, 0, Literals(ValuesOf(args)))
  {
    SucceedsExactly(query, args);
    OtherValues(args);
    var lits := if AllRender(ValuesOf(args)) then Literals(ValuesOf(args)) else [];
    hide Interpolated, Lex, Fill, Replaced, Marks, Literals;
    QueryAgrees(Code, query, 0, lits);
    assert query[0..] == query;
  }

  lemma OtherValues(args: seq<Arg>)
    ensures AllRender(ValuesOf(args)) <==> forall i :: 0 <= i < |args| ==> !args[i].value.DOther?
  {
    hide IntText, Doubled, HexBytes;
    forall i | 0 <= i < |args| ensures Literal(ValuesOf(args)[i]).Some? <==> !args[i].value.DOther? {
      assert ValuesOf(args)[i] == args[i].value;
    }
    hide Literal;
    if AllRender(ValuesOf(args)) {
      forall i | 0 <= i < |args| ensures !args[i].value.DOther? {
        assert Literal(ValuesOf(args)[i]).Some?;
      }
    }
  }

  /** One of the arguments with a placeholder cannot be rendered. */
  predicate SomeOther(vs: seq<DriverValue>, holes: nat)
  {
    exists i :: 0 <= i < |vs| && i < holes && vs[i].DOther?
  }

  lemma OtherOnly(v: DriverValue)
    ensures Literal(v).None? <==> v.DOther?
  {
    hide IntText, Doubled, HexBytes;
  }

  lemma {:induction false} RewriteFails(ts: seq<Token>, vs: seq<DriverValue>)
    ensures SomeOther(vs, Holes(ts)) ==> Rewrite(ts, vs) == CannotRender
    ensures !SomeOther(vs, Holes(ts)) && |vs| < Holes(ts) ==> Rewrite(ts, vs) == MorePlaceholders
    ensures !SomeOther(vs, Holes(ts)) && |vs| > Holes(ts) ==> Rewrite(ts, vs) == FewerPlaceholders
    decreases |ts|
  {
    hide Literal;
    if ts != [] {
      if !ts[0].Hole? {
        RewriteFails(ts[1..], vs);
      } else if vs != [] {
        OtherOnly(vs[0]);
        RewriteFails(ts[1..], vs[1..]);
        SomeLater(vs, Holes(ts));
      }
    }
  }

  lemma SomeLater(vs: seq<DriverValue>, holes: nat)
    requires vs != [] && holes > 0
    ensures SomeOther(vs, holes) <==> vs[0].DOther? || SomeOther(vs[1..], holes - 1)
  {
    if SomeOther(vs[1..], holes - 1) {
      var i :| 0 <= i < |vs[1..]| && i < holes - 1 && vs[1..][i].DOther?;
      assert vs[i + 1].DOther?;
    }
    if SomeOther(vs, holes) && !vs[0].DOther? {
      var i :| 0 <= i < |vs| && i < holes && vs[i].DOther?;
      assert vs[1..][i - 1].DOther?;
    }
  }

  /** Which error: a named argument first, then the first that cannot be
      rendered, then too few arguments or too many. */
  lemma ErrorsExactly(query: string, args: seq<Arg>)
    ensures var named := exists i :: 0 <= i < |args| && args[i].name != "";
            var marks, other := Marks(Code, query, 0), SomeOther(ValuesOf(args), Marks(Code, query, 0));
            && (named ==> Interpolated(query, args) == NamedArgument)
            && (!named && other ==> Interpolated(query, args) == CannotRender)
            && (!named && !other && |args| < marks ==> Interpolated(query, args) == MorePlaceholders)
            && (!named && !other && |args| > marks ==> Interpolated(query, args) == FewerPlaceholders)
  {
    QueryAgrees(Code, query, 0, []);
    assert query[0..] == query;
    RewriteFails(Lex(query), ValuesOf(args));
    hide Lex, Rewrite, Marks, SomeOther;
  }
}
