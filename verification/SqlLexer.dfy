/** SQL text as the interpolator sees it: placeholders, quoted regions,
    comments, and single characters. One character stands for one byte. */
module SqlLexer {

  datatype Token = Hole | Quoted(text: string) | Comment(text: string) | Plain(c: char)

  predicate IsQuote(c: char) { c == '\'' || c == '"' }

  function TextOf(t: Token): string
  {
    match t
    case Hole => "?"
    case Quoted(text) => text
    case Comment(text) => text
    case Plain(c) => [c]
  }

  /** Just past a quoted region, from index `i` inside it on, and whether it
      is closed there: a doubled quote does not close it. */
  function QuotedEnd(s: string, i: nat, quote: char): (r: (nat, bool))
    requires i <= |s|
    ensures i <= r.0 <= |s| && (r.1 ==> i < r.0) && (!r.1 ==> r.0 == |s|)
    decreases |s| - i
  {
    if i == |s| then (i, false)
    else if s[i] != quote then QuotedEnd(s, i + 1, quote)
    else if i + 1 < |s| && s[i + 1] == quote then QuotedEnd(s, i + 2, quote)
    else (i + 1, true)
  }

  /** The next line break, or the end. */
  function LineEnd(s: string, i: nat): (e: nat)
    requires i <= |s|
    ensures i <= e <= |s|
    decreases |s| - i
  {
    if i == |s| || s[i] == '\n' then i else LineEnd(s, i + 1)
  }

  /** Just past the next end of a block comment, and whether there is one. */
  function BlockEnd(s: string, i: nat): (r: (nat, bool))
    requires i <= |s|
    ensures i <= r.0 <= |s| && (!r.1 ==> r.0 == |s|)
    decreases |s| - i
  {
    if i + 1 >= |s| then (|s|, false)
    else if s[i] == '*' && s[i + 1] == '/' then (i + 2, true)
    else BlockEnd(s, i + 1)
  }

  predicate StartsLine(s: string) { |s| > 1 && s[0] == '-' && s[1] == '-' }

  predicate StartsBlock(s: string) { |s| > 1 && s[0] == '/' && s[1] == '*' }

  function First(s: string): (t: Token)
    requires s != ""
    ensures 0 < |TextOf(t)| <= |s| && TextOf(t) == s[..|TextOf(t)|]
  {
    if s[0] == '?' then Hole
    else if IsQuote(s[0]) then Quoted(s[..QuotedEnd(s, 1, s[0]).0])
    else if StartsLine(s) then assert s[0] != '\n' && s[1] != '\n'; Comment(s[..LineEnd(s, 0)])
    else if StartsBlock(s) then Comment(s[..BlockEnd(s, 2).0])
    else Plain(s[0])
  }

  function Lex(s: string): seq<Token>
    decreases |s|
  {
    if s == "" then []
    else
      var t := First(s);
      [t] + Lex(s[|TextOf(t)|..])
  }

  function Flat(ts: seq<Token>): string
  {
    if ts == [] then "" else TextOf(ts[0]) + Flat(ts[1..])
  }

  /** Lexing drops nothing. */
  lemma {:induction false} FlatLex(s: string)
    ensures Flat(Lex(s)) == s
    decreases |s|
  {
    hide First;
    if s != "" {
      var t := First(s);
      FlatLex(s[|TextOf(t)|..]);
      assert Lex(s)[1..] == Lex(s[|TextOf(t)|..]);
    }
  }

  // ---- where one token ends -----------------------------------------------------------

  /** Whether `t` stays what it is when `c` comes right behind it. */
  predicate Ends(t: Token, c: char)
  {
    match t
    case Hole => true
    case Plain(p) => !(p == '-' && c == '-') && !(p == '/' && c == '*')
    case Quoted(text) => text != "" && QuotedEnd(text, 1, text[0]).1 && c != text[0]
    case Comment(text) => |text| >= 2 && if text[0] == '-' then c == '\n' else BlockEnd(text, 2).1
  }

  lemma {:induction false} QuotedExtends(s: string, i: nat, quote: char, r: string)
    requires i <= |s| && r != ""
    ensures var (e, closed) := QuotedEnd(s, i, quote);
            QuotedEnd(s + r, i, quote).0 == |s| <==> e == |s| && closed && r[0] != quote
    ensures var (e, closed) := QuotedEnd(s, i, quote);
            e < |s| ==> QuotedEnd(s + r, i, quote) == (e, closed)
    decreases |s| - i
  {
    if i < |s| {
      if s[i] != quote {
        QuotedExtends(s, i + 1, quote, r);
      } else if i + 1 < |s| && s[i + 1] == quote {
        QuotedExtends(s, i + 2, quote, r);
      }
    } else {
      QuotedMoves(s + r, i, quote);
    }
  }

  /** At least one character belongs to what is left of a quoted region. */
  lemma QuotedMoves(s: string, i: nat, quote: char)
    requires i < |s|
    ensures QuotedEnd(s, i, quote).0 > i
  {
  }

  lemma {:induction false} LineExtends(s: string, i: nat, r: string)
    requires i <= |s| && r != "" && LineEnd(s, i) == |s|
    ensures LineEnd(s + r, i) == |s| <==> r[0] == '\n'
    decreases |s| - i
  {
    if i < |s| {
      LineExtends(s, i + 1, r);
    } else if r[0] != '\n' {
      assert LineEnd(s + r, i) == LineEnd(s + r, i + 1);
    }
  }

  lemma {:induction false} BlockExtends(s: string, i: nat, r: string)
    requires i <= |s| && r != ""
    ensures var (e, closed) := BlockEnd(s, i);
            if closed then BlockEnd(s + r, i) == (e, true) else BlockEnd(s + r, i).0 > |s|
    decreases |s| - i
  {
    if i + 1 < |s| {
      if !(s[i] == '*' && s[i + 1] == '/') {
        BlockExtends(s, i + 1, r);
      }
    } else if i + 1 == |s| && |s + r| > i + 1 && !((s + r)[i] == '*' && (s + r)[i + 1] == '/') {
      BlockPast(s + r, i + 1);
    } else if i == |s| {
      BlockPast(s + r, i);
    }
  }

  lemma BlockPast(s: string, i: nat)
    requires i < |s|
    ensures BlockEnd(s, i).0 > i
  {
  }

  /** A token read on its own is read with `r` behind it exactly when it ends
      before `r`. */
  lemma FirstWith(t: Token, r: string)
    requires TextOf(t) != "" && First(TextOf(t)) == t && r != ""
    ensures First(TextOf(t) + r) == t <==> Ends(t, r[0])
  {
    var s := TextOf(t);
    assert (s + r)[0] == s[0];
    match t
    case Hole =>
    case Plain(c) =>
    case Quoted(text) =>
      QuotedExtends(text, 1, text[0], r);
      var e := QuotedEnd(text + r, 1, text[0]).0;
      assert e == |text| ==> (text + r)[..e] == text;
    case Comment(text) =>
      if StartsLine(text) {
        LineExtends(text, 0, r);
        var e := LineEnd(text + r, 0);
        assert e == |text| ==> (text + r)[..e] == text;
      } else {
        assert StartsBlock(text) && StartsBlock(text + r);
        BlockExtends(text, 2, r);
        var e := BlockEnd(text + r, 2).0;
        assert e == |text| ==> (text + r)[..e] == text;
      }
  }

  // ---- token lists -------------------------------------------------------------------------

  /** The tokens of some text. */
  predicate Lexes(ts: seq<Token>)
  {
    Lex(Flat(ts)) == ts
  }

  lemma LexesText(s: string)
    ensures Lexes(Lex(s))
  {
    FlatLex(s);
  }

  lemma LexesCons(t: Token, ts: seq<Token>)
    requires TextOf(t) != ""
    ensures Lexes([t] + ts) <==> First(TextOf(t) + Flat(ts)) == t && Lexes(ts)
  {
    hide First;
    var s := TextOf(t) + Flat(ts);
    assert ([t] + ts)[1..] == ts && Flat([t] + ts) == s;
    var u := First(s);
    assert Lex(s)[0] == u && Lex(s)[1..] == Lex(s[|TextOf(u)|..]);
    if u == t {
      assert s[|TextOf(t)|..] == Flat(ts);
    }
  }

  lemma NonEmpty(ts: seq<Token>, i: nat)
    requires Lexes(ts) && i < |ts|
    ensures TextOf(ts[i]) != ""
    decreases i
  {
    hide First;
    var s := Flat(ts);
    assert s != "";
    var t := First(s);
    assert ts[0] == t && ts[1..] == Lex(s[|TextOf(t)|..]);
    if i > 0 {
      assert s[|TextOf(t)|..] == Flat(ts[1..]);
      NonEmpty(ts[1..], i - 1);
    }
  }

  lemma {:induction false} FlatAppend(a: seq<Token>, b: seq<Token>)
    ensures Flat(a + b) == Flat(a) + Flat(b)
    decreases |a|
  {
    if a != [] {
      FlatAppend(a[1..], b);
      assert (a + b)[1..] == a[1..] + b;
    } else {
      assert a + b == b;
    }
  }

  /** Two token lists join exactly when the second is one and the first one's
      last token ends before it. */
  lemma {:induction false} Junction(a: seq<Token>, b: seq<Token>)
    requires a != [] && Lexes(a)
    ensures Lexes(a + b) <==> Lexes(b) && (Flat(b) != "" ==> Ends(a[|a| - 1], Flat(b)[0]))
    decreases |a|
  {
    hide First, Ends;
    var t, rest := a[0], a[1..];
    NonEmpty(a, 0);
    assert a == [t] + rest && a + b == [t] + (rest + b);
    LexesCons(t, rest);
    LexesCons(t, rest + b);
    if rest == [] {
      assert TextOf(t) + "" == TextOf(t) && Flat([]) == "";
      assert rest + b == b;
      if Flat(b) != "" {
        FirstWith(t, Flat(b));
      } else {
        assert TextOf(t) + Flat(b) == TextOf(t);
      }
    } else {
      Junction(rest, b);
      FlatAppend(rest, b);
      NonEmpty(rest, 0);
      HeadStable(t, Flat(rest), Flat(b));
    }
  }

  /** Only the first character behind a token matters to it. */
  lemma HeadStable(t: Token, r: string, more: string)
    requires TextOf(t) != "" && r != "" && First(TextOf(t) + r) == t
    ensures First(TextOf(t) + (r + more)) == t
  {
    hide Ends;
    FirstAlone(t, r);
    FirstWith(t, r);
    FirstWith(t, r + more);
  }

  /** A token read in front of something is also read alone. */
  lemma FirstAlone(t: Token, r: string)
    requires TextOf(t) != "" && First(TextOf(t) + r) == t
    ensures First(TextOf(t)) == t
  {
    var s := TextOf(t);
    assert s + "" == s;
    if r != "" {
      match t
      case Hole =>
      case Plain(c) =>
      case Quoted(text) =>
        QuotedExtends(text, 1, text[0], r);
        assert text[..|text|] == text;
      case Comment(text) =>
        if StartsLine(text + r) {
          LineAlone(text, 0, r);
          assert text[..|text|] == text;
        } else {
          BlockExtends(text, 2, r);
          assert text[..|text|] == text;
        }
    }
  }

  lemma {:induction false} LineAlone(s: string, i: nat, r: string)
    requires i <= |s| && LineEnd(s + r, i) == |s|
    ensures LineEnd(s, i) == |s|
    decreases |s| - i
  {
    if i < |s| {
      LineAlone(s, i + 1, r);
    }
  }
}
