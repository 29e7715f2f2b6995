/** What a literal means: a reader of SQL literal text, written apart from the
    writer, and that it gives every argument back. */
module Literals {
  import opened Basics
  import opened DecimalText
  import opened Interpolate
  import opened Placeholders
  import V = Values

  /** What literal text stands for. */
  datatype Datum =
    | Null
    | Truth(b: bool)
    | Number(unscaled: int, scale: nat)
    | Named(name: string)          // a DOUBLE spelled out
    | Characters(s: string)
    | Octets(bytes: Bytes)
    | Moment(text: string)

  /** The text between quotes from `i` on and where it ends: two quotes stand
      for one. */
  function ReadQuoted(s: string, i: nat): (r: Option<(string, nat)>)
    requires i <= |s|
    ensures r.Some? ==> i < r.value.1 <= |s|
    decreases |s| - i
  {
    if i == |s| then None
    else if s[i] != '\'' then
      var rest := ReadQuoted(s, i + 1);
      if rest.None? then None else Some(([s[i]] + rest.value.0, rest.value.1))
    else if i + 1 < |s| && s[i + 1] == '\'' then
      var rest := ReadQuoted(s, i + 2);
      if rest.None? then None else Some(("'" + rest.value.0, rest.value.1))
    else Some(("", i + 1))
  }

  function HexValue(c: char): Option<nat>
  {
    if '0' <= c <= '9' then Some(c as int - '0' as int)
    else if 'A' <= c <= 'F' then Some(10 + (c as int - 'A' as int))
    else None
  }

  /** Pairs of hexadecimal digits, each behind a backslash and an x, the high
      digit first. */
  function ReadOctets(s: string): Option<Bytes>
  {
    if s == "" then Some([])
    else if |s| < 4 || s[0] != '\\' || s[1] != 'x' || HexValue(s[2]).None? || HexValue(s[3]).None? then None
    else
      var b, rest := 16 * HexValue(s[2]).value + HexValue(s[3]).value, ReadOctets(s[4..]);
      if rest.None? || b > 255 then None else Some([b] + rest.value)
  }

  function ReadLiteral(s: string): Option<Datum>
  {
    if s == "NULL" then Some(Null)
    else if s == "TRUE" then Some(Truth(true))
    else if s == "FALSE" then Some(Truth(false))
    else if s != "" && s[0] == '\'' then
      match ReadQuoted(s, 1)
      case None => None
      case Some((text, end)) =>
        if end == |s| then Some(Characters(text))
        else if s[end..] == "::DOUBLE" && text in ["nan", "infinity", "-infinity"] then Some(Named(text))
        else if s[end..] == "::BLOB" && ReadOctets(text).Some? then Some(Octets(ReadOctets(text).value))
        else None
    else if |s| > 11 && s[..11] == "TIMESTAMP '" then
      match ReadQuoted(s, 11)
      case Some((text, end)) => if end == |s| then Some(Moment(text)) else None
      case None => None
    else if IsNumber(s) then Some(Number(Unscaled(s).0, Unscaled(s).1))
    else None
  }

  /** What an argument is meant to say. */
  function Meant(v: DriverValue): Option<Datum>
  {
    match v
    case DNil => Some(Null)
    case DBool(b) => Some(Truth(b))
    case DInt(n) => Some(Number(n, 0))
    case DFloat(NaN) => Some(Named("nan"))
    case DFloat(PosInf) => Some(Named("infinity"))
    case DFloat(NegInf) => Some(Named("-infinity"))
    case DFloat(Finite(text)) => Some(Number(Unscaled(text).0, Unscaled(text).1))
    case DText(s) => Some(Characters(s))
    case DBlob(bytes) => Some(Octets(bytes))
    case DTime(text) => Some(Moment(text))
    case DDecimal(d) => Some(Number(V.BigInt(d), d.scale))
    case DOther => None
  }

  // ---- quotes -----------------------------------------------------------------------------

  lemma {:induction false} DoubledReads(pre: string, s: string, post: string)
    requires post != "" ==> post[0] != '\''
    ensures ReadQuoted(pre + Doubled(s) + "'" + post, |pre|) == Some((s, |pre| + |Doubled(s)| + 1))
    decreases |s|
  {
    var all := pre + Doubled(s) + "'" + post;
    if s == "" {
      assert all == pre + "'" + post;
    } else {
      var head := if s[0] == '\'' then "''" else [s[0]];
      assert all == (pre + head) + Doubled(s[1..]) + "'" + post;
      DoubledReads(pre + head, s[1..], post);
      assert s == [s[0]] + s[1..];
    }
  }

  lemma {:induction false} PlainReads(pre: string, s: string, post: string)
    requires '\'' !in s && (post != "" ==> post[0] != '\'')
    ensures ReadQuoted(pre + s + "'" + post, |pre|) == Some((s, |pre| + |s| + 1))
    decreases |s|
  {
    var all := pre + s + "'" + post;
    if s == "" {
      assert all == pre + "'" + post;
    } else {
      assert s[0] in s && all[|pre|] == s[0];
      assert all == (pre + [s[0]]) + s[1..] + "'" + post;
      PlainReads(pre + [s[0]], s[1..], post);
      assert s == [s[0]] + s[1..];
    }
  }

  lemma TextReads(text: string)
    ensures ReadLiteral("'" + Doubled(text) + "'") == Some(Characters(text))
  {
    hide Doubled, ReadQuoted;
    var s := "'" + Doubled(text) + "'";
    DoubledReads("'", text, "");
    assert "'" + Doubled(text) + "'" + "" == s;
    assert s[0] == '\'' && s != "NULL" && s != "TRUE" && s != "FALSE" && s != "";
    assert ReadQuoted(s, 1) == Some((text, |s|));
  }

  lemma MomentReads(text: string)
    requires '\'' !in text
    ensures ReadLiteral("TIMESTAMP '" + text + "'") == Some(Moment(text))
  {
    hide ReadQuoted;
    var s := "TIMESTAMP '" + text + "'";
    PlainReads("TIMESTAMP '", text, "");
    assert "TIMESTAMP '" + text + "'" + "" == s;
    assert s[..11] == "TIMESTAMP '" && s[0] == 'T' && s[1] == 'I' && |s| > 11;
    assert s != "TRUE" && s != "NULL" && s != "FALSE";
  }

  lemma CastReads(text: string, cast: string)
    requires '\'' !in text && cast in ["::DOUBLE", "::BLOB"]
    ensures var s := "'" + text + "'" + cast;
            ReadQuoted(s, 1) == Some((text, |text| + 2)) && s[|text| + 2..] == cast
  {
    PlainReads("'", text, cast);
  }

  lemma NamedReads(name: string)
    requires name in ["nan", "infinity", "-infinity"]
    ensures ReadLiteral("'" + name + "'" + "::DOUBLE") == Some(Named(name))
  {
    hide ReadQuoted;
    CastReads(name, "::DOUBLE");
  }

  // ---- bytes ------------------------------------------------------------------------------------

  lemma {:induction false} HexFront(bytes: Bytes)
    requires bytes != []
    ensures HexBytes(bytes) == ['\\', 'x', Hex(bytes[0] / 16), Hex(bytes[0] % 16)] + HexBytes(bytes[1..])
    decreases |bytes|
  {
    hide Hex;
    var n := |bytes| - 1;
    if n > 0 {
      HexFront(bytes[..n]);
      assert bytes[1..][..n - 1] == bytes[..n][1..];
    } else {
      assert bytes[..0] == [] && bytes[1..] == [];
    }
  }

  lemma HexReads(n: nat)
    requires n < 16
    ensures HexValue(Hex(n)) == Some(n)
  {
  }

  lemma {:induction false} OctetsRead(bytes: Bytes)
    ensures ReadOctets(HexBytes(bytes)) == Some(bytes)
    decreases |bytes|
  {
    hide HexBytes, Hex, HexValue;
    if bytes == [] {
      NoHex();
    } else {
      HexFront(bytes);
      OctetsRead(bytes[1..]);
      var s := HexBytes(bytes);
      assert s[4..] == HexBytes(bytes[1..]);
      HexReads(bytes[0] / 16);
      HexReads(bytes[0] % 16);
      assert bytes == [bytes[0]] + bytes[1..];
    }
  }

  lemma NoHex()
    ensures HexBytes([]) == ""
  {
  }

  lemma BlobReads(bytes: Bytes)
    ensures ReadLiteral("'" + HexBytes(bytes) + "'::BLOB") == Some(Octets(bytes))
  {
    hide ReadQuoted, HexBytes, ReadOctets;
    HexPlain(bytes);
    CastReads(HexBytes(bytes), "::BLOB");
    OctetsRead(bytes);
    assert "'" + HexBytes(bytes) + "'" + "::BLOB" == "'" + HexBytes(bytes) + "'::BLOB";
  }

  // ---- numbers ----------------------------------------------------------------------------------

  lemma NumberReads(s: string)
    requires IsNumber(s)
    ensures ReadLiteral(s) == Some(Number(Unscaled(s).0, Unscaled(s).1))
  {
    NumberPlain(s);
    hide IsNumber, Unscaled;
    assert s[0] == '-' || IsDigit(s[0]);
  }

  lemma IntReads(n: int)
    ensures IsNumber(IntText(n)) && Unscaled(IntText(n)) == (n, 0)
  {
    hide IsNumber, Unscaled;
    TextReadsBack(n, 0);
    assert DecimalText.Text(n, 0) == IntText(n) by {
      assert Magnitude(n) / 1 == Magnitude(n);
      assert Digits(Magnitude(n)) + "" == Digits(Magnitude(n));
    }
  }

  /** Every literal reads as its argument: NULL and truth values, integers and
      decimals exactly, the named floats, text undoubled, bytes from their
      digits, and times and floats as the library spells them. */
  lemma LiteralReads(v: DriverValue)
    requires FromLibrary(v) && !v.DOther?
    ensures Literal(v).Some? && ReadLiteral(Literal(v).value) == Meant(v)
  {
    hide IsNumber, Unscaled, Doubled, HexBytes, IntText, ReadLiteral;
    match v
    case DNil => WordsRead();
    case DBool(b) => WordsRead();
    case DInt(n) => IntReads(n); NumberReads(IntText(n));
    case DFloat(f) => FloatReads(f);
    case DText(s) => TextReads(s);
    case DBlob(bytes) => BlobReads(bytes);
    case DTime(text) => MomentReads(text);
    case DDecimal(d) => TextReadsBack(V.BigInt(d), d.scale); NumberReads(DecimalText.Text(V.BigInt(d), d.scale));
  }

  lemma WordsRead()
    ensures ReadLiteral("NULL") == Some(Null) && ReadLiteral("TRUE") == Some(Truth(true)) && ReadLiteral("FALSE") == Some(Truth(false))
  {
  }

  lemma FloatReads(f: Float)
    requires f.Finite? ==> IsNumber(f.text)
    ensures Literal(DFloat(f)).Some? && ReadLiteral(Literal(DFloat(f)).value) == Meant(DFloat(f))
  {
    hide IsNumber, Unscaled, ReadLiteral;
    match f
    case NaN => NamedReads("nan"); assert "'" + "nan" + "'" + "::DOUBLE" == "'nan'::DOUBLE";
    case PosInf => NamedReads("infinity"); assert "'" + "infinity" + "'" + "::DOUBLE" == "'infinity'::DOUBLE";
    case NegInf => NamedReads("-infinity"); assert "'" + "-infinity" + "'" + "::DOUBLE" == "'-infinity'::DOUBLE";
    case Finite(text) => NumberReads(text);
  }

  /** What the interpolator writes: the query, character by character, with
      text in the placeholders' positions that reads as the arguments, in
      order. */
  lemma ArgumentsArrive(query: string, args: seq<Arg>)
    requires Interpolated(query, args).Text? && forall a <- args :: FromLibrary(a.value)
    ensures |args| == Marks(Code, query, 0)
    ensures exists lits: seq<string> ::
              && |lits| == |args| && Interpolated(query, args).sql == Replaced(Code, query, 0, lits)
              && forall i :: 0 <= i < |lits| ==> ReadLiteral(lits[i]) == Meant(args[i].value)
  {
    InterpolatedByCharacter(query, args);
    var lits := Literals(ValuesOf(args));
    forall i | 0 <= i < |lits| ensures ReadLiteral(lits[i]) == Meant(args[i].value) {
      assert args[i] in args;
      LiteralReads(args[i].value);
    }
  }
}
