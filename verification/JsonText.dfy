/** JSON by RFC 8259, sections 3 to 7, without insignificant whitespace: trees,
    their text, and a parser that gives the tree back. Strings and numbers are
    kept as the text they are written with. */
module JsonText {
  import opened Basics
  import opened DecimalText

  datatype Json =
    | JNull
    | JBool(b: bool)
    | JNumber(text: string)
    | JString(text: string)
    | JArray(elems: seq<Json>)
    | JObject(members: seq<Member>)

  datatype Member = Member(key: string, value: Json)

  // ---- strings ----------------------------------------------------------------------

  predicate IsHex(c: char) { IsDigit(c) || 'a' <= c <= 'f' || 'A' <= c <= 'F' }

  /** Just past the closing quote of a string, from inside it on. */
  function StringEnd(s: string, i: nat): (e: Option<nat>)
    requires i <= |s|
    ensures e.Some? ==> i < e.value <= |s|
    decreases |s| - i
  {
    if i == |s| || s[i] < ' ' then None
    else if s[i] == '"' then Some(i + 1)
    else if s[i] != '\\' then StringEnd(s, i + 1)
    else if i + 1 == |s| then None
    else if s[i + 1] in "\"\\/bfnrt" then StringEnd(s, i + 2)
    else if s[i + 1] == 'u' && i + 6 <= |s| && (forall j :: i + 2 <= j < i + 6 ==> IsHex(s[j])) then StringEnd(s, i + 6)
    else None
  }

  /** A string by section 7. */
  predicate IsString(s: string)
  {
    s != "" && s[0] == '"' && StringEnd(s, 1) == Some(|s|)
  }

  lemma {:induction false} StringExtends(s: string, i: nat, k: string)
    requires i <= |s| && StringEnd(s, i).Some?
    ensures StringEnd(s + k, i) == StringEnd(s, i)
    decreases |s| - i
  {
    if s[i] != '"' {
      if s[i] != '\\' {
        StringExtends(s, i + 1, k);
      } else if s[i + 1] in "\"\\/bfnrt" {
        StringExtends(s, i + 2, k);
      } else {
        StringExtends(s, i + 6, k);
      }
    }
  }

  // ---- numbers ------------------------------------------------------------------------

  function NumberRun(s: string): (n: nat)
    ensures n <= |s|
  {
    if s == "" || !IsNumberChar(s[0]) then 0 else 1 + NumberRun(s[1..])
  }

  /** The next character, if any, ends a number. */
  predicate Delimits(k: string) { k == "" || !IsNumberChar(k[0]) }

  lemma {:induction false} RunStops(s: string, k: string)
    requires (forall i :: 0 <= i < |s| ==> IsNumberChar(s[i])) && Delimits(k)
    ensures NumberRun(s + k) == |s|
    decreases |s|
  {
    if s != "" {
      RunStops(s[1..], k);
      assert (s + k)[1..] == s[1..] + k;
    } else {
      assert s + k == k;
    }
  }

  lemma NumberChars(s: string)
    requires IsNumber(s)
    ensures forall i :: 0 <= i < |s| ==> IsNumberChar(s[i])
    ensures s != "" && (s[0] == '-' || IsDigit(s[0]))
  {
    hide IsNumber;
    NumberShape(s);
    forall i | 0 <= i < |s| ensures IsNumberChar(s[i]) {
      assert i > 0 ==> Fits(s, i);
    }
  }

  // ---- writing --------------------------------------------------------------------------

  /** The text of a tree in front of `k`. */
  function Print(j: Json, k: string): string
    decreases j
  {
    match j
    case JNull => "null" + k
    case JBool(b) => (if b then "true" else "false") + k
    case JNumber(text) => text + k
    case JString(text) => text + k
    case JArray(elems) => "[" + PrintElems(elems, "]" + k)
    case JObject(members) => "{" + PrintMembers(members, "}" + k)
  }

  function PrintElems(elems: seq<Json>, k: string): string
    decreases elems
  {
    if elems == [] then k
    else Print(elems[0], (if |elems| > 1 then "," else "") + PrintElems(elems[1..], k))
  }

  function PrintMembers(members: seq<Member>, k: string): string
    decreases members
  {
    if members == [] then k
    else members[0].key + (":" + Print(members[0].value, (if |members| > 1 then "," else "") + PrintMembers(members[1..], k)))
  }

  /** Tokens are tokens. */
  predicate Lawful(j: Json)
    decreases j
  {
    match j
    case JNumber(text) => IsNumber(text)
    case JString(text) => IsString(text)
    case JArray(elems) => forall i :: 0 <= i < |elems| ==> Lawful(elems[i])
    case JObject(members) => forall i :: 0 <= i < |members| ==> IsString(members[i].key) && Lawful(members[i].value)
    case _ => true
  }

  // ---- parsing ----------------------------------------------------------------------------

  function Word(s: string, word: string, j: Json): (r: Option<(Json, string)>)
    requires word != ""
    ensures r.Some? ==> |r.value.1| < |s|
  {
    if word <= s then Some((j, s[|word|..])) else None
  }

  /** A value and what follows it. */
  function Parse(s: string): (r: Option<(Json, string)>)
    ensures r.Some? ==> |r.value.1| < |s|
    decreases |s|, 0
  {
    if s == "" then None
    else if s[0] == 'n' then Word(s, "null", JNull)
    else if s[0] == 't' then Word(s, "true", JBool(true))
    else if s[0] == 'f' then Word(s, "false", JBool(false))
    else if s[0] == '"' then
      match StringEnd(s, 1) {
        case Some(e) => Some((JString(s[..e]), s[e..]))
        case None => None
      }
    else if s[0] == '[' then
      if |s| > 1 && s[1] == ']' then Some((JArray([]), s[2..]))
      else
        match ParseElems(s[1..]) {
          case Some((elems, rest)) => Some((JArray(elems), rest))
          case None => None
        }
    else if s[0] == '{' then
      if |s| > 1 && s[1] == '}' then Some((JObject([]), s[2..]))
      else
        match ParseMembers(s[1..]) {
          case Some((members, rest)) => Some((JObject(members), rest))
          case None => None
        }
    else
      var n := NumberRun(s);
      if n > 0 && IsNumber(s[..n]) then Some((JNumber(s[..n]), s[n..])) else None
  }

  /** One or more elements up to the closing bracket. */
  function ParseElems(s: string): (r: Option<(seq<Json>, string)>)
    ensures r.Some? ==> |r.value.1| < |s|
    decreases |s|, 1
  {
    match Parse(s)
    case None => None
    case Some((j, rest)) =>
      if rest == "" then None
      else if rest[0] == ']' then Some(([j], rest[1..]))
      else if rest[0] != ',' then None
      else
        match ParseElems(rest[1..])
        case None => None
        case Some((more, rest')) => Some(([j] + more, rest'))
  }

  /** One or more members up to the closing brace. */
  function ParseMembers(s: string): (r: Option<(seq<Member>, string)>)
    ensures r.Some? ==> |r.value.1| < |s|
    decreases |s|, 1
  {
    if s == "" || s[0] != '"' then None
    else
      match StringEnd(s, 1)
      case None => None
      case Some(e) =>
        if e == |s| || s[e] != ':' then None
        else
          match Parse(s[e + 1..])
          case None => None
          case Some((j, rest)) =>
            if rest == "" then None
            else if rest[0] == '}' then Some(([Member(s[..e], j)], rest[1..]))
            else if rest[0] != ',' then None
            else
              match ParseMembers(rest[1..])
              case None => None
              case Some((more, rest')) => Some(([Member(s[..e], j)] + more, rest'))
  }

  // ---- parsing what was written ----------------------------------------------------------------

  lemma NumberParses(text: string, k: string)
    requires IsNumber(text) && Delimits(k)
    ensures Parse(text + k) == Some((JNumber(text), k))
  {
    NumberChars(text);
    RunStops(text, k);
    hide IsNumber, NumberRun;
    assert (text + k)[..|text|] == text && (text + k)[|text|..] == k;
    assert (text + k)[0] == text[0];
  }

  lemma StringParses(text: string, k: string)
    requires IsString(text)
    ensures Parse(text + k) == Some((JString(text), k))
  {
    hide StringEnd;
    StringExtends(text, 1, k);
    assert (text + k)[..|text|] == text && (text + k)[|text|..] == k;
  }

  lemma WordParses(word: string, j: Json, k: string)
    requires (word == "null" && j == JNull) || (word == "true" && j == JBool(true)) || (word == "false" && j == JBool(false))
    ensures Parse(word + k) == Some((j, k))
  {
    assert word <= word + k && (word + k)[|word|..] == k && (word + k)[0] == word[0];
  }

  /** Something that starts a value. */
  lemma FirstChar(j: Json, k: string)
    requires Lawful(j)
    ensures Print(j, k) != "" && Print(j, k)[0] != ']' && Print(j, k)[0] != '}'
  {
    match j
    case JNumber(text) => NumberChars(text);
    case JString(text) => assert text[0] == '"';
    case _ =>
  }

  /** Parsing the text of a tree gives the tree back, and what followed. */
  lemma {:induction false} ParseBack(j: Json, k: string)
    requires Lawful(j) && Delimits(k)
    ensures Parse(Print(j, k)) == Some((j, k))
    decreases j, 0
  {
    hide Parse, ParseElems, ParseMembers, IsNumber, IsString, PrintElems, PrintMembers;
    match j
    case JNull => WordParses("null", j, k);
    case JBool(b) => WordParses(if b then "true" else "false", j, k);
    case JNumber(text) => NumberParses(text, k);
    case JString(text) => StringParses(text, k);
    case JArray(elems) =>
      if elems != [] {
        ElemsBack(elems, k);
      }
      ArrayParses(elems, k);
    case JObject(members) =>
      if members != [] {
        MembersBack(members, k);
      }
      ObjectParses(members, k);
  }

  lemma ArrayParses(elems: seq<Json>, k: string)
    requires Lawful(JArray(elems))
    requires elems != [] ==> ParseElems(PrintElems(elems, "]" + k)) == Some((elems, k))
    ensures Parse("[" + PrintElems(elems, "]" + k)) == Some((JArray(elems), k))
  {
    hide ParseElems, Print;
    var body := PrintElems(elems, "]" + k);
    assert ("[" + body)[1..] == body && ("[" + body)[0] == '[';
    if elems == [] {
      assert ("[" + body)[2..] == k;
    } else {
      FirstChar(elems[0], (if |elems| > 1 then "," else "") + PrintElems(elems[1..], "]" + k));
    }
  }

  lemma ObjectParses(members: seq<Member>, k: string)
    requires Lawful(JObject(members))
    requires members != [] ==> ParseMembers(PrintMembers(members, "}" + k)) == Some((members, k))
    ensures Parse("{" + PrintMembers(members, "}" + k)) == Some((JObject(members), k))
  {
    hide ParseMembers, Print;
    var body := PrintMembers(members, "}" + k);
    assert ("{" + body)[1..] == body && ("{" + body)[0] == '{';
    if members == [] {
      assert ("{" + body)[2..] == k;
    } else {
      assert members[0].key[0] == '"';
    }
  }

  lemma {:induction false} ElemsBack(elems: seq<Json>, k: string)
    requires elems != [] && forall i :: 0 <= i < |elems| ==> Lawful(elems[i])
    ensures ParseElems(PrintElems(elems, "]" + k)) == Some((elems, k))
    decreases elems, 1
  {
    hide Parse, Print, Lawful;
    var rest := PrintElems(elems[1..], "]" + k);
    var k1 := (if |elems| > 1 then "," else "") + rest;
    if |elems| > 1 {
      ElemsBack(elems[1..], k);
      assert k1[1..] == rest;
      assert elems == [elems[0]] + elems[1..];
    } else {
      assert elems[1..] == [] && elems == [elems[0]];
      assert k1 == "]" + k && k1[1..] == k;
    }
    ParseBack(elems[0], k1);
  }

  lemma {:induction false} MembersBack(members: seq<Member>, k: string)
    requires members != [] && forall i :: 0 <= i < |members| ==> IsString(members[i].key) && Lawful(members[i].value)
    ensures ParseMembers(PrintMembers(members, "}" + k)) == Some((members, k))
    decreases members, 1
  {
    hide Parse, Print, Lawful, StringEnd;
    var m, rest := members[0], PrintMembers(members[1..], "}" + k);
    var k1 := (if |members| > 1 then "," else "") + rest;
    if |members| > 1 {
      MembersBack(members[1..], k);
      assert k1[1..] == rest;
      assert members == [m] + members[1..];
    } else {
      assert members[1..] == [] && members == [m];
      assert k1 == "}" + k && k1[1..] == k;
    }
    ParseBack(m.value, k1);
    var tail := ":" + Print(m.value, k1);
    StringExtends(m.key, 1, tail);
    var s := m.key + tail;
    assert s[..|m.key|] == m.key && s[|m.key|] == ':' && s[|m.key| + 1..] == Print(m.value, k1);
  }

  lemma WordsText(k: string)
    ensures Print(JNull, k) == "null" + k && Print(JBool(true), k) == "true" + k && Print(JBool(false), k) == "false" + k
  {
  }

  /** An array of two: brackets and a comma. */
  lemma ArrayText(a: Json, b: Json, k: string)
    ensures Print(JArray([]), k) == "[" + ("]" + k)
    ensures Print(JArray([a, b]), k) == "[" + Print(a, "," + Print(b, "]" + k))
  {
    var end := "]" + k;
    assert "" + end == end;
    assert PrintElems([], end) == end;
    assert [b][1..] == [] && PrintElems([b], end) == Print(b, end);
    assert [a, b][1..] == [b] && PrintElems([a, b], end) == Print(a, "," + PrintElems([b], end));
  }

  /** An object of two: braces, colons and a comma. */
  lemma ObjectText(a: Member, b: Member, k: string)
    ensures Print(JObject([]), k) == "{" + ("}" + k)
    ensures Print(JObject([a, b]), k)
            == "{" + (a.key + (":" + Print(a.value, "," + (b.key + (":" + Print(b.value, "}" + k))))))
  {
    var end := "}" + k;
    assert "" + end == end;
    assert PrintMembers([], end) == end;
    assert [b][1..] == [] && PrintMembers([b], end) == b.key + (":" + Print(b.value, end));
    assert [a, b][1..] == [b] && PrintMembers([a, b], end) == a.key + (":" + Print(a.value, "," + PrintMembers([b], end)));
  }
}
