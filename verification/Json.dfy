/** The driver's rendering of decoded values: what database/sql gets, and
    nested values as JSON. */
module Json {
  import opened Basics
  import opened LogicalTypes
  import opened Values
  import opened Vectors
  import opened DecodedTyped
  import opened DecimalText
  import opened JsonText

  /** What comes from the libraries: json.Marshal of a string, strconv's text
      of a float (widened to 64 bits), the temporal types' own text, and
      time.Time's layouts by column type and its own String. */
  datatype Library = Library(
    quote: string -> string,
    float: (nat, nat) -> string,
    temporal: Value -> string,
    instant: (nat, Value) -> string,
    sprint: Value -> string)

  /** IEEE 754: the exponent is not all ones. */
  predicate IsFinite(bits: nat, pattern: nat)
  {
    if bits == 32 then pattern / 0x80_0000 % 256 != 255 else pattern / 0x10_0000_0000_0000 % 2048 != 2047
  }

  /** A float is finite exactly when its magnitude's pattern is below that of
      infinity. */
  lemma FiniteExactly(pattern: nat)
    ensures pattern < P32 ==> (IsFinite(32, pattern) <==> pattern % 0x8000_0000 < 0x7F80_0000)
    ensures pattern < P64 ==> (IsFinite(64, pattern) <==> pattern % 0x8000_0000_0000_0000 < 0x7FF0_0000_0000_0000)
  {
    var m := pattern % 0x8000_0000;
    assert pattern / 0x80_0000 % 256 == m / 0x80_0000;
    var n := pattern % 0x8000_0000_0000_0000;
    assert pattern / 0x10_0000_0000_0000 % 2048 == n / 0x10_0000_0000_0000;
  }

  ghost predicate Trusted(lib: Library)
  {
    && (forall s :: IsString(lib.quote(s)))
    && (forall bits, pattern :: IsFinite(bits, pattern) ==> IsNumber(lib.float(bits, pattern)))
  }

  /** driver.Value */
  datatype Driver =
    | DNil | DBool(b: bool) | DInt(n: int) | DFloat(bits: nat, pattern: nat)
    | DString(s: string) | DBytes(bytes: Bytes) | DTime(v: Value)

  function AsText(b: Bytes): (s: string)
    ensures |s| == |b|
  {
    seq(|b|, i requires 0 <= i < |b| => b[i] as char)
  }

  function IntText(n: int): string { Text(n, 0) }

  predicate IsNested(id: nat) { id == LIST || id == ARRAY || id == STRUCT || id == MAP }

  /** toDriverValue of a scalar: whatever does not fit goes as text. */
  function ScalarDriver(lib: Library, v: Value): Option<Driver>
  {
    match v
    case VNull => Some(DNil)
    case VBool(b) => Some(DBool(b))
    case VInt(_, _, n) => Some(if n >= P64 / 2 then DString(IntText(n)) else DInt(n))
    case VFloat(bits, pattern) => Some(DFloat(bits, pattern))
    case VString(s) => Some(DString(AsText(s)))
    case VBytes(s) => Some(DBytes(s))
    case VBig(n) => Some(if IsSigned(n, P64) then DInt(n) else DString(IntText(n)))
    case VDecimal(d) => Some(DString(Text(BigInt(d), d.scale)))
    case VTime(_) => Some(DString(lib.temporal(v)))
    case VTimeNS(_) => Some(DString(lib.temporal(v)))
    case VTimeTZ(_, _) => Some(DString(lib.temporal(v)))
    case VInterval(_, _, _) => Some(DString(lib.temporal(v)))
    case VUuid(_) => Some(DString(lib.temporal(v)))
    case VInstant(_, _) => Some(DTime(v))
    case _ => None
  }

  /** jsonNumberSafe */
  predicate NumberSafe(id: nat) { id == DECIMAL || id == HUGEINT || id == UHUGEINT || id == UBIGINT }

  /** appendJSON's scalar leaf */
  function LeafOf(lib: Library, id: nat, d: Driver): Option<Json>
  {
    match d
    case DBool(b) => Some(JBool(b))
    case DInt(n) => Some(JNumber(IntText(n)))
    case DFloat(bits, pattern) =>
      Some(if IsFinite(bits, pattern) then JNumber(lib.float(bits, pattern)) else JString(lib.quote(lib.float(bits, pattern))))
    case DString(s) => Some(if NumberSafe(id) then JNumber(s) else JString(lib.quote(s)))
    case DBytes(s) => Some(JString(lib.quote(AsText(s))))
    case DTime(v) => Some(JString(lib.quote(lib.instant(id, v))))
    case DNil => None
  }

  /** keyString */
  function KeyText(lib: Library, d: Driver): string
  {
    match d
    case DString(s) => s
    case DBytes(s) => AsText(s)
    case DInt(n) => IntText(n)
    case DFloat(bits, pattern) => lib.float(bits, pattern)
    case DBool(b) => if b then "true" else "false"
    case DNil => "null"
    case DTime(v) => lib.sprint(v)
  }

  /** The tree appendJSON writes, if it does not fail. A list type without a
      child is not a complete type and counts as a failure. */
  function JsonOf(lib: Library, t: LogicalType, v: Value): Option<Json>
    decreases v, 0
  {
    if v.VNull? then Some(JNull)
    else if t.id == LIST || t.id == ARRAY then
      if !v.VList? || t.child.None? then None
      else
        match ElemsOf(lib, t.child.value, v.elems)
        case Some(js) => Some(JArray(js))
        case None => None
    else if t.id == STRUCT then
      if !v.VStruct? || |v.entries| != |t.fields| then None
      else
        match FieldsOf(lib, t.fields, v.entries)
        case Some(ms) => Some(JObject(ms))
        case None => None
    else if t.id == MAP then
      if !v.VMap? || t.child.None? || |t.child.value.fields| != 2 then None
      else
        match MembersOf(lib, t.child.value.fields[0].typ, t.child.value.fields[1].typ, v.pairs)
        case Some(ms) => Some(JObject(ms))
        case None => None
    else
      match ScalarDriver(lib, v)
      case Some(d) => LeafOf(lib, t.id, d)
      case None => None
  }

  function ElemsOf(lib: Library, t: LogicalType, vs: seq<Value>): (js: Option<seq<Json>>)
    ensures js.Some? ==> |js.value| == |vs|
    decreases vs
  {
    if vs == [] then Some([])
    else
      var j := JsonOf(lib, t, vs[0]);
      if j.None? then None
      else
        var rest := ElemsOf(lib, t, vs[1..]);
        if rest.None? then None else Some([j.value] + rest.value)
  }

  function FieldsOf(lib: Library, fs: seq<StructField>, es: seq<Entry>): (ms: Option<seq<Member>>)
    requires |fs| == |es|
    ensures ms.Some? ==> |ms.value| == |es|
    decreases es
  {
    if es == [] then Some([])
    else
      var j := JsonOf(lib, fs[0].typ, es[0].value);
      if j.None? then None
      else
        var rest := FieldsOf(lib, fs[1..], es[1..]);
        if rest.None? then None else Some([Member(lib.quote(AsText(es[0].name)), j.value)] + rest.value)
  }

  function MembersOf(lib: Library, keys: LogicalType, values: LogicalType, ps: seq<Pair>): (ms: Option<seq<Member>>)
    ensures ms.Some? ==> |ms.value| == |ps|
    decreases ps
  {
    if ps == [] then Some([])
    else
      var p := ps[0];
      assert p.key < p && p.value < p;
      var key := DriverOf(lib, keys, p.key);
      if key.None? then None
      else
        var j := JsonOf(lib, values, p.value);
        if j.None? then None
        else
          var rest := MembersOf(lib, keys, values, ps[1..]);
          if rest.None? then None else Some([Member(lib.quote(KeyText(lib, key.value)), j.value)] + rest.value)
  }

  /** toDriverValue */
  function DriverOf(lib: Library, t: LogicalType, v: Value): Option<Driver>
    decreases v, 1
  {
    if IsNested(t.id) then
      if v.VNull? then Some(DNil)
      else
        match JsonOf(lib, t, v)
        case Some(j) => Some(DString(Print(j, "")))
        case None => None
    else ScalarDriver(lib, v)
  }

  // ---- writing, step by step -------------------------------------------------------------

  lemma {:induction false} PrintFollows(j: Json, k: string)
    ensures Print(j, k) == Print(j, "") + k
    decreases j, 0
  {
    match j
    case JArray(elems) =>
      ElemsFollow(elems, "]", k);
      assert "]" + k == "]" + k && "]" + "" == "]";
    case JObject(members) =>
      MembersFollow(members, "}", k);
      assert "}" + "" == "}";
    case _ =>
  }

  lemma {:induction false} ElemsFollow(elems: seq<Json>, a: string, k: string)
    ensures PrintElems(elems, a + k) == PrintElems(elems, a) + k
    decreases elems, 1
  {
    if elems != [] {
      var sep := if |elems| > 1 then "," else "";
      var rest := PrintElems(elems[1..], a);
      ElemsFollow(elems[1..], a, k);
      PrintFollows(elems[0], sep + (rest + k));
      PrintFollows(elems[0], sep + rest);
      assert Print(elems[0], "") + (sep + (rest + k)) == (Print(elems[0], "") + (sep + rest)) + k;
    }
  }

  lemma {:induction false} MembersFollow(members: seq<Member>, a: string, k: string)
    ensures PrintMembers(members, a + k) == PrintMembers(members, a) + k
    decreases members, 1
  {
    if members != [] {
      var sep := if |members| > 1 then "," else "";
      var m, rest := members[0], PrintMembers(members[1..], a);
      MembersFollow(members[1..], a, k);
      PrintFollows(m.value, sep + (rest + k));
      PrintFollows(m.value, sep + rest);
      assert m.key + (":" + (Print(m.value, "") + (sep + (rest + k)))) == (m.key + (":" + (Print(m.value, "") + (sep + rest)))) + k;
    }
  }

  /** appendJSON: `k` stands for whatever is appended afterwards. */
  method AppendJson(lib: Library, b: string, t: LogicalType, v: Value, ghost k: string) returns (res: Option<string>)
    ensures match JsonOf(lib, t, v)
            case Some(j) => res.Some? && res.value + k == b + Print(j, k)
            case None => res.None?
    decreases v, 0
  {
    if v.VNull? {
      assert (b + "null") + k == b + ("null" + k);
      return Some(b + "null");
    }
    if t.id == LIST || t.id == ARRAY {
      if !v.VList? || t.child.None? {
        return None;
      }
      assert forall x: string :: (b + "[") + x == b + ("[" + x);
      res := AppendElems(lib, b + "[", t.child.value, v.elems, "]" + k);
      if res.Some? {
        assert (res.value + "]") + k == res.value + ("]" + k);
        res := Some(res.value + "]");
      }
    } else if t.id == STRUCT {
      if !v.VStruct? || |v.entries| != |t.fields| {
        return None;
      }
      assert forall x: string :: (b + "{") + x == b + ("{" + x);
      res := AppendFields(lib, b + "{", t.fields, v.entries, "}" + k);
      if res.Some? {
        assert (res.value + "}") + k == res.value + ("}" + k);
        res := Some(res.value + "}");
      }
    } else if t.id == MAP {
      if !v.VMap? || t.child.None? || |t.child.value.fields| != 2 {
        return None;
      }
      assert forall x: string :: (b + "{") + x == b + ("{" + x);
      res := AppendPairs(lib, b + "{", t.child.value.fields[0].typ, t.child.value.fields[1].typ, v.pairs, "}" + k);
      if res.Some? {
        assert (res.value + "}") + k == res.value + ("}" + k);
        res := Some(res.value + "}");
      }
    } else {
      res := AppendLeaf(lib, b, t, v, k);
    }
  }

  method AppendLeaf(lib: Library, b: string, t: LogicalType, v: Value, ghost k: string) returns (res: Option<string>)
    requires !IsNested(t.id) && !v.VNull?
    ensures match JsonOf(lib, t, v)
            case Some(j) => res.Some? && res.value + k == b + Print(j, k)
            case None => res.None?
  {
    var d := ScalarDriver(lib, v);
    if d.None? {
      return None;
    }
    var text :=
      match d.value
      case DBool(x) => if x then "true" else "false"
      case DInt(n) => IntText(n)
      case DFloat(bits, pattern) =>
        if IsFinite(bits, pattern) then lib.float(bits, pattern) else lib.quote(lib.float(bits, pattern))
      case DString(s) => if NumberSafe(t.id) then s else lib.quote(s)
      case DBytes(s) => lib.quote(AsText(s))
      case DTime(x) => lib.quote(lib.instant(t.id, x))
      case DNil => "";
    assert (b + text) + k == b + (text + k);
    res := Some(b + text);
  }

  function Sep(i: nat, n: nat): string { if 0 < i < n then "," else "" }

  method AppendElems(lib: Library, b: string, t: LogicalType, vs: seq<Value>, ghost k: string) returns (res: Option<string>)
    ensures match ElemsOf(lib, t, vs)
            case Some(js) => res.Some? && res.value + k == b + PrintElems(js, k)
            case None => res.None?
    decreases vs, 1
  {
    hide JsonOf, Print;
    ghost var all := ElemsOf(lib, t, vs);
    var cur := b;
    var i := 0;
    assert vs[0..] == vs;
    assert all.Some? ==> "" + PrintElems(all.value, k) == PrintElems(all.value, k);
    while i < |vs|
      invariant i <= |vs|
      invariant all.Some? <==> ElemsOf(lib, t, vs[i..]).Some?
      invariant all.Some? ==> b + PrintElems(all.value, k) == cur + (Sep(i, |vs|) + PrintElems(ElemsOf(lib, t, vs[i..]).value, k))
    {
      assert vs[i..][0] == vs[i] && vs[i..][1..] == vs[i + 1..];
      ghost var rest := ElemsOf(lib, t, vs[i + 1..]);
      ghost var k1 := if rest.Some? then Sep(i + 1, |vs|) + PrintElems(rest.value, k) else k;
      var at := cur + Sep(i, |vs|);
      res := AppendJson(lib, at, t, vs[i], k1);
      if res.None? {
        return;
      }
      if all.Some? {
        ElemsFirst(lib, t, vs[i..], k);
        Regroup(cur, Sep(i, |vs|), PrintElems(ElemsOf(lib, t, vs[i..]).value, k));
      }
      cur := res.value;
      i := i + 1;
    }
    assert vs[|vs|..] == [] && Sep(|vs|, |vs|) + k == k;
    res := Some(cur);
  }

  lemma Regroup(a: string, b: string, c: string)
    ensures a + (b + c) == (a + b) + c
  {
  }

  lemma ElemsFirst(lib: Library, t: LogicalType, vs: seq<Value>, k: string)
    requires vs != [] && ElemsOf(lib, t, vs).Some?
    ensures JsonOf(lib, t, vs[0]).Some? && ElemsOf(lib, t, vs[1..]).Some?
    ensures PrintElems(ElemsOf(lib, t, vs).value, k)
            == Print(JsonOf(lib, t, vs[0]).value, Sep(1, |vs|) + PrintElems(ElemsOf(lib, t, vs[1..]).value, k))
  {
    hide JsonOf, Print;
    var js := ElemsOf(lib, t, vs).value;
    assert js[1..] == ElemsOf(lib, t, vs[1..]).value;
  }

  /** One member in front of `k`. */
  function MemberText(m: Member, k: string): string { m.key + (":" + Print(m.value, k)) }

  lemma MembersFirst(ms: seq<Member>, k: string)
    requires ms != []
    ensures PrintMembers(ms, k) == MemberText(ms[0], Sep(1, |ms|) + PrintMembers(ms[1..], k))
  {
  }

  /** A key, a colon and a value appended one after the other. */
  lemma MemberAppended(at: string, key: string, j: Json, k: string, after: string)
    requires after + k == (at + key + ":") + Print(j, k)
    ensures after + k == at + MemberText(Member(key, j), k)
  {
    assert (at + key + ":") + Print(j, k) == at + (key + (":" + Print(j, k)));
  }

  method AppendFields(lib: Library, b: string, fs: seq<StructField>, es: seq<Entry>, ghost k: string) returns (res: Option<string>)
    requires |fs| == |es|
    ensures match FieldsOf(lib, fs, es)
            case Some(ms) => res.Some? && res.value + k == b + PrintMembers(ms, k)
            case None => res.None?
    decreases es, 1
  {
    hide JsonOf, Print, PrintMembers, MemberText;
    ghost var all := FieldsOf(lib, fs, es);
    var cur := b;
    var i := 0;
    assert es[0..] == es && fs[0..] == fs;
    assert all.Some? ==> "" + PrintMembers(all.value, k) == PrintMembers(all.value, k);
    while i < |es|
      invariant i <= |es|
      invariant all.Some? <==> FieldsOf(lib, fs[i..], es[i..]).Some?
      invariant all.Some? ==>
                  b + PrintMembers(all.value, k)
                  == cur + (Sep(i, |es|) + PrintMembers(FieldsOf(lib, fs[i..], es[i..]).value, k))
    {
      assert es[i..][0] == es[i] && es[i..][1..] == es[i + 1..] && fs[i..][0] == fs[i] && fs[i..][1..] == fs[i + 1..];
      ghost var rest := FieldsOf(lib, fs[i + 1..], es[i + 1..]);
      ghost var k1 := if rest.Some? then Sep(i + 1, |es|) + PrintMembers(rest.value, k) else k;
      var at := cur + Sep(i, |es|);
      var key := lib.quote(AsText(es[i].name));
      res := AppendJson(lib, at + key + ":", fs[i].typ, es[i].value, k1);
      if res.None? {
        return;
      }
      ghost var j := JsonOf(lib, fs[i].typ, es[i].value).value;
      MemberAppended(at, key, j, k1, res.value);
      if all.Some? {
        ghost var ms := FieldsOf(lib, fs[i..], es[i..]).value;
        assert ms[0] == Member(key, j) && ms[1..] == rest.value;
        MembersFirst(ms, k);
        Regroup(cur, Sep(i, |es|), PrintMembers(ms, k));
      }
      cur := res.value;
      i := i + 1;
    }
    assert es[|es|..] == [] && Sep(|es|, |es|) + k == k && PrintMembers([], k) == k by { NoMembers(k); }
    res := Some(cur);
  }

  lemma NoMembers(k: string)
    ensures PrintMembers([], k) == k
  {
  }

  method AppendPairs(lib: Library, b: string, keys: LogicalType, values: LogicalType, ps: seq<Pair>, ghost k: string)
    returns (res: Option<string>)
    ensures match MembersOf(lib, keys, values, ps)
            case Some(ms) => res.Some? && res.value + k == b + PrintMembers(ms, k)
            case None => res.None?
    decreases ps, 1
  {
    hide JsonOf, DriverOf, Print, PrintMembers, MemberText, KeyText;
    ghost var all := MembersOf(lib, keys, values, ps);
    var cur := b;
    var i := 0;
    assert ps[0..] == ps;
    assert all.Some? ==> "" + PrintMembers(all.value, k) == PrintMembers(all.value, k);
    while i < |ps|
      invariant i <= |ps|
      invariant all.Some? <==> MembersOf(lib, keys, values, ps[i..]).Some?
      invariant all.Some? ==>
                  b + PrintMembers(all.value, k)
                  == cur + (Sep(i, |ps|) + PrintMembers(MembersOf(lib, keys, values, ps[i..]).value, k))
    {
      assert ps[i..][0] == ps[i] && ps[i..][1..] == ps[i + 1..];
      ghost var rest := MembersOf(lib, keys, values, ps[i + 1..]);
      ghost var k1 := if rest.Some? then Sep(i + 1, |ps|) + PrintMembers(rest.value, k) else k;
      var at := cur + Sep(i, |ps|);
      var p := ps[i];
      assert p.key < p && p.value < p;
      var d := ToDriver(lib, keys, p.key);
      if d.None? {
        return None;
      }
      var key := lib.quote(KeyText(lib, d.value));
      res := AppendJson(lib, at + key + ":", values, p.value, k1);
      if res.None? {
        return;
      }
      ghost var j := JsonOf(lib, values, ps[i].value).value;
      MemberAppended(at, key, j, k1, res.value);
      if all.Some? {
        ghost var ms := MembersOf(lib, keys, values, ps[i..]).value;
        assert ms[0] == Member(key, j) && ms[1..] == rest.value;
        MembersFirst(ms, k);
        Regroup(cur, Sep(i, |ps|), PrintMembers(ms, k));
      }
      cur := res.value;
      i := i + 1;
    }
    assert ps[|ps|..] == [] && Sep(|ps|, |ps|) + k == k && PrintMembers([], k) == k by { NoMembers(k); }
    res := Some(cur);
  }

  /** toDriverValue */
  method ToDriver(lib: Library, t: LogicalType, v: Value) returns (res: Option<Driver>)
    ensures res == DriverOf(lib, t, v)
    decreases v, 1
  {
    hide JsonOf, Print;
    if IsNested(t.id) {
      if v.VNull? {
        return Some(DNil);
      }
      var text := AppendJson(lib, "", t, v, "");
      if text.None? {
        return None;
      }
      assert text.value + "" == text.value;
      ghost var printed := Print(JsonOf(lib, t, v).value, "");
      assert "" + printed == printed;
      return Some(DString(text.value));
    }
    res := ScalarDriver(lib, v);
  }

  // ---- every decoded value renders ---------------------------------------------------------

  /** Every MAP that can occur in a value of the type has a two-field child,
      as appendJSON asks. What is under a child other than a STRUCT never
      matters: its entries are zero entries. */
  predicate MapsPrint(t: LogicalType)
  {
    Valued(t) ==>
      if t.id == STRUCT then forall i :: 0 <= i < |t.fields| ==> MapsPrint(t.fields[i].typ)
      else if t.id == LIST || t.id == ARRAY then MapsPrint(t.child.value)
      else if t.id == MAP then |t.child.value.fields| == 2 && (t.child.value.id == STRUCT ==> MapsPrint(t.child.value))
      else true
  }

  // ---- what a rendering says, apart from how it is made -----------------------------------

  /** The text has the bytes' characters. */
  predicate SameText(text: string, b: Bytes)
  {
    |text| == |b| && forall i :: 0 <= i < |b| ==> text[i] as int == b[i]
  }

  /** A JSON string of the bytes' characters. */
  ghost predicate Quotes(lib: Library, token: string, b: Bytes)
  {
    exists text :: SameText(text, b) && token == lib.quote(text)
  }

  /** The text is a number, and which. */
  predicate ReadsAs(text: string, unscaled: int, scale: nat)
  {
    IsNumber(text) && Unscaled(text) == (unscaled, scale)
  }

  /** What database/sql gets for a scalar: truth values, integers and floats as
      they are, text and bytes unchanged, and numbers too large for an int64
      as text that reads back. */
  ghost predicate Carries(lib: Library, v: Value, d: Driver)
  {
    match v
    case VNull => d == DNil
    case VBool(b) => d == DBool(b)
    case VInt(_, _, n) => if n < 0x8000_0000_0000_0000 then d == DInt(n) else d.DString? && ReadsAs(d.s, n, 0)
    case VBig(n) =>
      if -0x8000_0000_0000_0000 <= n < 0x8000_0000_0000_0000 then d == DInt(n) else d.DString? && ReadsAs(d.s, n, 0)
    case VDecimal(x) => d.DString? && ReadsAs(d.s, BigInt(x), x.scale)
    case VFloat(bits, pattern) => d == DFloat(bits, pattern)
    case VString(b) => d.DString? && SameText(d.s, b)
    case VBytes(b) => d == DBytes(b)
    case VInstant(_, _) => d == DTime(v)
    case VList(_) => false
    case VStruct(_) => false
    case VMap(_) => false
    case _ => d == DString(lib.temporal(v))
  }

  /** The JSON token of a scalar. */
  ghost predicate LeafSays(lib: Library, t: LogicalType, v: Value, j: Json)
  {
    match v
    case VBool(b) => j == JBool(b)
    case VInt(_, _, n) => j.JNumber? && ReadsAs(j.text, n, 0)
    case VBig(n) => j.JNumber? && ReadsAs(j.text, n, 0)
    case VDecimal(x) => j.JNumber? && ReadsAs(j.text, BigInt(x), x.scale)
    case VFloat(bits, pattern) =>
      if IsFinite(bits, pattern) then j == JNumber(lib.float(bits, pattern)) else j == JString(lib.quote(lib.float(bits, pattern)))
    case VString(b) => j.JString? && Quotes(lib, j.text, b)
    case VBytes(b) => j.JString? && Quotes(lib, j.text, b)
    case VInstant(_, _) => j == JString(lib.quote(lib.instant(t.id, v)))
    case _ => j == JString(lib.quote(lib.temporal(v)))
  }

  /** The text of a map key. */
  ghost predicate KeySays(lib: Library, t: LogicalType, v: Value, text: string)
    decreases v, 1
  {
    if v.VNull? then text == "null"
    else if IsNested(t.id) then exists j :: Lawful(j) && Mirrors(lib, t, v, j) && text == Print(j, "")
    else
      match v
      case VBool(b) => text == if b then "true" else "false"
      case VInt(_, _, n) => ReadsAs(text, n, 0)
      case VBig(n) => ReadsAs(text, n, 0)
      case VDecimal(x) => ReadsAs(text, BigInt(x), x.scale)
      case VFloat(bits, pattern) => text == lib.float(bits, pattern)
      case VString(b) => SameText(text, b)
      case VBytes(b) => SameText(text, b)
      case VInstant(_, _) => text == lib.sprint(v)
      case _ => text == lib.temporal(v)
  }

  ghost predicate KeyTokenSays(lib: Library, t: LogicalType, v: Value, token: string)
    decreases v, 2
  {
    exists text :: KeySays(lib, t, v, text) && token == lib.quote(text)
  }

  /** The tree of a value: nulls, elements, fields and entries in order and one
      for one, field names, keys and scalars by what they say. */
  ghost predicate Mirrors(lib: Library, t: LogicalType, v: Value, j: Json)
    decreases v, 0
  {
    match v
    case VNull => j == JNull
    case VList(elems) =>
      t.child.Some? && j.JArray? && |j.elems| == |elems|
      && forall i :: 0 <= i < |elems| ==> Mirrors(lib, t.child.value, elems[i], j.elems[i])
    case VStruct(entries) =>
      && j.JObject? && |j.members| == |entries| == |t.fields|
      && forall i :: 0 <= i < |entries| ==>
           && Quotes(lib, j.members[i].key, entries[i].name)
           && Mirrors(lib, t.fields[i].typ, entries[i].value, j.members[i].value)
    case VMap(pairs) =>
      && t.child.Some? && |t.child.value.fields| == 2 && j.JObject? && |j.members| == |pairs|
      && forall i :: 0 <= i < |pairs| ==>
           && KeyTokenSays(lib, t.child.value.fields[0].typ, pairs[i].key, j.members[i].key)
           && Mirrors(lib, t.child.value.fields[1].typ, pairs[i].value, j.members[i].value)
    case _ => LeafSays(lib, t, v, j)
  }

  /** The key converts, and its text says what it is. */
  ghost predicate KeyRenders(lib: Library, t: LogicalType, v: Value)
  {
    DriverOf(lib, t, v).Some? && KeySays(lib, t, v, KeyText(lib, DriverOf(lib, t, v).value))
  }

  ghost predicate Renders(lib: Library, t: LogicalType, v: Value)
  {
    var j := JsonOf(lib, t, v);
    j.Some? && Lawful(j.value) && Mirrors(lib, t, v, j.value)
  }

  /** Numbers that do not fit 64 signed bits come from types whose text is
      already a JSON number. */
  lemma WideNumbers(t: LogicalType, v: Value)
    requires Holds(t, v) && !IsNested(t.id)
    ensures v.VDecimal? ==> t.id == DECIMAL
    ensures v.VBig? ==> t.id == HUGEINT || t.id == UHUGEINT
    ensures v.VInt? && v.n >= P64 / 2 ==> t.id == UBIGINT
  {
    WordSizes();
  }

  lemma NumberRenders(lib: Library, t: LogicalType, v: Value)
    requires Holds(t, v) && !IsNested(t.id) && (v.VInt? || v.VBig? || v.VDecimal?)
    ensures var j := JsonOf(lib, t, v);
            && j.Some? && j.value.JNumber?
            && j.value.text == if v.VDecimal? then Text(BigInt(v.d), v.d.scale) else IntText(v.n)
  {
    WideNumbers(t, v);
    hide Holds, Text;
  }

  lemma LeafRenders(lib: Library, t: LogicalType, v: Value)
    requires Trusted(lib) && Holds(t, v) && !v.VNull? && !IsNested(t.id)
    ensures Renders(lib, t, v)
  {
    PlainLeaf(t, v);
    if v.VInt? || v.VBig? || v.VDecimal? {
      NumberReads(lib, t, v);
      hide IsNumber, ReadsAs, Holds, JsonOf, KeySays;
    } else {
      OtherLeafRenders(lib, t, v);
    }
  }

  lemma NumberReads(lib: Library, t: LogicalType, v: Value)
    requires Holds(t, v) && !IsNested(t.id) && (v.VInt? || v.VBig? || v.VDecimal?)
    ensures var j := JsonOf(lib, t, v);
            && j.Some? && j.value.JNumber? && IsNumber(j.value.text)
            && if v.VDecimal? then ReadsAs(j.value.text, BigInt(v.d), v.d.scale) else ReadsAs(j.value.text, v.n, 0)
  {
    NumberRenders(lib, t, v);
    hide IsNumber, Text, Unscaled, Holds, JsonOf;
    if v.VDecimal? {
      TextReadsBack(BigInt(v.d), v.d.scale);
    } else {
      TextReadsBack(v.n, 0);
    }
  }

  lemma OtherLeafRenders(lib: Library, t: LogicalType, v: Value)
    requires Trusted(lib) && !v.VNull? && !IsNested(t.id) && !NumberSafe(t.id)
    requires !v.VInt? && !v.VBig? && !v.VDecimal? && !v.VList? && !v.VStruct? && !v.VMap?
    ensures Renders(lib, t, v)
  {
    hide IsNumber, IsString, Text, Unscaled, KeySays;
  }

  /** No list, struct or map is a value of a scalar type, and no text one of
      the types whose text is taken for a number. */
  lemma PlainLeaf(t: LogicalType, v: Value)
    requires Holds(t, v) && !v.VNull? && !IsNested(t.id)
    ensures !v.VList? && !v.VStruct? && !v.VMap?
    ensures !v.VInt? && !v.VBig? && !v.VDecimal? ==> !NumberSafe(t.id)
  {
  }

  /** Every value a decoder can produce renders, as a tree of exactly its
      shape whose tokens are JSON's. */
  lemma {:induction false} HoldsRenders(lib: Library, t: LogicalType, v: Value)
    requires Trusted(lib) && Holds(t, v) && MapsPrint(t)
    ensures Renders(lib, t, v)
    ensures DriverOf(lib, t, v).Some?
    decreases v, 1
  {
    hide Renders, Trusted, IsNumber, IsString;
    if v.VNull? {
      NullRenders(lib, t);
    } else if t.id == LIST || t.id == ARRAY {
      forall i | 0 <= i < |v.elems| ensures Renders(lib, t.child.value, v.elems[i]) {
        HoldsRenders(lib, t.child.value, v.elems[i]);
      }
      ListRenders(lib, t, v);
    } else if t.id == STRUCT {
      forall i | 0 <= i < |v.entries| ensures Renders(lib, t.fields[i].typ, v.entries[i].value) {
        HoldsRenders(lib, t.fields[i].typ, v.entries[i].value);
      }
      StructRenders(lib, t, v);
    } else if t.id == MAP {
      var keys, values := t.child.value.fields[0].typ, t.child.value.fields[1].typ;
      forall i | 0 <= i < |v.pairs| ensures KeyRenders(lib, keys, v.pairs[i].key) && Renders(lib, values, v.pairs[i].value) {
        assert PairHolds(t.child.value, v.pairs[i]);
        if t.child.value.id == STRUCT {
          PairPrints(t.child.value, v.pairs[i]);
          HoldsRenders(lib, keys, v.pairs[i].key);
          HoldsRenders(lib, values, v.pairs[i].value);
          KeyIs(lib, keys, v.pairs[i].key);
        } else {
          NullRenders(lib, keys);
          NullRenders(lib, values);
          KeyIs(lib, keys, VNull);
        }
      }
      MapRenders(lib, t, v);
    } else {
      LeafRenders(lib, t, v);
      assert DriverOf(lib, t, v).Some? by { ScalarHas(lib, t, v); }
    }
    if IsNested(t.id) && !v.VNull? {
      RendersSome(lib, t, v);
    }
  }

  /** The entries of a MAP that has any are of types whose MAPs print. */
  lemma PairPrints(child: LogicalType, p: Pair)
    requires child.id == STRUCT && |child.fields| == 2 && PairHolds(child, p) && MapsPrint(child)
    ensures MapsPrint(child.fields[0].typ) && MapsPrint(child.fields[1].typ)
  {
    assert forall i :: 0 <= i < 2 ==> Valued(child.fields[i].typ);
  }

  lemma KeyIs(lib: Library, t: LogicalType, v: Value)
    requires (Holds(t, v) || v.VNull?) && DriverOf(lib, t, v).Some? && (IsNested(t.id) ==> Renders(lib, t, v))
    ensures KeyRenders(lib, t, v)
  {
    if IsNested(t.id) {
      hide Mirrors, Lawful, Holds, LeafSays;
    } else if !v.VNull? {
      ScalarCarries(lib, t, v);
      PlainLeaf(t, v);
      ScalarKeyIs(lib, t, v, DriverOf(lib, t, v).value);
      hide Holds, Carries, Mirrors, LeafSays, ScalarDriver;
    }
  }

  lemma ScalarKeyIs(lib: Library, t: LogicalType, v: Value, d: Driver)
    requires !IsNested(t.id) && !v.VNull? && !v.VList? && !v.VStruct? && !v.VMap? && Carries(lib, v, d)
    ensures KeySays(lib, t, v, KeyText(lib, d))
  {
    hide Text, Unscaled, IsNumber, Mirrors, LeafSays;
    if v.VInt? || v.VBig? {
      TextReadsBack(v.n, 0);
    }
  }

  /** toDriverValue of a scalar carries the value. */
  lemma ScalarCarries(lib: Library, t: LogicalType, v: Value)
    requires (Holds(t, v) || v.VNull?) && !IsNested(t.id)
    ensures DriverOf(lib, t, v).Some? && Carries(lib, v, DriverOf(lib, t, v).value)
  {
    hide Text, Unscaled, IsNumber;
    if !v.VNull? {
      PlainLeaf(t, v);
    }
    hide Holds;
    if v.VInt? || v.VBig? {
      TextReadsBack(v.n, 0);
    } else if v.VDecimal? {
      TextReadsBack(BigInt(v.d), v.d.scale);
    }
  }

  lemma RendersSome(lib: Library, t: LogicalType, v: Value)
    requires Renders(lib, t, v)
    ensures JsonOf(lib, t, v).Some?
  {
  }

  lemma ScalarHas(lib: Library, t: LogicalType, v: Value)
    requires Holds(t, v) && !IsNested(t.id)
    ensures ScalarDriver(lib, v).Some?
  {
  }

  lemma NullRenders(lib: Library, t: LogicalType)
    ensures Renders(lib, t, VNull) && DriverOf(lib, t, VNull).Some?
  {
  }

  lemma {:induction false} ElemsRender(lib: Library, t: LogicalType, vs: seq<Value>)
    requires forall i :: 0 <= i < |vs| ==> Renders(lib, t, vs[i])
    ensures ElemsOf(lib, t, vs).Some?
    ensures forall i :: 0 <= i < |vs| ==> Some(ElemsOf(lib, t, vs).value[i]) == JsonOf(lib, t, vs[i])
    decreases |vs|
  {
    hide JsonOf, Lawful, Mirrors;
    if vs != [] {
      assert Renders(lib, t, vs[0]);
      ElemsRender(lib, t, vs[1..]);
    }
  }

  lemma ListRenders(lib: Library, t: LogicalType, v: Value)
    requires (t.id == LIST || t.id == ARRAY) && v.VList? && t.child.Some?
    requires forall i :: 0 <= i < |v.elems| ==> Renders(lib, t.child.value, v.elems[i])
    ensures Renders(lib, t, v)
  {
    ElemsRender(lib, t.child.value, v.elems);
    var js := ElemsOf(lib, t.child.value, v.elems).value;
    forall i | 0 <= i < |v.elems| ensures Lawful(js[i]) && Mirrors(lib, t.child.value, v.elems[i], js[i]) {
      assert Renders(lib, t.child.value, v.elems[i]);
    }
  }

  lemma {:induction false} FieldsRender(lib: Library, fs: seq<StructField>, es: seq<Entry>)
    requires |fs| == |es| && forall i :: 0 <= i < |es| ==> Renders(lib, fs[i].typ, es[i].value)
    ensures FieldsOf(lib, fs, es).Some?
    ensures forall i :: 0 <= i < |es| ==>
              && Some(FieldsOf(lib, fs, es).value[i].value) == JsonOf(lib, fs[i].typ, es[i].value)
              && FieldsOf(lib, fs, es).value[i].key == lib.quote(AsText(es[i].name))
    decreases |es|
  {
    hide JsonOf, Lawful, Mirrors;
    if es != [] {
      assert Renders(lib, fs[0].typ, es[0].value);
      FieldsRender(lib, fs[1..], es[1..]);
    }
  }

  lemma StructRenders(lib: Library, t: LogicalType, v: Value)
    requires Trusted(lib) && t.id == STRUCT && v.VStruct? && |v.entries| == |t.fields|
    requires forall i :: 0 <= i < |v.entries| ==> Renders(lib, t.fields[i].typ, v.entries[i].value)
    ensures Renders(lib, t, v)
  {
    FieldsRender(lib, t.fields, v.entries);
    var ms := FieldsOf(lib, t.fields, v.entries).value;
    forall i | 0 <= i < |v.entries|
      ensures IsString(ms[i].key) && Lawful(ms[i].value) && Mirrors(lib, t.fields[i].typ, v.entries[i].value, ms[i].value)
    {
      assert Renders(lib, t.fields[i].typ, v.entries[i].value);
    }
  }

  lemma {:induction false} PairsRender(lib: Library, keys: LogicalType, values: LogicalType, ps: seq<Pair>)
    requires forall i :: 0 <= i < |ps| ==> DriverOf(lib, keys, ps[i].key).Some? && Renders(lib, values, ps[i].value)
    ensures MembersOf(lib, keys, values, ps).Some?
    ensures forall i :: 0 <= i < |ps| ==>
              && Some(MembersOf(lib, keys, values, ps).value[i].value) == JsonOf(lib, values, ps[i].value)
              && MembersOf(lib, keys, values, ps).value[i].key == lib.quote(KeyText(lib, DriverOf(lib, keys, ps[i].key).value))
    decreases |ps|
  {
    hide JsonOf, DriverOf, KeyText, Lawful, Mirrors;
    if ps != [] {
      assert Renders(lib, values, ps[0].value);
      PairsRender(lib, keys, values, ps[1..]);
    }
  }

  lemma MapRenders(lib: Library, t: LogicalType, v: Value)
    requires Trusted(lib) && t.id == MAP && v.VMap? && t.child.Some? && |t.child.value.fields| == 2
    requires forall i :: 0 <= i < |v.pairs| ==>
               && KeyRenders(lib, t.child.value.fields[0].typ, v.pairs[i].key)
               && Renders(lib, t.child.value.fields[1].typ, v.pairs[i].value)
    ensures Renders(lib, t, v)
  {
    hide DriverOf, KeyText, KeySays;
    var keys, values := t.child.value.fields[0].typ, t.child.value.fields[1].typ;
    PairsRender(lib, keys, values, v.pairs);
    var ms := MembersOf(lib, keys, values, v.pairs).value;
    forall i | 0 <= i < |v.pairs|
      ensures IsString(ms[i].key) && Lawful(ms[i].value) && Mirrors(lib, values, v.pairs[i].value, ms[i].value)
      ensures KeyTokenSays(lib, keys, v.pairs[i].key, ms[i].key)
    {
      assert Renders(lib, values, v.pairs[i].value) && KeyRenders(lib, keys, v.pairs[i].key);
    }
  }

  // ---- which types print ---------------------------------------------------------------------

  /** A value of the type that does not print, when there is one: the first
      MAP with a child of another width, empty, inside whatever leads to it. */
  function Unprintable(t: LogicalType): Value
    requires !MapsPrint(t)
    decreases t
  {
    if t.id == STRUCT then
      var at := FirstUnprintable(t.fields);
      VStruct(seq(|t.fields|, i requires 0 <= i < |t.fields| =>
        Entry(t.fields[i].name, if i == at then Unprintable(t.fields[i].typ) else VNull)))
    else if t.id == LIST || t.id == ARRAY then VList([Unprintable(t.child.value)])
    else if |t.child.value.fields| != 2 then VMap([])
    else VMap([PairOf(Unprintable(t.child.value))])
  }

  function FirstUnprintable(fs: seq<StructField>): (i: nat)
    requires exists j :: 0 <= j < |fs| && !MapsPrint(fs[j].typ)
    ensures i < |fs| && !MapsPrint(fs[i].typ)
  {
    if !MapsPrint(fs[0].typ) then 0 else 1 + FirstUnprintable(fs[1..])
  }

  lemma {:induction false} UnprintableFails(lib: Library, t: LogicalType)
    requires !MapsPrint(t)
    ensures Holds(t, Unprintable(t)) && !Unprintable(t).VNull? && JsonOf(lib, t, Unprintable(t)).None?
    decreases t
  {
    var v := Unprintable(t);
    if t.id == STRUCT {
      var at := FirstUnprintable(t.fields);
      UnprintableFails(lib, t.fields[at].typ);
      FieldFails(lib, t.fields, v.entries, at);
    } else if t.id == LIST || t.id == ARRAY {
      UnprintableFails(lib, t.child.value);
    } else if |t.child.value.fields| == 2 {
      var child := t.child.value;
      UnprintableFails(lib, child);
      UnprintableFails(lib, child.fields[FirstUnprintable(child.fields)].typ);
      EntryFails(lib, t);
    }
  }

  lemma EntryFails(lib: Library, t: LogicalType)
    requires !MapsPrint(t) && t.id == MAP && |t.child.value.fields| == 2
    requires Holds(t.child.value, Unprintable(t.child.value))
    requires var typ := t.child.value.fields[FirstUnprintable(t.child.value.fields)].typ;
             !Unprintable(typ).VNull? && JsonOf(lib, typ, Unprintable(typ)).None?
    ensures Holds(t, Unprintable(t)) && JsonOf(lib, t, Unprintable(t)).None?
  {
    var child, v := t.child.value, Unprintable(t);
    PairOfHolds(child, Unprintable(child));
    PairFails(lib, child.fields[0].typ, child.fields[1].typ, v.pairs[0]);
  }

  lemma PairFails(lib: Library, keys: LogicalType, values: LogicalType, p: Pair)
    requires (IsNested(keys.id) && !p.key.VNull? && JsonOf(lib, keys, p.key).None?) || JsonOf(lib, values, p.value).None?
    ensures MembersOf(lib, keys, values, [p]).None?
  {
    hide JsonOf;
  }

  lemma {:induction false} FieldFails(lib: Library, fs: seq<StructField>, es: seq<Entry>, at: nat)
    requires |fs| == |es| && at < |es| && JsonOf(lib, fs[at].typ, es[at].value).None?
    ensures FieldsOf(lib, fs, es).None?
    decreases |es|
  {
    hide JsonOf;
    if at > 0 {
      FieldFails(lib, fs[1..], es[1..], at - 1);
    }
  }

  /** Every value of a type converts exactly when its MAPs print. */
  lemma MapsPrintExactly(lib: Library, t: LogicalType)
    requires Trusted(lib)
    ensures (forall v :: Holds(t, v) ==> DriverOf(lib, t, v).Some?) <==> MapsPrint(t)
  {
    hide Holds, Trusted, JsonOf;
    if MapsPrint(t) {
      forall v | Holds(t, v) ensures DriverOf(lib, t, v).Some? {
        HoldsRenders(lib, t, v);
      }
    } else {
      UnprintableFails(lib, t);
      assert IsNested(t.id);
      assert DriverOf(lib, t, Unprintable(t)).None?;
    }
  }

  /** The JSON printer: its text parses, as a whole, to the tree that mirrors
      the value. */
  lemma JsonReadsBack(lib: Library, t: LogicalType, v: Value)
    requires Trusted(lib) && Holds(t, v) && MapsPrint(t)
    ensures JsonOf(lib, t, v).Some?
    ensures var j := JsonOf(lib, t, v).value; Parse(Print(j, "")) == Some((j, "")) && Mirrors(lib, t, v, j)
  {
    HoldsRenders(lib, t, v);
    hide JsonOf, Print, Parse, Mirrors, Lawful, Trusted;
    ParseBack(JsonOf(lib, t, v).value, "");
  }

  /** What a converted value says: for a scalar the value itself, for a nested
      one JSON text that parses to its tree. */
  ghost predicate Says(lib: Library, t: LogicalType, v: Value, d: Driver)
  {
    if IsNested(t.id) && !v.VNull? then d.DString? && exists j :: Mirrors(lib, t, v, j) && Parse(d.s) == Some((j, ""))
    else Carries(lib, v, d)
  }

  /** toDriverValue loses nothing and confuses nothing. */
  lemma DriverSays(lib: Library, t: LogicalType, v: Value)
    requires Trusted(lib) && Holds(t, v) && MapsPrint(t)
    ensures DriverOf(lib, t, v).Some? && Says(lib, t, v, DriverOf(lib, t, v).value)
  {
    if IsNested(t.id) && !v.VNull? {
      JsonReadsBack(lib, t, v);
      hide JsonOf, Parse, Print, Mirrors, MapsPrint, Holds;
    } else if v.VNull? {
      NullRenders(lib, t);
    } else {
      ScalarCarries(lib, t, v);
    }
  }

  /** Times of day, intervals and uuids go as the library's text. */
  predicate AsLibraryText(v: Value) { v.VTime? || v.VTimeNS? || v.VTimeTZ? || v.VInterval? || v.VUuid? }

  /** Any other scalar can be told from what database/sql gets for it. */
  lemma ScalarsDetermined(lib: Library, t: LogicalType, v: Value, w: Value, d: Driver)
    requires Holds(t, v) && Holds(t, w) && !IsNested(t.id) && !AsLibraryText(v) && !AsLibraryText(w)
    requires Carries(lib, v, d) && Carries(lib, w, d)
    ensures v == w
  {
    if !v.VNull? && !w.VNull? {
      OneGoType(t, v);
      OneGoType(t, w);
      hide Holds, Unscaled, IsNumber, ScalarType;
      if v.VDecimal? {
        SameDecimal(v.d, w.d);
      } else if v.VString? || v.VBytes? {
        assert v.s == w.s;
      }
    }
  }

  /** A scalar's Go type. */
  function GoType(v: Value): (nat, nat, bool)
  {
    match v
    case VBool(_) => (1, 0, false)
    case VInt(bits, signed, _) => (2, bits, signed)
    case VFloat(bits, _) => (3, bits, false)
    case VString(_) => (4, 0, false)
    case VBytes(_) => (5, 0, false)
    case VInstant(_, _) => (6, 0, false)
    case VDecimal(d) => (7, d.width, false)
    case VBig(_) => (8, 0, false)
    case VTime(_) => (9, 0, false)
    case VTimeNS(_) => (10, 0, false)
    case VTimeTZ(_, _) => (11, 0, false)
    case VInterval(_, _, _) => (12, 0, false)
    case VUuid(_) => (13, 0, false)
    case _ => (0, 0, false)
  }

  function ScalarType(t: LogicalType): (nat, nat, bool)
  {
    if t.id == VARCHAR || t.id == BIT then (4, 0, false)
    else if t.id == BLOB then (5, 0, false)
    else
      match KindOf(t.id)
      case KBool => (1, 0, false)
      case KInt(bits, signed) => (2, bits, signed)
      case KFloat(bits) => (3, bits, false)
      case KDate => (6, 0, false)
      case KTime => (9, 0, false)
      case KTimeNS => (10, 0, false)
      case KTimeTZ => (11, 0, false)
      case KTimestamp => (6, 0, false)
      case KDecimal => (7, t.width, false)
      case KHugeint => (8, 0, false)
      case KUHugeint => (8, 0, false)
      case KUuid => (13, 0, false)
      case KInterval => (12, 0, false)
      case KEnum => (4, 0, false)
      case KNone => (0, 0, false)
  }

  /** A type's values have one Go type. */
  lemma OneGoType(t: LogicalType, v: Value)
    requires Holds(t, v) && !IsNested(t.id) && !v.VNull?
    ensures GoType(v) == ScalarType(t) && GoType(v).0 > 0
    ensures v.VDecimal? ==> ValidDecimal(v.d) && v.d.scale == t.scale
  {
    hide KindOf;
  }

  lemma SameDecimal(a: Decimal, b: Decimal)
    requires ValidDecimal(a) && ValidDecimal(b) && a.width == b.width && a.scale == b.scale && BigInt(a) == BigInt(b)
    ensures a == b
  {
    Int128PartsJoin(a.hi, a.lo);
    Int128PartsJoin(b.hi, b.lo);
  }

  /** Numbers cross exactly: an integer's or decimal's token reads back as
      its value, at its scale. */
  lemma NumbersExact(lib: Library, t: LogicalType, v: Value)
    requires Holds(t, v) && !IsNested(t.id) && (v.VInt? || v.VBig? || v.VDecimal?)
    ensures var j := JsonOf(lib, t, v);
            && j.Some? && j.value.JNumber? && IsNumber(j.value.text)
            && Unscaled(j.value.text) == if v.VDecimal? then (BigInt(v.d), v.d.scale) else (v.n, 0)
  {
    hide IsNumber, Text, Unscaled, JsonOf;
    NumberRenders(lib, t, v);
    if v.VDecimal? {
      TextReadsBack(BigInt(v.d), v.d.scale);
    } else {
      TextReadsBack(v.n, 0);
    }
  }
}
