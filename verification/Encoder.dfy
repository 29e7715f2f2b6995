/** The encoder as it runs, appending to one writer. `k` stands for whatever
    is written afterwards: each method appends what its printer puts in front
    of `k`. */
module Encoder {
  import opened Basics
  import opened Leb128
  import opened Qser
  import opened LogicalTypes
  import opened Values
  import opened Vectors
  import opened VectorWire
  import opened FlatEncoding
  import opened F = Framing

  /** Writing `piece` and then `rest`. */
  lemma Then(b0: Bytes, b1: Bytes, after: Bytes, piece: Bytes, rest: Bytes)
    requires b1 == b0 + piece && after == b1 + rest
    ensures after == b0 + (piece + rest)
  {
    assert (b0 + piece) + rest == b0 + (piece + rest);
  }

  // ---- types ---------------------------------------------------------------------------

  method FieldUvarint(w: Writer, id: nat, v: nat, ghost k: Bytes)
    requires id < P16
    modifies w
    ensures w.buf + k == old(w.buf) + (FieldId(id) + (UvEncode(v) + k))
  {
    ghost var b0 := w.buf;
    w.Field(id);
    ghost var b1 := w.buf;
    w.Uvarint(v);
    Then(b1, w.buf, w.buf + k, UvEncode(v), k);
    Then(b0, b1, w.buf + k, FieldId(id), UvEncode(v) + k);
  }

  method FieldOptional(w: Writer, id: nat, v: nat, ghost k: Bytes)
    requires id < P16
    modifies w
    ensures w.buf + k == old(w.buf) + OptionalUv(id, v, k)
  {
    if v != 0 {
      FieldUvarint(w, id, v, k);
    }
  }

  method InfoHead(w: Writer, kind: nat, ghost k: Bytes)
    modifies w
    ensures w.buf + k == old(w.buf) + (FieldId(101) + (BoolByte(true) + (FieldId(100) + (UvEncode(kind) + k))))
  {
    ghost var b0 := w.buf;
    w.Field(101);
    ghost var b1 := w.buf;
    w.Bool(true);
    ghost var b2 := w.buf;
    FieldUvarint(w, 100, kind, k);
    Then(b1, b2, w.buf + k, BoolByte(true), FieldId(100) + (UvEncode(kind) + k));
    Then(b0, b1, w.buf + k, FieldId(101), BoolByte(true) + (FieldId(100) + (UvEncode(kind) + k)));
  }

  method EndThen(w: Writer, ghost k: Bytes)
    modifies w
    ensures w.buf + k == old(w.buf) + (EndMark() + k)
  {
    ghost var b0 := w.buf;
    w.End();
    Then(b0, w.buf, w.buf + k, EndMark(), k);
  }

  method FieldThen(w: Writer, id: nat, ghost k: Bytes)
    requires id < P16
    modifies w
    ensures w.buf + k == old(w.buf) + (FieldId(id) + k)
  {
    ghost var b0 := w.buf;
    w.Field(id);
    Then(b0, w.buf, w.buf + k, FieldId(id), k);
  }

  method UvarintThen(w: Writer, v: nat, ghost k: Bytes)
    modifies w
    ensures w.buf + k == old(w.buf) + (UvEncode(v) + k)
  {
    ghost var b0 := w.buf;
    w.Uvarint(v);
    Then(b0, w.buf, w.buf + k, UvEncode(v), k);
  }

  method BytesThen(w: Writer, b: Bytes, ghost k: Bytes)
    modifies w
    ensures w.buf + k == old(w.buf) + (Prefixed(b) + k)
  {
    ghost var b0 := w.buf;
    w.BytesVal(b);
    Then(b0, w.buf, w.buf + k, Prefixed(b), k);
  }

  method BoolThen(w: Writer, b: bool, ghost k: Bytes)
    modifies w
    ensures w.buf + k == old(w.buf) + (BoolByte(b) + k)
  {
    ghost var b0 := w.buf;
    w.Bool(b);
    Then(b0, w.buf, w.buf + k, BoolByte(b), k);
  }

  /** WriteType */
  method WriteType(w: Writer, t: LogicalType, ghost k: Bytes)
    requires WellFormed(t)
    modifies w
    ensures w.buf + k == old(w.buf) + TypeBytes(t, k)
    decreases t, 2
  {
    hide FieldId, UvEncode, EndMark, BoolByte, InfoBody;
    ghost var k1 := EndMark() + k;
    ghost var k2 := EndMark() + k1;
    FieldUvarint(w, 100, t.id, InfoBytes(t, k1));
    if t.id == DECIMAL {
      InfoHead(w, INFO_DECIMAL, OptionalUv(200, t.width, OptionalUv(201, t.scale, k2)));
      FieldOptional(w, 200, t.width, OptionalUv(201, t.scale, k2));
      FieldOptional(w, 201, t.scale, k2);
      DecimalBody(t, k2);
      EndThen(w, k1);
    } else if IsList(t.id) {
      InfoHead(w, INFO_LIST, FieldId(200) + TypeBytes(t.child.value, k2));
      FieldThen(w, 200, TypeBytes(t.child.value, k2));
      WriteType(w, t.child.value, k2);
      ListBody(t, k2);
      EndThen(w, k1);
    } else if IsStructLike(t.id) {
      ghost var f := UvEncode(|t.fields|) + FieldsBytes(t.fields, k2);
      InfoHead(w, INFO_STRUCT, FieldId(200) + f);
      FieldThen(w, 200, f);
      UvarintThen(w, |t.fields|, FieldsBytes(t.fields, k2));
      WriteFields(w, t.fields, k2);
      StructBody(t, k2);
      EndThen(w, k1);
    } else if t.id == ENUM {
      ghost var n := UvEncode(|t.labels|);
      ghost var l := n + StringsBytes(t.labels, k2);
      InfoHead(w, INFO_ENUM, FieldId(200) + (n + (FieldId(201) + l)));
      FieldUvarint(w, 200, |t.labels|, FieldId(201) + l);
      FieldThen(w, 201, l);
      UvarintThen(w, |t.labels|, StringsBytes(t.labels, k2));
      WriteStrings(w, t.labels, k2);
      EnumBody(t, k2);
      EndThen(w, k1);
    } else if t.id == ARRAY {
      ghost var k3 := OptionalUv(201, t.arraySize, k2);
      InfoHead(w, INFO_ARRAY, FieldId(200) + TypeBytes(t.child.value, k3));
      FieldThen(w, 200, TypeBytes(t.child.value, k3));
      WriteType(w, t.child.value, k3);
      FieldOptional(w, 201, t.arraySize, k2);
      ArrayBody(t, k2);
      EndThen(w, k1);
    }
    EndThen(w, k);
  }

  lemma DecimalBody(t: LogicalType, k: Bytes)
    requires WellFormed(t) && t.id == DECIMAL
    ensures InfoBody(t, k) == UvEncode(INFO_DECIMAL) + OptionalUv(200, t.width, OptionalUv(201, t.scale, k))
  {
  }

  lemma ListBody(t: LogicalType, k: Bytes)
    requires WellFormed(t) && IsList(t.id)
    ensures InfoBody(t, k) == UvEncode(INFO_LIST) + (FieldId(200) + TypeBytes(t.child.value, k))
  {
  }

  lemma StructBody(t: LogicalType, k: Bytes)
    requires WellFormed(t) && IsStructLike(t.id)
    ensures InfoBody(t, k) == UvEncode(INFO_STRUCT) + (FieldId(200) + (UvEncode(|t.fields|) + FieldsBytes(t.fields, k)))
  {
  }

  lemma EnumBody(t: LogicalType, k: Bytes)
    requires WellFormed(t) && t.id == ENUM
    ensures InfoBody(t, k) == UvEncode(INFO_ENUM) + (FieldId(200) + (UvEncode(|t.labels|)
                              + (FieldId(201) + (UvEncode(|t.labels|) + StringsBytes(t.labels, k)))))
  {
  }

  lemma ArrayBody(t: LogicalType, k: Bytes)
    requires WellFormed(t) && t.id == ARRAY
    ensures InfoBody(t, k) == UvEncode(INFO_ARRAY) + (FieldId(200) + TypeBytes(t.child.value, OptionalUv(201, t.arraySize, k)))
  {
  }

  method WriteFields(w: Writer, fs: seq<StructField>, ghost k: Bytes)
    requires forall f <- fs :: |f.name| < P64 && WellFormed(f.typ)
    modifies w
    ensures w.buf + k == old(w.buf) + FieldsBytes(fs, k)
    decreases fs, 0
  {
    hide FieldId, EndMark, Prefixed, TypeBytes, WellFormed;
    var i := 0;
    while i < |fs|
      invariant i <= |fs| && w.buf + FieldsBytes(fs[i..], k) == old(w.buf) + FieldsBytes(fs, k)
    {
      var f := fs[i];
      ghost var k1 := FieldsBytes(fs[i + 1..], k);
      ghost var k2 := TypeBytes(f.typ, EndMark() + k1);
      assert fs[i..][0] == f && fs[i..][1..] == fs[i + 1..];
      FieldThen(w, 0, Prefixed(f.name) + (FieldId(1) + k2));
      BytesThen(w, f.name, FieldId(1) + k2);
      FieldThen(w, 1, k2);
      WriteType(w, f.typ, EndMark() + k1);
      EndThen(w, k1);
      i := i + 1;
    }
    assert fs[|fs|..] == [];
  }

  method WriteStrings(w: Writer, ss: seq<Bytes>, ghost k: Bytes)
    modifies w
    ensures w.buf + k == old(w.buf) + StringsBytes(ss, k)
  {
    hide Prefixed;
    var i := 0;
    while i < |ss|
      invariant i <= |ss| && w.buf + StringsBytes(ss[i..], k) == old(w.buf) + StringsBytes(ss, k)
    {
      assert ss[i..][0] == ss[i] && ss[i..][1..] == ss[i + 1..];
      BytesThen(w, ss[i], StringsBytes(ss[i + 1..], k));
      i := i + 1;
    }
    assert ss[|ss|..] == [];
  }

  // ---- masks and bits --------------------------------------------------------------------

  /** `b |= 1 << i` */
  function OrBit(b: Byte, i: nat): Byte
    requires i < 8
  {
    if Bit(b, i) then b else
      var x: int := b + Weight(i);
      if x < 256 then x else b
  }

  /** Setting a clear bit of a byte. */
  lemma SetBit(bits: seq<bool>, i: nat)
    requires |bits| == 8 && i < 8 && !bits[i]
    ensures OrBit(ByteOf(bits), i) == ByteOf(bits[i := true])
  {
    ByteOfBits(bits, i);
    var next := bits[i := true];
    assert ByteOf(next) == ByteOf(bits) + Weight(i) by {
      match i
      case 0 => case 1 => case 2 => case 3 => case 4 => case 5 => case 6 => case 7 =>
    }
  }

  lemma MaskByteNext(vals: seq<Value>, i: nat, base: nat)
    requires i < |vals|
    ensures MaskByte(vals[..i + 1], base)
            == if base <= i < base + 8 && !vals[i].VNull? then OrBit(MaskByte(vals[..i], base), i - base)
               else MaskByte(vals[..i], base)
  {
    var before := seq(8, j requires 0 <= j => base + j < |vals[..i]| && !vals[..i][base + j].VNull?);
    var after := seq(8, j requires 0 <= j => base + j < |vals[..i + 1]| && !vals[..i + 1][base + j].VNull?);
    if base <= i < base + 8 && !vals[i].VNull? {
      assert after == before[i - base := true];
      SetBit(before, i - base);
    } else {
      assert after == before;
    }
  }

  /** The mask bits of the first `i` values are in place, the others clear. */
  ghost predicate Marked(a: seq<Byte>, vals: seq<Value>, i: nat)
  {
    i <= |vals| && forall j :: 0 <= j < |a| ==> a[j] == MaskByte(vals[..i], 8 * j)
  }

  lemma NothingMarked(a: seq<Byte>, vals: seq<Value>)
    requires forall j :: 0 <= j < |a| ==> a[j] == 0
    ensures Marked(a, vals, 0)
  {
  }

  lemma MarkedNext(a: seq<Byte>, vals: seq<Value>, i: nat)
    requires Marked(a, vals, i) && i < |vals| && i < 8 * |a|
    ensures Marked(if vals[i].VNull? then a else a[i / 8 := OrBit(a[i / 8], i % 8)], vals, i + 1)
  {
    hide MaskByte, OrBit;
    var at := i / 8;
    assert i == 8 * at + i % 8;
    forall j | 0 <= j < |a|
      ensures MaskByte(vals[..i + 1], 8 * j) == if j == at && !vals[i].VNull? then OrBit(a[j], i % 8) else a[j]
    {
      MaskByteNext(vals, i, 8 * j);
      assert j == at <==> 8 * j <= i < 8 * j + 8;
    }
  }

  /** validityMask, its mask filled in place. */
  method BuildMask(vals: seq<Value>) returns (mask: Option<Bytes>)
    ensures mask == ValidityMask(vals)
  {
    hide MaskByte, OrBit, Marked;
    var hasNull := false;
    for i := 0 to |vals|
      invariant !hasNull && VNull !in vals[..i]
    {
      assert vals[..i + 1] == vals[..i] + [vals[i]];
      if vals[i].VNull? {
        hasNull := true;
        break;
      }
    }
    assert vals[..|vals|] == vals;
    if !hasNull {
      return None;
    }
    var n := (|vals| + 63) / 64 * 8;
    var a := new Byte[n](_ => 0);
    NothingMarked(a[..], vals);
    for i := 0 to |vals|
      invariant Marked(a[..], vals, i)
    {
      MarkedNext(a[..], vals, i);
      if !vals[i].VNull? {
        a[i / 8] := OrBit(a[i / 8], i % 8);
      }
    }
    mask := Some(a[..]);
    MarkedAll(a[..], vals);
  }

  lemma MarkedAll(a: seq<Byte>, vals: seq<Value>)
    requires Marked(a, vals, |vals|) && |a| == (|vals| + 63) / 64 * 8 && VNull in vals
    ensures Some(a) == ValidityMask(vals)
  {
    hide MaskByte;
    assert vals[..|vals|] == vals;
    assert a == ValidityMask(vals).value;
  }

  /** The text of a BIT blob being filled: `q` padding bits and `i` data bits. */
  ghost function Filled(s: Bytes, p: nat, q: nat, i: nat): (cs: Bytes)
    ensures |cs| == p + |s|
  {
    seq<Byte>(p + |s|, x requires 0 <= x < p + |s| =>
      if x < p then (if x < q then 49 else 48) else if x - p < i then s[x - p] else 48)
  }

  lemma CharSet(cs: Bytes, cs': Bytes, x: nat, j: nat)
    requires |cs| == |cs'| && |cs| % 8 == 0 && 8 * j + 8 <= |cs| && x < |cs| && cs' == cs[x := 49] && cs[x] == 48
    ensures CharByte(cs'[8 * j..8 * j + 8])
            == if 8 * j <= x < 8 * j + 8 then OrBit(CharByte(cs[8 * j..8 * j + 8]), 7 - (x - 8 * j))
               else CharByte(cs[8 * j..8 * j + 8])
  {
    var b, b' := cs[8 * j..8 * j + 8], cs'[8 * j..8 * j + 8];
    var bits, bits' := seq(8, i requires 0 <= i < 8 => b[7 - i] == 49), seq(8, i requires 0 <= i < 8 => b'[7 - i] == 49);
    if 8 * j <= x < 8 * j + 8 {
      assert bits' == bits[7 - (x - 8 * j) := true];
      SetBit(bits, 7 - (x - 8 * j));
    } else {
      assert bits' == bits;
    }
  }

  lemma {:induction false} PackAt(cs: Bytes, j: nat)
    requires |cs| % 8 == 0 && 8 * j + 8 <= |cs|
    ensures PackChars(cs)[j] == CharByte(cs[8 * j..8 * j + 8])
    decreases |cs|
  {
    if j > 0 {
      PackAt(cs[8..], j - 1);
      assert cs[8..][8 * (j - 1)..8 * (j - 1) + 8] == cs[8 * j..8 * j + 8];
    }
  }

  ghost predicate Packed(a: seq<Byte>, cs: Bytes)
  {
    |cs| % 8 == 0 && |a| == 1 + |cs| / 8 && forall j :: 0 <= j < |cs| / 8 ==> a[1 + j] == CharByte(cs[8 * j..8 * j + 8])
  }

  lemma PackedSet(a: seq<Byte>, cs: Bytes, x: nat)
    requires Packed(a, cs) && x < |cs| && cs[x] == 48
    ensures Packed(a[1 + x / 8 := OrBit(a[1 + x / 8], 7 - x % 8)], cs[x := 49])
  {
    hide CharByte, OrBit;
    var at := x / 8;
    assert x == 8 * at + x % 8;
    forall j | 0 <= j < |cs| / 8
      ensures CharByte(cs[x := 49][8 * j..8 * j + 8]) == if j == at then OrBit(a[1 + j], 7 - x % 8) else a[1 + j]
    {
      CharSet(cs, cs[x := 49], x, j);
      assert j == at <==> 8 * j <= x < 8 * j + 8;
    }
  }

  lemma ZeroPacked(a: seq<Byte>, cs: Bytes)
    requires |cs| % 8 == 0 && |a| == 1 + |cs| / 8 && (forall j :: 1 <= j < |a| ==> a[j] == 0) && forall x :: 0 <= x < |cs| ==> cs[x] == 48
    ensures Packed(a, cs)
  {
  }

  /** bitBlob, its bytes filled in place: data bits, then padding bits. */
  method BuildBitBlob(s: Bytes) returns (b: Bytes)
    requires IsBitText(s)
    ensures b == BitBlob(s)
  {
    hide CharByte, Bit, OrBit, Packed;
    var p := Padding(|s|);
    if |s| == 0 {
      return [0];
    }
    var a := new Byte[1 + (|s| + p) / 8](_ => 0);
    a[0] := p;
    ZeroPacked(a[..], Filled(s, p, 0, 0));
    var at := p;
    for i := 0 to |s|
      invariant at == p + i && a[0] == p && Packed(a[..], Filled(s, p, 0, i))
    {
      FilledNext(s, p, i);
      if s[i] == 49 {
        PackedSet(a[..], Filled(s, p, 0, i), at);
        a[1 + at / 8] := OrBit(a[1 + at / 8], 7 - at % 8);
      }
      at := at + 1;
    }
    for q := 0 to p
      invariant a[0] == p && Packed(a[..], Filled(s, p, q, |s|))
    {
      PackedSet(a[..], Filled(s, p, q, |s|), q);
      assert Filled(s, p, q, |s|)[q := 49] == Filled(s, p, q + 1, |s|);
      a[1] := OrBit(a[1], 7 - q);
    }
    b := a[..];
    PackedAll(b, s);
  }

  lemma FilledNext(s: Bytes, p: nat, i: nat)
    requires IsBitText(s) && i < |s|
    ensures Filled(s, p, 0, i)[p + i] == 48
    ensures Filled(s, p, 0, i + 1) == if s[i] == 49 then Filled(s, p, 0, i)[p + i := 49] else Filled(s, p, 0, i)
  {
    assert Filled(s, p, 0, i + 1) == if s[i] == 49 then Filled(s, p, 0, i)[p + i := 49] else Filled(s, p, 0, i);
  }

  lemma PackedAll(b: Bytes, s: Bytes)
    requires IsBitText(s) && |b| > 0 && b[0] == Padding(|s|) && Packed(b, Filled(s, Padding(|s|), Padding(|s|), |s|))
    ensures b == BitBlob(s)
  {
    hide CharByte;
    var cs := Ones(Padding(|s|)) + s;
    assert cs == Filled(s, Padding(|s|), Padding(|s|), |s|);
    forall j | 0 <= j < |cs| / 8 ensures PackChars(cs)[j] == b[1 + j] {
      PackAt(cs, j);
    }
    assert b == [b[0]] + PackChars(cs);
  }

  // ---- vectors ------------------------------------------------------------------------------

  method WriteMask(w: Writer, vals: seq<Value>, ghost k: Bytes)
    modifies w
    ensures w.buf + k == old(w.buf) + MaskBytes(ValidityMask(vals), k)
  {
    hide FieldId, BoolByte, Prefixed, ValidityMask;
    var mask := BuildMask(vals);
    ghost var k1 := if mask.Some? then FieldId(101) + (Prefixed(mask.value) + k) else k;
    FieldThen(w, 100, BoolByte(mask.Some?) + k1);
    BoolThen(w, mask.Some?, k1);
    if mask.Some? {
      FieldThen(w, 101, Prefixed(mask.value) + k);
      BytesThen(w, mask.value, k);
    }
  }

  /** writeVector */
  method WriteVector(w: Writer, t: LogicalType, vals: seq<Value>, ghost k: Bytes)
    requires SupportedType(t) && AllTyped(t, vals)
    modifies w
    ensures w.buf + k == old(w.buf) + VecBytes(FlatOf(t, vals), k)
    decreases t, 1
  {
    hide FieldId, UvEncode, EndMark, MaskBytes, BodyBytes, CellBytes, CellTyped;
    ghost var v := FlatOf(t, vals);
    ChildrenTyped(t, vals);
    assert VecBytes(v, k) == MaskBytes(ValidityMask(vals), BodyBytes(v.body, k));
    WriteMask(w, vals, BodyBytes(v.body, k));
    hide FlatOf, VecBytes, ValidityMask;
    if IsScalarText(t.id) {
      WriteTexts(w, t, vals, k);
    } else if t.id == STRUCT {
      WriteStruct(w, t, vals, k);
    } else if IsList(t.id) {
      WriteList(w, t, vals, k);
    } else if t.id == ARRAY {
      WriteArray(w, t, vals, k);
    } else {
      WriteFixed(w, t, vals, k);
    }
  }

  method WriteTexts(w: Writer, t: LogicalType, vals: seq<Value>, ghost k: Bytes)
    requires SupportedType(t) && IsScalarText(t.id) && AllTyped(t, vals)
    modifies w
    ensures w.buf + k == old(w.buf) + BodyBytes(FlatOf(t, vals).body, k)
  {
    hide FieldId, UvEncode, Prefixed, BitBlob, ValidityMask;
    ghost var items := FlatOf(t, vals).body.items;
    FieldThen(w, 102, UvEncode(|vals|) + StringsBytes(items, k));
    UvarintThen(w, |vals|, StringsBytes(items, k));
    label start:
    var i := 0;
    while i < |vals|
      invariant i <= |vals| && w.buf + StringsBytes(items[i..], k) == old@start(w.buf) + StringsBytes(items, k)
    {
      var x := vals[i];
      assert x in vals && Typed(t, x);
      assert items[i..][0] == items[i] && items[i..][1..] == items[i + 1..];
      ghost var k1 := StringsBytes(items[i + 1..], k);
      assert items[i] == TextBytes(t.id, x);
      if x.VNull? {
        BytesThen(w, [], k1);
      } else if t.id == BIT {
        var blob := BuildBitBlob(x.s);
        BytesThen(w, blob, k1);
      } else {
        BytesThen(w, x.s, k1);
      }
      i := i + 1;
    }
    assert items[|items|..] == [];
  }

  method BuildColumn(vals: seq<Value>, j: nat) returns (col: seq<Value>)
    ensures col == ChildColumn(vals, j)
  {
    col := [];
    while |col| < |vals|
      invariant |col| <= |vals| && col == ChildColumn(vals, j)[..|col|]
    {
      var x := vals[|col|];
      col := col + [if x.VStruct? && j < |x.entries| then x.entries[j].value else VNull];
    }
  }

  method WriteStruct(w: Writer, t: LogicalType, vals: seq<Value>, ghost k: Bytes)
    requires SupportedType(t) && t.id == STRUCT && AllTyped(t, vals)
    modifies w
    ensures w.buf + k == old(w.buf) + BodyBytes(FlatOf(t, vals).body, k)
    decreases t, 0, 1
  {
    hide FieldId, UvEncode, KidsBytes, ValidityMask, ChildColumn, Typed;
    ChildrenTyped(t, vals);
    ghost var kids := FlatOf(t, vals).body.kids;
    FieldThen(w, 103, UvEncode(|t.fields|) + KidsBytes(kids, k));
    UvarintThen(w, |t.fields|, KidsBytes(kids, k));
    WriteKids(w, t, vals, kids, k);
  }

  method WriteKids(w: Writer, t: LogicalType, vals: seq<Value>, ghost kids: seq<Vec>, ghost k: Bytes)
    requires t.id == STRUCT && |kids| == |t.fields|
    requires forall j :: 0 <= j < |kids| ==>
               && SupportedType(t.fields[j].typ) && AllTyped(t.fields[j].typ, ChildColumn(vals, j))
               && kids[j] == FlatOf(t.fields[j].typ, ChildColumn(vals, j))
    modifies w
    ensures w.buf + k == old(w.buf) + KidsBytes(kids, k)
    decreases t, 0, 0
  {
    hide FieldId, UvEncode, EndMark, VecBytes, FlatOf, ChildColumn, SupportedType, AllTyped;
    var j := 0;
    while j < |t.fields|
      invariant j <= |t.fields| && w.buf + KidsBytes(kids[j..], k) == old(w.buf) + KidsBytes(kids, k)
    {
      var child := BuildColumn(vals, j);
      assert kids[j..][0] == kids[j] && kids[j..][1..] == kids[j + 1..];
      ghost var k1 := KidsBytes(kids[j + 1..], k);
      WriteVector(w, t.fields[j].typ, child, EndMark() + k1);
      EndThen(w, k1);
      j := j + 1;
    }
    assert kids[|kids|..] == [];
  }

  /** The flattening loop: child rows and windows together. */
  method BuildWindows(t: LogicalType, vals: seq<Value>) returns (child: seq<Value>, entries: seq<WindowEntry>)
    requires t.id == MAP ==> t.child.Some? && |t.child.value.fields| == 2
    ensures child == Flatten(t, vals) && entries == WindowEntries(t, vals)
  {
    hide RowElems;
    child, entries := [], [];
    var i := 0;
    while i < |vals|
      invariant i <= |vals| && |entries| == i
      invariant child == Flatten(t, vals[..i])
      invariant forall j :: 0 <= j < i ==> entries[j] == WindowEntries(t, vals)[j]
    {
      var row := RowElems(t, vals[i]);
      entries := entries + [WindowEntry(Some(|child|), Some(|row|))];
      assert vals[..i + 1][..i] == vals[..i] && vals[..i + 1][i] == vals[i];
      child := child + row;
      i := i + 1;
    }
    assert vals[..|vals|] == vals;
  }

  method WriteEntries(w: Writer, es: seq<WindowEntry>, ghost k: Bytes)
    requires forall e <- es :: e.off.Some? && e.len.Some?
    modifies w
    ensures w.buf + k == old(w.buf) + EntriesBytes(es, k)
  {
    hide FieldId, UvEncode, EndMark;
    var i := 0;
    while i < |es|
      invariant i <= |es| && w.buf + EntriesBytes(es[i..], k) == old(w.buf) + EntriesBytes(es, k)
    {
      assert es[i..][0] == es[i] && es[i..][1..] == es[i + 1..];
      ghost var k1 := EntriesBytes(es[i + 1..], k);
      ghost var k2 := OptionBytes(101, es[i].len, EndMark() + k1);
      FieldUvarint(w, 100, es[i].off.value, k2);
      FieldUvarint(w, 101, es[i].len.value, EndMark() + k1);
      EndThen(w, k1);
      i := i + 1;
    }
    assert es[|es|..] == [];
  }

  method WriteList(w: Writer, t: LogicalType, vals: seq<Value>, ghost k: Bytes)
    requires SupportedType(t) && IsList(t.id) && AllTyped(t, vals)
    modifies w
    ensures w.buf + k == old(w.buf) + BodyBytes(FlatOf(t, vals).body, k)
    decreases t, 0
  {
    hide FieldId, UvEncode, EndMark, VecBytes, EntriesBytes, ValidityMask, Flatten;
    ChildrenTyped(t, vals);
    var child, entries := BuildWindows(t, vals);
    ghost var k1 := VecBytes(FlatOf(t.child.value, child), EndMark() + k);
    ghost var k2 := EntriesBytes(entries, FieldId(106) + k1);
    assert FlatOf(t, vals).body == Windows(|child|, entries, FlatOf(t.child.value, child));
    FieldUvarint(w, 104, |child|, FieldId(105) + (UvEncode(|entries|) + k2));
    FieldThen(w, 105, UvEncode(|entries|) + k2);
    UvarintThen(w, |entries|, k2);
    WriteEntries(w, entries, FieldId(106) + k1);
    FieldThen(w, 106, k1);
    WriteVector(w, t.child.value, child, EndMark() + k);
    EndThen(w, k);
  }

  method BuildGroups(size: nat, vals: seq<Value>) returns (child: seq<Value>)
    ensures child == FlattenGroups(size, vals)
  {
    hide GroupElems;
    child := [];
    var i := 0;
    while i < |vals|
      invariant i <= |vals| && child == FlattenGroups(size, vals[..i])
    {
      assert vals[..i + 1][..i] == vals[..i] && vals[..i + 1][i] == vals[i];
      child := child + GroupElems(size, vals[i]);
      i := i + 1;
    }
    assert vals[..|vals|] == vals;
  }

  method WriteArray(w: Writer, t: LogicalType, vals: seq<Value>, ghost k: Bytes)
    requires SupportedType(t) && t.id == ARRAY && AllTyped(t, vals)
    modifies w
    ensures w.buf + k == old(w.buf) + BodyBytes(FlatOf(t, vals).body, k)
    decreases t, 0
  {
    hide FieldId, UvEncode, EndMark, VecBytes, ValidityMask, FlattenGroups;
    ChildrenTyped(t, vals);
    var child := BuildGroups(t.arraySize, vals);
    ghost var k1 := VecBytes(FlatOf(t.child.value, child), EndMark() + k);
    assert FlatOf(t, vals).body == Groups(t.arraySize, FlatOf(t.child.value, child));
    FieldUvarint(w, 103, t.arraySize, FieldId(104) + k1);
    FieldThen(w, 104, k1);
    WriteVector(w, t.child.value, child, EndMark() + k);
    EndThen(w, k);
  }

  method WriteFixed(w: Writer, t: LogicalType, vals: seq<Value>, ghost k: Bytes)
    requires SupportedType(t) && AllTyped(t, vals)
    requires !IsText(t.id) && !IsStructLike(t.id) && !IsList(t.id) && t.id != ARRAY
    modifies w
    ensures w.buf + k == old(w.buf) + BodyBytes(FlatOf(t, vals).body, k)
  {
    assert forall i :: 0 <= i < |vals| ==> Typed(t, vals[i]);
    assert forall v <- vals :: v.VNull? || CellTyped(t, v);
    hide FieldId, Prefixed, ValidityMask, CellBytes, CellTyped, PhysicalWidth;
    var data := [];
    var i := 0;
    while i < |vals|
      invariant i <= |vals| && data == CellsBytes(t, vals[..i])
    {
      assert vals[..i + 1][..i] == vals[..i] && vals[..i + 1][i] == vals[i];
      data := data + CellBytes(t, vals[i]);
      i := i + 1;
    }
    assert vals[..|vals|] == vals;
    FieldThen(w, 102, Prefixed(data) + k);
    BytesThen(w, data, k);
  }
}
