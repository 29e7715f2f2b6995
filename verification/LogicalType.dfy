/** Type trees: what decodeType accepts, what WriteType emits, and that the
    first inverts the second. */
module LogicalTypes {
  import opened Basics
  import opened Leb128
  import opened Framing

  // TypeID values the codec tells apart.
  const BOOLEAN := 10
  const TINYINT := 11
  const SMALLINT := 12
  const INTEGER := 13
  const BIGINT := 14
  const DATE := 15
  const TIME := 16
  const TIMESTAMP_SEC := 17
  const TIMESTAMP_MS := 18
  const TIMESTAMP := 19
  const TIMESTAMP_NS := 20
  const DECIMAL := 21
  const FLOAT := 22
  const DOUBLE := 23
  const VARCHAR := 25
  const BLOB := 26
  const INTERVAL := 27
  const UTINYINT := 28
  const USMALLINT := 29
  const UINTEGER := 30
  const UBIGINT := 31
  const TIMESTAMP_TZ := 32
  const TIME_TZ := 34
  const TIME_NS := 35
  const BIT := 36
  const UHUGEINT := 49
  const HUGEINT := 50
  const UUID := 54
  const GEOMETRY := 60
  const STRUCT := 100
  const LIST := 101
  const MAP := 102
  const ENUM := 104
  const UNION := 107
  const ARRAY := 108
  const VARIANT := 109

  // ExtraTypeInfo kinds.
  const INFO_GENERIC := 1
  const INFO_DECIMAL := 2
  const INFO_STRING := 3
  const INFO_LIST := 4
  const INFO_STRUCT := 5
  const INFO_ENUM := 6
  const INFO_ARRAY := 9

  const MAX_TYPE_DEPTH := 64

  datatype LogicalType = LogicalType(
    id: nat,
    width: nat,
    scale: nat,
    child: Option<LogicalType>,
    fields: seq<StructField>,
    labels: seq<Bytes>,  // enum dictionary
    arraySize: nat)

  datatype StructField = StructField(name: Bytes, typ: LogicalType)

  /** codectest.T: a type without parameters. */
  function Plain(id: nat): LogicalType
  {
    LogicalType(id, 0, 0, None, [], [], 0)
  }

  datatype DecodeError = Malformed | ReadFailed(error: ReadError)

  datatype Result<+T> = Success(value: T) | Failure(error: DecodeError)

  /** `return v, r.Err()` */
  function Checked<T>(r: Rd, v: T): Result<T>
  {
    if r.Ok? then Success(v) else Failure(ReadFailed(r.error))
  }

  predicate IsList(id: nat) { id == LIST || id == MAP }

  predicate IsStructLike(id: nat) { id == STRUCT || id == UNION || id == VARIANT }

  // ---- decoding ------------------------------------------------------------

  ghost function Fuel(depth: nat): nat
  {
    if depth <= MAX_TYPE_DEPTH then MAX_TYPE_DEPTH + 1 - depth else 0
  }

  /** decodeType */
  function DecodeType(r: Rd, depth: nat): (res: (Rd, Result<LogicalType>))
    ensures res.1.Success? ==> res.0.Ok? && r.Ok?
    ensures r.Failed? ==> res.0 == r
    decreases Fuel(depth), 3
  {
    if depth > MAX_TYPE_DEPTH then (r, Failure(Malformed))
    else
      var (r1, ok) := TryField(r, 100);
      if !ok then (r1, Failure(Malformed))
      else
        var (r2, id) := Uvarint(r1);
        var t := Plain(id % P32);
        var (r3, hasInfo) := TryField(r2, 101);
        var (r4, present) := if hasInfo then Bool(r3) else (r3, false);
        if present then
          var (r5, info) := DecodeTypeInfo(r4, t, depth);
          if info.Failure? then (r5, info)
          else
            var r6 := EndObject(r5);
            (r6, Checked(r6, info.value))
        else
          var r6 := EndObject(r4);
          (r6, Checked(r6, t))
  }

  /** decodeTypeInfo */
  function DecodeTypeInfo(r: Rd, t: LogicalType, depth: nat): (res: (Rd, Result<LogicalType>))
    requires depth <= MAX_TYPE_DEPTH
    ensures res.1.Success? ==> res.0.Ok?
    ensures r.Failed? ==> res.0 == r && res.1.Failure?
    decreases Fuel(depth), 2
  {
    var (r1, ok) := TryField(r, 100);
    if !ok then (r1, Failure(Malformed))
    else
      var (r2, kind) := Uvarint(r1);
      var (r3, hasAlias) := TryField(r2, 101);
      var r4 := if hasAlias then Blob(r3).0 else r3;
      var (r5, hasExtension) := TryField(r4, 103);
      var (r6, extension) := if hasExtension then Bool(r5) else (r5, false);
      if extension then (r6, Failure(Malformed)) else DecodeInfoFields(r6, t, kind, depth)
  }

  /** The switch over the kind. */
  function DecodeInfoFields(r: Rd, t: LogicalType, kind: nat, depth: nat): (res: (Rd, Result<LogicalType>))
    requires depth <= MAX_TYPE_DEPTH
    ensures res.1.Success? ==> res.0.Ok?
    ensures r.Failed? ==> res.0 == r && res.1.Failure?
    decreases Fuel(depth), 1
  {
    if kind == INFO_GENERIC then EndInfo(r, t)
    else if kind == INFO_DECIMAL then
      var (r1, hasWidth) := TryField(r, 200);
      var (r2, width) := if hasWidth then Uvarint(r1) else (r1, t.width);
      var (r3, hasScale) := TryField(r2, 201);
      var (r4, scale) := if hasScale then Uvarint(r3) else (r3, t.scale);
      EndInfo(r4, t.(width := if hasWidth then width % P8 else t.width, scale := if hasScale then scale % P8 else t.scale))
    else if kind == INFO_STRING then
      var (r1, hasCollation) := TryField(r, 200);
      EndInfo(if hasCollation then Blob(r1).0 else r1, t)
    else if kind == INFO_LIST then
      var (r1, hasChild) := TryField(r, 200);
      if !hasChild then (r1, Failure(Malformed))
      else
        var (r2, child) := DecodeType(r1, depth + 1);
        if child.Failure? then (r2, child) else EndInfo(r2, t.(child := Some(child.value)))
    else if kind == INFO_STRUCT then
      var (r1, hasFields) := TryField(r, 200);
      if !hasFields then EndInfo(r1, t)
      else
        var (r2, n) := ListCount(r1);
        var (r3, fields) := DecodeFields(r2, n, depth, []);
        if fields.Failure? then (r3, Failure(fields.error)) else EndInfo(r3, t.(fields := fields.value))
    else if kind == INFO_ENUM then
      var (r1, hasSize) := TryField(r, 200);
      if !hasSize then (r1, Failure(Malformed))
      else
        var (r2, size) := Uvarint(r1);
        var (r3, hasLabels) := TryField(r2, 201);
        var (r4, labels) := if hasLabels then DecodeStringList(r3) else (r3, t.labels);
        if |labels| != size then (r4, Failure(Malformed)) else EndInfo(r4, t.(labels := labels))
    else if kind == INFO_ARRAY then
      var (r1, hasChild) := TryField(r, 200);
      if !hasChild then (r1, Failure(Malformed))
      else
        var (r2, child) := DecodeType(r1, depth + 1);
        if child.Failure? then (r2, child)
        else
          var (r3, hasSize) := TryField(r2, 201);
          var (r4, size) := if hasSize then Uvarint(r3) else (r3, t.arraySize);
          EndInfo(r4, t.(child := Some(child.value), arraySize := if hasSize then size % P32 else t.arraySize))
    else (r, Failure(Malformed))
  }

  function EndInfo(r: Rd, t: LogicalType): (res: (Rd, Result<LogicalType>))
    ensures r.Failed? ==> res == (r, Failure(ReadFailed(r.error)))
    ensures res.1.Success? ==> res.0.Ok?
  {
    var r' := EndObject(r);
    (r', Checked(r', t))
  }

  /** The field loop of decodeTypeInfo, `acc` holding the fields so far. */
  function DecodeFields(r: Rd, n: nat, depth: nat, acc: seq<StructField>): (res: (Rd, Result<seq<StructField>>))
    requires depth <= MAX_TYPE_DEPTH
    ensures r.Failed? ==> res.0 == r
    ensures res.1.Success? && n > 0 ==> r.Ok?
    decreases Fuel(depth), 0, n
  {
    if n == 0 then (r, Success(acc))
    else
      var (r1, hasName) := TryField(r, 0);
      var (r2, name) := if hasName then Blob(r1) else (r1, []);
      var (r3, hasType) := TryField(r2, 1);
      if !hasType then (r3, Failure(Malformed))
      else
        var (r4, t) := DecodeType(r3, depth + 1);
        if t.Failure? then (r4, Failure(t.error))
        else DecodeFields(EndObject(r4), n - 1, depth, acc + [StructField(name, t.value)])
  }

  /** A counted list of strings, read without checking in between. */
  function DecodeStringList(r: Rd): (res: (Rd, seq<Bytes>))
    ensures r.Failed? ==> res.0 == r
  {
    var (r1, n) := ListCount(r);
    DecodeStrings(r1, n, [])
  }

  function DecodeStrings(r: Rd, n: nat, acc: seq<Bytes>): (res: (Rd, seq<Bytes>))
    ensures r.Failed? ==> res.0 == r
    ensures |res.1| == |acc| + n
    decreases n
  {
    if n == 0 then (r, acc)
    else
      var (r1, s) := Blob(r);
      DecodeStrings(r1, n - 1, acc + [s])
  }

  // ---- encoding ------------------------------------------------------------

  predicate NoParameters(t: LogicalType)
  {
    t == Plain(t.id)
  }

  /** Types the encoder can write and whose unused parameters are at their
      defaults, which is every type a caller builds for a column. */
  predicate WellFormed(t: LogicalType)
  {
    && t.id < P32
    && if t.id == DECIMAL then t.width < P8 && t.scale < P8 && NoParameters(t.(width := 0, scale := 0))
       else if IsList(t.id) then NoParameters(t.(child := None)) && t.child.Some? && WellFormed(t.child.value)
       else if IsStructLike(t.id) then
         && NoParameters(t.(fields := []))
         && |t.fields| < P32
         && forall f <- t.fields :: |f.name| < P64 && WellFormed(f.typ)
       else if t.id == ENUM then
         && NoParameters(t.(labels := []))
         && |t.labels| < P32
         && forall s <- t.labels :: |s| < P64
       else if t.id == ARRAY then
         && NoParameters(t.(child := None, arraySize := 0))
         && t.arraySize < P32
         && t.child.Some? && WellFormed(t.child.value)
       else NoParameters(t)
  }

  /** The deepest path of the type tree, in edges. */
  function Height(t: LogicalType): (h: nat)
    decreases t, 1
  {
    if t.child.Some? then 1 + Height(t.child.value)
    else if t.fields != [] then 1 + FieldsHeight(t.fields)
    else 0
  }

  function FieldsHeight(fs: seq<StructField>): (h: nat)
    decreases fs, 0
  {
    if fs == [] then 0
    else
      var a, b := Height(fs[0].typ), FieldsHeight(fs[1..]);
      if a >= b then a else b
  }

  // Printers take the bytes that follow, so that what is printed first is
  // read first without re-associating.

  function OptionalUv(id: nat, v: nat, k: Bytes): Bytes
    requires id < P16
  {
    if v != 0 then FieldId(id) + (UvEncode(v) + k) else k
  }

  /** WriteType */
  function TypeBytes(t: LogicalType, k: Bytes): (s: Bytes)
    requires WellFormed(t)
    ensures |s| > |k|
    decreases t, 2
  {
    FieldId(100) + (UvEncode(t.id) + InfoBytes(t, EndMark() + k))
  }

  predicate HasInfo(id: nat)
  {
    id == DECIMAL || IsList(id) || IsStructLike(id) || id == ENUM || id == ARRAY
  }

  function InfoBytes(t: LogicalType, k: Bytes): (s: Bytes)
    requires WellFormed(t)
    ensures |s| >= |k|
    decreases t, 1
  {
    if HasInfo(t.id) then FieldId(101) + (BoolByte(true) + (FieldId(100) + InfoBody(t, EndMark() + k))) else k
  }

  function InfoBody(t: LogicalType, k: Bytes): (s: Bytes)
    requires WellFormed(t) && HasInfo(t.id)
    ensures |s| >= |k|
    decreases t, 0
  {
    if t.id == DECIMAL then
      UvEncode(INFO_DECIMAL) + OptionalUv(200, t.width, OptionalUv(201, t.scale, k))
    else if IsList(t.id) then
      UvEncode(INFO_LIST) + (FieldId(200) + TypeBytes(t.child.value, k))
    else if IsStructLike(t.id) then
      UvEncode(INFO_STRUCT) + (FieldId(200) + (UvEncode(|t.fields|) + FieldsBytes(t.fields, k)))
    else if t.id == ENUM then
      UvEncode(INFO_ENUM) + (FieldId(200) + (UvEncode(|t.labels|)
        + (FieldId(201) + (UvEncode(|t.labels|) + StringsBytes(t.labels, k)))))
    else
      UvEncode(INFO_ARRAY) + (FieldId(200) + TypeBytes(t.child.value, OptionalUv(201, t.arraySize, k)))
  }

  function FieldsBytes(fs: seq<StructField>, k: Bytes): (s: Bytes)
    requires forall f <- fs :: |f.name| < P64 && WellFormed(f.typ)
    ensures |s| >= |fs| + |k|
    decreases fs, 0
  {
    if fs == [] then k
    else
      FieldId(0) + (Prefixed(fs[0].name) + (FieldId(1) + TypeBytes(fs[0].typ, EndMark() + FieldsBytes(fs[1..], k))))
  }

  function StringsBytes(ss: seq<Bytes>, k: Bytes): (s: Bytes)
    ensures |s| >= |ss| + |k|
  {
    if ss == [] then k else Prefixed(ss[0]) + StringsBytes(ss[1..], k)
  }

  // ---- decoding what was encoded ---------------------------------------------

  lemma {:induction false} StringsBack(ss: seq<Bytes>, acc: seq<Bytes>, k: Bytes)
    requires forall s <- ss :: |s| < P64
    ensures DecodeStrings(Ok(StringsBytes(ss, k)), |ss|, acc) == (Ok(k), acc + ss)
    decreases |ss|
  {
    hide TryField, EndObject, Uvarint, Bool, Blob, ListCount, FieldId, UvEncode, BoolByte, Prefixed;
    if ss == [] {
      assert acc + ss == acc;
    } else {
      BlobBack(ss[0], StringsBytes(ss[1..], k));
      StringsBack(ss[1..], acc + [ss[0]], k);
      assert (acc + [ss[0]]) + ss[1..] == acc + ss;
    }
  }

  lemma StringListBack(ss: seq<Bytes>, k: Bytes)
    requires |ss| < P64 && forall s <- ss :: |s| < P64
    ensures DecodeStringList(Ok(UvEncode(|ss|) + StringsBytes(ss, k))) == (Ok(k), ss)
  {
    hide TryField, EndObject, Uvarint, Bool, Blob, ListCount, FieldId, UvEncode, BoolByte, Prefixed;
    ListCountBack(|ss|, StringsBytes(ss, k));
    StringsBack(ss, [], k);
    assert [] + ss == ss;
  }

  lemma OptionalBack(id: nat, v: nat, other: nat, k: Bytes)
    requires id < END_ID && v < P64 && other < P16 && other != id
    ensures var (r, has) := TryField(Ok(OptionalUv(id, v, FieldId(other) + k)), id);
            && has == (v != 0)
            && (if has then Uvarint(r) else (r, 0)) == (Ok(FieldId(other) + k), v)
  {
    if v != 0 {
      FieldBack(id, id, UvEncode(v) + (FieldId(other) + k));
      UvarintBack(v, FieldId(other) + k);
    } else {
      FieldBack(other, id, k);
    }
  }

  /** decodeType inverts WriteType on every well-formed type tree that keeps
      within the depth bound, and consumes exactly what was written. */
  lemma {:induction false} TypeBack(t: LogicalType, depth: nat, k: Bytes)
    requires WellFormed(t) && depth + Height(t) <= MAX_TYPE_DEPTH
    ensures DecodeType(Ok(TypeBytes(t, k)), depth) == (Ok(k), Success(t))
    decreases t, 2
  {
    hide TryField, EndObject, Uvarint, Bool, Blob, ListCount, FieldId, UvEncode, BoolByte, Prefixed;
    var k1 := EndMark() + k;
    var k2 := InfoBytes(t, k1);
    FieldBack(100, 100, UvEncode(t.id) + k2);
    UvarintBack(t.id, k2);
    EndBack(k);
    if HasInfo(t.id) {
      var k3 := FieldId(100) + InfoBody(t, EndMark() + k1);
      FieldBack(101, 101, BoolByte(true) + k3);
      BoolBack(true, k3);
      InfoBack(t, depth, k1);
    } else {
      EndNotField(101, k);
    }
  }

  lemma EndNotField(id: nat, k: Bytes)
    requires id < END_ID
    ensures TryField(Ok(EndMark() + k), id) == (Ok(EndMark() + k), false)
  {
    FieldBack(END_ID, id, k);
  }

  /** The part of a type info object every kind with a field 200 starts with. */
  lemma KindBack(kind: nat, k: Bytes)
    requires kind < P64
    ensures var s := FieldId(200) + k;
            && TryField(Ok(FieldId(100) + (UvEncode(kind) + s)), 100) == (Ok(UvEncode(kind) + s), true)
            && Uvarint(Ok(UvEncode(kind) + s)) == (Ok(s), kind)
            && TryField(Ok(s), 101) == (Ok(s), false)
            && TryField(Ok(s), 103) == (Ok(s), false)
            && TryField(Ok(s), 200) == (Ok(k), true)
  {
    var s := FieldId(200) + k;
    FieldBack(100, 100, UvEncode(kind) + s);
    UvarintBack(kind, s);
    FieldBack(200, 101, k);
    FieldBack(200, 103, k);
    FieldBack(200, 200, k);
  }

  lemma {:induction false} InfoBack(t: LogicalType, depth: nat, k: Bytes)
    requires WellFormed(t) && depth + Height(t) <= MAX_TYPE_DEPTH && HasInfo(t.id)
    ensures DecodeTypeInfo(Ok(FieldId(100) + InfoBody(t, EndMark() + k)), Plain(t.id), depth) == (Ok(k), Success(t))
    decreases t, 1
  {
    hide DecodeTypeInfo, InfoBody, DecodeType, DecodeFields, TypeBytes, FieldsBytes, OptionalUv;
    var k1 := EndMark() + k;
    if t.id == DECIMAL {
      DecimalInfoBack(t, depth, k);
    } else if IsList(t.id) {
      TypeBack(t.child.value, depth + 1, k1);
      ListInfoBack(t, depth, k);
    } else if IsStructLike(t.id) {
      FieldsBack(t.fields, depth, [], k1);
      StructInfoBack(t, depth, k);
    } else if t.id == ENUM {
      EnumInfoBack(t, depth, k);
    } else {
      TypeBack(t.child.value, depth + 1, OptionalUv(201, t.arraySize, k1));
      ArrayInfoBack(t, depth, k);
    }
  }

  lemma ListInfoBack(t: LogicalType, depth: nat, k: Bytes)
    requires WellFormed(t) && IsList(t.id) && depth <= MAX_TYPE_DEPTH
    requires var k1 := EndMark() + k;
             DecodeType(Ok(TypeBytes(t.child.value, k1)), depth + 1) == (Ok(k1), Success(t.child.value))
    ensures DecodeTypeInfo(Ok(FieldId(100) + InfoBody(t, EndMark() + k)), Plain(t.id), depth) == (Ok(k), Success(t))
  {
    hide TryField, EndObject, Uvarint, Bool, Blob, ListCount, FieldId, UvEncode, BoolByte, Prefixed;
    EndBack(k);
    KindBack(INFO_LIST, TypeBytes(t.child.value, EndMark() + k));
  }

  lemma StructInfoBack(t: LogicalType, depth: nat, k: Bytes)
    requires WellFormed(t) && IsStructLike(t.id) && depth <= MAX_TYPE_DEPTH
    requires var k1 := EndMark() + k;
             DecodeFields(Ok(FieldsBytes(t.fields, k1)), |t.fields|, depth, []) == (Ok(k1), Success([] + t.fields))
    ensures DecodeTypeInfo(Ok(FieldId(100) + InfoBody(t, EndMark() + k)), Plain(t.id), depth) == (Ok(k), Success(t))
  {
    hide TryField, EndObject, Uvarint, Bool, Blob, ListCount, FieldId, UvEncode, BoolByte, Prefixed;
    var k2 := FieldsBytes(t.fields, EndMark() + k);
    EndBack(k);
    KindBack(INFO_STRUCT, UvEncode(|t.fields|) + k2);
    ListCountBack(|t.fields|, k2);
    assert [] + t.fields == t.fields;
  }

  lemma ArrayInfoBack(t: LogicalType, depth: nat, k: Bytes)
    requires WellFormed(t) && t.id == ARRAY && depth <= MAX_TYPE_DEPTH
    requires var k2 := OptionalUv(201, t.arraySize, EndMark() + k);
             DecodeType(Ok(TypeBytes(t.child.value, k2)), depth + 1) == (Ok(k2), Success(t.child.value))
    ensures DecodeTypeInfo(Ok(FieldId(100) + InfoBody(t, EndMark() + k)), Plain(t.id), depth) == (Ok(k), Success(t))
  {
    hide TryField, EndObject, Uvarint, Bool, Blob, ListCount, FieldId, UvEncode, BoolByte, Prefixed;
    EndBack(k);
    KindBack(INFO_ARRAY, TypeBytes(t.child.value, OptionalUv(201, t.arraySize, EndMark() + k)));
    OptionalBack(201, t.arraySize, END_ID, k);
  }

  lemma EnumInfoBack(t: LogicalType, depth: nat, k: Bytes)
    requires WellFormed(t) && t.id == ENUM && depth <= MAX_TYPE_DEPTH
    ensures DecodeTypeInfo(Ok(FieldId(100) + InfoBody(t, EndMark() + k)), Plain(t.id), depth) == (Ok(k), Success(t))
  {
    hide TryField, EndObject, Uvarint, Bool, Blob, ListCount, FieldId, UvEncode, BoolByte, Prefixed;
    hide DecodeStringList;
    var n, k1 := |t.labels|, EndMark() + k;
    var k2 := UvEncode(n) + StringsBytes(t.labels, k1);
    EndBack(k);
    KindBack(INFO_ENUM, UvEncode(n) + (FieldId(201) + k2));
    UvarintBack(n, FieldId(201) + k2);
    FieldBack(201, 201, k2);
    StringListBack(t.labels, k1);
  }

  lemma DecimalInfoBack(t: LogicalType, depth: nat, k: Bytes)
    requires WellFormed(t) && t.id == DECIMAL && depth <= MAX_TYPE_DEPTH
    ensures DecodeTypeInfo(Ok(FieldId(100) + InfoBody(t, EndMark() + k)), Plain(t.id), depth) == (Ok(k), Success(t))
  {
    hide TryField, EndObject, Uvarint, Bool, Blob, ListCount, FieldId, UvEncode, BoolByte, Prefixed;
    ReadBack();
    var k1 := EndMark() + k;
    OptionalBack(201, t.scale, END_ID, k);
    if t.scale != 0 {
      OptionalBack(200, t.width, 201, UvEncode(t.scale) + k1);
    } else {
      OptionalBack(200, t.width, END_ID, k);
    }
  }

  lemma {:induction false} FieldsBack(fs: seq<StructField>, depth: nat, acc: seq<StructField>, k: Bytes)
    requires forall f <- fs :: |f.name| < P64 && WellFormed(f.typ)
    requires depth <= MAX_TYPE_DEPTH && (fs == [] || depth + 1 + FieldsHeight(fs) <= MAX_TYPE_DEPTH)
    ensures DecodeFields(Ok(FieldsBytes(fs, k)), |fs|, depth, acc) == (Ok(k), Success(acc + fs))
    decreases fs, 0
  {
    hide TryField, EndObject, Uvarint, Bool, Blob, ListCount, FieldId, UvEncode, BoolByte, Prefixed;
    hide EndMark, DecodeType, TypeBytes, WellFormed, Height;
    if fs == [] {
      assert acc + fs == acc;
    } else {
      var f, rest := fs[0], fs[1..];
      var k1 := FieldsBytes(rest, k);
      var k2 := TypeBytes(f.typ, EndMark() + k1);
      FieldBack(0, 0, Prefixed(f.name) + (FieldId(1) + k2));
      BlobBack(f.name, FieldId(1) + k2);
      FieldBack(1, 1, k2);
      TypeBack(f.typ, depth + 1, EndMark() + k1);
      EndBack(k1);
      FieldsBack(rest, depth, acc + [StructField(f.name, f.typ)], k);
      assert (acc + [f]) + rest == acc + fs;
    }
  }
}
