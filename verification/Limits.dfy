/** The decoder's limits, as numbers, and what it turns away: the malformed
    payloads of the negative corpus, for every payload of their kind. */
module Limits {
  import opened Basics
  import opened Leb128
  import opened Framing
  import opened LogicalTypes
  import opened Values
  import opened Vectors
  import opened VectorWire
  import opened VectorBack
  import opened Storage
  import opened FlatEncoding
  import opened Chunks
  import opened ChunkBack
  import opened RoundTrip

  // ---- nesting ------------------------------------------------------------------------------

  lemma {:induction false} TypeTooDeep(t: LogicalType, depth: nat, k: Bytes)
    requires WellFormed(t) && depth + Height(t) > MAX_TYPE_DEPTH
    ensures DecodeType(Ok(TypeBytes(t, k)), depth).1.Failure?
    decreases t, 2
  {
    hide TryField, EndObject, Uvarint, Bool, Blob, ListCount, FieldId, UvEncode, BoolByte, Prefixed;
    if depth <= MAX_TYPE_DEPTH {
      var k1 := EndMark() + k;
      var k2 := InfoBytes(t, k1);
      FieldBack(100, 100, UvEncode(t.id) + k2);
      UvarintBack(t.id, k2);
      var k3 := FieldId(100) + InfoBody(t, EndMark() + k1);
      FieldBack(101, 101, BoolByte(true) + k3);
      BoolBack(true, k3);
      InfoTooDeep(t, depth, k1);
    }
  }

  lemma {:induction false} InfoTooDeep(t: LogicalType, depth: nat, k: Bytes)
    requires WellFormed(t) && depth <= MAX_TYPE_DEPTH && depth + Height(t) > MAX_TYPE_DEPTH
    ensures HasInfo(t.id)
    ensures DecodeTypeInfo(Ok(FieldId(100) + InfoBody(t, EndMark() + k)), Plain(t.id), depth).1.Failure?
    decreases t, 1
  {
    hide TryField, EndObject, Uvarint, Bool, Blob, ListCount, FieldId, UvEncode, BoolByte, Prefixed;
    var k1 := EndMark() + k;
    if IsStructLike(t.id) {
      var k2 := FieldsBytes(t.fields, k1);
      KindBack(INFO_STRUCT, UvEncode(|t.fields|) + k2);
      ListCountBack(|t.fields|, k2);
      FieldsTooDeep(t.fields, depth, [], k1);
    } else if t.id == ARRAY {
      var k2 := OptionalUv(201, t.arraySize, k1);
      KindBack(INFO_ARRAY, TypeBytes(t.child.value, k2));
      TypeTooDeep(t.child.value, depth + 1, k2);
    } else {
      KindBack(INFO_LIST, TypeBytes(t.child.value, k1));
      TypeTooDeep(t.child.value, depth + 1, k1);
    }
  }

  lemma {:induction false} FieldsTooDeep(fs: seq<StructField>, depth: nat, acc: seq<StructField>, k: Bytes)
    requires forall f <- fs :: |f.name| < P64 && WellFormed(f.typ)
    requires depth <= MAX_TYPE_DEPTH && fs != [] && depth + 1 + FieldsHeight(fs) > MAX_TYPE_DEPTH
    ensures DecodeFields(Ok(FieldsBytes(fs, k)), |fs|, depth, acc).1.Failure?
    decreases fs, 0
  {
    hide TryField, EndObject, Uvarint, Bool, Blob, ListCount, FieldId, UvEncode, BoolByte, Prefixed, TypeBytes, DecodeType, WellFormed;
    var k1 := EndMark() + FieldsBytes(fs[1..], k);
    var k2 := TypeBytes(fs[0].typ, k1);
    FieldBack(0, 0, Prefixed(fs[0].name) + (FieldId(1) + k2));
    BlobBack(fs[0].name, FieldId(1) + k2);
    FieldBack(1, 1, k2);
    if depth + 1 + Height(fs[0].typ) > MAX_TYPE_DEPTH {
      TypeTooDeep(fs[0].typ, depth + 1, k1);
    } else {
      TypeBack(fs[0].typ, depth + 1, k1);
      EndBack(FieldsBytes(fs[1..], k));
      FieldsTooDeep(fs[1..], depth, acc + [StructField(fs[0].name, fs[0].typ)], k);
    }
  }

  /** Types nest 64 levels deep at most, and as deep as that they decode. */
  lemma TypeDepthExactly(t: LogicalType, k: Bytes)
    requires WellFormed(t)
    ensures DecodeType(Ok(TypeBytes(t, k)), 0).1.Success? <==> Height(t) <= 64
  {
    hide DecodeType, TypeBytes, WellFormed, Height;
    if Height(t) <= 64 {
      TypeBack(t, 0, k);
    } else {
      TypeTooDeep(t, 0, k);
    }
  }

  /** So do vectors, and no vector has more than 2^24 rows. */
  lemma VectorLimits(r: Rd, t: LogicalType, count: nat, depth: nat)
    ensures depth > 64 || count > 16777216 ==> DecodeVector(r, t, count, depth).1.Bad?
  {
  }

  /** Within these limits every well-shaped vector decodes. */
  lemma VectorsWithin(v: Vec, t: LogicalType, count: nat, k: Bytes)
    requires Shaped(v, t, count) && Depth(v) <= 64
    ensures DecodeVector(Ok(VecBytes(v, [255, 255] + k)), t, count, 0) == (Ok([255, 255] + k), Meaning(v, t, count))
  {
    hide DecodeVector, VecBytes, Shaped, Meaning, Depth;
    assert EndMark() == [255, 255];
    VecBack(v, t, count, 0, k);
  }

  /** 2^24 rows of one value are well-shaped. */
  lemma ManyRows()
    ensures Shaped(Constant(Flat(None, None, Fixed([1]))), Plain(10), 16777216)
  {
  }

  // ---- type infos -----------------------------------------------------------------------------

  lemma KindRead(kind: nat, k: Bytes, t: LogicalType, depth: nat)
    requires kind < P64 && depth <= MAX_TYPE_DEPTH
    requires TryField(Ok(k), 101) == (Ok(k), false) && TryField(Ok(k), 103) == (Ok(k), false)
    ensures DecodeTypeInfo(Ok([100, 0] + (UvEncode(kind) + k)), t, depth) == DecodeInfoFields(Ok(k), t, kind, depth)
  {
    assert FieldId(100) == [100, 0];
    hide TryField, Uvarint, UvEncode, DecodeInfoFields;
    FieldBack(100, 100, UvEncode(kind) + k);
    UvarintBack(kind, k);
  }

  /** Infos of kinds 1 to 6 and 9 are known; no other kind is. */
  lemma UnknownInfo(kind: nat, r: Rd, t: LogicalType, depth: nat)
    requires kind !in {1, 2, 3, 4, 5, 6, 9} && depth <= MAX_TYPE_DEPTH
    ensures DecodeInfoFields(r, t, kind, depth).1.Failure?
  {
  }

  /** Generic infos say nothing; a string's collation is read and dropped; an
      extension's info is refused. */
  lemma OtherInfos(t: LogicalType, collation: Bytes, kind: nat, depth: nat, k: Bytes)
    requires depth <= 64 && |collation| < P64 && kind < P64
    ensures DecodeTypeInfo(Ok([100, 0] + ([1] + ([255, 255] + k))), t, depth) == (Ok(k), Success(t))
    ensures DecodeInfoFields(Ok([200, 0] + (Prefixed(collation) + ([255, 255] + k))), t, 3, depth) == (Ok(k), Success(t))
    ensures DecodeTypeInfo(Ok([100, 0] + (UvEncode(kind) + ([103, 0] + ([1] + k)))), t, depth).1.Failure?
  {
    assert UvEncode(1) == [1] && EndMark() == [255, 255] && FieldId(200) == [200, 0] && FieldId(103) == [103, 0];
    assert FieldId(100) == [100, 0] && BoolByte(true) == [1];
    hide TryField, Uvarint, UvEncode, EndObject, Blob, Bool, Prefixed;
    EndBack(k);
    EndNotField(101, k);
    EndNotField(103, k);
    KindRead(1, [255, 255] + k, t, depth);
    FieldBack(200, 200, Prefixed(collation) + ([255, 255] + k));
    BlobBack(collation, [255, 255] + k);
    var x := [1] + k;
    FieldBack(100, 100, UvEncode(kind) + ([103, 0] + x));
    UvarintBack(kind, [103, 0] + x);
    FieldBack(103, 101, x);
    FieldBack(103, 103, x);
    BoolBack(true, k);
  }

  /** An enum has as many labels as it says. */
  lemma LabelCount(size: nat, labels: seq<Bytes>, t: LogicalType, depth: nat, k: Bytes)
    requires depth <= 64 && size < P64 && |labels| < P64 && (forall s <- labels :: |s| < P64) && size != |labels|
    ensures DecodeInfoFields(Ok([200, 0] + (UvEncode(size) + ([201, 0] + (UvEncode(|labels|) + StringsBytes(labels, k))))), t, 6, depth).1.Failure?
  {
    assert FieldId(200) == [200, 0] && FieldId(201) == [201, 0];
    hide TryField, Uvarint, UvEncode, DecodeStringList, StringsBytes, FieldId, DecodeType, DecodeFields;
    var k1 := UvEncode(|labels|) + StringsBytes(labels, k);
    FieldBack(200, 200, UvEncode(size) + ([201, 0] + k1));
    UvarintBack(size, [201, 0] + k1);
    FieldBack(201, 201, k1);
    StringListBack(labels, k);
    hide EndInfo;
  }

  /** Ids are cut to 32 bits. */
  lemma IdCut(id: nat, k: Bytes)
    requires id < P64
    ensures DecodeType(Ok([100, 0] + (UvEncode(id) + ([255, 255] + k))), 0) == (Ok(k), Success(Plain(id % 0x1_0000_0000)))
  {
    assert FieldId(100) == [100, 0] && EndMark() == [255, 255];
    hide TryField, Uvarint, UvEncode, EndObject;
    FieldBack(100, 100, UvEncode(id) + ([255, 255] + k));
    UvarintBack(id, [255, 255] + k);
    EndNotField(101, k);
    EndBack(k);
  }

  // ---- message bodies ---------------------------------------------------------------------------

  /** An empty fetch body: no chunks, the absent batch index. A prepare body
      needs its uuid; everything else has a default. */
  lemma BodyDefaults(uuid: Hugeint)
    requires ValidHugeint(uuid)
    ensures DecodeFetch([255, 255]) == Success(FetchResult([], 0xFFFF_FFFF_FFFF_FFFF))
    ensures DecodePrepare([255, 255]).Failure?
    ensures DecodePrepare([5, 0] + (HugeintBytes(uuid) + ([255, 255] + []))) == Success(PrepareResult([], [], false, uuid))
  {
    assert EndMark() == [255, 255] && FieldId(5) == [5, 0] && [255, 255] + [] == [255, 255];
    hide TryField, EndObject, ReadHugeint, HugeintBytes, Uvarint, ListCount, Bool, DecodeStringList, DecodeChunkList;
    EndBack([]);
    EndNotField(1, []);
    EndNotField(2, []);
    EndNotField(3, []);
    EndNotField(4, []);
    EndNotField(5, []);
    var k := HugeintBytes(uuid) + ([255, 255] + []);
    FieldBack(5, 1, k);
    FieldBack(5, 2, k);
    FieldBack(5, 3, k);
    FieldBack(5, 4, k);
    FieldBack(5, 5, k);
    HugeintBack(uuid, [255, 255] + []);
  }

  // ---- rows of a chunk ----------------------------------------------------------------------

  /** Behind an implausible row count nothing is read. */
  lemma RowsRejected(rows: nat, k: Bytes)
    requires 65536 < rows < P64
    ensures DecodeChunk(FieldId(100) + (UvEncode(rows) + k)) == Failure(Malformed)
  {
    hide TryField, Uvarint, FieldId, UvEncode;
    FieldBack(100, 100, UvEncode(rows) + k);
    UvarintBack(rows, k);
  }

  /** A table of any supported types decodes exactly when it has at most 2^16
      rows. */
  lemma RowsExactly(cols: seq<Col>, k: Bytes)
    requires |cols| < P64 && forall i :: 0 <= i < |cols| ==> ColEncodable(cols[i]) && |cols[i].vals| == RowCount(cols)
    ensures Writable(cols) && WellFormedColumns(ChunkOf(cols).cols)
    ensures DecodeChunk(ChunkBytes(ChunkOf(cols), k)).Success? <==> RowCount(cols) <= 65536
  {
    assert Writable(cols);
    hide DecodeChunk, ColEncodable, FlatOf;
    assert forall i :: 0 <= i < |cols| ==> WellFormed(cols[i].typ) by {
      forall i | 0 <= i < |cols| ensures WellFormed(cols[i].typ) {
        ColumnIs(cols[i]);
      }
    }
    hide WellFormed;
    if RowCount(cols) <= 65536 {
      ChunkRoundTrip(cols, k);
    } else {
      ColumnIs(cols[0]);
      var c := ChunkOf(cols);
      RowsRejected(c.rows, FieldId(101) + (UvEncode(|c.cols|)
        + TypesBytes(ColumnTypes(c.cols), FieldId(102) + (UvEncode(|c.cols|) + ColumnsBytes(c.cols, EndMark() + k)))));
    }
  }

  lemma ColumnIs(c: Col)
    requires ColEncodable(c)
    ensures WellFormed(c.typ) && |c.vals| <= MAX_VECTOR_ROWS
  {
  }

  // ---- malformed payloads -----------------------------------------------------------------------

  /** unknown-field: a field the schema does not ask for is not skipped, and
      one that it asks for is not left out. */
  lemma UnknownField(rows: nat, types: seq<LogicalType>, other: nat, k: Bytes)
    requires rows <= 65536 && other < END_ID && |types| < P64
    requires forall t <- types :: WellFormed(t) && Height(t) <= MAX_TYPE_DEPTH
    ensures other != 100 ==> DecodeChunk(FieldId(other) + k).Failure?
    ensures other != 101 ==> DecodeChunk(FieldId(100) + (UvEncode(rows) + (FieldId(other) + k))).Failure?
    ensures other != 102 ==>
              DecodeChunk(FieldId(100) + (UvEncode(rows) + (FieldId(101) + (UvEncode(|types|) + TypesBytes(types, FieldId(other) + k))))).Failure?
  {
    hide TryField, Uvarint, ListCount, FieldId, UvEncode, TypesBytes, DecodeTypes, DecodeColumns, WellFormed, Height;
    FieldBack(other, 100, k);
    FieldBack(100, 100, UvEncode(rows) + (FieldId(other) + k));
    UvarintBack(rows, FieldId(other) + k);
    FieldBack(other, 101, k);
    var k1 := TypesBytes(types, FieldId(other) + k);
    FieldBack(100, 100, UvEncode(rows) + (FieldId(101) + (UvEncode(|types|) + k1)));
    UvarintBack(rows, FieldId(101) + (UvEncode(|types|) + k1));
    FieldBack(101, 101, UvEncode(|types|) + k1);
    ListCountBack(|types|, k1);
    TypesBack(types, [], FieldId(other) + k);
    FieldBack(other, 102, k);
    assert [] + types == types;
  }

  /** The first field of a flat vector's body, by type. */
  function FirstField(t: LogicalType): Option<nat>
  {
    if t.id in {25, 26, 36, 60} || CellWidth(t).Some? then Some(102)
    else if t.id in {100, 107, 108, 109} then Some(103)
    else if t.id in {101, 102} then Some(104)
    else None
  }

  lemma NoFlag(t: LogicalType, count: nat, depth: nat, other: nat, k: Bytes)
    requires other < END_ID && depth <= 64 && count <= 16777216 && other !in {90, 99, 100}
    ensures DecodeVector(Ok(FieldId(other) + k), t, count, depth).1.Bad?
  {
    FieldBack(other, 90, k);
    FieldBack(other, 99, k);
    FieldBack(other, 100, k);
    hide TryField, FieldId, DecodeFlatBody;
  }

  lemma BodiesNeed(r: Rd, t: LogicalType, count: nat, depth: nat)
    requires depth <= 64 && count <= 16777216
    ensures !TryField(r, 102).1 ==> DecodeTexts(r, t, count, FlatHead(false, None)).1.Bad?
    ensures !TryField(r, 102).1 && KindOf(t.id) != KNone ==> DecodeFixed(r, t, count, FlatHead(false, None)).1.Bad?
    ensures !TryField(r, 103).1 ==> DecodeStruct(r, t, count, depth, FlatHead(false, None)).1.Bad?
    ensures !TryField(r, 103).1 ==> DecodeArray(r, t, count, depth, FlatHead(false, None)).1.Bad?
    ensures !TryField(r, 104).1 ==> DecodeList(r, t, count, depth, FlatHead(false, None)).1.Bad?
  {
    hide TryField, KindOf, ListCount, Uvarint, Blob, DecodeVector, DecodeTextEntries, DecodeChildren, DecodeWindows, FinishList,
      FinishArray, FixedRows;
  }

  lemma FirstIs(t: LogicalType)
    ensures IsText(t.id) ==> FirstField(t) == Some(102)
    ensures IsStructLike(t.id) || t.id == ARRAY ==> FirstField(t) == Some(103)
    ensures IsList(t.id) ==> FirstField(t) == Some(104)
    ensures FirstField(t).Some? && !IsText(t.id) && !IsStructLike(t.id) && t.id != ARRAY && !IsList(t.id) ==>
              FirstField(t) == Some(102) && KindOf(t.id) != KNone
  {
    WidthsAre(t);
    if CellWidth(t).Some? {
      FixedOnly(t);
    }
    hide CellWidth, KindOf;
  }

  lemma NoBody(t: LogicalType, count: nat, depth: nat, other: nat, k: Bytes)
    requires other < END_ID && depth <= 64 && count <= 16777216 && FirstField(t).Some? && other != FirstField(t).value
    ensures DecodeFlatBody(Ok(FieldId(other) + k), t, count, depth, FlatHead(false, None)).1.Bad?
  {
    var r := Ok(FieldId(other) + k);
    hide TryField, FieldId, FirstField, KindOf, DecodeTexts, DecodeFixed, DecodeStruct, DecodeArray, DecodeList, IsText, IsList, IsStructLike;
    FirstIs(t);
    BodiesNeed(r, t, count, depth);
    FieldBack(other, 102, k);
    FieldBack(other, 103, k);
    FieldBack(other, 104, k);
  }

  /** Nothing stands in for a missing mask flag or a missing body. */
  lemma VectorFields(t: LogicalType, count: nat, depth: nat, other: nat, k: Bytes)
    requires other < END_ID && depth <= 64 && count <= 16777216
    ensures other !in {90, 99, 100} ==> DecodeVector(Ok(FieldId(other) + k), t, count, depth).1.Bad?
    ensures FirstField(t).Some? && other != FirstField(t).value ==>
              DecodeVector(Ok([100, 0, 0] + (FieldId(other) + k)), t, count, depth).1.Bad?
  {
    hide FieldId, FirstField, DecodeVector, DecodeFlatBody;
    if other !in {90, 99, 100} {
      NoFlag(t, count, depth, other, k);
    }
    if FirstField(t).Some? && other != FirstField(t).value {
      NoBody(t, count, depth, other, k);
      Unmasked(FieldId(other) + k, t, count, depth);
    }
  }

  /** A prepare body has as many names as types. */
  lemma NameCount(types: seq<LogicalType>, names: seq<Bytes>, k: Bytes)
    requires |types| < P64 && |names| < P64 && |types| != |names| && forall s <- names :: |s| < P64
    requires forall t <- types :: WellFormed(t) && Height(t) <= MAX_TYPE_DEPTH
    ensures DecodePrepare(FieldId(1) + (UvEncode(|types|) + TypesBytes(types, FieldId(2) + (UvEncode(|names|) + StringsBytes(names, k))))).Failure?
  {
    hide TryField, ListCount, FieldId, UvEncode, TypesBytes, StringsBytes, DecodeTypes, DecodeStringList, WellFormed, Height;
    var k2 := UvEncode(|names|) + StringsBytes(names, k);
    var k1 := TypesBytes(types, FieldId(2) + k2);
    FieldBack(1, 1, UvEncode(|types|) + k1);
    ListCountBack(|types|, k1);
    TypesBack(types, [], FieldId(2) + k2);
    FieldBack(2, 2, k2);
    StringListBack(names, k);
    assert [] + types == types;
  }

  /** vector-count-mismatch, missing-vector: as many columns as types. */
  lemma ColumnCount(rows: nat, types: seq<LogicalType>, ncols: nat, k: Bytes)
    requires rows <= 65536 && |types| < P64 && ncols < P64 && ncols != |types|
    requires forall t <- types :: WellFormed(t) && Height(t) <= MAX_TYPE_DEPTH
    ensures DecodeChunk(FieldId(100) + (UvEncode(rows) + (FieldId(101) + (UvEncode(|types|)
              + TypesBytes(types, FieldId(102) + (UvEncode(ncols) + k)))))).Failure?
  {
    hide TryField, Uvarint, ListCount, FieldId, UvEncode, TypesBytes, DecodeTypes, DecodeColumns, WellFormed, Height;
    var k2 := FieldId(102) + (UvEncode(ncols) + k);
    var k1 := TypesBytes(types, k2);
    FieldBack(100, 100, UvEncode(rows) + (FieldId(101) + (UvEncode(|types|) + k1)));
    UvarintBack(rows, FieldId(101) + (UvEncode(|types|) + k1));
    FieldBack(101, 101, UvEncode(|types|) + k1);
    ListCountBack(|types|, k1);
    TypesBack(types, [], k2);
    FieldBack(102, 102, UvEncode(ncols) + k);
    CountBack(ncols, k);
    assert [] + types == types;
  }

  /** A count reads back, or there are not that many bytes left. */
  lemma CountBack(n: nat, k: Bytes)
    requires n < P64
    ensures ListCount(Ok(UvEncode(n) + k)) == if n <= |k| then (Ok(k), n) else (Failed(Truncated), 0)
  {
    UvarintBack(n, k);
  }

  /** short-validity: a mask with a bit for each row. */
  lemma ShortMask(mask: Bytes, body: Body, t: LogicalType, count: nat, depth: nat, k: Bytes)
    requires 8 * |mask| < count && |mask| < P64
    ensures DecodeVector(Ok(VecBytes(Flat(None, Some(mask), body), k)), t, count, depth).1.Bad?
  {
    hide TryField, Bool, Blob, FieldId, Prefixed, BoolByte, BodyBytes, DecodeFlatBody;
    var k1 := Prefixed(mask) + BodyBytes(body, k);
    var k2 := FieldId(101) + k1;
    FieldBack(100, 90, BoolByte(true) + k2);
    FieldBack(100, 99, BoolByte(true) + k2);
    FieldBack(100, 100, BoolByte(true) + k2);
    BoolBack(true, k2);
    FieldBack(101, 101, k1);
    BlobBack(mask, BodyBytes(body, k));
  }

  /** What is wrong with a flat body is wrong with the vector. */
  lemma BadFlat(mask: Option<Bytes>, x: Bytes, t: LogicalType, count: nat, depth: nat)
    requires depth <= MAX_TYPE_DEPTH && count <= MAX_VECTOR_ROWS && Covers(mask, count) && (mask.Some? ==> |mask.value| < P64)
    requires DecodeFlatBody(Ok(x), t, count, depth, FlatHead(false, mask)).1.Bad?
    ensures DecodeVector(Ok(MaskBytes(mask, x)), t, count, depth).1.Bad?
  {
    hide TryField, Uvarint, FieldId, UvEncode, MaskBytes, DecodeFlatBody, DecodeFlatHead, Covers;
    HeadBack(None, mask, count, x);
    assert GeoBytes(None, MaskBytes(mask, x)) == MaskBytes(mask, x);
  }

  lemma BadBody(mask: Option<Bytes>, body: Body, t: LogicalType, count: nat, depth: nat, k: Bytes)
    requires depth <= MAX_TYPE_DEPTH && count <= MAX_VECTOR_ROWS && Covers(mask, count) && (mask.Some? ==> |mask.value| < P64)
    requires DecodeFlatBody(Ok(BodyBytes(body, k)), t, count, depth, FlatHead(false, mask)).1.Bad?
    ensures DecodeVector(Ok(VecBytes(Flat(None, mask, body), k)), t, count, depth).1.Bad?
  {
    hide MaskBytes, DecodeFlatBody, DecodeVector, BodyBytes, Covers;
    BadFlat(mask, BodyBytes(body, k), t, count, depth);
  }

  /** short-data: every row has its cell. */
  lemma ShortData(mask: Option<Bytes>, data: Bytes, t: LogicalType, count: nat, depth: nat, k: Bytes)
    requires depth <= 64 && count <= 65536 && 8 * (if mask.Some? then |mask.value| else count) >= count
    requires mask.Some? ==> |mask.value| < P64
    requires CellWidth(t).Some? && |data| < count * CellWidth(t).value && |data| < P64
    ensures DecodeVector(Ok(VecBytes(Flat(None, mask, Fixed(data)), k)), t, count, depth).1.Bad?
  {
    WidthsAre(t);
    MaskExactly(mask, 0, count);
    FixedOnly(t);
    hide TryField, Blob, FieldId, Prefixed, KindOf, PhysicalWidth, CellWidth, DecodeVector, VecBytes;
    FieldBack(102, 102, Prefixed(data) + k);
    BlobBack(data, k);
    BadBody(mask, Fixed(data), t, count, depth, k);
  }

  lemma FixedOnly(t: LogicalType)
    requires CellWidth(t).Some?
    ensures !IsText(t.id) && !IsStructLike(t.id) && !IsList(t.id) && t.id != ARRAY
  {
  }

  lemma {:induction false} SelectFails(sel: seq<nat>, dict: seq<Value>, bad: nat, i: nat, acc: seq<Value>)
    requires forall j :: 0 <= j < |sel| ==> sel[j] < P32
    requires i <= bad < |sel| && sel[bad] >= |dict| && |acc| == i
    ensures Select(SelBytes(sel), dict, |sel|, i, acc).None?
    decreases |sel| - i
  {
    hide SelBytes;
    SelBytesAt(sel, i);
    if sel[i] < |dict| {
      SelectFails(sel, dict, bad, i + 1, acc + [dict[sel[i]]]);
    }
  }

  /** sel-out-of-range: no row selects behind the dictionary's end. */
  lemma SelectionOutside(sel: seq<nat>, size: nat, dict: Vec, t: LogicalType, bad: nat, k: Bytes)
    requires Shaped(dict, t, size) && !Withheld(dict, t) && 1 + Depth(dict) <= 64
    requires size <= 65536 && |sel| <= 65536 && (forall j :: 0 <= j < |sel| ==> sel[j] < P32) && bad < |sel| && sel[bad] >= size
    ensures DecodeVector(Ok(VecBytes(Dictionary(sel, size, dict), EndMark() + k)), t, |sel|, 0).1.Bad?
  {
    hide TryField, Uvarint, Blob, FieldId, UvEncode, Prefixed, Select, SelBytes, Shaped, Meaning, Withheld, Depth, DecodeVector;
    var k0 := VecBytes(dict, EndMark() + k);
    var k1 := FieldId(92) + (UvEncode(size) + k0);
    var k2 := FieldId(91) + (Prefixed(SelBytes(sel)) + k1);
    VecBack(dict, t, size, 1, k);
    SelectFails(sel, Meaning(dict, t, size).vals, bad, 0, []);
    FieldBack(91, 91, Prefixed(SelBytes(sel)) + k1);
    BlobBack(SelBytes(sel), k1);
    FieldBack(92, 92, UvEncode(size) + k0);
    UvarintBack(size, k0);
    assert DecodeDictionary(Ok(k2), t, |sel|, 0).1.Bad?;
    TagBack(VEC_DICTIONARY, k2);
    Tagged(VEC_DICTIONARY, k2, t, |sel|);
  }

  lemma Tagged(vtype: nat, k: Bytes, t: LogicalType, count: nat)
    requires vtype == VEC_DICTIONARY && count <= MAX_VECTOR_ROWS
    requires TryField(Ok(FieldId(90) + (UvEncode(vtype) + k)), 90) == (Ok(UvEncode(vtype) + k), true)
    requires Uvarint(Ok(UvEncode(vtype) + k)) == (Ok(k), vtype)
    ensures DecodeVector(Ok(FieldId(90) + (UvEncode(vtype) + k)), t, count, 0) == DecodeDictionary(Ok(k), t, count, 0)
  {
    hide TryField, Uvarint, FieldId, UvEncode, DecodeDictionary;
  }

  /** Encodings the codec does not know cannot be parsed past. */
  lemma UnknownEncoding(vtype: nat, t: LogicalType, count: nat, depth: nat, k: Bytes)
    requires vtype < P64 && vtype !in {0, 2, 3, 4}
    ensures DecodeVector(Ok([90, 0] + (UvEncode(vtype) + k)), t, count, depth).1.Bad?
  {
    assert FieldId(90) == [90, 0];
    hide TryField, Uvarint, FieldId, UvEncode, DecodeFlat, DecodeConstant, DecodeDictionary, DecodeSequence;
    TagBack(vtype, k);
  }

  /** oversized-list-size: no list claims more than 2^24 child rows. */
  lemma OversizedList(size: nat, t: LogicalType, count: nat, depth: nat, k: Bytes)
    requires t.id in {101, 102} && 16777216 < size < P64 && depth <= 64 && count <= 16777216
    ensures DecodeVector(Ok([100, 0, 0] + ([104, 0] + (UvEncode(size) + k))), t, count, depth).1.Bad?
  {
    assert FieldId(104) == [104, 0];
    hide TryField, Uvarint, FieldId, UvEncode, MaskBytes, DecodeVector;
    FieldBack(104, 104, UvEncode(size) + k);
    UvarintBack(size, k);
    Unmasked(FieldId(104) + (UvEncode(size) + k), t, count, depth);
  }

  /** No dictionary has more than 2^16 entries, and a selection has four bytes
      for each row. */
  lemma DictionaryLimits(sel: Bytes, size: nat, t: LogicalType, count: nat, k: Bytes)
    requires |sel| < P64 && size < P64 && count <= 65536 && (|sel| != 4 * count || size > 65536)
    ensures DecodeVector(Ok([90, 0] + (UvEncode(3) + ([91, 0] + (Prefixed(sel) + ([92, 0] + (UvEncode(size) + k)))))), t, count, 0).1.Bad?
  {
    assert FieldId(90) == [90, 0] && FieldId(91) == [91, 0] && FieldId(92) == [92, 0];
    hide TryField, Uvarint, Blob, FieldId, UvEncode, Prefixed, DecodeVector, Select;
    var k0 := UvEncode(size) + k;
    var k1 := Prefixed(sel) + (FieldId(92) + k0);
    FieldBack(91, 91, k1);
    BlobBack(sel, FieldId(92) + k0);
    FieldBack(92, 92, k0);
    UvarintBack(size, k);
    TagBack(VEC_DICTIONARY, FieldId(91) + k1);
    Tagged(VEC_DICTIONARY, FieldId(91) + k1, t, count);
  }

  /** An ARRAY vector's groups make 2^24 child rows at most. */
  lemma OversizedArray(size: nat, t: LogicalType, count: nat, depth: nat, k: Bytes)
    requires t.id == 108 && size < P64 && size * count > 16777216 && depth <= 64 && count <= 16777216
    ensures DecodeVector(Ok([100, 0, 0] + ([103, 0] + (UvEncode(size) + k))), t, count, depth).1.Bad?
  {
    assert FieldId(103) == [103, 0];
    hide TryField, Uvarint, FieldId, UvEncode, MaskBytes, DecodeVector;
    FieldBack(103, 103, UvEncode(size) + k);
    UvarintBack(size, k);
    Unmasked(FieldId(103) + (UvEncode(size) + k), t, count, depth);
  }

  lemma MaskAbsent(x: Bytes)
    ensures MaskBytes(None, x) == [100, 0, 0] + x
  {
    assert [100, 0] + ([0] + x) == [100, 0, 0] + x;
  }

  lemma Unmasked(x: Bytes, t: LogicalType, count: nat, depth: nat)
    requires depth <= 64 && count <= 16777216 && DecodeFlatBody(Ok(x), t, count, depth, FlatHead(false, None)).1.Bad?
    ensures DecodeVector(Ok([100, 0, 0] + x), t, count, depth).1.Bad?
  {
    assert MaskBytes(None, x) == [100, 0, 0] + x by { MaskAbsent(x); }
    hide MaskBytes, DecodeVector, DecodeFlatBody;
    BadFlat(None, x, t, count, depth);
  }

  /** As many texts as rows. */
  lemma TextCount(n: nat, t: LogicalType, count: nat, depth: nat, k: Bytes)
    requires t.id in {25, 26, 36, 60} && n != count && n <= |k| < P64 && depth <= 64 && count <= 16777216
    ensures DecodeVector(Ok([100, 0, 0] + ([102, 0] + (UvEncode(n) + k))), t, count, depth).1.Bad?
  {
    assert FieldId(102) == [102, 0];
    hide TryField, ListCount, FieldId, UvEncode, DecodeVector, DecodeTextEntries;
    FieldBack(102, 102, UvEncode(n) + k);
    CountBack(n, k);
    Unmasked(FieldId(102) + (UvEncode(n) + k), t, count, depth);
  }

  /** As many list entries as rows. */
  lemma EntryCount(size: nat, n: nat, t: LogicalType, count: nat, depth: nat, k: Bytes)
    requires t.id in {101, 102} && n != count && n <= |k| < P64 && size <= 16777216 && depth <= 64 && count <= 16777216
    ensures DecodeVector(Ok([100, 0, 0] + ([104, 0] + (UvEncode(size) + ([105, 0] + (UvEncode(n) + k))))), t, count, depth).1.Bad?
  {
    assert FieldId(104) == [104, 0] && FieldId(105) == [105, 0];
    hide TryField, Uvarint, ListCount, FieldId, UvEncode, DecodeVector, DecodeWindows, FinishList, DecodeFlatBody;
    var k0 := UvEncode(n) + k;
    FieldBack(104, 104, UvEncode(size) + (FieldId(105) + k0));
    UvarintBack(size, FieldId(105) + k0);
    FieldBack(105, 105, k0);
    CountBack(n, k);
    var r := Ok(FieldId(104) + (UvEncode(size) + (FieldId(105) + k0)));
    assert DecodeList(r, t, count, depth, FlatHead(false, None)).1.Bad?;
    ListDispatch(r, t, count, depth, FlatHead(false, None));
    hide DecodeList;
    Unmasked(r.rest, t, count, depth);
  }

  /** list-entry-out-of-range: no visible row reaches outside the child. */
  lemma EntryOutside(mask: Option<Bytes>, size: nat, es: seq<WindowEntry>, child: Vec, t: LogicalType, bad: nat, k: Bytes)
    requires IsList(t.id) && t.child.Some? && Shaped(child, t.child.value, size) && !Withheld(child, t.child.value) && 1 + Depth(child) <= 64
    requires |es| <= 65536 && size <= 16777216 && Covers(mask, |es|) && (mask.Some? ==> |mask.value| < P64)
    requires (forall e <- es :: OptionWord(e.off) && OptionWord(e.len))
    requires bad < |es| && IsValid(mask, bad) && WindowOf(es[bad]).off + WindowOf(es[bad]).len > size
    ensures DecodeVector(Ok(VecBytes(Flat(None, mask, Windows(size, es, child)), k)), t, |es|, 0).1.Bad?
  {
    hide TryField, Uvarint, ListCount, EndObject, FieldId, UvEncode, VecBytes, EntriesBytes, DecodeWindows, Meaning,
      Shaped, Withheld, Depth, ListRow, ListRows, WindowOf, IsValid, DecodeVector, Covers;
    var b := Windows(size, es, child);
    var m := Meaning(child, t.child.value, size);
    var k1 := VecBytes(child, EndMark() + k);
    var k2 := EntriesBytes(es, FieldId(106) + k1);
    VecBack(child, t.child.value, size, 1, k);
    FieldBack(104, 104, UvEncode(size) + (FieldId(105) + (UvEncode(|es|) + k2)));
    UvarintBack(size, FieldId(105) + (UvEncode(|es|) + k2));
    FieldBack(105, 105, UvEncode(|es|) + k2);
    ListCountBack(|es|, k2);
    WindowsBack(es, 0, FieldId(106) + k1);
    assert es[0..] == es && WindowsOf(es)[..0] == [];
    FieldBack(106, 106, k1);
    EndBack(k);
    RowsFail(t.id, WindowsOf(es), m.vals, mask, [], bad);
    assert DecodeList(Ok(BodyBytes(b, k)), t, |es|, 0, FlatHead(false, mask)).1.Bad?;
    ListDispatch(Ok(BodyBytes(b, k)), t, |es|, 0, FlatHead(false, mask));
    BadBody(mask, b, t, |es|, 0, k);
  }

  lemma ListDispatch(r: Rd, t: LogicalType, count: nat, depth: nat, h: FlatHead)
    requires IsList(t.id) && depth <= MAX_TYPE_DEPTH && count <= MAX_VECTOR_ROWS && Covers(h.mask, count)
    ensures DecodeFlatBody(r, t, count, depth, h) == DecodeList(r, t, count, depth, h)
  {
    hide DecodeList, DecodeTexts, DecodeStruct;
  }

  lemma {:induction false} RowsFail(id: nat, ws: seq<Window>, child: seq<Value>, mask: Option<Bytes>, acc: seq<Value>, bad: nat)
    requires Covers(mask, |ws|) && |acc| <= bad < |ws| && IsValid(mask, bad) && ws[bad].off + ws[bad].len > |child|
    ensures ListRows(id, ws, child, mask, acc).None?
    decreases |ws| - |acc|
  {
    hide ListRow, IsValid;
    if IsValid(mask, |acc|) {
      if WindowFits(ws[|acc|], |child|) {
        RowsFail(id, ws, child, mask, acc + [ListRow(id, ws[|acc|], child)], bad);
      }
    } else {
      RowsFail(id, ws, child, mask, acc + [VNull], bad);
    }
  }

  /** struct-child-mismatch: as many children as the type has fields. */
  lemma ChildCount(mask: Option<Bytes>, kids: seq<Vec>, t: LogicalType, count: nat, depth: nat, k: Bytes)
    requires t.id in {100, 107, 109} && |kids| < P64 && |kids| != |t.fields| && depth <= 64 && count <= 65536
    requires Covers(mask, count) && (mask.Some? ==> |mask.value| < P64)
    ensures DecodeVector(Ok(VecBytes(Flat(None, mask, Kids(kids)), k)), t, count, depth).1.Bad?
  {
    hide TryField, ListCount, FieldId, UvEncode, DecodeChildren, KidsBytes, DecodeVector, VecBytes, Covers;
    FieldBack(103, 103, UvEncode(|kids|) + KidsBytes(kids, k));
    ListCountBack(|kids|, KidsBytes(kids, k));
    BadBody(mask, Kids(kids), t, count, depth, k);
  }

  /** bit-bad-padding: a visible bit string whose padding does not fit. */
  lemma BadPadding(mask: Option<Bytes>, items: seq<Bytes>, bad: nat, depth: nat, k: Bytes)
    requires |items| <= 65536 && depth <= 64 && forall item <- items :: |item| < P64
    requires Covers(mask, |items|) && (mask.Some? ==> |mask.value| < P64)
    requires bad < |items| && IsValid(mask, bad)
    requires items[bad] == [] || items[bad][0] > 7 || (|items[bad]| == 1 && items[bad][0] > 0)
    ensures DecodeVector(Ok(VecBytes(Flat(None, mask, Texts(items)), k)), Plain(36), |items|, depth).1.Bad?
  {
    BitStringExactly(items[bad]);
    hide TryField, ListCount, FieldId, UvEncode, DecodeTextEntries, TextValue, StringsBytes, DecodeVector, VecBytes, Covers, IsValid, BitString;
    FieldBack(102, 102, UvEncode(|items|) + StringsBytes(items, k));
    ListCountBack(|items|, StringsBytes(items, k));
    EntriesFail(items, mask, 0, [], bad, k);
    assert items[0..] == items;
    BadBody(mask, Texts(items), Plain(36), |items|, depth, k);
  }

  lemma {:induction false} EntriesFail(items: seq<Bytes>, mask: Option<Bytes>, n: nat, acc: seq<Value>, bad: nat, k: Bytes)
    requires Covers(mask, |items|) && n <= bad < |items| && |acc| == n && forall item <- items :: |item| < P64
    requires IsValid(mask, bad) && BitString(items[bad]).None?
    ensures DecodeTextEntries(Ok(StringsBytes(items[n..], k)), 36, |items|, mask, false, acc).1.None?
    decreases |items| - n
  {
    hide Blob, Prefixed, BitString, IsValid;
    BlobBack(items[n], StringsBytes(items[n + 1..], k));
    assert items[n..][1..] == items[n + 1..];
    if IsValid(mask, n) {
      if BitString(items[n]).Some? {
        EntriesFail(items, mask, n + 1, acc + [TextValue(36, items[n]).value], bad, k);
      }
    } else {
      EntriesFail(items, mask, n + 1, acc + [VNull], bad, k);
    }
  }
}
