/** Chunks and result messages decode to what their encodings stand for;
    truncated ones are rejected, and appended bytes change nothing. */
module ChunkBack {
  import opened Basics
  import opened Leb128
  import opened Framing
  import opened LogicalTypes
  import opened Vectors
  import opened VectorWire
  import opened VectorBack
  import opened Chunks
  import opened Extension

  lemma {:induction false} TypesBack(types: seq<LogicalType>, acc: seq<LogicalType>, k: Bytes)
    requires forall t <- types :: WellFormed(t) && Height(t) <= MAX_TYPE_DEPTH
    ensures DecodeTypes(Ok(TypesBytes(types, k)), |types|, acc) == (Ok(k), Success(acc + types))
    decreases |types|
  {
    hide DecodeType, TypeBytes, WellFormed, Height;
    if types == [] {
      assert acc + types == acc;
    } else {
      TypeBack(types[0], 0, TypesBytes(types[1..], k));
      TypesBack(types[1..], acc + [types[0]], k);
      assert (acc + [types[0]]) + types[1..] == acc + types;
    }
  }

  lemma {:induction false} ColumnsBack(cols: seq<ColumnWire>, rows: nat, n: nat, k: Bytes)
    requires n <= |cols| && forall i :: 0 <= i < |cols| ==> ColumnShaped(cols[i], rows)
    ensures var all := seq(|cols|, i requires 0 <= i < |cols| => ColumnMeaning(cols[i], rows));
            DecodeColumns(Ok(ColumnsBytes(cols[n..], k)), ColumnTypes(cols), rows, all[..n]) == (Ok(k), Success(all))
    decreases |cols| - n
  {
    hide DecodeVector, VecBytes, Meaning, EndObject, FieldId, Shaped, WellFormed, Height, Depth;
    var all := seq(|cols|, i requires 0 <= i < |cols| => ColumnMeaning(cols[i], rows));
    if n == |cols| {
      assert all[..n] == all;
    } else {
      var c, k1 := cols[n], ColumnsBytes(cols[n + 1..], k);
      assert ColumnShaped(c, rows);
      assert cols[n..][1..] == cols[n + 1..];
      VecBack(c.vec, c.typ, rows, 0, k1);
      EndBack(k1);
      assert all[..n] + [all[n]] == all[..n + 1];
      ColumnsBack(cols, rows, n + 1, k);
    }
  }

  /** A chunk whose columns are encoded in any well-shaped way decodes, column
      by column, to what each encoding stands for: values, or the column error
      of that column alone. Exactly its bytes are consumed. */
  lemma ChunkContentsBack(c: ChunkWire, k: Bytes)
    requires ChunkShaped(c)
    ensures DecodeChunkContents(Ok(ChunkBytes(c, k))) == (Ok(k), Success(ChunkMeaning(c)))
  {
    hide TryField, Uvarint, ListCount, EndObject, FieldId, UvEncode, DecodeTypes, DecodeColumns, TypesBytes, ColumnsBytes,
      ColumnMeaning, ColumnShaped, WellFormed;
    var n, k1, types := |c.cols|, EndMark() + k, ColumnTypes(c.cols);
    var k2 := ColumnsBytes(c.cols, k1);
    var k3 := FieldId(102) + (UvEncode(n) + k2);
    ChunkTypesBack(c, k3);
    var k4 := TypesBytes(types, k3);
    FieldBack(100, 100, UvEncode(c.rows) + (FieldId(101) + (UvEncode(n) + k4)));
    UvarintBack(c.rows, FieldId(101) + (UvEncode(n) + k4));
    FieldBack(101, 101, UvEncode(n) + k4);
    ListCountBack(n, k4);
    FieldBack(102, 102, UvEncode(n) + k2);
    ListCountBack(n, k2);
    ColumnsBack(c.cols, c.rows, 0, k1);
    var all := seq(n, i requires 0 <= i < n => ColumnMeaning(c.cols[i], c.rows));
    assert all == ChunkMeaning(c).cols;
    assert c.cols[0..] == c.cols && all[..0] == [];
    EndBack(k);
    assert DecodeColumns(Ok(k2), types, c.rows, []) == (Ok(k1), Success(all));
    assert ChunkBytes(c, k) == FieldId(100) + (UvEncode(c.rows) + (FieldId(101) + (UvEncode(n) + k4)));
  }

  lemma ChunkTypesBack(c: ChunkWire, k: Bytes)
    requires ChunkShaped(c)
    ensures WellFormedColumns(c.cols)
    ensures DecodeTypes(Ok(TypesBytes(ColumnTypes(c.cols), k)), |c.cols|, []) == (Ok(k), Success(ColumnTypes(c.cols)))
  {
    hide DecodeTypes, TypesBytes, WellFormed, Height, Shaped, Depth;
    var types := ColumnTypes(c.cols);
    assert forall i :: 0 <= i < |c.cols| ==> ColumnShaped(c.cols[i], c.rows) && types[i] == c.cols[i].typ;
    TypesBack(types, [], k);
    assert [] + types == types;
  }

  lemma ChunkPrintable(c: ChunkWire)
    requires ChunkShaped(c)
    ensures WellFormedColumns(c.cols)
  {
    forall i | 0 <= i < |c.cols| ensures WellFormed(c.cols[i].typ) {
      assert ColumnShaped(c.cols[i], c.rows);
    }
  }

  // ---- messages ---------------------------------------------------------------------------

  lemma {:induction false} ChunkEntriesBack(chunks: seq<Option<ChunkWire>>, acc: seq<Chunk>, k: Bytes)
    requires ChunksShaped(chunks) && Printable(chunks)
    ensures DecodeChunkEntries(Ok(EntriesOfChunks(chunks, k)), |chunks|, acc) == (Ok(k), Success(acc + ChunksMeaning(chunks)))
    decreases |chunks|
  {
    hide TryField, Bool, EndObject, FieldId, BoolByte, DecodeChunkContents, ChunkBytes, ChunkMeaning, ChunkShaped, WellFormedColumns;
    if chunks == [] {
      assert acc + ChunksMeaning(chunks) == acc;
    } else {
      var rest := EntriesOfChunks(chunks[1..], k);
      if chunks[0].None? {
        BoolBack(false, rest);
        ChunkEntriesBack(chunks[1..], acc, k);
        assert ChunksMeaning(chunks) == ChunksMeaning(chunks[1..]);
      } else {
        var c := chunks[0].value;
        var k1 := ChunkBytes(c, EndMark() + rest);
        BoolBack(true, FieldId(300) + k1);
        FieldBack(300, 300, k1);
        ChunkContentsBack(c, EndMark() + rest);
        EndBack(rest);
        ChunkEntriesBack(chunks[1..], acc + [ChunkMeaning(c)], k);
        assert (acc + [ChunkMeaning(c)]) + ChunksMeaning(chunks[1..]) == acc + ChunksMeaning(chunks);
      }
    }
  }

  lemma ChunkListBack(chunks: seq<Option<ChunkWire>>, k: Bytes)
    requires ChunksShaped(chunks) && Printable(chunks)
    ensures DecodeChunkList(Ok(ChunkListBytes(chunks, k))) == (Ok(k), Success(ChunksMeaning(chunks)))
  {
    hide ListCount, UvEncode, DecodeChunkEntries, EntriesOfChunks, ChunksMeaning;
    ListCountBack(|chunks|, EntriesOfChunks(chunks, k));
    ChunkEntriesBack(chunks, [], k);
    assert [] + ChunksMeaning(chunks) == ChunksMeaning(chunks);
  }

  /** DecodeFetch inverts EncodeFetchBody: batch index and every non-null chunk. */
  lemma FetchBack(chunks: seq<Option<ChunkWire>>, batchIndex: nat)
    requires ChunksShaped(chunks) && Printable(chunks) && batchIndex < P64
    ensures DecodeFetch(FetchBytes(chunks, batchIndex)) == Success(FetchResult(ChunksMeaning(chunks), batchIndex))
  {
    hide TryField, Uvarint, EndObject, FieldId, UvEncode, DecodeChunkList, ChunkListBytes;
    var tail := FieldId(2) + (UvEncode(batchIndex) + (EndMark() + []));
    FieldBack(2, 1, UvEncode(batchIndex) + (EndMark() + []));
    FieldBack(2, 2, UvEncode(batchIndex) + (EndMark() + []));
    UvarintBack(batchIndex, EndMark() + []);
    EndBack([]);
    if chunks != [] {
      FieldBack(1, 1, ChunkListBytes(chunks, tail));
      ChunkListBack(chunks, tail);
    }
  }

  predicate SchemaIs(schema: seq<SchemaColumn>, defs: seq<ColumnDef>)
  {
    |schema| == |defs| && forall i :: 0 <= i < |defs| ==> schema[i] == SchemaColumn(defs[i].name, defs[i].typ)
  }

  lemma SchemaBack(defs: seq<ColumnDef>, more: Bytes)
    requires DefsWellFormed(defs) && defs != [] && |defs| < P64
    requires forall i :: 0 <= i < |defs| ==> Height(defs[i].typ) <= MAX_TYPE_DEPTH
    ensures var n := |defs|;
            var k1 := FieldId(2) + (UvEncode(n) + StringsBytes(DefNames(defs), more));
            && TryField(Ok(FieldId(1) + (UvEncode(n) + TypesBytes(DefTypes(defs), k1))), 1)
               == (Ok(UvEncode(n) + TypesBytes(DefTypes(defs), k1)), true)
            && ListCount(Ok(UvEncode(n) + TypesBytes(DefTypes(defs), k1))) == (Ok(TypesBytes(DefTypes(defs), k1)), n)
            && DecodeTypes(Ok(TypesBytes(DefTypes(defs), k1)), n, []) == (Ok(k1), Success(DefTypes(defs)))
            && TryField(Ok(k1), 2) == (Ok(UvEncode(n) + StringsBytes(DefNames(defs), more)), true)
            && DecodeStringList(Ok(UvEncode(n) + StringsBytes(DefNames(defs), more))) == (Ok(more), DefNames(defs))
  {
    hide TryField, ListCount, FieldId, UvEncode, DecodeTypes, DecodeStringList, TypesBytes, StringsBytes, WellFormed, Height;
    var n := |defs|;
    var names := DefNames(defs);
    var k1 := FieldId(2) + (UvEncode(n) + StringsBytes(names, more));
    assert forall i :: 0 <= i < n ==> |names[i]| < P64;
    FieldBack(1, 1, UvEncode(n) + TypesBytes(DefTypes(defs), k1));
    ListCountBack(n, TypesBytes(DefTypes(defs), k1));
    TypesBack(DefTypes(defs), [], k1);
    assert [] + DefTypes(defs) == DefTypes(defs);
    FieldBack(2, 2, UvEncode(n) + StringsBytes(names, more));
    StringListBack(names, more);
  }

  /** The part of a prepare body behind the schema. */
  lemma PrepareTailBack(inline: seq<Option<ChunkWire>>, needsMore: bool, uuid: Hugeint)
    requires ChunksShaped(inline) && Printable(inline) && ValidHugeint(uuid)
    ensures var tail := FieldId(5) + (SvEncode(uuid.upper) + (UvEncode(uuid.lower) + (EndMark() + [])));
            var chunks := if inline == [] then tail else FieldId(4) + ChunkListBytes(inline, tail);
            var more := if needsMore then FieldId(3) + (BoolByte(true) + chunks) else chunks;
            var (r6, hasMore) := TryField(Ok(more), 3);
            var (r7, m) := if hasMore then Bool(r6) else (r6, false);
            var (r8, hasChunks) := TryField(r7, 4);
            var (r9, cs) := if hasChunks then DecodeChunkList(r8) else (r8, Success([]));
            var (r10, hasUuid) := TryField(r9, 5);
            var (r11, u) := ReadHugeint(r10);
            && TryField(Ok(more), 1) == (Ok(more), false) && TryField(Ok(more), 2) == (Ok(more), false)
            && m == needsMore && cs == Success(ChunksMeaning(inline)) && hasUuid && u == uuid
            && EndObject(r11) == Ok([])
  {
    hide TryField, Bool, EndObject, FieldId, BoolByte, SvEncode, UvEncode, Uvarint, Svarint, DecodeChunkList, ChunkListBytes;
    var k0 := EndMark() + [];
    var k1 := SvEncode(uuid.upper) + (UvEncode(uuid.lower) + k0);
    var tail := FieldId(5) + k1;
    EndBack([]);
    SvarintBack(uuid.upper, UvEncode(uuid.lower) + k0);
    UvarintBack(uuid.lower, k0);
    FieldBack(5, 1, k1); FieldBack(5, 2, k1); FieldBack(5, 3, k1); FieldBack(5, 4, k1); FieldBack(5, 5, k1);
    var chunks := if inline == [] then tail else FieldId(4) + ChunkListBytes(inline, tail);
    if inline != [] {
      var k2 := ChunkListBytes(inline, tail);
      FieldBack(4, 1, k2); FieldBack(4, 2, k2); FieldBack(4, 3, k2); FieldBack(4, 4, k2);
      ChunkListBack(inline, tail);
    }
    if needsMore {
      var k3 := BoolByte(true) + chunks;
      FieldBack(3, 1, k3); FieldBack(3, 2, k3); FieldBack(3, 3, k3);
      BoolBack(true, chunks);
    }
  }

  /** DecodePrepare inverts EncodePrepareBody: schema, inline chunks, fetch
      flag and result uuid. */
  lemma PrepareBack(defs: seq<ColumnDef>, inline: seq<Option<ChunkWire>>, needsMore: bool, uuid: Hugeint)
    requires DefsWellFormed(defs) && |defs| < P64
    requires forall i :: 0 <= i < |defs| ==> Height(defs[i].typ) <= MAX_TYPE_DEPTH
    requires ChunksShaped(inline) && Printable(inline) && ValidHugeint(uuid)
    ensures var res := DecodePrepare(PrepareBytes(defs, inline, needsMore, uuid));
            && res.Success?
            && SchemaIs(res.value.schema, defs)
            && res.value.chunks == ChunksMeaning(inline)
            && res.value.needsMore == needsMore
            && res.value.uuid == uuid
  {
    hide TryField, Bool, ListCount, EndObject, FieldId, BoolByte, SvEncode, UvEncode, ReadHugeint, DecodeTypes, DecodeStringList,
      DecodeChunkList, ChunkListBytes, TypesBytes, StringsBytes, WellFormed, Height, ChunksMeaning;
    PrepareTailBack(inline, needsMore, uuid);
    var tail := FieldId(5) + (SvEncode(uuid.upper) + (UvEncode(uuid.lower) + (EndMark() + [])));
    var chunks := if inline == [] then tail else FieldId(4) + ChunkListBytes(inline, tail);
    var more := if needsMore then FieldId(3) + (BoolByte(true) + chunks) else chunks;
    if defs != [] {
      SchemaBack(defs, more);
    } else {
      NoTypes(Ok(more));
    }
  }

  lemma NoTypes(r: Rd)
    ensures DecodeTypes(r, 0, []) == (r, Success([]))
  {
  }

  // ---- truncation and extension ---------------------------------------------------------------

  lemma {:induction false} TypesExtend(r: Rd, n: nat, acc: seq<LogicalType>, x: Bytes)
    requires DecodeTypes(r, n, acc).0.Ok?
    ensures DecodeTypes(Extend(r, x), n, acc) == (Extend(DecodeTypes(r, n, acc).0, x), DecodeTypes(r, n, acc).1)
    decreases n
  {
    hide DecodeType, Extend;
    if n > 0 {
      var (r1, t) := DecodeType(r, 0);
      TypeExtends(r, 0, x);
      if t.Success? {
        TypesExtend(r1, n - 1, acc + [t.value], x);
      }
    }
  }

  lemma {:induction false} ColumnsExtend(r: Rd, types: seq<LogicalType>, rows: nat, acc: seq<Column>, x: Bytes)
    requires |acc| <= |types| && DecodeColumns(r, types, rows, acc).0.Ok?
    ensures DecodeColumns(Extend(r, x), types, rows, acc)
            == (Extend(DecodeColumns(r, types, rows, acc).0, x), DecodeColumns(r, types, rows, acc).1)
    decreases |types| - |acc|
  {
    hide DecodeVector, EndObject, Extend;
    if |acc| < |types| {
      var t := types[|acc|];
      var (r1, v) := DecodeVector(r, t, rows, 0);
      VectorExtends(r, t, rows, 0, x);
      if !v.Bad? {
        EndExtends(r1, x);
        ColumnsExtend(EndObject(r1), types, rows, acc + [Column(t, v)], x);
      }
    }
  }

  lemma ContentsExtend(r: Rd, x: Bytes)
    requires DecodeChunkContents(r).1.Success?
    ensures DecodeChunkContents(Extend(r, x)) == (Extend(DecodeChunkContents(r).0, x), DecodeChunkContents(r).1)
  {
    hide TryField, Uvarint, ListCount, EndObject, Extend, DecodeTypes, DecodeColumns;
    ReadsExtend(x);
    var (r1, _) := TryField(r, 100);
    var (r2, rows) := Uvarint(r1);
    var (r3, _) := TryField(r2, 101);
    var (r4, ntypes) := ListCount(r3);
    var (r5, types) := DecodeTypes(r4, ntypes, []);
    var (r6, _) := TryField(r5, 102);
    var (r7, ncols) := ListCount(r6);
    TypesExtend(r4, ntypes, [], x);
    ColumnsExtend(r7, types.value, rows, [], x);
  }

  /** The bytes a successful decode consumes. */
  function Consumed(buf: Bytes): (n: int)
    requires DecodeChunk(buf).Success?
  {
    |buf| - |DecodeChunkContents(Ok(buf)).0.rest|
  }

  /** Appending anything changes neither the chunk nor how much is consumed. */
  lemma AppendingChangesNothing(buf: Bytes, x: Bytes)
    ensures DecodeChunk(buf).Success? ==> DecodeChunk(buf + x) == DecodeChunk(buf) && Consumed(buf + x) == Consumed(buf)
  {
    hide DecodeChunkContents;
    if DecodeChunk(buf).Success? {
      ContentsExtend(Ok(buf), x);
    }
  }

  /** Cutting anywhere into the consumed bytes makes the whole chunk fail; the
      shortage is never reported as a column error. */
  lemma TruncationRejected(buf: Bytes, m: nat)
    requires m <= |buf|
    ensures DecodeChunk(buf).Success? && m < Consumed(buf) ==> DecodeChunk(buf[..m]).Failure?
  {
    hide DecodeChunkContents;
    assert buf[..m] + buf[m..] == buf;
    if DecodeChunk(buf[..m]).Success? {
      AppendingChangesNothing(buf[..m], buf[m..]);
    }
  }

  // ---- isolation of unsupported columns --------------------------------------------------------

  predicate ColumnsOnly(res: Result<Chunk>, rows: nat, cols: seq<Column>)
  {
    res == Success(Chunk(rows, cols))
  }

  /** Inserting a column at any position leaves every other column's decoded
      content as it was; the new one carries its own content or error. */
  lemma InsertionIsolated(c: ChunkWire, at: nat, extra: ColumnWire)
    requires ChunkShaped(c) && at <= |c.cols| && ColumnShaped(extra, c.rows) && |c.cols| + 1 < P64
    ensures var wider := Insert(c, at, extra);
            && WellFormedColumns(c.cols) && WellFormedColumns(wider.cols)
            && DecodeChunk(ChunkBytes(c, [])).Success?
            && var cols := DecodeChunk(ChunkBytes(c, [])).value.cols;
               && |cols| == |c.cols|
               && ColumnsOnly(DecodeChunk(ChunkBytes(wider, [])), c.rows,
                              cols[..at] + [ColumnMeaning(extra, c.rows)] + cols[at..])
  {
    hide DecodeChunkContents, ChunkBytes, ColumnMeaning, ColumnShaped, ChunkShaped, ChunkMeaning, Insert;
    InsertMeaning(c, at, extra);
    ChunkPrintable(c);
    ChunkPrintable(Insert(c, at, extra));
    ChunkContentsBack(c, []);
    ChunkContentsBack(Insert(c, at, extra), []);
  }

  function Insert(c: ChunkWire, at: nat, extra: ColumnWire): ChunkWire
    requires at <= |c.cols|
  {
    c.(cols := c.cols[..at] + [extra] + c.cols[at..])
  }

  lemma InsertMeaning(c: ChunkWire, at: nat, extra: ColumnWire)
    requires ChunkShaped(c) && at <= |c.cols| && ColumnShaped(extra, c.rows) && |c.cols| + 1 < P64
    ensures ChunkShaped(Insert(c, at, extra))
    ensures var cols := ChunkMeaning(c).cols;
            ChunkMeaning(Insert(c, at, extra)) == Chunk(c.rows, cols[..at] + [ColumnMeaning(extra, c.rows)] + cols[at..])
    ensures |ChunkMeaning(c).cols| == |c.cols|
  {
    hide ColumnMeaning, ColumnShaped;
    var wider := Insert(c, at, extra);
    assert forall i :: 0 <= i < |wider.cols| ==>
                         wider.cols[i] == if i < at then c.cols[i] else if i == at then extra else c.cols[i - 1];
    var cols := ChunkMeaning(c).cols;
    assert ChunkMeaning(wider).cols == cols[..at] + [ColumnMeaning(extra, c.rows)] + cols[at..];
  }
}
