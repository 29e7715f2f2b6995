/** Data chunks and the two result-bearing message bodies. */
module Chunks {
  import opened Basics
  import opened Leb128
  import opened Framing
  import opened LogicalTypes
  import opened Vectors
  import opened VectorWire

  /** A decoded column: its values, or the column error. */
  datatype Column = Column(typ: LogicalType, content: VectorResult)

  datatype Chunk = Chunk(rows: nat, cols: seq<Column>)

  datatype SchemaColumn = SchemaColumn(name: Bytes, typ: LogicalType)

  datatype PrepareResult = PrepareResult(schema: seq<SchemaColumn>, chunks: seq<Chunk>, needsMore: bool, uuid: Hugeint)

  datatype FetchResult = FetchResult(chunks: seq<Chunk>, batchIndex: nat)

  // ---- decoding ---------------------------------------------------------------------

  function DecodeTypes(r: Rd, n: nat, acc: seq<LogicalType>): (res: (Rd, Result<seq<LogicalType>>))
    ensures r.Failed? ==> res.0 == r
    ensures res.1.Success? ==> |res.1.value| == |acc| + n
    decreases n
  {
    if n == 0 then (r, Success(acc))
    else
      var (r1, t) := DecodeType(r, 0);
      if t.Failure? then (r1, Failure(t.error)) else DecodeTypes(r1, n - 1, acc + [t.value])
  }

  /** The column loop: the reader is checked behind every column. */
  function DecodeColumns(r: Rd, types: seq<LogicalType>, rows: nat, acc: seq<Column>): (res: (Rd, Result<seq<Column>>))
    requires |acc| <= |types|
    ensures r.Failed? ==> res.0 == r
    ensures res.1.Success? && |acc| < |types| ==> res.0.Ok?
    ensures res.1.Success? ==> |res.1.value| == |types|
    decreases |types| - |acc|
  {
    if |acc| == |types| then (r, Success(acc))
    else
      var t := types[|acc|];
      var (r1, v) := DecodeVector(r, t, rows, 0);
      if v.Bad? then (r1, Failure(v.error))
      else
        var r2 := EndObject(r1);
        if r2.Failed? then (r2, Failure(ReadFailed(r2.error)))
        else DecodeColumns(r2, types, rows, acc + [Column(t, v)])
  }

  /** decodeChunkContents */
  function DecodeChunkContents(r: Rd): (res: (Rd, Result<Chunk>))
    ensures r.Failed? ==> res.0 == r && res.1.Failure?
    ensures res.1.Success? ==> res.0.Ok?
  {
    var (r1, hasRows) := TryField(r, 100);
    if !hasRows then (r1, Failure(Malformed))
    else
      var (r2, rows) := Uvarint(r1);
      if rows > MAX_CHUNK_ROWS then (r2, Failure(Malformed))
      else
        var (r3, hasTypes) := TryField(r2, 101);
        if !hasTypes then (r3, Failure(Malformed))
        else
          var (r4, ntypes) := ListCount(r3);
          var (r5, types) := DecodeTypes(r4, ntypes, []);
          if types.Failure? then (r5, Failure(types.error))
          else
            var (r6, hasCols) := TryField(r5, 102);
            if !hasCols then (r6, Failure(Malformed))
            else
              var (r7, ncols) := ListCount(r6);
              if ncols != |types.value| then (r7, Failure(Malformed))
              else
                var (r8, cols) := DecodeColumns(r7, types.value, rows, []);
                if cols.Failure? then (r8, Failure(cols.error))
                else
                  var r9 := EndObject(r8);
                  (r9, Checked(r9, Chunk(rows, cols.value)))
  }

  /** Codec.DecodeChunk */
  function DecodeChunk(buf: Bytes): Result<Chunk>
  {
    DecodeChunkContents(Ok(buf)).1
  }

  function DecodeChunkEntries(r: Rd, n: nat, acc: seq<Chunk>): (res: (Rd, Result<seq<Chunk>>))
    ensures r.Failed? ==> res.0 == r
    decreases n
  {
    if n == 0 then (r, Success(acc))
    else
      var (r1, present) := Bool(r);
      if !present then DecodeChunkEntries(r1, n - 1, acc)
      else
        var (r2, has) := TryField(r1, 300);
        if !has then (r2, Failure(Malformed))
        else
          var (r3, chunk) := DecodeChunkContents(r2);
          if chunk.Failure? then (r3, Failure(chunk.error))
          else DecodeChunkEntries(EndObject(r3), n - 1, acc + [chunk.value])
  }

  /** decodeChunkList: null chunks are skipped. */
  function DecodeChunkList(r: Rd): (res: (Rd, Result<seq<Chunk>>))
    ensures r.Failed? ==> res.0 == r && res.1.Failure?
    ensures res.1.Success? ==> res.0.Ok?
  {
    var (r1, n) := ListCount(r);
    var (r2, chunks) := DecodeChunkEntries(r1, n, []);
    if chunks.Failure? then (r2, chunks) else (r2, Checked(r2, chunks.value))
  }

  function Zip(names: seq<Bytes>, types: seq<LogicalType>): (s: seq<SchemaColumn>)
    requires |names| == |types|
    ensures |s| == |names|
  {
    seq(|names|, i requires 0 <= i < |names| => SchemaColumn(names[i], types[i]))
  }

  /** Codec.DecodePrepare */
  function DecodePrepare(body: Bytes): Result<PrepareResult>
  {
    var (r1, hasTypes) := TryField(Ok(body), 1);
    var (r2, n) := if hasTypes then ListCount(r1) else (r1, 0);
    var (r3, types) := DecodeTypes(r2, n, []);
    if types.Failure? then Failure(types.error)
    else
      var (r4, hasNames) := TryField(r3, 2);
      var (r5, names) := if hasNames then DecodeStringList(r4) else (r4, []);
      if |names| != |types.value| then Failure(Malformed)
      else
        var (r6, hasMore) := TryField(r5, 3);
        var (r7, more) := if hasMore then Bool(r6) else (r6, false);
        var (r8, hasChunks) := TryField(r7, 4);
        var (r9, chunks) := if hasChunks then DecodeChunkList(r8) else (r8, Success([]));
        if chunks.Failure? then Failure(chunks.error)
        else
          var (r10, hasUuid) := TryField(r9, 5);
          if !hasUuid then Failure(Malformed)
          else
            var (r11, uuid) := ReadHugeint(r10);
            Checked(EndObject(r11), PrepareResult(Zip(names, types.value), chunks.value, more, uuid))
  }

  /** Codec.DecodeFetch */
  function DecodeFetch(body: Bytes): Result<FetchResult>
  {
    var (r1, hasChunks) := TryField(Ok(body), 1);
    var (r2, chunks) := if hasChunks then DecodeChunkList(r1) else (r1, Success([]));
    if chunks.Failure? then Failure(chunks.error)
    else
      var (r3, hasIndex) := TryField(r2, 2);
      var (r4, index) := if hasIndex then Uvarint(r3) else (r3, IDX_ABSENT);
      Checked(EndObject(r4), FetchResult(chunks.value, index))
  }

  // ---- on the wire ----------------------------------------------------------------------

  datatype ColumnWire = ColumnWire(typ: LogicalType, vec: Vec)

  datatype ChunkWire = ChunkWire(rows: nat, cols: seq<ColumnWire>)

  ghost predicate ColumnShaped(c: ColumnWire, rows: nat)
  {
    && WellFormed(c.typ) && Height(c.typ) <= MAX_TYPE_DEPTH
    && Shaped(c.vec, c.typ, rows) && Depth(c.vec) <= MAX_TYPE_DEPTH
  }

  ghost predicate ChunkShaped(c: ChunkWire)
  {
    && c.rows <= MAX_CHUNK_ROWS && |c.cols| < P64
    && forall i :: 0 <= i < |c.cols| ==> ColumnShaped(c.cols[i], c.rows)
  }

  ghost function ColumnMeaning(c: ColumnWire, rows: nat): Column
    requires ColumnShaped(c, rows)
  {
    Column(c.typ, Meaning(c.vec, c.typ, rows))
  }

  ghost function ChunkMeaning(c: ChunkWire): Chunk
    requires ChunkShaped(c)
  {
    Chunk(c.rows, seq(|c.cols|, i requires 0 <= i < |c.cols| => ColumnMeaning(c.cols[i], c.rows)))
  }

  function TypesBytes(types: seq<LogicalType>, k: Bytes): (s: Bytes)
    requires forall t <- types :: WellFormed(t)
    ensures |s| >= |types| + |k|
  {
    if types == [] then k else TypeBytes(types[0], TypesBytes(types[1..], k))
  }

  function ColumnsBytes(cols: seq<ColumnWire>, k: Bytes): (s: Bytes)
    ensures |s| >= |cols| + |k|
  {
    if cols == [] then k else VecBytes(cols[0].vec, EndMark() + ColumnsBytes(cols[1..], k))
  }

  function ColumnTypes(cols: seq<ColumnWire>): (ts: seq<LogicalType>)
    ensures |ts| == |cols|
  {
    seq(|cols|, i requires 0 <= i < |cols| => cols[i].typ)
  }

  predicate WellFormedColumns(cols: seq<ColumnWire>)
  {
    forall i :: 0 <= i < |cols| ==> WellFormed(cols[i].typ)
  }

  function ChunkBytes(c: ChunkWire, k: Bytes): (s: Bytes)
    requires WellFormedColumns(c.cols)
    ensures |s| >= |k|
  {
    FieldId(100) + (UvEncode(c.rows) + (FieldId(101) + (UvEncode(|c.cols|)
      + TypesBytes(ColumnTypes(c.cols), FieldId(102) + (UvEncode(|c.cols|) + ColumnsBytes(c.cols, EndMark() + k))))))
  }

  predicate Printable(chunks: seq<Option<ChunkWire>>)
  {
    forall i :: 0 <= i < |chunks| && chunks[i].Some? ==> WellFormedColumns(chunks[i].value.cols)
  }

  function EntriesOfChunks(chunks: seq<Option<ChunkWire>>, k: Bytes): (s: Bytes)
    requires Printable(chunks)
    ensures |s| >= |chunks| + |k|
  {
    if chunks == [] then k
    else
      var rest := EntriesOfChunks(chunks[1..], k);
      if chunks[0].None? then BoolByte(false) + rest
      else BoolByte(true) + (FieldId(300) + ChunkBytes(chunks[0].value, EndMark() + rest))
  }

  function ChunkListBytes(chunks: seq<Option<ChunkWire>>, k: Bytes): Bytes
    requires Printable(chunks)
  {
    UvEncode(|chunks|) + EntriesOfChunks(chunks, k)
  }

  ghost predicate ChunksShaped(chunks: seq<Option<ChunkWire>>)
  {
    && |chunks| < P64
    && forall i :: 0 <= i < |chunks| && chunks[i].Some? ==> ChunkShaped(chunks[i].value)
  }

  ghost function ChunksMeaning(chunks: seq<Option<ChunkWire>>): seq<Chunk>
    requires ChunksShaped(chunks)
  {
    if chunks == [] then []
    else (if chunks[0].Some? then [ChunkMeaning(chunks[0].value)] else []) + ChunksMeaning(chunks[1..])
  }

  datatype ColumnDef = ColumnDef(name: Bytes, typ: LogicalType)

  predicate DefsWellFormed(defs: seq<ColumnDef>)
  {
    forall i :: 0 <= i < |defs| ==> WellFormed(defs[i].typ) && |defs[i].name| < P64
  }

  function DefTypes(defs: seq<ColumnDef>): (ts: seq<LogicalType>)
    ensures |ts| == |defs|
  {
    seq(|defs|, i requires 0 <= i < |defs| => defs[i].typ)
  }

  function DefNames(defs: seq<ColumnDef>): (ns: seq<Bytes>)
    ensures |ns| == |defs|
  {
    seq(|defs|, i requires 0 <= i < |defs| => defs[i].name)
  }

  /** EncodePrepareBody: defaults are left out. */
  function PrepareBytes(defs: seq<ColumnDef>, inline: seq<Option<ChunkWire>>, needsMore: bool, uuid: Hugeint): Bytes
    requires DefsWellFormed(defs) && Printable(inline)
  {
    var tail := FieldId(5) + (SvEncode(uuid.upper) + (UvEncode(uuid.lower) + (EndMark() + [])));
    var chunks := if inline == [] then tail else FieldId(4) + ChunkListBytes(inline, tail);
    var more := if needsMore then FieldId(3) + (BoolByte(true) + chunks) else chunks;
    if defs == [] then more
    else
      FieldId(1) + (UvEncode(|defs|) + TypesBytes(DefTypes(defs),
        FieldId(2) + (UvEncode(|defs|) + StringsBytes(DefNames(defs), more))))
  }

  /** EncodeFetchBody */
  function FetchBytes(chunks: seq<Option<ChunkWire>>, batchIndex: nat): Bytes
    requires Printable(chunks)
  {
    var tail := FieldId(2) + (UvEncode(batchIndex) + (EndMark() + []));
    if chunks == [] then tail else FieldId(1) + ChunkListBytes(chunks, tail)
  }
}
