/** Whole chunks and message bodies, written through one writer. */
module ChunkEncoder {
  import opened Basics
  import opened Leb128
  import opened Qser
  import opened LogicalTypes
  import opened VectorWire
  import opened FlatEncoding
  import opened Chunks
  import opened RoundTrip
  import opened Encoder
  import opened F = Framing

  lemma WritableColumns(cols: seq<Col>)
    requires Writable(cols)
    ensures WellFormedColumns(ChunkOf(cols).cols) && forall t <- ColumnTypes(ChunkOf(cols).cols) :: WellFormed(t)
  {
    hide WellFormed, FlatOf, SupportedType, AllTyped;
    assert forall i :: 0 <= i < |cols| ==> ColWritable(cols[i]);
  }

  lemma WritableTables(tables: seq<seq<Col>>)
    requires AllWritable(tables)
    ensures Printable(WiresOf(tables))
  {
    hide Writable, WellFormedColumns, ChunkOf;
    forall i | 0 <= i < |tables| ensures WellFormedColumns(ChunkOf(tables[i]).cols) {
      WritableColumns(tables[i]);
    }
  }

  method WriteTypes(w: Writer, types: seq<LogicalType>, ghost k: Bytes)
    requires forall t <- types :: WellFormed(t)
    modifies w
    ensures w.buf + k == old(w.buf) + TypesBytes(types, k)
  {
    hide TypeBytes, WellFormed;
    var i := 0;
    while i < |types|
      invariant i <= |types| && w.buf + TypesBytes(types[i..], k) == old(w.buf) + TypesBytes(types, k)
    {
      assert types[i..][0] == types[i] && types[i..][1..] == types[i + 1..];
      WriteType(w, types[i], TypesBytes(types[i + 1..], k));
      i := i + 1;
    }
    assert types[|types|..] == [];
  }

  /** WriteChunk */
  method WriteChunk(w: Writer, cols: seq<Col>, ghost k: Bytes)
    requires Writable(cols)
    modifies w
    ensures WellFormedColumns(ChunkOf(cols).cols)
    ensures w.buf + k == old(w.buf) + ChunkBytes(ChunkOf(cols), k)
  {
    hide FieldId, UvEncode, EndMark, TypesBytes, ColumnsBytes, WellFormed, FlatOf, SupportedType, AllTyped;
    WritableColumns(cols);
    ghost var c := ChunkOf(cols);
    var rows := if |cols| > 0 then |cols[0].vals| else 0;
    var types := seq(|cols|, i requires 0 <= i < |cols| => cols[i].typ);
    assert types == ColumnTypes(c.cols);
    ghost var k1 := ColumnsBytes(c.cols, EndMark() + k);
    ghost var k2 := FieldId(102) + (UvEncode(|cols|) + k1);
    FieldUvarint(w, 100, rows, FieldId(101) + (UvEncode(|cols|) + TypesBytes(types, k2)));
    FieldThen(w, 101, UvEncode(|cols|) + TypesBytes(types, k2));
    UvarintThen(w, |cols|, TypesBytes(types, k2));
    WriteTypes(w, types, k2);
    FieldThen(w, 102, UvEncode(|cols|) + k1);
    UvarintThen(w, |cols|, k1);
    WriteColumns(w, cols, EndMark() + k);
    EndThen(w, k);
  }

  method WriteColumns(w: Writer, cols: seq<Col>, ghost k: Bytes)
    requires Writable(cols)
    modifies w
    ensures w.buf + k == old(w.buf) + ColumnsBytes(ChunkOf(cols).cols, k)
  {
    hide EndMark, VecBytes, FlatOf, SupportedType, AllTyped, WellFormed;
    ghost var cs := ChunkOf(cols).cols;
    var i := 0;
    while i < |cols|
      invariant i <= |cols| && w.buf + ColumnsBytes(cs[i..], k) == old(w.buf) + ColumnsBytes(cs, k)
    {
      assert cs[i..][0] == cs[i] && cs[i..][1..] == cs[i + 1..];
      assert ColWritable(cols[i]);
      ghost var k1 := ColumnsBytes(cs[i + 1..], k);
      WriteVector(w, cols[i].typ, cols[i].vals, EndMark() + k1);
      EndThen(w, k1);
      i := i + 1;
    }
    assert cs[|cs|..] == [];
  }

  /** EncodeChunk */
  method EncodeChunk(cols: seq<Col>) returns (b: Bytes)
    requires Writable(cols)
    ensures WellFormedColumns(ChunkOf(cols).cols) && b == ChunkBytes(ChunkOf(cols), [])
  {
    hide ChunkOf, ChunkBytes, WellFormedColumns;
    var w := new Writer();
    WriteChunk(w, cols, []);
    assert w.buf + [] == w.buf && [] + ChunkBytes(ChunkOf(cols), []) == ChunkBytes(ChunkOf(cols), []);
    b := w.buf;
  }

  /** writeChunkList */
  method WriteChunkList(w: Writer, tables: seq<seq<Col>>, ghost k: Bytes)
    requires AllWritable(tables)
    modifies w
    ensures Printable(WiresOf(tables))
    ensures w.buf + k == old(w.buf) + ChunkListBytes(WiresOf(tables), k)
  {
    hide FieldId, UvEncode, EndMark, BoolByte, ChunkBytes, ChunkOf, Writable, WellFormedColumns;
    WritableTables(tables);
    ghost var ws := WiresOf(tables);
    UvarintThen(w, |tables|, EntriesOfChunks(ws, k));
    label start:
    var i := 0;
    while i < |tables|
      invariant i <= |tables| && w.buf + EntriesOfChunks(ws[i..], k) == old@start(w.buf) + EntriesOfChunks(ws, k)
    {
      assert ws[i..][0] == ws[i] && ws[i..][1..] == ws[i + 1..];
      ghost var k1 := EntriesOfChunks(ws[i + 1..], k);
      WritableColumns(tables[i]);
      ghost var k2 := ChunkBytes(ChunkOf(tables[i]), EndMark() + k1);
      BoolThen(w, true, FieldId(300) + k2);
      FieldThen(w, 300, k2);
      WriteChunk(w, tables[i], EndMark() + k1);
      EndThen(w, k1);
      i := i + 1;
    }
    assert ws[|ws|..] == [];
  }

  method FieldSchema(w: Writer, defs: seq<ColumnDef>, ghost k: Bytes)
    requires DefsWellFormed(defs)
    modifies w
    ensures w.buf + k == old(w.buf) + (FieldId(1) + (UvEncode(|defs|) + TypesBytes(DefTypes(defs),
                         FieldId(2) + (UvEncode(|defs|) + StringsBytes(DefNames(defs), k)))))
  {
    hide FieldId, UvEncode, TypesBytes, StringsBytes, WellFormed;
    var types := DefTypes(defs);
    var names := DefNames(defs);
    ghost var k1 := UvEncode(|defs|) + StringsBytes(names, k);
    FieldThen(w, 1, UvEncode(|defs|) + TypesBytes(types, FieldId(2) + k1));
    UvarintThen(w, |defs|, TypesBytes(types, FieldId(2) + k1));
    WriteTypes(w, types, FieldId(2) + k1);
    FieldThen(w, 2, k1);
    UvarintThen(w, |defs|, StringsBytes(names, k));
    WriteStrings(w, names, k);
  }

  method HugeintThen(w: Writer, h: Hugeint, ghost k: Bytes)
    modifies w
    ensures w.buf + k == old(w.buf) + (SvEncode(h.upper) + (UvEncode(h.lower) + k))
  {
    hide SvEncode, UvEncode;
    ghost var b0 := w.buf;
    w.Hugeint(h);
    Then(b0, w.buf, w.buf + k, HugeintBytes(h), k);
    assert HugeintBytes(h) + k == SvEncode(h.upper) + (UvEncode(h.lower) + k);
  }

  /** EncodePrepareBody */
  method EncodePrepareBody(defs: seq<ColumnDef>, inline: seq<seq<Col>>, needsMore: bool, uuid: Hugeint) returns (b: Bytes)
    requires DefsWellFormed(defs) && AllWritable(inline)
    ensures Printable(WiresOf(inline)) && b == PrepareBytes(defs, WiresOf(inline), needsMore, uuid)
  {
    hide FieldId, UvEncode, SvEncode, EndMark, BoolByte, TypesBytes, StringsBytes, ChunkListBytes, AllWritable, DefsWellFormed;
    WritableTables(inline);
    hide Printable;
    ghost var ws := WiresOf(inline);
    ghost var tail := FieldId(5) + (SvEncode(uuid.upper) + (UvEncode(uuid.lower) + (EndMark() + [])));
    ghost var chunks := if inline == [] then tail else FieldId(4) + ChunkListBytes(ws, tail);
    ghost var more := if needsMore then FieldId(3) + (BoolByte(true) + chunks) else chunks;
    assert (ws == []) == (inline == []);
    var w := new Writer();
    if |defs| > 0 {
      FieldSchema(w, defs, more);
    }
    assert w.buf + more == PrepareBytes(defs, ws, needsMore, uuid);
    if needsMore {
      FieldThen(w, 3, BoolByte(true) + chunks);
      BoolThen(w, true, chunks);
    }
    if |inline| > 0 {
      FieldThen(w, 4, ChunkListBytes(ws, tail));
      WriteChunkList(w, inline, tail);
    }
    FieldThen(w, 5, SvEncode(uuid.upper) + (UvEncode(uuid.lower) + (EndMark() + [])));
    HugeintThen(w, uuid, EndMark() + []);
    EndThen(w, []);
    assert w.buf + [] == w.buf;
    b := w.buf;
  }

  /** EncodeFetchBody */
  method EncodeFetchBody(chunks: seq<seq<Col>>, batchIndex: nat) returns (b: Bytes)
    requires AllWritable(chunks)
    ensures Printable(WiresOf(chunks)) && b == FetchBytes(WiresOf(chunks), batchIndex)
  {
    hide FieldId, UvEncode, EndMark, ChunkListBytes, AllWritable;
    WritableTables(chunks);
    hide Printable;
    ghost var ws := WiresOf(chunks);
    ghost var tail := FieldId(2) + (UvEncode(batchIndex) + (EndMark() + []));
    assert (ws == []) == (chunks == []);
    var w := new Writer();
    if |chunks| > 0 {
      FieldThen(w, 1, ChunkListBytes(ws, tail));
      WriteChunkList(w, chunks, tail);
    }
    assert w.buf + tail == FetchBytes(ws, batchIndex);
    FieldUvarint(w, 2, batchIndex, EndMark() + []);
    EndThen(w, []);
    assert w.buf + [] == w.buf;
    b := w.buf;
  }
}
