/** The encoder and the decoder against each other: every table comes back
    exactly, however its vectors were compressed. */
module RoundTrip {
  import opened Basics
  import opened Framing
  import opened LogicalTypes
  import opened Values
  import opened Vectors
  import opened VectorWire
  import opened VectorBack
  import opened VectorComplete
  import opened FlatEncoding
  import opened FlatRoundTrip
  import opened Chunks
  import opened ChunkBack

  /** codectest.Col */
  datatype Col = Col(name: Bytes, typ: LogicalType, vals: seq<Value>)

  /** One column the encoder takes. */
  ghost predicate ColWritable(c: Col)
  {
    WellFormed(c.typ) && SupportedType(c.typ) && AllTyped(c.typ, c.vals)
  }

  /** One column the decoder's limits admit. */
  ghost predicate ColEncodable(c: Col)
  {
    ColWritable(c) && Height(c.typ) <= MAX_TYPE_DEPTH && WithinLimits(c.typ, c.vals)
  }

  function RowCount(cols: seq<Col>): nat { if cols == [] then 0 else |cols[0].vals| }

  /** A chunk of columns with one row count, at most 2^16 rows of any
      supported types, NULLs anywhere. */
  ghost predicate Encodable(cols: seq<Col>): (ok: bool)
    ensures ok ==> Writable(cols)
  {
    && |cols| < P64 && RowCount(cols) <= MAX_CHUNK_ROWS
    && forall i :: 0 <= i < |cols| ==> ColEncodable(cols[i]) && |cols[i].vals| == RowCount(cols)
  }

  /** What WriteChunk takes: columns of one length. */
  ghost predicate Writable(cols: seq<Col>)
  {
    forall i :: 0 <= i < |cols| ==> ColWritable(cols[i]) && |cols[i].vals| == RowCount(cols)
  }

  /** WriteChunk's choice of encodings. */
  ghost function ChunkOf(cols: seq<Col>): (c: ChunkWire)
    requires Writable(cols)
    ensures |c.cols| == |cols|
  {
    ChunkWire(RowCount(cols),
      seq(|cols|, i requires 0 <= i < |cols| => ColumnWire(cols[i].typ, FlatOf(cols[i].typ, cols[i].vals))))
  }

  /** The chunk a table is. */
  function Decoded(cols: seq<Col>): Chunk
  {
    Chunk(RowCount(cols), seq(|cols|, i requires 0 <= i < |cols| => Column(cols[i].typ, Vals(cols[i].vals))))
  }

  lemma ChunkOfMeans(cols: seq<Col>)
    requires Encodable(cols)
    ensures ChunkShaped(ChunkOf(cols)) && ChunkMeaning(ChunkOf(cols)) == Decoded(cols)
    ensures WellFormedColumns(ChunkOf(cols).cols)
  {
    var c := ChunkOf(cols);
    hide FlatOf, Meaning, Shaped, WellFormed, Height, Depth, SupportedType, AllTyped, WithinLimits;
    forall i | 0 <= i < |cols|
      ensures ColumnShaped(c.cols[i], c.rows) && ColumnMeaning(c.cols[i], c.rows) == Column(cols[i].typ, Vals(cols[i].vals))
    {
      assert ColEncodable(cols[i]);
      FlatEncodes(cols[i].typ, cols[i].vals);
      FlatDepth(cols[i].typ, cols[i].vals);
    }
    ChunkPrintable(c);
    assert ChunkMeaning(c).cols == Decoded(cols).cols;
  }

  /** DecodeChunk inverts EncodeChunk: same columns, same values, NULLs
      included at every level, and exactly the encoded bytes consumed. */
  lemma ChunkRoundTrip(cols: seq<Col>, k: Bytes)
    requires Encodable(cols)
    ensures WellFormedColumns(ChunkOf(cols).cols)
    ensures DecodeChunkContents(Ok(ChunkBytes(ChunkOf(cols), k))) == (Ok(k), Success(Decoded(cols)))
    ensures DecodeChunk(ChunkBytes(ChunkOf(cols), k)) == Success(Decoded(cols))
  {
    ChunkOfMeans(cols);
    ChunkContentsBack(ChunkOf(cols), k);
  }

  ghost predicate AllEncodable(tables: seq<seq<Col>>): (ok: bool)
    ensures ok ==> AllWritable(tables)
  {
    |tables| < P64 && forall i :: 0 <= i < |tables| ==> Encodable(tables[i])
  }

  ghost predicate AllWritable(tables: seq<seq<Col>>)
  {
    forall i :: 0 <= i < |tables| ==> Writable(tables[i])
  }

  ghost function WiresOf(tables: seq<seq<Col>>): (ws: seq<Option<ChunkWire>>)
    requires AllWritable(tables)
    ensures |ws| == |tables|
  {
    seq(|tables|, i requires 0 <= i < |tables| => Some(ChunkOf(tables[i])))
  }

  function AllDecoded(tables: seq<seq<Col>>): seq<Chunk>
  {
    seq(|tables|, i requires 0 <= i < |tables| => Decoded(tables[i]))
  }

  lemma WiresShaped(tables: seq<seq<Col>>)
    requires AllEncodable(tables)
    ensures ChunksShaped(WiresOf(tables)) && Printable(WiresOf(tables))
  {
    hide ChunkOf, ChunkShaped, WellFormedColumns, WellFormed, SupportedType, AllTyped, WithinLimits, Height;
    forall i | 0 <= i < |tables|
      ensures ChunkShaped(ChunkOf(tables[i])) && WellFormedColumns(ChunkOf(tables[i]).cols)
    {
      ChunkOfMeans(tables[i]);
    }
  }

  lemma {:induction false} WiresMean(tables: seq<seq<Col>>)
    requires AllEncodable(tables) && ChunksShaped(WiresOf(tables))
    ensures ChunksMeaning(WiresOf(tables)) == AllDecoded(tables)
    decreases |tables|
  {
    hide ChunkOf, ChunkShaped, ChunkMeaning, Decoded, WellFormed, SupportedType, AllTyped, WithinLimits, Height;
    if tables != [] {
      ChunkOfMeans(tables[0]);
      assert WiresOf(tables)[1..] == WiresOf(tables[1..]);
      WiresMean(tables[1..]);
      assert AllDecoded(tables) == [Decoded(tables[0])] + AllDecoded(tables[1..]);
    }
  }

  /** The same for a whole fetch response. */
  lemma FetchRoundTrip(tables: seq<seq<Col>>, batchIndex: nat)
    requires AllEncodable(tables) && batchIndex < P64
    ensures Printable(WiresOf(tables))
    ensures DecodeFetch(FetchBytes(WiresOf(tables), batchIndex)) == Success(FetchResult(AllDecoded(tables), batchIndex))
  {
    hide DecodeFetch, FetchBytes, WiresOf, ChunksMeaning;
    WiresShaped(tables);
    WiresMean(tables);
    FetchBack(WiresOf(tables), batchIndex);
  }

  /** The same for a whole prepare response. */
  lemma PrepareRoundTrip(defs: seq<ColumnDef>, tables: seq<seq<Col>>, needsMore: bool, uuid: Hugeint)
    requires DefsWellFormed(defs) && |defs| < P64 && AllEncodable(tables) && ValidHugeint(uuid)
    requires forall i :: 0 <= i < |defs| ==> Height(defs[i].typ) <= MAX_TYPE_DEPTH
    ensures Printable(WiresOf(tables))
    ensures var res := DecodePrepare(PrepareBytes(defs, WiresOf(tables), needsMore, uuid));
            && res.Success? && SchemaIs(res.value.schema, defs)
            && res.value.chunks == AllDecoded(tables) && res.value.needsMore == needsMore && res.value.uuid == uuid
  {
    hide DecodePrepare, PrepareBytes, WiresOf, ChunksMeaning;
    WiresShaped(tables);
    WiresMean(tables);
    PrepareBack(defs, WiresOf(tables), needsMore, uuid);
  }

  // ---- representation independence ------------------------------------------------------------

  /** Any encoding of a column, compressed at whatever nesting levels, decodes
      to the values its flat encoding decodes to. */
  lemma RepresentationIndependent(v: Vec, t: LogicalType, vals: seq<Value>, k: Bytes, k': Bytes)
    requires Encodes(v, t, vals) && Depth(v) <= MAX_TYPE_DEPTH
    requires ColEncodable(Col([], t, vals))
    ensures DecodeVector(Ok(VecBytes(v, EndMark() + k)), t, |vals|, 0) == (Ok(EndMark() + k), Vals(vals))
    ensures DecodeVector(Ok(VecBytes(FlatOf(t, vals), EndMark() + k')), t, |vals|, 0) == (Ok(EndMark() + k'), Vals(vals))
  {
    hide DecodeVector, VecBytes, FlatOf, Depth, Height;
    FlatEncodes(t, vals);
    FlatDepth(t, vals);
    VecBack(v, t, |vals|, 0, k);
    VecBack(FlatOf(t, vals), t, |vals|, 0, k');
  }

  /** A sequence vector stands for start, start + inc, ... modulo 2^w in the
      column's w-bit type: each value is that type's one representative. */
  lemma SequenceEncodes(t: LogicalType, start: int, inc: int, vals: seq<Value>)
    requires IsInteger(t.id) && IsSigned(start, P64) && IsSigned(inc, P64) && |vals| <= MAX_VECTOR_ROWS
    requires forall i :: 0 <= i < |vals| ==>
               && vals[i].VInt? && CellTyped(t, vals[i])
               && (vals[i].n - (start + i * inc)) % Pow256(KindOf(t.id).bits / 8) == 0
    ensures Encodes(Sequence(start, inc), t, vals)
  {
    var kind := KindOf(t.id);
    var m := Pow256(kind.bits / 8);
    forall i | 0 <= i < |vals|
      ensures Residue(t.id, start + i * inc) == vals[i]
    {
      ResidueUnique(t, vals[i], start + i * inc);
    }
    assert Meaning(Sequence(start, inc), t, |vals|).vals == vals;
  }

  lemma ResidueUnique(t: LogicalType, v: Value, n: int)
    requires IsInteger(t.id) && v.VInt? && CellTyped(t, v)
    requires (v.n - n) % Pow256(KindOf(t.id).bits / 8) == 0
    ensures Residue(t.id, n) == v
  {
    WordSizes();
    var m := Pow256(KindOf(t.id).bits / 8);
    assert m in {P8, P16, P32, P64};
    var q := (v.n - n) / m;
    assert v.n == n + q * m;
    WrapShift(n, q, m);
    if v.signed {
      SignedWrap(v.n, m);
    } else {
      ModUnique(v.n, m, 0, v.n);
    }
  }

  // ---- columns beyond the codec ------------------------------------------------------------------

  /** The type is, or contains, UNION, VARIANT, GEOMETRY or a scalar whose
      width the codec does not know. */
  predicate BeyondCodec(t: LogicalType)
  {
    if IsStructLike(t.id) then t.id != STRUCT || exists i :: 0 <= i < |t.fields| && BeyondCodec(t.fields[i].typ)
    else if IsList(t.id) || t.id == ARRAY then t.child.Some? && BeyondCodec(t.child.value)
    else if IsText(t.id) then t.id == GEOMETRY
    else KindOf(t.id) == KNone
  }

  /** No vector in the tree carries the geometry tag. */
  predicate Untagged(v: Vec)
  {
    match v
    case Constant(one) => Untagged(one)
    case Dictionary(_, _, dict) => Untagged(dict)
    case Sequence(_, _) => true
    case Flat(geo, _, body) =>
      && geo.None?
      && match body
         case Kids(kids) => forall i :: 0 <= i < |kids| ==> Untagged(kids[i])
         case Windows(_, _, child) => Untagged(child)
         case Groups(_, child) => Untagged(child)
         case _ => true
  }

  /** Every sequence in the tree stands for values of an integer type, not for
      zero rows of another one. */
  predicate IntegerSequences(v: Vec, t: LogicalType)
  {
    match v
    case Constant(one) => IntegerSequences(one, t)
    case Dictionary(_, _, dict) => IntegerSequences(dict, t)
    case Sequence(_, _) => IsInteger(t.id)
    case Flat(_, _, body) =>
      match body
      case Kids(kids) => forall i :: 0 <= i < |kids| && i < |t.fields| ==> IntegerSequences(kids[i], t.fields[i].typ)
      case Windows(_, _, child) => t.child.Some? ==> IntegerSequences(child, t.child.value)
      case Groups(_, child) => t.child.Some? ==> IntegerSequences(child, t.child.value)
      case _ => true
  }

  /** Values are withheld only for types beyond the codec and tagged storage,
      always for the latter, and for the former unless the type's rows were
      sent as an empty sequence. */
  lemma {:induction false} WithheldWhen(v: Vec, t: LogicalType, count: nat)
    requires Shaped(v, t, count)
    ensures Withheld(v, t) ==> BeyondCodec(t) || !Untagged(v)
    ensures !Untagged(v) ==> Withheld(v, t)
    ensures IntegerSequences(v, t) && BeyondCodec(t) ==> Withheld(v, t)
    decreases v
  {
    match v
    case Constant(one) => WithheldWhen(one, t, 1);
    case Dictionary(_, size, dict) => WithheldWhen(dict, t, size);
    case Sequence(_, _) =>
    case Flat(geo, _, body) =>
      assert Withheld(v, t) <==> geo.Some? || BodyWithheld(body, t);
      match body
      case Kids(kids) =>
        forall i | 0 <= i < |kids|
          ensures Withheld(kids[i], t.fields[i].typ) ==> BeyondCodec(t.fields[i].typ) || !Untagged(kids[i])
          ensures !Untagged(kids[i]) ==> Withheld(kids[i], t.fields[i].typ)
          ensures IntegerSequences(kids[i], t.fields[i].typ) && BeyondCodec(t.fields[i].typ) ==> Withheld(kids[i], t.fields[i].typ)
        {
          WithheldWhen(kids[i], t.fields[i].typ, count);
        }
      case Windows(size, _, child) => WithheldWhen(child, t.child.value, size);
      case Groups(size, child) => WithheldWhen(child, t.child.value, size * count);
      case _ =>
  }

  /** A column decodes to its own error, in place of values, exactly when its
      encoding withholds them. With sequences only for integers that is when
      the type is beyond the codec or the storage tagged. */
  lemma UnsupportedExactly(v: Vec, t: LogicalType, count: nat, k: Bytes)
    requires Shaped(v, t, count) && Depth(v) <= MAX_TYPE_DEPTH
    ensures var res := DecodeVector(Ok(VecBytes(v, EndMark() + k)), t, count, 0);
            && res.0 == Ok(EndMark() + k) && !res.1.Bad?
            && (res.1.Unsupported? <==> Withheld(v, t))
            && (IntegerSequences(v, t) ==> (res.1.Unsupported? <==> BeyondCodec(t) || !Untagged(v)))
  {
    hide DecodeVector, VecBytes, Depth, Shaped, Withheld, IntegerSequences, BeyondCodec, Untagged;
    VecBack(v, t, count, 0, k);
    WithheldWhen(v, t, count);
  }

  /** Whatever the bytes, a column error stands for an encoding that withholds
      its values, of a type beyond the codec or with a tag in it. */
  lemma UnsupportedBytes(r: Rd, t: LogicalType, count: nat, depth: nat)
    requires DecodeVector(r, t, count, depth).1.Unsupported?
    ensures exists v :: StandsFor(v, t, count, depth, DecodeVector(r, t, count, depth).1)
    ensures forall v :: StandsFor(v, t, count, depth, DecodeVector(r, t, count, depth).1) ==>
                          Withheld(v, t) && (BeyondCodec(t) || !Untagged(v))
  {
    hide DecodeVector, Depth, Shaped, Withheld, BeyondCodec, Untagged;
    var m := DecodeVector(r, t, count, depth).1;
    var w := EncodingOf(r, t, count, depth);
    forall v | StandsFor(v, t, count, depth, m) ensures Withheld(v, t) && (BeyondCodec(t) || !Untagged(v)) {
      WithheldWhen(v, t, count);
    }
  }

  /** Inserting any column anywhere into a chunk leaves every other column as
      it decodes without it. The new column reports an error exactly when its
      encoding withholds its values. */
  lemma UnsupportedIsolated(c: ChunkWire, at: nat, extra: ColumnWire)
    requires ChunkShaped(c) && at <= |c.cols| && ColumnShaped(extra, c.rows) && |c.cols| + 1 < P64
    ensures WellFormedColumns(c.cols) && WellFormedColumns(Insert(c, at, extra).cols)
    ensures var before, after := DecodeChunk(ChunkBytes(c, [])), DecodeChunk(ChunkBytes(Insert(c, at, extra), []));
            && before.Success? && after.Success?
            && |after.value.cols| == |before.value.cols| + 1 && |before.value.cols| == |c.cols|
            && (after.value.cols[at].content.Unsupported? <==> Withheld(extra.vec, extra.typ))
            && (forall i :: 0 <= i < at ==> after.value.cols[i] == before.value.cols[i])
            && (forall i :: at <= i < |c.cols| ==> after.value.cols[i + 1] == before.value.cols[i])
  {
    hide ChunkBytes, DecodeChunk, Insert, Withheld, Shaped, Meaning, WellFormed, Height, Depth, ChunkShaped;
    InsertionIsolated(c, at, extra);
  }

  /** GEOMETRY columns as servers send them carry the tag. */
  lemma TaggedGeometry(storage: nat, item: Bytes)
    requires storage < P64 && |item| < P64
    ensures var c := ColumnWire(Plain(GEOMETRY), Flat(Some(storage), None, Texts([item])));
            ColumnShaped(c, 1) && BeyondCodec(c.typ) && !Untagged(c.vec)
  {
  }

  /** The tag alone costs a VARCHAR its values. */
  lemma TaggedVarchar(storage: nat, item: Bytes, k: Bytes)
    requires storage < P64 && |item| < P64
    ensures var t, v := Plain(VARCHAR), Flat(Some(storage), None, Texts([item]));
            && !BeyondCodec(t)
            && DecodeVector(Ok(VecBytes(v, EndMark() + k)), t, 1, 0) == (Ok(EndMark() + k), Unsupported(t))
  {
    hide DecodeVector, VecBytes;
    VecBack(Flat(Some(storage), None, Texts([item])), Plain(VARCHAR), 1, 0, k);
  }

  /** A type beyond the codec can have values all the same: an empty list of
      GEOMETRY whose zero elements were sent as a sequence. */
  lemma EmptyGeometryList(k: Bytes)
    ensures var t := Plain(LIST).(child := Some(Plain(GEOMETRY)));
            var v := Flat(None, None, Windows(0, [WindowEntry(None, None)], Sequence(0, 0)));
            && BeyondCodec(t) && Untagged(v)
            && DecodeVector(Ok(VecBytes(v, EndMark() + k)), t, 1, 0) == (Ok(EndMark() + k), Vals([VList([])]))
  {
    hide DecodeVector, VecBytes;
    var t := Plain(LIST).(child := Some(Plain(GEOMETRY)));
    var v := Flat(None, None, Windows(0, [WindowEntry(None, None)], Sequence(0, 0)));
    assert Shaped(v.body.child, Plain(GEOMETRY), 0) && Meaning(v.body.child, Plain(GEOMETRY), 0) == Vals([]);
    assert Shaped(v, t, 1);
    assert Meaning(v, t, 1) == Vals([VList([])]);
    VecBack(v, t, 1, 0, k);
  }
}
