/** On arbitrary input a decoded column holds only values of its type, at
    every nesting level. */
module DecodedTyped {
  import opened Basics
  import opened Framing
  import opened LogicalTypes
  import opened Values
  import opened Vectors
  import opened FlatEncoding
  import opened Chunks

  /** The Go values decodeCell can return for a type. */
  predicate CellHolds(t: LogicalType, v: Value)
  {
    match KindOf(t.id)
    case KEnum => v.VString? && v.s in t.labels
    case _ => CellTyped(t, v)
  }

  /** The type can have values at all: lists of anything, since they may be
      empty, but nothing of GEOMETRY, UNION, VARIANT or an unknown width, and
      no struct with a field of such a type. */
  predicate Valued(t: LogicalType)
  {
    if t.id == STRUCT then forall i :: 0 <= i < |t.fields| ==> Valued(t.fields[i].typ)
    else if IsList(t.id) || t.id == ARRAY then t.child.Some?
    else !IsStructLike(t.id) && (if IsText(t.id) then t.id != GEOMETRY else KindOf(t.id) != KNone)
  }

  /** What a decoded value of type `t` looks like, whatever the bytes were.
      An ARRAY row's length comes from the vector, not from the type. */
  predicate Holds(t: LogicalType, v: Value)
    decreases t
  {
    Valued(t) &&
    if v.VNull? then true
    else if t.id == STRUCT then
      && v.VStruct? && |v.entries| == |t.fields|
      && forall i :: 0 <= i < |t.fields| ==>
           v.entries[i].name == t.fields[i].name && Holds(t.fields[i].typ, v.entries[i].value)
    else if t.id == LIST || t.id == ARRAY then
      v.VList? && forall i :: 0 <= i < |v.elems| ==> Holds(t.child.value, v.elems[i])
    else if t.id == MAP then
      v.VMap? && forall i :: 0 <= i < |v.pairs| ==> PairHolds(t.child.value, v.pairs[i])
    else if t.id == VARCHAR then v.VString?
    else if t.id == BLOB then v.VBytes?
    else if t.id == BIT then v.VString? && IsBitText(v.s)
    else CellHolds(t, v)
  }

  /** A map entry comes from a two-field struct, or is the zero entry. */
  predicate PairHolds(child: LogicalType, p: Pair)
    decreases child, 1
  {
    if child.id == STRUCT && |child.fields| == 2 then
      Holds(child.fields[0].typ, p.key) && Holds(child.fields[1].typ, p.value)
    else Valued(child) && p == Pair(VNull, VNull)
  }

  ghost predicate AllHold(t: LogicalType, vals: seq<Value>)
  {
    forall i :: 0 <= i < |vals| ==> Holds(t, vals[i])
  }

  ghost predicate ResultHolds(t: LogicalType, v: VectorResult)
  {
    v.Vals? ==> AllHold(t, v.vals)
  }

  // ---- cells ---------------------------------------------------------------------------

  lemma SignedRange(u: int, m: int)
    requires 0 <= u < m && m % 2 == 0
    ensures IsSigned(Signed(u, m), m)
  {
  }

  lemma DecimalCellHolds(t: LogicalType, cell: Bytes)
    requires KindOf(t.id) == KDecimal && |cell| == PhysicalWidth(t)
    ensures CellTyped(t, VDecimal(DecodeDecimalCell(t, cell)))
  {
    WordSizes();
    if |cell| == 16 {
      FromLEBound(cell[8..]);
      FromLEBound(cell[..8]);
      SignedRange(FromLE(cell[8..]), P64);
      Int128PartsJoin(Signed(FromLE(cell[8..]), P64), FromLE(cell[..8]));
    } else {
      FromLEBound(cell);
      var m := Pow256(|cell|);
      assert m in {P16, P32, P64};
      SignedRange(FromLE(cell), m);
      var v := Signed(FromLE(cell), m);
      if v < 0 {
        ModUnique(v, P64, -1, v + P64);
      } else {
        ModUnique(v, P64, 0, v);
      }
      assert BigInt(DecodeDecimalCell(t, cell)) == v;
    }
  }

  lemma WordCellHolds(t: LogicalType, cell: Bytes)
    requires KindOf(t.id) != KNone && |cell| == PhysicalWidth(t)
    requires KindOf(t.id) in {KBool, KDate, KTime, KTimeNS, KTimeTZ, KTimestamp} || KindOf(t.id).KInt? || KindOf(t.id).KFloat?
    ensures DecodeCell(t, cell).Some? && CellTyped(t, DecodeCell(t, cell).value)
  {
    WordSizes();
    FromLEBound(cell);
    var u := FromLE(cell);
    match KindOf(t.id)
    case KInt(bits, _) => SignedRange(u, Pow256(bits / 8));
    case KDate =>
      SignedRange(u, P32);
      ModUnique(Signed(u, P32) * 86400, 86400, Signed(u, P32), 0);
    case KTimestamp =>
      SignedRange(u, P64);
      TicksBack(t.id, Signed(u, P64));
      FractionWhole(t.id, Signed(u, P64));
    case _ =>
  }

  lemma FractionWhole(id: nat, ticks: int)
    ensures TimestampValue(id, ticks).nsec % (1_000_000_000 / TickRate(id)) == 0
  {
    var unit := 1_000_000_000 / TickRate(id);
    ModUnique((ticks % TickRate(id)) * unit, unit, ticks % TickRate(id), 0);
  }

  lemma WideCellHolds(t: LogicalType, cell: Bytes)
    requires KindOf(t.id) in {KHugeint, KUHugeint, KUuid, KInterval} && |cell| == 16
    ensures DecodeCell(t, cell).Some? && CellTyped(t, DecodeCell(t, cell).value)
  {
    WordSizes();
    FromLEBound(cell[8..]);
    FromLEBound(cell[..8]);
    match KindOf(t.id)
    case KHugeint =>
      SignedRange(FromLE(cell[8..]), P64);
      Int128PartsJoin(Signed(FromLE(cell[8..]), P64), FromLE(cell[..8]));
    case KInterval =>
      FromLEBound(cell[..4]);
      FromLEBound(cell[4..8]);
      SignedRange(FromLE(cell[..4]), P32);
      SignedRange(FromLE(cell[4..8]), P32);
      SignedRange(FromLE(cell[8..]), P64);
    case _ =>
  }

  /** decodeCell on any bytes of the right width. */
  lemma DecodedCellHolds(t: LogicalType, cell: Bytes)
    requires KindOf(t.id) != KNone && |cell| == PhysicalWidth(t)
    ensures DecodeCell(t, cell).Some? ==> CellHolds(t, DecodeCell(t, cell).value)
  {
    match KindOf(t.id)
    case KDecimal => DecimalCellHolds(t, cell);
    case KEnum =>
    case KHugeint => WideCellHolds(t, cell);
    case KUHugeint => WideCellHolds(t, cell);
    case KUuid => WideCellHolds(t, cell);
    case KInterval => WideCellHolds(t, cell);
    case _ => WordCellHolds(t, cell);
  }

  // ---- rows ------------------------------------------------------------------------------

  lemma {:induction false} AllBitsText(s: Bytes)
    ensures IsBitText(AllBits(s))
  {
    if s != [] {
      AllBitsText(s[1..]);
    }
  }

  lemma TextHolds(t: LogicalType, b: Bytes)
    requires IsText(t.id) && t.id != GEOMETRY && TextValue(t.id, b).Some?
    ensures Holds(t, TextValue(t.id, b).value)
  {
    if t.id == BIT && |b| > 1 {
      AllBitsText(b[2..]);
      var head := ByteBits(b[1], b[0]);
      assert forall i :: 0 <= i < |head| ==> head[i] == BitChar(b[1], b[0] + i);
      assert TextValue(t.id, b).value.s == head + AllBits(b[2..]);
    }
  }

  lemma {:induction false} TextEntriesHold(r: Rd, t: LogicalType, count: nat, mask: Option<Bytes>, skip: bool, acc: seq<Value>)
    requires Covers(mask, count) && |acc| <= count && IsText(t.id) && t.id != GEOMETRY && AllHold(t, acc)
    ensures var out := DecodeTextEntries(r, t.id, count, mask, skip, acc).1; out.Some? ==> AllHold(t, out.value)
    decreases count - |acc|
  {
    hide Blob, TextValue;
    if |acc| < count {
      var (r1, b) := Blob(r);
      if skip || !IsValid(mask, |acc|) {
        TextEntriesHold(r1, t, count, mask, skip, acc + [VNull]);
      } else if TextValue(t.id, b).Some? {
        TextHolds(t, b);
        TextEntriesHold(r1, t, count, mask, skip, acc + [TextValue(t.id, b).value]);
      }
    }
  }

  lemma {:induction false} FixedRowsHold(t: LogicalType, data: Bytes, mask: Option<Bytes>, count: nat, acc: seq<Value>)
    requires KindOf(t.id) != KNone && |data| >= count * PhysicalWidth(t)
    requires Covers(mask, count) && |acc| <= count && AllHold(t, acc)
    requires !IsText(t.id) && !IsStructLike(t.id) && !IsList(t.id) && t.id != ARRAY
    ensures var out := FixedRows(t, data, mask, count, acc); out.Some? ==> AllHold(t, out.value)
    decreases count - |acc|
  {
    hide DecodeCell, PhysicalWidth, KindOf, CellHolds;
    if |acc| < count {
      var w := PhysicalWidth(t);
      MulMono(|acc| + 1, count, w);
      DecodedCellHolds(t, CellAt(data, w, |acc|));
      if !IsValid(mask, |acc|) {
        FixedRowsHold(t, data, mask, count, acc + [VNull]);
      } else if DecodeCell(t, CellAt(data, w, |acc|)).Some? {
        FixedRowsHold(t, data, mask, count, acc + [DecodeCell(t, CellAt(data, w, |acc|)).value]);
      }
    }
  }

  lemma ListRowHolds(t: LogicalType, w: Window, child: seq<Value>)
    requires IsList(t.id) && t.child.Some? && WindowFits(w, |child|) && AllHold(t.child.value, child)
    ensures Holds(t, ListRow(t.id, w, child))
  {
    var row := child[w.off..w.off + w.len];
    if t.id == MAP {
      forall i | 0 <= i < |row|
        ensures PairHolds(t.child.value, PairsOf(row)[i])
      {
        assert row[i] == child[w.off + i];
        PairOfHolds(t.child.value, row[i]);
      }
    }
  }

  lemma PairOfHolds(c: LogicalType, v: Value)
    requires Holds(c, v)
    ensures PairHolds(c, PairOf(v))
  {
  }

  lemma {:induction false} ListRowsHold(t: LogicalType, ws: seq<Window>, child: seq<Value>, mask: Option<Bytes>, acc: seq<Value>)
    requires IsList(t.id) && t.child.Some? && AllHold(t.child.value, child)
    requires Covers(mask, |ws|) && |acc| <= |ws| && AllHold(t, acc)
    ensures var out := ListRows(t.id, ws, child, mask, acc); out.Some? ==> AllHold(t, out.value)
    decreases |ws| - |acc|
  {
    hide ListRow;
    if |acc| < |ws| {
      if !IsValid(mask, |acc|) {
        ListRowsHold(t, ws, child, mask, acc + [VNull]);
      } else if WindowFits(ws[|acc|], |child|) {
        ListRowHolds(t, ws[|acc|], child);
        ListRowsHold(t, ws, child, mask, acc + [ListRow(t.id, ws[|acc|], child)]);
      }
    }
  }

  lemma StructRowsHold(t: LogicalType, cols: seq<seq<Value>>, mask: Option<Bytes>, count: nat)
    requires t.id == STRUCT && |cols| == |t.fields| && (forall col <- cols :: |col| == count) && Covers(mask, count)
    requires forall j :: 0 <= j < |cols| ==> AllHold(t.fields[j].typ, cols[j])
    ensures AllHold(t, StructRows(t.fields, cols, mask, count))
  {
    if count > 0 {
      forall j | 0 <= j < |t.fields| ensures Valued(t.fields[j].typ) {
        assert AllHold(t.fields[j].typ, cols[j]) && Holds(t.fields[j].typ, cols[j][0]);
      }
    }
    forall row | 0 <= row < count && IsValid(mask, row)
      ensures Holds(t, StructRow(t.fields, cols, row))
    {
      forall j | 0 <= j < |t.fields|
        ensures Holds(t.fields[j].typ, cols[j][row])
      {
        assert AllHold(t.fields[j].typ, cols[j]);
      }
    }
  }

  lemma ArrayRowsHold(t: LogicalType, size: nat, child: seq<Value>, mask: Option<Bytes>, count: nat)
    requires t.id == ARRAY && t.child.Some? && Covers(mask, count) && |child| == size * count && AllHold(t.child.value, child)
    ensures AllHold(t, ArrayRows(size, child, mask, count))
  {
    forall i | 0 <= i < count
      ensures Holds(t, VList(Group(child, size, count, i)))
    {
      GroupFits(size, count, i);
    }
  }

  // ---- vectors ----------------------------------------------------------------------------

  /** Whatever the bytes, the values decodeVector returns are values of the
      type it was asked for. */
  lemma {:induction false} VectorHolds(r: Rd, t: LogicalType, count: nat, depth: nat)
    ensures ResultHolds(t, DecodeVector(r, t, count, depth).1)
    decreases Fuel(depth), 4
  {
    hide TryField, Uvarint, DecodeFlat, DecodeConstant, DecodeDictionary, DecodeSequence, Holds;
    if depth <= MAX_TYPE_DEPTH && count <= MAX_VECTOR_ROWS {
      var (r1, tagged) := TryField(r, 90);
      var (r2, vtype) := if tagged then Uvarint(r1) else (r1, VEC_FLAT);
      if vtype == VEC_FLAT {
        FlatHolds(r2, t, count, depth);
      } else if vtype == VEC_CONSTANT {
        ConstantHolds(r2, t, count, depth);
      } else if vtype == VEC_DICTIONARY {
        DictionaryHolds(r2, t, count, depth);
      } else if vtype == VEC_SEQUENCE {
        SequenceHolds(r2, t, count);
      }
    }
  }

  lemma {:induction false} ConstantHolds(r: Rd, t: LogicalType, count: nat, depth: nat)
    requires depth <= MAX_TYPE_DEPTH
    ensures ResultHolds(t, DecodeConstant(r, t, count, depth).1)
    decreases Fuel(depth), 0
  {
    hide DecodeVector, Holds;
    VectorHolds(r, t, 1, depth + 1);
  }

  lemma {:induction false} SelectHolds(t: LogicalType, sel: Bytes, dict: seq<Value>, count: nat, i: nat, acc: seq<Value>)
    requires |sel| == 4 * count && i <= count && |acc| == i && AllHold(t, dict) && AllHold(t, acc)
    ensures var out := Select(sel, dict, count, i, acc); out.Some? ==> AllHold(t, out.value)
    decreases count - i
  {
    hide SelAt, Holds;
    if i < count && SelAt(sel, i) < |dict| {
      SelectHolds(t, sel, dict, count, i + 1, acc + [dict[SelAt(sel, i)]]);
    }
  }

  lemma {:induction false} DictionaryHolds(r: Rd, t: LogicalType, count: nat, depth: nat)
    requires depth <= MAX_TYPE_DEPTH
    ensures ResultHolds(t, DecodeDictionary(r, t, count, depth).1)
    decreases Fuel(depth), 0
  {
    hide TryField, Uvarint, Blob, DecodeVector, Select, Holds;
    var (r1, _) := TryField(r, 91);
    var (r2, sel) := Blob(r1);
    var (r3, _) := TryField(r2, 92);
    var (r4, size) := Uvarint(r3);
    VectorHolds(r4, t, size, depth + 1);
    var (r5, dict) := DecodeVector(r4, t, size, depth + 1);
    if dict.Vals? && |sel| == count * 4 {
      SelectHolds(t, sel, dict.vals, count, 0, []);
    }
  }

  lemma SequenceHolds(r: Rd, t: LogicalType, count: nat)
    ensures ResultHolds(t, DecodeSequence(r, t, count).1)
  {
    var v := DecodeSequence(r, t, count).1;
    if v.Vals? && count > 0 {
      var start, inc := Svarint(TryField(r, 91).0).1, Svarint(TryField(Svarint(TryField(r, 91).0).0, 92).0).1;
      forall i | 0 <= i < count
        ensures Holds(t, SequenceVals(t.id, start, inc, count)[i])
      {
        SequenceValueHolds(t, SequenceTerm(start, inc, i));
      }
    }
  }

  lemma SequenceValueHolds(t: LogicalType, x: int)
    requires IsInteger(t.id)
    ensures SequenceValue(t.id, x).Some? && Holds(t, SequenceValue(t.id, x).value)
  {
    WordSizes();
    var m := Pow256(KindOf(t.id).bits / 8);
    assert m in {P8, P16, P32, P64};
    SignedRange(Wrap(x, m), m);
  }

  lemma {:induction false} FlatHolds(r: Rd, t: LogicalType, count: nat, depth: nat)
    requires depth <= MAX_TYPE_DEPTH && count <= MAX_VECTOR_ROWS
    ensures ResultHolds(t, DecodeFlat(r, t, count, depth).1)
    decreases Fuel(depth), 3
  {
    hide DecodeFlatHead, DecodeTexts, DecodeStruct, DecodeList, DecodeArray, DecodeFixed, Holds;
    var (r1, head) := DecodeFlatHead(r, count);
    if head.Some? {
      var h := head.value;
      if IsText(t.id) {
        TextsHold(r1, t, count, h);
      } else if IsStructLike(t.id) {
        StructHolds(r1, t, count, depth, h);
      } else if IsList(t.id) {
        ListHolds(r1, t, count, depth, h);
      } else if t.id == ARRAY {
        ArrayHolds(r1, t, count, depth, h);
      } else {
        FixedHolds(r1, t, count, h);
      }
    }
  }

  lemma TextsHold(r: Rd, t: LogicalType, count: nat, h: FlatHead)
    requires Covers(h.mask, count) && IsText(t.id)
    ensures ResultHolds(t, DecodeTexts(r, t, count, h).1)
  {
    hide TryField, ListCount, DecodeTextEntries, Holds;
    var (r2, n) := ListCount(TryField(r, 102).0);
    if t.id != GEOMETRY {
      TextEntriesHold(r2, t, count, h.mask, h.geo, []);
    }
  }

  lemma FixedHolds(r: Rd, t: LogicalType, count: nat, h: FlatHead)
    requires Covers(h.mask, count) && !IsText(t.id) && !IsStructLike(t.id) && !IsList(t.id) && t.id != ARRAY
    ensures ResultHolds(t, DecodeFixed(r, t, count, h).1)
  {
    hide TryField, Blob, KindOf, PhysicalWidth, FixedRows, Holds;
    var (r2, data) := Blob(TryField(r, 102).0);
    if KindOf(t.id) != KNone && |data| >= count * PhysicalWidth(t) {
      FixedRowsHold(t, data, h.mask, count, []);
    }
  }

  ghost predicate ColsHold(fields: seq<StructField>, c: Children)
  {
    |c.cols| <= |fields| && (c.bad || forall j :: 0 <= j < |c.cols| ==> AllHold(fields[j].typ, c.cols[j]))
  }

  lemma {:induction false} ChildrenHold(r: Rd, fields: seq<StructField>, count: nat, depth: nat, acc: Children)
    requires depth <= MAX_TYPE_DEPTH && ChildrenOf(acc, |acc.cols|, count) && |acc.cols| <= |fields| && ColsHold(fields, acc)
    ensures var out := DecodeChildren(r, fields, count, depth, acc).1; out.Some? ==> ColsHold(fields, out.value)
    decreases Fuel(depth), 0, |fields| - |acc.cols|
  {
    hide EndObject, DecodeVector, Holds;
    if |acc.cols| < |fields| {
      var (r1, v) := DecodeVector(r, fields[|acc.cols|].typ, count, depth + 1);
      VectorHolds(r, fields[|acc.cols|].typ, count, depth + 1);
      if !v.Bad? {
        ChildrenHold(EndObject(r1), fields, count, depth,
          if v.Vals? then acc.(cols := acc.cols + [v.vals]) else Children(acc.cols + [[]], true));
      }
    }
  }

  lemma {:induction false} StructHolds(r: Rd, t: LogicalType, count: nat, depth: nat, h: FlatHead)
    requires depth <= MAX_TYPE_DEPTH && Covers(h.mask, count) && IsStructLike(t.id)
    ensures ResultHolds(t, DecodeStruct(r, t, count, depth, h).1)
    decreases Fuel(depth), 1
  {
    hide TryField, ListCount, DecodeChildren, StructRows, Holds;
    var (r2, n) := ListCount(TryField(r, 103).0);
    ChildrenHold(r2, t.fields, count, depth, Children([], h.geo));
    var kids := DecodeChildren(r2, t.fields, count, depth, Children([], h.geo)).1;
    if kids.Some? && !kids.value.bad && t.id == STRUCT {
      StructRowsHold(t, kids.value.cols, h.mask, count);
    }
  }

  lemma {:induction false} ListHolds(r: Rd, t: LogicalType, count: nat, depth: nat, h: FlatHead)
    requires depth <= MAX_TYPE_DEPTH && Covers(h.mask, count) && IsList(t.id)
    ensures ResultHolds(t, DecodeList(r, t, count, depth, h).1)
    decreases Fuel(depth), 1
  {
    hide TryField, Uvarint, ListCount, EndObject, DecodeWindows, DecodeVector, ListRows, Holds;
    var (r2, size) := Uvarint(TryField(r, 104).0);
    var (r4, n) := ListCount(TryField(r2, 105).0);
    var (r5, ws) := DecodeWindows(r4, count, []);
    var (r6, _) := TryField(r5, 106);
    if t.child.Some? {
      VectorHolds(r6, t.child.value, size, depth + 1);
      var child := DecodeVector(r6, t.child.value, size, depth + 1).1;
      if child.Vals? {
        ListRowsHold(t, ws, child.vals, h.mask, []);
      }
    }
  }

  lemma {:induction false} ArrayHolds(r: Rd, t: LogicalType, count: nat, depth: nat, h: FlatHead)
    requires depth <= MAX_TYPE_DEPTH && Covers(h.mask, count) && t.id == ARRAY
    ensures ResultHolds(t, DecodeArray(r, t, count, depth, h).1)
    decreases Fuel(depth), 1
  {
    hide TryField, Uvarint, EndObject, DecodeVector, ArrayRows, Holds;
    var (r2, size) := Uvarint(TryField(r, 103).0);
    var (r3, _) := TryField(r2, 104);
    if t.child.Some? {
      VectorHolds(r3, t.child.value, size * count, depth + 1);
      var child := DecodeVector(r3, t.child.value, size * count, depth + 1).1;
      if child.Vals? {
        ArrayRowsHold(t, size, child.vals, h.mask, count);
      }
    }
  }

  // ---- chunks -----------------------------------------------------------------------------

  /** One value per row, each of the column's type; or the column error. */
  ghost predicate ColumnHolds(col: Column, rows: nat)
  {
    !col.content.Bad? && (col.content.Vals? ==> |col.content.vals| == rows && AllHold(col.typ, col.content.vals))
  }

  lemma {:induction false} ColumnsHold(r: Rd, types: seq<LogicalType>, rows: nat, acc: seq<Column>)
    requires |acc| <= |types| && forall i :: 0 <= i < |acc| ==> ColumnHolds(acc[i], rows) && acc[i].typ == types[i]
    ensures var cols := DecodeColumns(r, types, rows, acc).1;
            cols.Success? ==> forall i :: 0 <= i < |types| ==> ColumnHolds(cols.value[i], rows) && cols.value[i].typ == types[i]
    decreases |types| - |acc|
  {
    hide DecodeVector, EndObject, Holds;
    if |acc| < |types| {
      var t := types[|acc|];
      var (r1, v) := DecodeVector(r, t, rows, 0);
      VectorHolds(r, t, rows, 0);
      var r2 := EndObject(r1);
      if !v.Bad? && r2.Ok? {
        ColumnsHold(r2, types, rows, acc + [Column(t, v)]);
      }
    }
  }

  /** Whatever the bytes, a chunk that decodes is a table: within the row
      limit, and every column has either exactly one value of its type for
      each row or its own error. */
  lemma ChunkHolds(buf: Bytes)
    ensures var chunk := DecodeChunk(buf);
            chunk.Success? ==>
              && chunk.value.rows <= MAX_CHUNK_ROWS
              && forall col <- chunk.value.cols :: ColumnHolds(col, chunk.value.rows)
  {
    hide TryField, Uvarint, ListCount, EndObject, DecodeTypes, DecodeColumns, ColumnHolds;
    var (r1, _) := TryField(Ok(buf), 100);
    var (r2, rows) := Uvarint(r1);
    var (r3, _) := TryField(r2, 101);
    var (r4, ntypes) := ListCount(r3);
    var (r5, types) := DecodeTypes(r4, ntypes, []);
    var (r6, _) := TryField(r5, 102);
    var (r7, ncols) := ListCount(r6);
    if types.Success? && ncols == |types.value| {
      ColumnsHold(r7, types.value, rows, []);
    }
  }
}
