/** decodeVector and everything below it, as functions of the unread input.
    Each function takes the branches of the original in the original's order;
    the methods in Decoder.dfy are proved to compute the same. */
module Vectors {
  import opened Basics
  import opened Framing
  import opened LogicalTypes
  import opened Values

  const VEC_FLAT := 0
  const VEC_CONSTANT := 2
  const VEC_DICTIONARY := 3
  const VEC_SEQUENCE := 4

  const MAX_CHUNK_ROWS := 0x1_0000
  const MAX_VECTOR_ROWS := 0x100_0000

  /** What a vector decodes to: its values, a column error (ErrUnsupportedType,
      the bytes being consumed), or a failure of the whole payload. */
  datatype VectorResult =
    | Vals(vals: seq<Value>)
    | Unsupported(typ: LogicalType)
    | Bad(error: DecodeError)

  /** `return vals, r.Err()` */
  function CheckedVals(r: Rd, vals: seq<Value>): VectorResult
  {
    if r.Ok? then Vals(vals) else Bad(ReadFailed(r.error))
  }

  /** unsupportedButParsed */
  function UnsupportedButParsed(r: Rd, t: LogicalType): (v: VectorResult)
    ensures v.Unsupported? ==> r.Ok?
  {
    if r.Ok? then Unsupported(t) else Bad(ReadFailed(r.error))
  }

  // ---- validity ---------------------------------------------------------------

  function Bit(b: nat, i: nat): bool
    requires i < 8
  {
    b / [1, 2, 4, 8, 16, 32, 64, 128][i] % 2 == 1
  }

  /** valid: a vector without a mask has no NULLs. */
  predicate IsValid(mask: Option<Bytes>, row: nat)
    requires mask.Some? ==> row / 8 < |mask.value|
  {
    mask.None? || Bit(mask.value[row / 8], row % 8)
  }

  /** The mask covers `count` rows. */
  predicate Covers(mask: Option<Bytes>, count: nat)
  {
    mask.Some? ==> |mask.value| >= (count + 7) / 8
  }

  // ---- BIT strings ---------------------------------------------------------------

  function BitChar(b: nat, i: nat): Byte
    requires i < 8
  {
    if Bit(b, 7 - i) then 49 else 48
  }

  /** The bits of one byte from position `from` on, most significant first. */
  function ByteBits(b: nat, from: nat): (s: Bytes)
    requires from <= 8
    ensures |s| == 8 - from
  {
    seq<Byte>(8 - from, i requires 0 <= i < 8 - from => BitChar(b, from + i))
  }

  function AllBits(s: Bytes): (r: Bytes)
    ensures |r| == 8 * |s|
  {
    if s == [] then [] else ByteBits(s[0], 0) + AllBits(s[1..])
  }

  /** bitString; None is the malformed-BIT error. */
  function BitString(b: Bytes): Option<Bytes>
  {
    if |b| == 0 then None
    else if b[0] > 7 || (|b| == 1 && b[0] != 0) then None
    else if |b| == 1 then Some([])
    else Some(ByteBits(b[1], b[0]) + AllBits(b[2..]))
  }

  // ---- decodeVector ----------------------------------------------------------------

  function DecodeVector(r: Rd, t: LogicalType, count: nat, depth: nat): (res: (Rd, VectorResult))
    ensures res.1.Vals? ==> |res.1.vals| == count
    ensures res.1.Unsupported? ==> res.0.Ok?
    ensures r.Failed? ==> res.0 == r
    decreases Fuel(depth), 4
  {
    if depth > MAX_TYPE_DEPTH then (r, Bad(Malformed))
    else if count > MAX_VECTOR_ROWS then (r, Bad(Malformed))
    else
      var (r1, tagged) := TryField(r, 90);
      var (r2, vtype) := if tagged then Uvarint(r1) else (r1, VEC_FLAT);
      if vtype == VEC_FLAT then DecodeFlat(r2, t, count, depth)
      else if vtype == VEC_CONSTANT then DecodeConstant(r2, t, count, depth)
      else if vtype == VEC_DICTIONARY then DecodeDictionary(r2, t, count, depth)
      else if vtype == VEC_SEQUENCE then DecodeSequence(r2, t, count)
      else (r2, Bad(Malformed))
  }

  function Repeat(v: Value, n: nat): (s: seq<Value>)
    ensures |s| == n && forall i :: 0 <= i < n ==> s[i] == v
  {
    seq(n, i => v)
  }

  function DecodeConstant(r: Rd, t: LogicalType, count: nat, depth: nat): (res: (Rd, VectorResult))
    requires depth <= MAX_TYPE_DEPTH
    ensures res.1.Vals? ==> |res.1.vals| == count
    ensures res.1.Unsupported? ==> res.0.Ok?
    ensures r.Failed? ==> res.0 == r
    decreases Fuel(depth), 0
  {
    var (r1, one) := DecodeVector(r, t, 1, depth + 1);
    (r1, if one.Vals? then Vals(Repeat(one.vals[0], count)) else one)
  }

  /** The little-endian uint32 at position `i` of a selection blob. */
  function SelAt(sel: Bytes, i: nat): nat
    requires 4 * i + 4 <= |sel|
  {
    FromLE(sel[4 * i..4 * i + 4])
  }

  /** The rows a selection picks from `i` on; None for an index out of range. */
  function Select(sel: Bytes, dict: seq<Value>, count: nat, i: nat, acc: seq<Value>): (out: Option<seq<Value>>)
    requires |sel| == 4 * count && i <= count && |acc| == i
    ensures out.Some? ==> |out.value| == count
    decreases count - i
  {
    if i == count then Some(acc)
    else if SelAt(sel, i) >= |dict| then None
    else Select(sel, dict, count, i + 1, acc + [dict[SelAt(sel, i)]])
  }

  function DecodeDictionary(r: Rd, t: LogicalType, count: nat, depth: nat): (res: (Rd, VectorResult))
    requires depth <= MAX_TYPE_DEPTH
    ensures res.1.Vals? ==> |res.1.vals| == count
    ensures res.1.Unsupported? ==> res.0.Ok?
    ensures r.Failed? ==> res.0 == r
    decreases Fuel(depth), 0
  {
    var (r1, hasSel) := TryField(r, 91);
    if !hasSel then (r1, Bad(Malformed))
    else
      var (r2, sel) := Blob(r1);
      if |sel| != count * 4 then (r2, Bad(Malformed))
      else
        var (r3, hasSize) := TryField(r2, 92);
        if !hasSize then (r3, Bad(Malformed))
        else
          var (r4, size) := Uvarint(r3);
          if size > MAX_CHUNK_ROWS then (r4, Bad(Malformed))
          else
            var (r5, dict) := DecodeVector(r4, t, size, depth + 1);
            if !dict.Vals? then (r5, dict)
            else
              var out := Select(sel, dict.vals, count, 0, []);
              (r5, if out.Some? then Vals(out.value) else Bad(Malformed))
  }

  /** int64 arithmetic wraps. */
  function SequenceTerm(start: int, inc: int, i: nat): int
  {
    Signed(Wrap(start + i * inc, P64), P64)
  }

  /** sequenceValue: the int64 truncated to the column's integer type. */
  function SequenceValue(id: nat, v: int): Option<Value>
  {
    match KindOf(id)
    case KInt(bits, signed) =>
      var u := Wrap(v, Pow256(bits / 8));
      Some(VInt(bits, signed, if signed then Signed(u, Pow256(bits / 8)) else u))
    case _ => None
  }

  predicate IsInteger(id: nat) { KindOf(id).KInt? }

  function SequenceVals(id: nat, start: int, inc: int, count: nat): (s: seq<Value>)
    requires IsInteger(id)
    ensures |s| == count
  {
    seq(count, i requires 0 <= i < count => SequenceValue(id, SequenceTerm(start, inc, i)).value)
  }

  function DecodeSequence(r: Rd, t: LogicalType, count: nat): (res: (Rd, VectorResult))
    ensures res.1.Vals? ==> |res.1.vals| == count
    ensures !res.1.Unsupported?
    ensures r.Failed? ==> res.0 == r
  {
    var (r1, hasStart) := TryField(r, 91);
    if !hasStart then (r1, Bad(Malformed))
    else
      var (r2, start) := Svarint(r1);
      var (r3, hasInc) := TryField(r2, 92);
      if !hasInc then (r3, Bad(Malformed))
      else
        var (r4, inc) := Svarint(r3);
        if count == 0 then (r4, Vals([]))
        else if !IsInteger(t.id) then (r4, Bad(Malformed))
        else (r4, Vals(SequenceVals(t.id, start, inc, count)))
  }

  // ---- decodeFlatVector -------------------------------------------------------------

  datatype FlatHead = FlatHead(geo: bool, mask: Option<Bytes>)

  /** Geometry tag, validity flag and mask. */
  function DecodeFlatHead(r: Rd, count: nat): (res: (Rd, Option<FlatHead>))
    ensures r.Failed? ==> res.0 == r && res.1.None?
    ensures res.1.Some? ==> Covers(res.1.value.mask, count)
  {
    var (r1, geo) := TryField(r, 99);
    var r2 := if geo then Uvarint(r1).0 else r1;
    var (r3, hasFlag) := TryField(r2, 100);
    if !hasFlag then (r3, None)
    else
      var (r4, hasNulls) := Bool(r3);
      if !hasNulls then (r4, Some(FlatHead(geo, None)))
      else
        var (r5, hasMask) := TryField(r4, 101);
        if !hasMask then (r5, None)
        else
          var (r6, mask) := Blob(r5);
          if |mask| < (count + 7) / 8 then (r6, None)
          else (r6, Some(FlatHead(geo, if r6.Ok? then Some(mask) else None)))
  }

  function DecodeFlat(r: Rd, t: LogicalType, count: nat, depth: nat): (res: (Rd, VectorResult))
    requires depth <= MAX_TYPE_DEPTH && count <= MAX_VECTOR_ROWS
    ensures res.1.Vals? ==> |res.1.vals| == count
    ensures res.1.Unsupported? ==> res.0.Ok?
    ensures r.Failed? ==> res.0 == r
    decreases Fuel(depth), 3
  {
    var (r1, head) := DecodeFlatHead(r, count);
    if head.None? then (r1, Bad(Malformed)) else DecodeFlatBody(r1, t, count, depth, head.value)
  }

  function DecodeFlatBody(r: Rd, t: LogicalType, count: nat, depth: nat, h: FlatHead): (res: (Rd, VectorResult))
    requires depth <= MAX_TYPE_DEPTH && count <= MAX_VECTOR_ROWS && Covers(h.mask, count)
    ensures res.1.Vals? ==> |res.1.vals| == count
    ensures res.1.Unsupported? ==> res.0.Ok?
    ensures r.Failed? ==> res.0 == r
    decreases Fuel(depth), 2
  {
    if IsText(t.id) then DecodeTexts(r, t, count, h)
    else if IsStructLike(t.id) then DecodeStruct(r, t, count, depth, h)
    else if IsList(t.id) then DecodeList(r, t, count, depth, h)
    else if t.id == ARRAY then DecodeArray(r, t, count, depth, h)
    else DecodeFixed(r, t, count, h)
  }

  // Variable-width text.

  predicate IsText(id: nat) { id == VARCHAR || id == BLOB || id == BIT || id == GEOMETRY }

  /** One entry of a text vector; None is the malformed-BIT error. */
  function TextValue(id: nat, b: Bytes): Option<Value>
  {
    if id == VARCHAR then Some(VString(b))
    else if id == BIT then
      var s := BitString(b);
      if s.Some? then Some(VString(s.value)) else None
    else Some(VBytes(b))
  }

  function DecodeTexts(r: Rd, t: LogicalType, count: nat, h: FlatHead): (res: (Rd, VectorResult))
    requires Covers(h.mask, count)
    ensures res.1.Vals? ==> |res.1.vals| == count
    ensures res.1.Unsupported? ==> res.0.Ok?
    ensures r.Failed? ==> res.0 == r
  {
    var skip := h.geo || t.id == GEOMETRY;
    var (r1, hasData) := TryField(r, 102);
    if !hasData then (r1, Bad(Malformed))
    else
      var (r2, n) := ListCount(r1);
      if n != count then (r2, Bad(Malformed))
      else
        var (r3, vals) := DecodeTextEntries(r2, t.id, count, h.mask, skip, []);
        if vals.None? then (r3, Bad(Malformed))
        else if skip then (r3, UnsupportedButParsed(r3, t))
        else (r3, CheckedVals(r3, vals.value))
  }

  function DecodeTextEntries(r: Rd, id: nat, count: nat, mask: Option<Bytes>, skip: bool, acc: seq<Value>)
    : (res: (Rd, Option<seq<Value>>))
    requires Covers(mask, count) && |acc| <= count
    ensures res.1.Some? ==> |res.1.value| == count
    ensures r.Failed? ==> res.0 == r
    decreases count - |acc|
  {
    if |acc| == count then (r, Some(acc))
    else
      var (r1, b) := Blob(r);
      if skip || !IsValid(mask, |acc|) then DecodeTextEntries(r1, id, count, mask, skip, acc + [VNull])
      else
        var v := TextValue(id, b);
        if v.None? then (r1, None) else DecodeTextEntries(r1, id, count, mask, skip, acc + [v.value])
  }

  // STRUCT, UNION and VARIANT: one child vector per field.

  /** The children read so far; `bad` is set once one of them is unsupported. */
  datatype Children = Children(cols: seq<seq<Value>>, bad: bool)

  predicate ChildrenOf(c: Children, n: nat, count: nat)
  {
    |c.cols| == n && (c.bad || forall col <- c.cols :: |col| == count)
  }

  function DecodeChildren(r: Rd, fields: seq<StructField>, count: nat, depth: nat, acc: Children)
    : (res: (Rd, Option<Children>, DecodeError))
    requires depth <= MAX_TYPE_DEPTH && ChildrenOf(acc, |acc.cols|, count) && |acc.cols| <= |fields|
    ensures res.1.Some? ==> ChildrenOf(res.1.value, |fields|, count)
    ensures r.Failed? ==> res.0 == r
    decreases Fuel(depth), 0, |fields| - |acc.cols|
  {
    if |acc.cols| == |fields| then (r, Some(acc), Malformed)
    else
      var (r1, v) := DecodeVector(r, fields[|acc.cols|].typ, count, depth + 1);
      if v.Bad? then (r1, None, v.error)
      else
        var r2 := EndObject(r1);
        DecodeChildren(r2, fields, count, depth,
          if v.Vals? then acc.(cols := acc.cols + [v.vals]) else Children(acc.cols + [[]], true))
  }

  function StructRow(fields: seq<StructField>, cols: seq<seq<Value>>, row: nat): Value
    requires |cols| == |fields| && forall col <- cols :: row < |col|
  {
    VStruct(seq(|fields|, i requires 0 <= i < |fields| => Entry(fields[i].name, cols[i][row])))
  }

  function StructRows(fields: seq<StructField>, cols: seq<seq<Value>>, mask: Option<Bytes>, count: nat): (s: seq<Value>)
    requires |cols| == |fields| && forall col <- cols :: |col| == count
    requires Covers(mask, count)
    ensures |s| == count
  {
    seq(count, row requires 0 <= row < count =>
      if IsValid(mask, row) then StructRow(fields, cols, row) else VNull)
  }

  function DecodeStruct(r: Rd, t: LogicalType, count: nat, depth: nat, h: FlatHead): (res: (Rd, VectorResult))
    requires depth <= MAX_TYPE_DEPTH && Covers(h.mask, count)
    ensures res.1.Vals? ==> |res.1.vals| == count
    ensures res.1.Unsupported? ==> res.0.Ok?
    ensures r.Failed? ==> res.0 == r
    decreases Fuel(depth), 1
  {
    var (r1, has) := TryField(r, 103);
    if !has then (r1, Bad(Malformed))
    else
      var (r2, n) := ListCount(r1);
      if n != |t.fields| then (r2, Bad(Malformed))
      else
        var (r3, kids, err) := DecodeChildren(r2, t.fields, count, depth, Children([], h.geo));
        if kids.None? then (r3, Bad(err))
        else if kids.value.bad || t.id != STRUCT then (r3, UnsupportedButParsed(r3, t))
        else (r3, CheckedVals(r3, StructRows(t.fields, kids.value.cols, h.mask, count)))
  }

  // LIST and MAP: windows into one child vector.

  datatype Window = Window(off: nat, len: nat)

  /** The entry loop; absent fields are zero. */
  function DecodeWindows(r: Rd, n: nat, acc: seq<Window>): (res: (Rd, seq<Window>))
    requires |acc| <= n
    ensures |res.1| == n
    ensures r.Failed? ==> res.0 == r
    decreases n - |acc|
  {
    if |acc| == n then (r, acc)
    else
      var (r1, hasOff) := TryField(r, 100);
      var (r2, off) := if hasOff then Uvarint(r1) else (r1, 0);
      var (r3, hasLen) := TryField(r2, 101);
      var (r4, len) := if hasLen then Uvarint(r3) else (r3, 0);
      DecodeWindows(EndObject(r4), n, acc + [Window(off, len)])
  }

  predicate WindowFits(w: Window, size: nat)
  {
    w.len <= size && w.off <= size - w.len
  }

  /** A MAP row's entries; anything but a two-field struct is a zero entry. */
  function PairOf(v: Value): Pair
  {
    if v.VStruct? && |v.entries| == 2 then Pair(v.entries[0].value, v.entries[1].value) else Pair(VNull, VNull)
  }

  function PairsOf(vals: seq<Value>): (ps: seq<Pair>)
    ensures |ps| == |vals|
  {
    seq(|vals|, i requires 0 <= i < |vals| => PairOf(vals[i]))
  }

  function ListRow(id: nat, w: Window, child: seq<Value>): Value
    requires WindowFits(w, |child|)
  {
    var row := child[w.off..w.off + w.len];
    if id == MAP then VMap(PairsOf(row)) else VList(row)
  }

  /** The rows of a list vector; None for a window outside the child. */
  function ListRows(id: nat, ws: seq<Window>, child: seq<Value>, mask: Option<Bytes>, acc: seq<Value>): (out: Option<seq<Value>>)
    requires Covers(mask, |ws|) && |acc| <= |ws|
    ensures out.Some? ==> |out.value| == |ws|
    decreases |ws| - |acc|
  {
    if |acc| == |ws| then Some(acc)
    else if !IsValid(mask, |acc|) then ListRows(id, ws, child, mask, acc + [VNull])
    else if !WindowFits(ws[|acc|], |child|) then None
    else ListRows(id, ws, child, mask, acc + [ListRow(id, ws[|acc|], child)])
  }

  function DecodeList(r: Rd, t: LogicalType, count: nat, depth: nat, h: FlatHead): (res: (Rd, VectorResult))
    requires depth <= MAX_TYPE_DEPTH && Covers(h.mask, count)
    ensures res.1.Vals? ==> |res.1.vals| == count
    ensures res.1.Unsupported? ==> res.0.Ok?
    ensures r.Failed? ==> res.0 == r
    decreases Fuel(depth), 1
  {
    var (r1, hasSize) := TryField(r, 104);
    if !hasSize then (r1, Bad(Malformed))
    else
      var (r2, size) := Uvarint(r1);
      if size > MAX_VECTOR_ROWS then (r2, Bad(Malformed))
      else
        var (r3, hasEntries) := TryField(r2, 105);
        if !hasEntries then (r3, Bad(Malformed))
        else
          var (r4, n) := ListCount(r3);
          if n != count then (r4, Bad(Malformed))
          else
            var (r5, ws) := DecodeWindows(r4, count, []);
            var (r6, hasChild) := TryField(r5, 106);
            if !hasChild then (r6, Bad(Malformed))
            else if t.child.None? then (r6, Bad(Malformed))
            else
              var (r7, child) := DecodeVector(r6, t.child.value, size, depth + 1);
              FinishList(r7, t, ws, child, h)
  }

  function FinishList(r: Rd, t: LogicalType, ws: seq<Window>, child: VectorResult, h: FlatHead): (res: (Rd, VectorResult))
    requires Covers(h.mask, |ws|)
    ensures res.1.Vals? ==> |res.1.vals| == |ws|
    ensures res.1.Unsupported? ==> res.0.Ok?
    ensures r.Failed? ==> res.0 == r
  {
    if child.Bad? then (r, child)
    else
      var r1 := EndObject(r);
      if h.geo then (r1, UnsupportedButParsed(r1, t))
      else if child.Unsupported? then (r1, UnsupportedButParsed(r1, child.typ))
      else
        var rows := ListRows(t.id, ws, child.vals, h.mask, []);
        (r1, if rows.None? then Bad(Malformed) else CheckedVals(r1, rows.value))
  }

  // ARRAY: consecutive groups of the child vector.

  function ArrayRows(size: nat, child: seq<Value>, mask: Option<Bytes>, count: nat): (s: seq<Value>)
    requires Covers(mask, count) && |child| == size * count
    ensures |s| == count
  {
    seq(count, i requires 0 <= i < count =>
      if IsValid(mask, i) then VList(Group(child, size, count, i)) else VNull)
  }

  function Group(child: seq<Value>, size: nat, count: nat, i: nat): (s: seq<Value>)
    requires |child| == size * count && i < count
    ensures |s| == size
  {
    GroupFits(size, count, i);
    child[i * size..i * size + size]
  }

  lemma GroupFits(size: nat, count: nat, i: nat)
    requires i < count
    ensures 0 <= i * size <= i * size + size <= size * count
  {
    assert (count - i - 1) * size >= 0;
    assert size * count == i * size + size + (count - i - 1) * size;
  }

  function DecodeArray(r: Rd, t: LogicalType, count: nat, depth: nat, h: FlatHead): (res: (Rd, VectorResult))
    requires depth <= MAX_TYPE_DEPTH && Covers(h.mask, count)
    ensures res.1.Vals? ==> |res.1.vals| == count
    ensures res.1.Unsupported? ==> res.0.Ok?
    ensures r.Failed? ==> res.0 == r
    decreases Fuel(depth), 1
  {
    var (r1, hasSize) := TryField(r, 103);
    if !hasSize then (r1, Bad(Malformed))
    else
      var (r2, size) := Uvarint(r1);
      if size > MAX_VECTOR_ROWS || size * count > MAX_VECTOR_ROWS then (r2, Bad(Malformed))
      else
        var (r3, hasChild) := TryField(r2, 104);
        if !hasChild then (r3, Bad(Malformed))
        else if t.child.None? then (r3, Bad(Malformed))
        else
          var (r4, child) := DecodeVector(r3, t.child.value, size * count, depth + 1);
          FinishArray(r4, t, size, count, child, h)
  }

  function FinishArray(r: Rd, t: LogicalType, size: nat, count: nat, child: VectorResult, h: FlatHead): (res: (Rd, VectorResult))
    requires Covers(h.mask, count) && (child.Vals? ==> |child.vals| == size * count)
    ensures res.1.Vals? ==> |res.1.vals| == count
    ensures res.1.Unsupported? ==> res.0.Ok?
    ensures r.Failed? ==> res.0 == r
  {
    if child.Bad? then (r, child)
    else
      var r1 := EndObject(r);
      if h.geo then (r1, UnsupportedButParsed(r1, t))
      else if child.Unsupported? then (r1, UnsupportedButParsed(r1, child.typ))
      else (r1, CheckedVals(r1, ArrayRows(size, child.vals, h.mask, count)))
  }

  // Constant-size storage.

  function CellAt(data: Bytes, w: nat, i: nat): (c: Bytes)
    requires (i + 1) * w <= |data|
    ensures |c| == w
  {
    assert (i + 1) * w == i * w + w;
    data[i * w..i * w + w]
  }

  function FixedRows(t: LogicalType, data: Bytes, mask: Option<Bytes>, count: nat, acc: seq<Value>): (out: Option<seq<Value>>)
    requires KindOf(t.id) != KNone && |data| >= count * PhysicalWidth(t)
    requires Covers(mask, count) && |acc| <= count
    ensures out.Some? ==> |out.value| == count
    decreases count - |acc|
  {
    if |acc| == count then Some(acc)
    else if !IsValid(mask, |acc|) then FixedRows(t, data, mask, count, acc + [VNull])
    else
      var w := PhysicalWidth(t);
      assert (|acc| + 1) * w <= count * w by { MulMono(|acc| + 1, count, w); }
      var v := DecodeCell(t, CellAt(data, w, |acc|));
      if v.None? then None else FixedRows(t, data, mask, count, acc + [v.value])
  }

  lemma MulMono(a: nat, b: nat, w: nat)
    requires a <= b
    ensures a * w <= b * w
  {
  }

  function DecodeFixed(r: Rd, t: LogicalType, count: nat, h: FlatHead): (res: (Rd, VectorResult))
    requires Covers(h.mask, count)
    ensures res.1.Vals? ==> |res.1.vals| == count
    ensures res.1.Unsupported? ==> res.0.Ok?
    ensures r.Failed? ==> res.0 == r
  {
    var (r1, hasData) := TryField(r, 102);
    if KindOf(t.id) == KNone then
      var r2 := if hasData then Blob(r1).0 else r1;
      (r2, UnsupportedButParsed(r2, t))
    else if !hasData then (r1, Bad(Malformed))
    else
      var (r2, data) := Blob(r1);
      if |data| < count * PhysicalWidth(t) then (r2, Bad(Malformed))
      else if h.geo then (r2, UnsupportedButParsed(r2, t))
      else
        var rows := FixedRows(t, data, h.mask, count, []);
        (r2, if rows.None? then Bad(Malformed) else CheckedVals(r2, rows.value))
  }
}
