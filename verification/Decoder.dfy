/** The decoder as it runs: one shared reader, loops, early returns. Every
    method computes exactly its function in Vectors, LogicalTypes or Chunks. */
module Decoder {
  import opened Basics
  import opened Qser
  import opened LogicalTypes
  import opened Values
  import opened Vectors
  import opened Chunks
  import F = Framing

  /** Go's int: a value of this type has not overflowed. */
  type GoInt = x: int | -(P64 / 2) <= x < P64 / 2

  // ---- types -------------------------------------------------------------------------

  method ReadStrings(r: Reader, n: nat) returns (out: seq<Bytes>)
    requires r.Valid()
    modifies r
    ensures r.Valid() && r.off >= old(r.off)
    ensures (r.State(), out) == DecodeStrings(old(r.State()), n, [])
  {
    out := [];
    var i := 0;
    while i < n
      invariant i <= n && r.Valid() && r.off >= old(r.off)
      invariant DecodeStrings(r.State(), n - i, out) == DecodeStrings(old(r.State()), n, [])
    {
      var s := r.Blob();
      out := out + [s];
      i := i + 1;
    }
  }

  method ReadType(r: Reader, depth: nat) returns (res: Result<LogicalType>)
    requires r.Valid()
    modifies r
    ensures r.Valid() && r.off >= old(r.off)
    ensures (r.State(), res) == DecodeType(old(r.State()), depth)
    decreases Fuel(depth), 3
  {
    hide F.TryField, F.Uvarint, F.Bool, F.EndObject, DecodeTypeInfo;
    if depth > MAX_TYPE_DEPTH {
      return Failure(Malformed);
    }
    var ok := r.TryField(100);
    if !ok {
      return Failure(Malformed);
    }
    var id := r.Uvarint();
    var t := Plain(id % P32);
    var hasInfo := r.TryField(101);
    if hasInfo {
      var present := r.Bool();
      if present {
        var info := ReadTypeInfo(r, t, depth);
        if info.Failure? {
          return info;
        }
        t := info.value;
      }
    }
    r.End();
    res := Checked(r.State(), t);
  }

  method ReadTypeInfo(r: Reader, t: LogicalType, depth: nat) returns (res: Result<LogicalType>)
    requires r.Valid() && depth <= MAX_TYPE_DEPTH
    modifies r
    ensures r.Valid() && r.off >= old(r.off)
    ensures (r.State(), res) == DecodeTypeInfo(old(r.State()), t, depth)
    decreases Fuel(depth), 2
  {
    hide F.TryField, F.Uvarint, F.Bool, F.Blob, DecodeInfoFields;
    var ok := r.TryField(100);
    if !ok {
      return Failure(Malformed);
    }
    var kind := r.Uvarint();
    var hasAlias := r.TryField(101);
    if hasAlias {
      var _ := r.Blob();
    }
    var hasExtension := r.TryField(103);
    if hasExtension {
      var extension := r.Bool();
      if extension {
        return Failure(Malformed);
      }
    }
    res := ReadInfoFields(r, t, kind, depth);
  }

  method ReadInfoFields(r: Reader, t0: LogicalType, kind: nat, depth: nat) returns (res: Result<LogicalType>)
    requires r.Valid() && depth <= MAX_TYPE_DEPTH
    modifies r
    ensures r.Valid() && r.off >= old(r.off)
    ensures (r.State(), res) == DecodeInfoFields(old(r.State()), t0, kind, depth)
    decreases Fuel(depth), 1
  {
    hide F.TryField, F.Uvarint, F.Blob, F.ListCount, F.EndObject, DecodeType, DecodeFields, DecodeStrings;
    var t := t0;
    if kind == INFO_GENERIC {
    } else if kind == INFO_DECIMAL {
      var hasWidth := r.TryField(200);
      if hasWidth {
        var width := r.Uvarint();
        t := t.(width := width % P8);
      }
      var hasScale := r.TryField(201);
      if hasScale {
        var scale := r.Uvarint();
        t := t.(scale := scale % P8);
      }
    } else if kind == INFO_STRING {
      var hasCollation := r.TryField(200);
      if hasCollation {
        var _ := r.Blob();
      }
    } else if kind == INFO_LIST {
      var hasChild := r.TryField(200);
      if !hasChild {
        return Failure(Malformed);
      }
      var child := ReadType(r, depth + 1);
      if child.Failure? {
        return child;
      }
      t := t.(child := Some(child.value));
    } else if kind == INFO_STRUCT {
      var hasFields := r.TryField(200);
      if hasFields {
        var n := r.ListCount();
        var fields := ReadFields(r, n, depth);
        if fields.Failure? {
          return Failure(fields.error);
        }
        t := t.(fields := fields.value);
      }
    } else if kind == INFO_ENUM {
      var hasSize := r.TryField(200);
      if !hasSize {
        return Failure(Malformed);
      }
      var size := r.Uvarint();
      var hasLabels := r.TryField(201);
      if hasLabels {
        var n := r.ListCount();
        var labels := ReadStrings(r, n);
        t := t.(labels := labels);
      }
      if |t.labels| != size {
        return Failure(Malformed);
      }
    } else if kind == INFO_ARRAY {
      var hasChild := r.TryField(200);
      if !hasChild {
        return Failure(Malformed);
      }
      var child := ReadType(r, depth + 1);
      if child.Failure? {
        return child;
      }
      t := t.(child := Some(child.value));
      var hasSize := r.TryField(201);
      if hasSize {
        var size := r.Uvarint();
        t := t.(arraySize := size % P32);
      }
    } else {
      return Failure(Malformed);
    }
    r.End();
    res := Checked(r.State(), t);
  }

  method ReadFields(r: Reader, n: nat, depth: nat) returns (res: Result<seq<StructField>>)
    requires r.Valid() && depth <= MAX_TYPE_DEPTH
    modifies r
    ensures r.Valid() && r.off >= old(r.off)
    ensures (r.State(), res) == DecodeFields(old(r.State()), n, depth, [])
    decreases Fuel(depth), 0
  {
    hide F.TryField, F.Blob, F.EndObject, DecodeType;
    var fields := [];
    var i := 0;
    while i < n
      invariant i <= n && r.Valid() && r.off >= old(r.off)
      invariant DecodeFields(r.State(), n - i, depth, fields) == DecodeFields(old(r.State()), n, depth, [])
    {
      var name := [];
      var hasName := r.TryField(0);
      if hasName {
        name := r.Blob();
      }
      var hasType := r.TryField(1);
      if !hasType {
        return Failure(Malformed);
      }
      var t := ReadType(r, depth + 1);
      if t.Failure? {
        return Failure(t.error);
      }
      r.End();
      fields := fields + [StructField(name, t.value)];
      i := i + 1;
    }
    res := Success(fields);
  }

  // ---- vectors ------------------------------------------------------------------------

  method ReadVector(r: Reader, t: LogicalType, count: nat, depth: nat) returns (v: VectorResult)
    requires r.Valid()
    modifies r
    ensures r.Valid() && r.off >= old(r.off)
    ensures (r.State(), v) == DecodeVector(old(r.State()), t, count, depth)
    decreases Fuel(depth), 4
  {
    hide F.TryField, F.Uvarint, DecodeFlat, DecodeConstant, DecodeDictionary, DecodeSequence;
    if depth > MAX_TYPE_DEPTH {
      return Bad(Malformed);
    }
    if count > MAX_VECTOR_ROWS {
      return Bad(Malformed);
    }
    var vtype := VEC_FLAT;
    var tagged := r.TryField(90);
    if tagged {
      vtype := r.Uvarint();
    }
    if vtype == VEC_FLAT {
      v := ReadFlatVector(r, t, count, depth);
    } else if vtype == VEC_CONSTANT {
      v := ReadConstant(r, t, count, depth);
    } else if vtype == VEC_DICTIONARY {
      v := ReadDictionary(r, t, count, depth);
    } else if vtype == VEC_SEQUENCE {
      v := ReadSequence(r, t, count);
    } else {
      v := Bad(Malformed);
    }
  }

  method ReadConstant(r: Reader, t: LogicalType, count: nat, depth: nat) returns (v: VectorResult)
    requires r.Valid() && depth <= MAX_TYPE_DEPTH
    modifies r
    ensures r.Valid() && r.off >= old(r.off)
    ensures (r.State(), v) == DecodeConstant(old(r.State()), t, count, depth)
    decreases Fuel(depth), 0
  {
    hide DecodeVector;
    var one := ReadVector(r, t, 1, depth + 1);
    if !one.Vals? {
      return one;
    }
    var out := [];
    var i := 0;
    while i < count
      invariant i <= count && |out| == i && forall k :: 0 <= k < i ==> out[k] == one.vals[0]
    {
      out := out + [one.vals[0]];
      i := i + 1;
    }
    assert out == Repeat(one.vals[0], count);
    v := Vals(out);
  }

  method ReadDictionary(r: Reader, t: LogicalType, count: nat, depth: nat) returns (v: VectorResult)
    requires r.Valid() && depth <= MAX_TYPE_DEPTH
    modifies r
    ensures r.Valid() && r.off >= old(r.off)
    ensures (r.State(), v) == DecodeDictionary(old(r.State()), t, count, depth)
    decreases Fuel(depth), 0
  {
    hide F.TryField, F.Uvarint, F.Blob, DecodeVector, SelAt;
    var hasSel := r.TryField(91);
    if !hasSel {
      return Bad(Malformed);
    }
    var sel := r.Blob();
    if |sel| != count * 4 {
      return Bad(Malformed);
    }
    var hasSize := r.TryField(92);
    if !hasSize {
      return Bad(Malformed);
    }
    var size := r.Uvarint();
    if size > MAX_CHUNK_ROWS {
      return Bad(Malformed);
    }
    var dict := ReadVector(r, t, size, depth + 1);
    if !dict.Vals? {
      return dict;
    }
    var out := [];
    var i := 0;
    while i < count
      invariant i <= count && |out| == i
      invariant Select(sel, dict.vals, count, i, out) == Select(sel, dict.vals, count, 0, [])
    {
      var idx := SelAt(sel, i);
      if idx >= |dict.vals| {
        return Bad(Malformed);
      }
      out := out + [dict.vals[idx]];
      i := i + 1;
    }
    v := Vals(out);
  }

  method ReadSequence(r: Reader, t: LogicalType, count: nat) returns (v: VectorResult)
    requires r.Valid()
    modifies r
    ensures r.Valid() && r.off >= old(r.off)
    ensures (r.State(), v) == DecodeSequence(old(r.State()), t, count)
  {
    hide F.TryField, F.Svarint, SequenceTerm;
    var hasStart := r.TryField(91);
    if !hasStart {
      return Bad(Malformed);
    }
    var start := r.Svarint();
    var hasInc := r.TryField(92);
    if !hasInc {
      return Bad(Malformed);
    }
    var inc := r.Svarint();
    var out := [];
    var i := 0;
    while i < count
      invariant i <= count && |out| == i && (i > 0 ==> IsInteger(t.id))
      invariant forall k :: 0 <= k < i ==> Some(out[k]) == SequenceValue(t.id, SequenceTerm(start, inc, k))
    {
      var x := SequenceValue(t.id, SequenceTerm(start, inc, i));
      if x.None? {
        return Bad(Malformed);
      }
      out := out + [x.value];
      i := i + 1;
    }
    if count > 0 {
      assert out == SequenceVals(t.id, start, inc, count);
    }
    v := Vals(out);
  }

  method ReadFlatHead(r: Reader, count: nat) returns (head: Option<FlatHead>)
    requires r.Valid()
    modifies r
    ensures r.Valid() && r.off >= old(r.off)
    ensures (r.State(), head) == DecodeFlatHead(old(r.State()), count)
  {
    hide F.TryField, F.Uvarint, F.Bool, F.Blob;
    var geo := r.TryField(99);
    if geo {
      var _ := r.Uvarint();
    }
    var hasFlag := r.TryField(100);
    if !hasFlag {
      return None;
    }
    var hasNulls := r.Bool();
    if !hasNulls {
      return Some(FlatHead(geo, None));
    }
    var hasMask := r.TryField(101);
    if !hasMask {
      return None;
    }
    var mask := r.Blob();
    if |mask| < (count + 7) / 8 {
      return None;
    }
    head := Some(FlatHead(geo, if r.err.None? then Some(mask) else None));
  }

  method ReadFlatVector(r: Reader, t: LogicalType, count: nat, depth: nat) returns (v: VectorResult)
    requires r.Valid() && depth <= MAX_TYPE_DEPTH && count <= MAX_VECTOR_ROWS
    modifies r
    ensures r.Valid() && r.off >= old(r.off)
    ensures (r.State(), v) == DecodeFlat(old(r.State()), t, count, depth)
    decreases Fuel(depth), 3
  {
    hide DecodeFlatHead, DecodeTexts, DecodeStruct, DecodeList, DecodeArray, DecodeFixed;
    var head := ReadFlatHead(r, count);
    if head.None? {
      return Bad(Malformed);
    }
    var h := head.value;
    if IsText(t.id) {
      v := ReadTexts(r, t, count, h);
    } else if IsStructLike(t.id) {
      v := ReadStruct(r, t, count, depth, h);
    } else if IsList(t.id) {
      v := ReadList(r, t, count, depth, h);
    } else if t.id == ARRAY {
      v := ReadArray(r, t, count, depth, h);
    } else {
      v := ReadFixed(r, t, count, h);
    }
  }

  method ReadTexts(r: Reader, t: LogicalType, count: nat, h: FlatHead) returns (v: VectorResult)
    requires r.Valid() && Covers(h.mask, count)
    modifies r
    ensures r.Valid() && r.off >= old(r.off)
    ensures (r.State(), v) == DecodeTexts(old(r.State()), t, count, h)
  {
    hide F.TryField, F.ListCount, F.Blob, BitString;
    var skip := h.geo || t.id == GEOMETRY;
    var hasData := r.TryField(102);
    if !hasData {
      return Bad(Malformed);
    }
    var n := r.ListCount();
    if n != count {
      return Bad(Malformed);
    }
    label start:
    var vals := [];
    while |vals| < count
      invariant |vals| <= count && r.Valid() && r.off >= old(r.off)
      invariant DecodeTextEntries(r.State(), t.id, count, h.mask, skip, vals)
                == DecodeTextEntries(old@start(r.State()), t.id, count, h.mask, skip, [])
    {
      var b := r.Blob();
      if skip || !IsValid(h.mask, |vals|) {
        vals := vals + [VNull];
      } else if t.id == VARCHAR {
        vals := vals + [VString(b)];
      } else if t.id == BIT {
        var s := RenderBits(b);
        if s.None? {
          return Bad(Malformed);
        }
        vals := vals + [VString(s.value)];
      } else {
        vals := vals + [VBytes(b)];
      }
    }
    if skip {
      v := UnsupportedButParsed(r.State(), t);
    } else {
      v := CheckedVals(r.State(), vals);
    }
  }

  /** bitString's loops: bits most significant first, the padding skipped. */
  method RenderBits(b: Bytes) returns (s: Option<Bytes>)
    ensures s == BitString(b)
  {
    if |b| == 0 {
      return None;
    }
    var padding := b[0];
    if padding > 7 || (|b| == 1 && padding != 0) {
      return None;
    }
    if |b| == 1 {
      return Some([]);
    }
    hide BitChar, ByteBits;
    var out: Bytes := [];
    ghost var all := ByteBits(b[1], padding) + AllBits(b[2..]);
    var i := 1;
    while i < |b|
      invariant 1 <= i <= |b|
      invariant i == 1 ==> out == []
      invariant i > 1 ==> out + AllBits(b[i..]) == all
    {
      var bits := RenderByte(b[i], if i == 1 then padding else 0);
      if i > 1 {
        assert b[i..][0] == b[i] && b[i..][1..] == b[i + 1..];
        assert (out + bits) + AllBits(b[i + 1..]) == out + (bits + AllBits(b[i + 1..]));
      } else {
        assert out + bits == bits;
      }
      out := out + bits;
      i := i + 1;
    }
    assert b[|b|..] == [] && AllBits([]) == [] && out + [] == out;
    s := Some(out);
  }

  method RenderByte(b: Byte, from: nat) returns (bits: Bytes)
    requires from <= 8
    ensures bits == ByteBits(b, from)
  {
    hide BitChar;
    bits := [];
    var bit: nat := from;
    while bit < 8
      invariant from <= bit <= 8 && bits == ByteBits(b, from)[..bit - from]
    {
      bits := bits + [BitChar(b, bit)];
      bit := bit + 1;
    }
  }

  method ReadStruct(r: Reader, t: LogicalType, count: nat, depth: nat, h: FlatHead) returns (v: VectorResult)
    requires r.Valid() && depth <= MAX_TYPE_DEPTH && Covers(h.mask, count)
    modifies r
    ensures r.Valid() && r.off >= old(r.off)
    ensures (r.State(), v) == DecodeStruct(old(r.State()), t, count, depth, h)
    decreases Fuel(depth), 1
  {
    hide F.TryField, F.ListCount, F.EndObject, DecodeVector, IsValid, StructRow;
    var has := r.TryField(103);
    if !has {
      return Bad(Malformed);
    }
    var n := r.ListCount();
    if n != |t.fields| {
      return Bad(Malformed);
    }
    label start:
    var kids := Children([], h.geo);
    while |kids.cols| < n
      invariant |kids.cols| <= n && ChildrenOf(kids, |kids.cols|, count) && r.Valid() && r.off >= old(r.off)
      invariant DecodeChildren(r.State(), t.fields, count, depth, kids)
                == DecodeChildren(old@start(r.State()), t.fields, count, depth, Children([], h.geo))
    {
      var child := ReadVector(r, t.fields[|kids.cols|].typ, count, depth + 1);
      if child.Bad? {
        return child;
      }
      kids := if child.Vals? then kids.(cols := kids.cols + [child.vals]) else Children(kids.cols + [[]], true);
      r.End();
    }
    if kids.bad || t.id != STRUCT {
      return UnsupportedButParsed(r.State(), t);
    }
    var vals := [];
    while |vals| < count
      invariant |vals| <= count
      invariant forall k :: 0 <= k < |vals| ==>
                  vals[k] == if IsValid(h.mask, k) then StructRow(t.fields, kids.cols, k) else VNull
    {
      if IsValid(h.mask, |vals|) {
        vals := vals + [StructRow(t.fields, kids.cols, |vals|)];
      } else {
        vals := vals + [VNull];
      }
    }
    assert vals == StructRows(t.fields, kids.cols, h.mask, count);
    v := CheckedVals(r.State(), vals);
  }

  method ReadWindows(r: Reader, n: nat) returns (ws: seq<Window>)
    requires r.Valid()
    modifies r
    ensures r.Valid() && r.off >= old(r.off)
    ensures (r.State(), ws) == DecodeWindows(old(r.State()), n, [])
  {
    hide F.TryField, F.Uvarint, F.EndObject;
    ws := [];
    while |ws| < n
      invariant |ws| <= n && r.Valid() && r.off >= old(r.off)
      invariant DecodeWindows(r.State(), n, ws) == DecodeWindows(old(r.State()), n, [])
    {
      var off, len := 0, 0;
      var hasOff := r.TryField(100);
      if hasOff {
        off := r.Uvarint();
      }
      var hasLen := r.TryField(101);
      if hasLen {
        len := r.Uvarint();
      }
      r.End();
      ws := ws + [Window(off, len)];
    }
  }

  method ReadList(r: Reader, t: LogicalType, count: nat, depth: nat, h: FlatHead) returns (v: VectorResult)
    requires r.Valid() && depth <= MAX_TYPE_DEPTH && Covers(h.mask, count)
    modifies r
    ensures r.Valid() && r.off >= old(r.off)
    ensures (r.State(), v) == DecodeList(old(r.State()), t, count, depth, h)
    decreases Fuel(depth), 1
  {
    hide F.TryField, F.Uvarint, F.ListCount, F.EndObject, DecodeVector, DecodeWindows, ListRows;
    var hasSize := r.TryField(104);
    if !hasSize {
      return Bad(Malformed);
    }
    var size := r.Uvarint();
    if size > MAX_VECTOR_ROWS {
      return Bad(Malformed);
    }
    var hasEntries := r.TryField(105);
    if !hasEntries {
      return Bad(Malformed);
    }
    var n := r.ListCount();
    if n != count {
      return Bad(Malformed);
    }
    var ws := ReadWindows(r, count);
    var hasChild := r.TryField(106);
    if !hasChild {
      return Bad(Malformed);
    }
    if t.child.None? {
      return Bad(Malformed);
    }
    var child := ReadVector(r, t.child.value, size, depth + 1);
    if child.Bad? {
      return child;
    }
    r.End();
    if h.geo {
      return UnsupportedButParsed(r.State(), t);
    }
    if child.Unsupported? {
      return UnsupportedButParsed(r.State(), child.typ);
    }
    var rows := BuildListRows(t.id, ws, child.vals, h.mask);
    v := if rows.None? then Bad(Malformed) else CheckedVals(r.State(), rows.value);
  }

  method BuildListRows(id: nat, ws: seq<Window>, child: seq<Value>, mask: Option<Bytes>) returns (rows: Option<seq<Value>>)
    requires Covers(mask, |ws|)
    ensures rows == ListRows(id, ws, child, mask, [])
  {
    hide IsValid, ListRow;
    var vals := [];
    while |vals| < |ws|
      invariant |vals| <= |ws|
      invariant ListRows(id, ws, child, mask, vals) == ListRows(id, ws, child, mask, [])
    {
      var w := ws[|vals|];
      if !IsValid(mask, |vals|) {
        vals := vals + [VNull];
      } else if w.len > |child| || w.off > |child| - w.len {
        return None;
      } else {
        vals := vals + [ListRow(id, w, child)];
      }
    }
    rows := Some(vals);
  }

  method ReadArray(r: Reader, t: LogicalType, count: nat, depth: nat, h: FlatHead) returns (v: VectorResult)
    requires r.Valid() && depth <= MAX_TYPE_DEPTH && Covers(h.mask, count) && count <= MAX_VECTOR_ROWS
    modifies r
    ensures r.Valid() && r.off >= old(r.off)
    ensures (r.State(), v) == DecodeArray(old(r.State()), t, count, depth, h)
    decreases Fuel(depth), 1
  {
    hide F.TryField, F.Uvarint, F.EndObject, DecodeVector, IsValid, Group;
    var hasSize := r.TryField(103);
    if !hasSize {
      return Bad(Malformed);
    }
    var size := r.Uvarint();
    if size > MAX_VECTOR_ROWS {
      return Bad(Malformed);
    }
    MulMono(size, MAX_VECTOR_ROWS, count);
    var n: GoInt := size * count;
    if n > MAX_VECTOR_ROWS {
      return Bad(Malformed);
    }
    var hasChild := r.TryField(104);
    if !hasChild {
      return Bad(Malformed);
    }
    if t.child.None? {
      return Bad(Malformed);
    }
    var child := ReadVector(r, t.child.value, n, depth + 1);
    if child.Bad? {
      return child;
    }
    r.End();
    if h.geo {
      return UnsupportedButParsed(r.State(), t);
    }
    if child.Unsupported? {
      return UnsupportedButParsed(r.State(), child.typ);
    }
    var vals := [];
    while |vals| < count
      invariant |vals| <= count
      invariant forall k :: 0 <= k < |vals| ==>
                  vals[k] == if IsValid(h.mask, k) then VList(Group(child.vals, size, count, k)) else VNull
    {
      if IsValid(h.mask, |vals|) {
        vals := vals + [VList(Group(child.vals, size, count, |vals|))];
      } else {
        vals := vals + [VNull];
      }
    }
    assert vals == ArrayRows(size, child.vals, h.mask, count);
    v := CheckedVals(r.State(), vals);
  }

  method ReadFixed(r: Reader, t: LogicalType, count: nat, h: FlatHead) returns (v: VectorResult)
    requires r.Valid() && Covers(h.mask, count) && count <= MAX_VECTOR_ROWS
    modifies r
    ensures r.Valid() && r.off >= old(r.off)
    ensures (r.State(), v) == DecodeFixed(old(r.State()), t, count, h)
  {
    assert PhysicalWidth(t) <= 16;
    hide F.TryField, F.Blob, KindOf, PhysicalWidth, DecodeCell, IsValid;
    var hasData := r.TryField(102);
    if KindOf(t.id) == KNone {
      if hasData {
        var _ := r.Blob();
      }
      return UnsupportedButParsed(r.State(), t);
    }
    if !hasData {
      return Bad(Malformed);
    }
    var data := r.Blob();
    var w := PhysicalWidth(t);
    MulMono(count, MAX_VECTOR_ROWS, w);
    var needed: GoInt := count * w;
    if |data| < needed {
      return Bad(Malformed);
    }
    if h.geo {
      return UnsupportedButParsed(r.State(), t);
    }
    var rows := BuildFixedRows(t, data, h.mask, count);
    v := if rows.None? then Bad(Malformed) else CheckedVals(r.State(), rows.value);
  }

  method BuildFixedRows(t: LogicalType, data: Bytes, mask: Option<Bytes>, count: nat) returns (rows: Option<seq<Value>>)
    requires KindOf(t.id) != KNone && |data| >= count * PhysicalWidth(t) && Covers(mask, count)
    ensures rows == FixedRows(t, data, mask, count, [])
  {
    hide KindOf, PhysicalWidth, DecodeCell, IsValid;
    var w := PhysicalWidth(t);
    var vals := [];
    while |vals| < count
      invariant |vals| <= count
      invariant FixedRows(t, data, mask, count, vals) == FixedRows(t, data, mask, count, [])
    {
      MulMono(|vals| + 1, count, w);
      if !IsValid(mask, |vals|) {
        vals := vals + [VNull];
      } else {
        var cell := DecodeCell(t, CellAt(data, w, |vals|));
        if cell.None? {
          return None;
        }
        vals := vals + [cell.value];
      }
    }
    rows := Some(vals);
  }

  // ---- chunks and messages ---------------------------------------------------------------

  method ReadTypes(r: Reader, n: nat) returns (res: Result<seq<LogicalType>>)
    requires r.Valid()
    modifies r
    ensures r.Valid() && r.off >= old(r.off)
    ensures (r.State(), res) == DecodeTypes(old(r.State()), n, [])
  {
    hide DecodeType;
    var types := [];
    var i := 0;
    while i < n
      invariant i <= n && r.Valid() && r.off >= old(r.off)
      invariant DecodeTypes(r.State(), n - i, types) == DecodeTypes(old(r.State()), n, [])
    {
      var t := ReadType(r, 0);
      if t.Failure? {
        return Failure(t.error);
      }
      types := types + [t.value];
      i := i + 1;
    }
    res := Success(types);
  }

  method ReadChunkContents(r: Reader) returns (res: Result<Chunk>)
    requires r.Valid()
    modifies r
    ensures r.Valid() && r.off >= old(r.off)
    ensures (r.State(), res) == DecodeChunkContents(old(r.State()))
  {
    hide F.TryField, F.Uvarint, F.ListCount, F.EndObject, DecodeTypes, DecodeVector;
    var hasRows := r.TryField(100);
    if !hasRows {
      return Failure(Malformed);
    }
    var rows := r.Uvarint();
    if rows > MAX_CHUNK_ROWS {
      return Failure(Malformed);
    }
    var hasTypes := r.TryField(101);
    if !hasTypes {
      return Failure(Malformed);
    }
    var ntypes := r.ListCount();
    var types := ReadTypes(r, ntypes);
    if types.Failure? {
      return Failure(types.error);
    }
    var hasCols := r.TryField(102);
    if !hasCols {
      return Failure(Malformed);
    }
    var ncols := r.ListCount();
    if ncols != |types.value| {
      return Failure(Malformed);
    }
    label start:
    var cols: seq<Column> := [];
    while |cols| < ncols
      invariant |cols| <= ncols && r.Valid() && r.off >= old(r.off)
      invariant DecodeColumns(r.State(), types.value, rows, cols) == DecodeColumns(old@start(r.State()), types.value, rows, [])
    {
      var t := types.value[|cols|];
      var v := ReadVector(r, t, rows, 0);
      if v.Bad? {
        return Failure(v.error);
      }
      r.End();
      if r.err.Some? {
        return Failure(ReadFailed(r.err.value));
      }
      cols := cols + [Column(t, v)];
    }
    r.End();
    res := Checked(r.State(), Chunk(rows, cols));
  }

  method ReadChunkList(r: Reader) returns (res: Result<seq<Chunk>>)
    requires r.Valid()
    modifies r
    ensures r.Valid() && r.off >= old(r.off)
    ensures (r.State(), res) == DecodeChunkList(old(r.State()))
  {
    hide F.TryField, F.Bool, F.ListCount, F.EndObject, DecodeChunkContents;
    var n := r.ListCount();
    label start:
    var chunks := [];
    var i := 0;
    while i < n
      invariant i <= n && r.Valid() && r.off >= old(r.off)
      invariant DecodeChunkEntries(r.State(), n - i, chunks) == DecodeChunkEntries(old@start(r.State()), n, [])
    {
      i := i + 1;
      var present := r.Bool();
      if !present {
        continue;
      }
      var has := r.TryField(300);
      if !has {
        return Failure(Malformed);
      }
      var chunk := ReadChunkContents(r);
      if chunk.Failure? {
        return Failure(chunk.error);
      }
      r.End();
      chunks := chunks + [chunk.value];
    }
    res := Checked(r.State(), chunks);
  }

  /** Codec.DecodeChunk on a fresh reader. The bytes consumed are a prefix of
      the input, as many as the specification says. */
  method RunDecodeChunk(buf: Bytes) returns (res: Result<Chunk>, used: nat)
    ensures res == DecodeChunk(buf)
    ensures used <= |buf|
    ensures res.Success? ==> DecodeChunkContents(F.Ok(buf)).0 == F.Ok(buf[used..])
  {
    hide DecodeChunkContents;
    var r := new Reader(buf);
    res := ReadChunkContents(r);
    used := r.off;
    assert F.Ok(r.buf).Ok?;
  }

  /** The schema's types, none when the field is absent. */
  method ReadSchemaTypes(r: Reader) returns (types: Result<seq<LogicalType>>)
    requires r.Valid()
    modifies r
    ensures r.Valid()
    ensures (r.State(), types) == var (r1, has) := F.TryField(old(r.State()), 1);
                                  var (r2, n) := if has then F.ListCount(r1) else (r1, 0);
                                  DecodeTypes(r2, n, [])
  {
    hide F.TryField, F.ListCount, DecodeTypes;
    var has := r.TryField(1);
    if has {
      var n := r.ListCount();
      types := ReadTypes(r, n);
    } else {
      EmptyTypes(r.State());
      types := Success([]);
    }
  }

  method ReadSchemaNames(r: Reader) returns (names: seq<Bytes>)
    requires r.Valid()
    modifies r
    ensures r.Valid()
    ensures (r.State(), names) == var (r1, has) := F.TryField(old(r.State()), 2);
                                  if has then DecodeStringList(r1) else (r1, [])
  {
    hide F.TryField, F.ListCount, DecodeStrings;
    names := [];
    var has := r.TryField(2);
    if has {
      var n := r.ListCount();
      names := ReadStrings(r, n);
    }
  }

  method ReadOptionalChunks(r: Reader, id: nat) returns (chunks: Result<seq<Chunk>>)
    requires r.Valid()
    modifies r
    ensures r.Valid()
    ensures (r.State(), chunks) == var (r1, has) := F.TryField(old(r.State()), id);
                                   if has then DecodeChunkList(r1) else (r1, Success([]))
  {
    hide F.TryField, DecodeChunkList;
    chunks := Success([]);
    var has := r.TryField(id);
    if has {
      chunks := ReadChunkList(r);
    }
  }

  method RunDecodePrepare(body: Bytes) returns (res: Result<PrepareResult>)
    ensures res == DecodePrepare(body)
  {
    hide F.TryField, F.Bool, F.ListCount, F.EndObject, F.ReadHugeint, DecodeTypes, DecodeStringList, DecodeChunkList, Zip, Checked;
    var r := new Reader(body);
    var types := ReadSchemaTypes(r);
    if types.Failure? {
      return Failure(types.error);
    }
    var names := ReadSchemaNames(r);
    if |names| != |types.value| {
      return Failure(Malformed);
    }
    var more := false;
    var hasMore := r.TryField(3);
    if hasMore {
      more := r.Bool();
    }
    var chunks := ReadOptionalChunks(r, 4);
    if chunks.Failure? {
      return Failure(chunks.error);
    }
    var hasUuid := r.TryField(5);
    if !hasUuid {
      return Failure(Malformed);
    }
    var uuid := r.Hugeint();
    r.End();
    res := Checked(r.State(), PrepareResult(Zip(names, types.value), chunks.value, more, uuid));
  }

  lemma EmptyTypes(r: F.Rd)
    ensures DecodeTypes(r, 0, []) == (r, Success([]))
  {
  }

  method RunDecodeFetch(body: Bytes) returns (res: Result<FetchResult>)
    ensures res == DecodeFetch(body)
  {
    hide F.TryField, F.Uvarint, F.EndObject, DecodeChunkList;
    var r := new Reader(body);
    var chunks := ReadOptionalChunks(r, 1);
    if chunks.Failure? {
      return Failure(chunks.error);
    }
    var index := F.IDX_ABSENT;
    var hasIndex := r.TryField(2);
    if hasIndex {
      index := r.Uvarint();
    }
    r.End();
    res := Checked(r.State(), FetchResult(chunks.value, index));
  }
}
