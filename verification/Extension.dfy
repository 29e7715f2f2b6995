/** A decode that leaves the reader healthy is not changed by more input
    behind what it consumed. Truncation detection follows from this. */
module Extension {
  import opened Basics
  import opened Framing
  import opened LogicalTypes
  import opened Values
  import opened Vectors

  // ---- types ----------------------------------------------------------------------

  lemma {:induction false} StringsExtend(r: Rd, n: nat, acc: seq<Bytes>, x: Bytes)
    requires DecodeStrings(r, n, acc).0.Ok?
    ensures DecodeStrings(Extend(r, x), n, acc) == (Extend(DecodeStrings(r, n, acc).0, x), DecodeStrings(r, n, acc).1)
    decreases n
  {
    hide Blob, Extend;
    if n > 0 {
      var (r1, s) := Blob(r);
      StringsExtend(r1, n - 1, acc + [s], x);
      BlobExtends(r, x);
    }
  }

  lemma StringListExtends(r: Rd, x: Bytes)
    requires DecodeStringList(r).0.Ok?
    ensures DecodeStringList(Extend(r, x)) == (Extend(DecodeStringList(r).0, x), DecodeStringList(r).1)
  {
    hide ListCount, Extend, DecodeStrings;
    var (r1, n) := ListCount(r);
    StringsExtend(r1, n, [], x);
    ListCountExtends(r, x);
  }

  lemma {:induction false} TypeExtends(r: Rd, depth: nat, x: Bytes)
    requires DecodeType(r, depth).0.Ok?
    ensures DecodeType(Extend(r, x), depth) == (Extend(DecodeType(r, depth).0, x), DecodeType(r, depth).1)
    decreases Fuel(depth), 3
  {
    hide TryField, Uvarint, Bool, EndObject, Extend, DecodeTypeInfo;
    ReadsExtend(x);
    if depth <= MAX_TYPE_DEPTH {
      var (r1, _) := TryField(r, 100);
      var (r2, id) := Uvarint(r1);
      var (r3, hasInfo) := TryField(r2, 101);
      var (r4, present) := if hasInfo then Bool(r3) else (r3, false);
      if present && DecodeTypeInfo(r4, Plain(id % P32), depth).0.Ok? {
        InfoExtends(r4, Plain(id % P32), depth, x);
      }
    }
  }

  lemma {:induction false} InfoExtends(r: Rd, t: LogicalType, depth: nat, x: Bytes)
    requires depth <= MAX_TYPE_DEPTH && DecodeTypeInfo(r, t, depth).0.Ok?
    ensures DecodeTypeInfo(Extend(r, x), t, depth) == (Extend(DecodeTypeInfo(r, t, depth).0, x), DecodeTypeInfo(r, t, depth).1)
    decreases Fuel(depth), 2
  {
    hide TryField, Uvarint, Bool, Blob, Extend, DecodeInfoFields;
    ReadsExtend(x);
    var (r1, _) := TryField(r, 100);
    var (r2, kind) := Uvarint(r1);
    var (r3, hasAlias) := TryField(r2, 101);
    var r4 := if hasAlias then Blob(r3).0 else r3;
    var (r5, hasExtension) := TryField(r4, 103);
    var r6 := if hasExtension then Bool(r5).0 else r5;
    if DecodeInfoFields(r6, t, kind, depth).0.Ok? {
      InfoFieldsExtend(r6, t, kind, depth, x);
    }
  }

  lemma {:induction false} InfoFieldsExtend(r: Rd, t: LogicalType, kind: nat, depth: nat, x: Bytes)
    requires depth <= MAX_TYPE_DEPTH && DecodeInfoFields(r, t, kind, depth).0.Ok?
    ensures DecodeInfoFields(Extend(r, x), t, kind, depth)
            == (Extend(DecodeInfoFields(r, t, kind, depth).0, x), DecodeInfoFields(r, t, kind, depth).1)
    decreases Fuel(depth), 1
  {
    hide TryField, Uvarint, Blob, ListCount, EndObject, Extend, DecodeType, DecodeFields, DecodeStringList;
    ReadsExtend(x);
    var (r1, has) := TryField(r, 200);
    if kind == INFO_LIST || kind == INFO_ARRAY {
      if DecodeType(r1, depth + 1).0.Ok? {
        TypeExtends(r1, depth + 1, x);
      }
    } else if kind == INFO_STRUCT {
      var (r2, n) := ListCount(r1);
      if DecodeFields(r2, n, depth, []).0.Ok? {
        FieldsExtend(r2, n, depth, [], x);
      }
    } else if kind == INFO_ENUM {
      var (r2, _) := Uvarint(r1);
      var (r3, _) := TryField(r2, 201);
      if DecodeStringList(r3).0.Ok? {
        StringListExtends(r3, x);
      }
    }
  }

  lemma {:induction false} FieldsExtend(r: Rd, n: nat, depth: nat, acc: seq<StructField>, x: Bytes)
    requires depth <= MAX_TYPE_DEPTH && DecodeFields(r, n, depth, acc).0.Ok?
    ensures DecodeFields(Extend(r, x), n, depth, acc)
            == (Extend(DecodeFields(r, n, depth, acc).0, x), DecodeFields(r, n, depth, acc).1)
    decreases Fuel(depth), 0, n
  {
    hide TryField, Blob, EndObject, Extend, DecodeType;
    if n > 0 {
      ReadsExtend(x);
      var (r1, hasName) := TryField(r, 0);
      var (r2, name) := if hasName then Blob(r1) else (r1, []);
      var (r3, hasType) := TryField(r2, 1);
      if hasType {
        var (r4, t) := DecodeType(r3, depth + 1);
        if r4.Ok? {
          TypeExtends(r3, depth + 1, x);
          if t.Success? {
            FieldsExtend(EndObject(r4), n - 1, depth, acc + [StructField(name, t.value)], x);
          }
        }
      }
    }
  }

  // ---- vectors ----------------------------------------------------------------------

  lemma {:induction false} VectorExtends(r: Rd, t: LogicalType, count: nat, depth: nat, x: Bytes)
    requires DecodeVector(r, t, count, depth).0.Ok?
    ensures DecodeVector(Extend(r, x), t, count, depth)
            == (Extend(DecodeVector(r, t, count, depth).0, x), DecodeVector(r, t, count, depth).1)
    decreases Fuel(depth), 4
  {
    hide TryField, Uvarint, Extend, DecodeFlat, DecodeConstant, DecodeDictionary, DecodeSequence;
    if depth <= MAX_TYPE_DEPTH && count <= MAX_VECTOR_ROWS {
      ReadsExtend(x);
      var (r1, tagged) := TryField(r, 90);
      var (r2, vtype) := if tagged then Uvarint(r1) else (r1, VEC_FLAT);
      if vtype == VEC_FLAT {
        FlatExtends(r2, t, count, depth, x);
      } else if vtype == VEC_CONSTANT {
        ConstantExtends(r2, t, count, depth, x);
      } else if vtype == VEC_DICTIONARY {
        DictionaryExtends(r2, t, count, depth, x);
      } else if vtype == VEC_SEQUENCE {
        SequenceExtends(r2, t, count, x);
      }
    }
  }

  lemma {:induction false} ConstantExtends(r: Rd, t: LogicalType, count: nat, depth: nat, x: Bytes)
    requires depth <= MAX_TYPE_DEPTH && DecodeConstant(r, t, count, depth).0.Ok?
    ensures DecodeConstant(Extend(r, x), t, count, depth)
            == (Extend(DecodeConstant(r, t, count, depth).0, x), DecodeConstant(r, t, count, depth).1)
    decreases Fuel(depth), 0
  {
    hide Extend, DecodeVector;
    VectorExtends(r, t, 1, depth + 1, x);
  }

  lemma {:induction false} DictionaryExtends(r: Rd, t: LogicalType, count: nat, depth: nat, x: Bytes)
    requires depth <= MAX_TYPE_DEPTH && DecodeDictionary(r, t, count, depth).0.Ok?
    ensures DecodeDictionary(Extend(r, x), t, count, depth)
            == (Extend(DecodeDictionary(r, t, count, depth).0, x), DecodeDictionary(r, t, count, depth).1)
    decreases Fuel(depth), 0
  {
    hide TryField, Uvarint, Blob, Extend, DecodeVector, Select;
    ReadsExtend(x);
    var (r1, _) := TryField(r, 91);
    var (r2, _) := Blob(r1);
    var (r3, _) := TryField(r2, 92);
    var (r4, size) := Uvarint(r3);
    if DecodeVector(r4, t, size, depth + 1).0.Ok? {
      VectorExtends(r4, t, size, depth + 1, x);
    }
  }

  lemma SequenceExtends(r: Rd, t: LogicalType, count: nat, x: Bytes)
    requires DecodeSequence(r, t, count).0.Ok?
    ensures DecodeSequence(Extend(r, x), t, count)
            == (Extend(DecodeSequence(r, t, count).0, x), DecodeSequence(r, t, count).1)
  {
    hide TryField, Svarint, Extend, SequenceVals;
    ReadsExtend(x);
  }

  lemma HeadExtends(r: Rd, count: nat, x: Bytes)
    requires DecodeFlatHead(r, count).0.Ok?
    ensures DecodeFlatHead(Extend(r, x), count) == (Extend(DecodeFlatHead(r, count).0, x), DecodeFlatHead(r, count).1)
  {
    hide TryField, Uvarint, Bool, Blob;
    ReadsExtend(x);
  }

  lemma {:induction false} FlatExtends(r: Rd, t: LogicalType, count: nat, depth: nat, x: Bytes)
    requires depth <= MAX_TYPE_DEPTH && count <= MAX_VECTOR_ROWS && DecodeFlat(r, t, count, depth).0.Ok?
    ensures DecodeFlat(Extend(r, x), t, count, depth)
            == (Extend(DecodeFlat(r, t, count, depth).0, x), DecodeFlat(r, t, count, depth).1)
    decreases Fuel(depth), 3
  {
    hide Extend, DecodeFlatHead, DecodeFlatBody;
    var (r1, head) := DecodeFlatHead(r, count);
    HeadExtends(r, count, x);
    if head.Some? {
      BodyExtends(r1, t, count, depth, head.value, x);
    }
  }

  lemma {:induction false} BodyExtends(r: Rd, t: LogicalType, count: nat, depth: nat, h: FlatHead, x: Bytes)
    requires depth <= MAX_TYPE_DEPTH && count <= MAX_VECTOR_ROWS && Covers(h.mask, count)
    requires DecodeFlatBody(r, t, count, depth, h).0.Ok?
    ensures DecodeFlatBody(Extend(r, x), t, count, depth, h)
            == (Extend(DecodeFlatBody(r, t, count, depth, h).0, x), DecodeFlatBody(r, t, count, depth, h).1)
    decreases Fuel(depth), 2
  {
    hide Extend, DecodeTexts, DecodeStruct, DecodeList, DecodeArray, DecodeFixed;
    if IsText(t.id) {
      TextsExtend(r, t, count, h, x);
    } else if IsStructLike(t.id) {
      StructExtends(r, t, count, depth, h, x);
    } else if IsList(t.id) {
      ListExtends(r, t, count, depth, h, x);
    } else if t.id == ARRAY {
      ArrayExtends(r, t, count, depth, h, x);
    } else {
      FixedExtends(r, t, count, h, x);
    }
  }

  lemma {:induction false} TextEntriesExtend(r: Rd, id: nat, count: nat, mask: Option<Bytes>, skip: bool, acc: seq<Value>, x: Bytes)
    requires Covers(mask, count) && |acc| <= count && DecodeTextEntries(r, id, count, mask, skip, acc).0.Ok?
    ensures DecodeTextEntries(Extend(r, x), id, count, mask, skip, acc)
            == (Extend(DecodeTextEntries(r, id, count, mask, skip, acc).0, x), DecodeTextEntries(r, id, count, mask, skip, acc).1)
    decreases count - |acc|
  {
    hide Blob, Extend, TextValue;
    if |acc| < count {
      var (r1, b) := Blob(r);
      if skip || !IsValid(mask, |acc|) {
        TextEntriesExtend(r1, id, count, mask, skip, acc + [VNull], x);
      } else if TextValue(id, b).Some? {
        TextEntriesExtend(r1, id, count, mask, skip, acc + [TextValue(id, b).value], x);
      }
      BlobExtends(r, x);
    }
  }

  lemma TextsExtend(r: Rd, t: LogicalType, count: nat, h: FlatHead, x: Bytes)
    requires Covers(h.mask, count) && DecodeTexts(r, t, count, h).0.Ok?
    ensures DecodeTexts(Extend(r, x), t, count, h) == (Extend(DecodeTexts(r, t, count, h).0, x), DecodeTexts(r, t, count, h).1)
  {
    var skip := h.geo || t.id == GEOMETRY;
    var (r1, hasData) := TryField(r, 102);
    var (r2, n) := ListCount(r1);
    TryFieldExtends(r, 102, x);
    if hasData {
      ListCountExtends(r1, x);
      if n == count {
        TextEntriesExtend(r2, t.id, count, h.mask, skip, [], x);
      }
    }
    hide TryField, ListCount, DecodeTextEntries;
  }

  lemma {:induction false} ChildrenExtend(r: Rd, fields: seq<StructField>, count: nat, depth: nat, acc: Children, x: Bytes)
    requires depth <= MAX_TYPE_DEPTH && ChildrenOf(acc, |acc.cols|, count) && |acc.cols| <= |fields|
    requires DecodeChildren(r, fields, count, depth, acc).0.Ok?
    ensures var res := DecodeChildren(r, fields, count, depth, acc);
            DecodeChildren(Extend(r, x), fields, count, depth, acc) == (Extend(res.0, x), res.1, res.2)
    decreases Fuel(depth), 0, |fields| - |acc.cols|
  {
    hide EndObject, Extend, DecodeVector;
    if |acc.cols| < |fields| {
      ReadsExtend(x);
      var (r1, v) := DecodeVector(r, fields[|acc.cols|].typ, count, depth + 1);
      if r1.Ok? {
        VectorExtends(r, fields[|acc.cols|].typ, count, depth + 1, x);
        if !v.Bad? {
          ChildrenExtend(EndObject(r1), fields, count, depth,
            if v.Vals? then acc.(cols := acc.cols + [v.vals]) else Children(acc.cols + [[]], true), x);
        }
      }
    }
  }

  lemma {:induction false} StructExtends(r: Rd, t: LogicalType, count: nat, depth: nat, h: FlatHead, x: Bytes)
    requires depth <= MAX_TYPE_DEPTH && Covers(h.mask, count) && DecodeStruct(r, t, count, depth, h).0.Ok?
    ensures DecodeStruct(Extend(r, x), t, count, depth, h)
            == (Extend(DecodeStruct(r, t, count, depth, h).0, x), DecodeStruct(r, t, count, depth, h).1)
    decreases Fuel(depth), 1
  {
    hide TryField, ListCount, DecodeChildren, StructRows;
    ReadsExtend(x);
    var (r1, has) := TryField(r, 103);
    var (r2, n) := ListCount(r1);
    if DecodeChildren(r2, t.fields, count, depth, Children([], h.geo)).0.Ok? {
      ChildrenExtend(r2, t.fields, count, depth, Children([], h.geo), x);
    }
  }

  lemma {:induction false} WindowsExtend(r: Rd, n: nat, acc: seq<Window>, x: Bytes)
    requires |acc| <= n && DecodeWindows(r, n, acc).0.Ok?
    ensures DecodeWindows(Extend(r, x), n, acc) == (Extend(DecodeWindows(r, n, acc).0, x), DecodeWindows(r, n, acc).1)
    decreases n - |acc|
  {
    hide TryField, Uvarint, EndObject, Extend;
    if |acc| < n {
      ReadsExtend(x);
      var (r1, hasOff) := TryField(r, 100);
      var (r2, off) := if hasOff then Uvarint(r1) else (r1, 0);
      var (r3, hasLen) := TryField(r2, 101);
      var (r4, len) := if hasLen then Uvarint(r3) else (r3, 0);
      WindowsExtend(EndObject(r4), n, acc + [Window(off, len)], x);
    }
  }

  lemma {:induction false} ListExtends(r: Rd, t: LogicalType, count: nat, depth: nat, h: FlatHead, x: Bytes)
    requires depth <= MAX_TYPE_DEPTH && Covers(h.mask, count) && DecodeList(r, t, count, depth, h).0.Ok?
    ensures DecodeList(Extend(r, x), t, count, depth, h)
            == (Extend(DecodeList(r, t, count, depth, h).0, x), DecodeList(r, t, count, depth, h).1)
    decreases Fuel(depth), 1
  {
    hide TryField, Uvarint, ListCount, Extend, DecodeWindows, DecodeVector, FinishList;
    ReadsExtend(x);
    var (r1, _) := TryField(r, 104);
    var (r2, size) := Uvarint(r1);
    var (r3, _) := TryField(r2, 105);
    var (r4, n) := ListCount(r3);
    var (r5, ws) := DecodeWindows(r4, count, []);
    var (r6, hasChild) := TryField(r5, 106);
    if r5.Ok? {
      WindowsExtend(r4, count, [], x);
    }
    if t.child.Some? {
      var (r7, child) := DecodeVector(r6, t.child.value, size, depth + 1);
      if r7.Ok? {
        VectorExtends(r6, t.child.value, size, depth + 1, x);
        if FinishList(r7, t, ws, child, h).0.Ok? {
          FinishListExtends(r7, t, ws, child, h, x);
        }
      }
    }
  }

  lemma FinishListExtends(r: Rd, t: LogicalType, ws: seq<Window>, child: VectorResult, h: FlatHead, x: Bytes)
    requires Covers(h.mask, |ws|) && FinishList(r, t, ws, child, h).0.Ok?
    ensures FinishList(Extend(r, x), t, ws, child, h) == (Extend(FinishList(r, t, ws, child, h).0, x), FinishList(r, t, ws, child, h).1)
  {
    hide EndObject, ListRows;
    ReadsExtend(x);
  }

  lemma {:induction false} ArrayExtends(r: Rd, t: LogicalType, count: nat, depth: nat, h: FlatHead, x: Bytes)
    requires depth <= MAX_TYPE_DEPTH && Covers(h.mask, count) && DecodeArray(r, t, count, depth, h).0.Ok?
    ensures DecodeArray(Extend(r, x), t, count, depth, h)
            == (Extend(DecodeArray(r, t, count, depth, h).0, x), DecodeArray(r, t, count, depth, h).1)
    decreases Fuel(depth), 1
  {
    hide TryField, Uvarint, Extend, DecodeVector, FinishArray;
    ReadsExtend(x);
    var (r1, _) := TryField(r, 103);
    var (r2, size) := Uvarint(r1);
    var (r3, _) := TryField(r2, 104);
    if t.child.Some? {
      var (r4, child) := DecodeVector(r3, t.child.value, size * count, depth + 1);
      if r4.Ok? {
        VectorExtends(r3, t.child.value, size * count, depth + 1, x);
        if FinishArray(r4, t, size, count, child, h).0.Ok? {
          FinishArrayExtends(r4, t, size, count, child, h, x);
        }
      }
    }
  }

  lemma FinishArrayExtends(r: Rd, t: LogicalType, size: nat, count: nat, child: VectorResult, h: FlatHead, x: Bytes)
    requires Covers(h.mask, count) && (child.Vals? ==> |child.vals| == size * count)
    requires FinishArray(r, t, size, count, child, h).0.Ok?
    ensures FinishArray(Extend(r, x), t, size, count, child, h)
            == (Extend(FinishArray(r, t, size, count, child, h).0, x), FinishArray(r, t, size, count, child, h).1)
  {
    hide EndObject, ArrayRows;
    ReadsExtend(x);
  }

  lemma FixedExtends(r: Rd, t: LogicalType, count: nat, h: FlatHead, x: Bytes)
    requires Covers(h.mask, count) && DecodeFixed(r, t, count, h).0.Ok?
    ensures DecodeFixed(Extend(r, x), t, count, h) == (Extend(DecodeFixed(r, t, count, h).0, x), DecodeFixed(r, t, count, h).1)
  {
    hide TryField, Blob, KindOf, PhysicalWidth, FixedRows;
    ReadsExtend(x);
  }
}
