/** When a vector without an error also means a reader without one. The
    sequence branch does not look at the reader; every other branch does. */
module ReaderHealth {
  import opened Basics
  import opened Leb128
  import opened Framing
  import opened LogicalTypes
  import opened Values
  import opened Vectors

  /** Reading a vector of this type and length never hides a reader failure. */
  ghost predicate NeverHides(t: LogicalType, count: nat, depth: nat)
  {
    forall r :: DecodeVector(r, t, count, depth).1.Vals? ==> DecodeVector(r, t, count, depth).0.Ok?
  }

  lemma NestedHealthy(r: Rd, t: LogicalType, count: nat, depth: nat, h: FlatHead)
    requires depth <= MAX_TYPE_DEPTH && count <= MAX_VECTOR_ROWS && Covers(h.mask, count)
    ensures DecodeStruct(r, t, count, depth, h).1.Vals? ==> DecodeStruct(r, t, count, depth, h).0.Ok?
    ensures DecodeList(r, t, count, depth, h).1.Vals? ==> DecodeList(r, t, count, depth, h).0.Ok?
    ensures DecodeArray(r, t, count, depth, h).1.Vals? ==> DecodeArray(r, t, count, depth, h).0.Ok?
  {
    hide TryField, Uvarint, ListCount, EndObject, DecodeVector, DecodeChildren, DecodeWindows, ListRows;
  }

  lemma ScalarHealthy(r: Rd, t: LogicalType, count: nat, h: FlatHead)
    requires Covers(h.mask, count)
    ensures DecodeTexts(r, t, count, h).1.Vals? ==> DecodeTexts(r, t, count, h).0.Ok?
    ensures DecodeFixed(r, t, count, h).1.Vals? ==> DecodeFixed(r, t, count, h).0.Ok?
  {
    hide TryField, Blob, ListCount, DecodeTextEntries, FixedRows, KindOf;
  }

  /** A flat vector's values come from a healthy reader: its last act is to
      look at it. */
  lemma FlatHealthy(r: Rd, t: LogicalType, count: nat, depth: nat)
    requires depth <= MAX_TYPE_DEPTH && count <= MAX_VECTOR_ROWS
    requires DecodeFlat(r, t, count, depth).1.Vals?
    ensures DecodeFlat(r, t, count, depth).0.Ok?
  {
    hide DecodeFlatHead, DecodeTexts, DecodeStruct, DecodeList, DecodeArray, DecodeFixed;
    var (r1, head) := DecodeFlatHead(r, count);
    NestedHealthy(r1, t, count, depth, head.value);
    ScalarHealthy(r1, t, count, head.value);
  }

  /** Values of a type that no sequence can stand for come from a healthy
      reader, whatever the encoding and the bytes. */
  lemma {:induction false} ValuesHealthy(r: Rd, t: LogicalType, count: nat, depth: nat)
    requires count > 0 && !IsInteger(t.id) && DecodeVector(r, t, count, depth).1.Vals?
    ensures DecodeVector(r, t, count, depth).0.Ok?
    decreases Fuel(depth)
  {
    hide TryField, Uvarint, Blob, DecodeFlat, Svarint;
    var (r1, tagged) := TryField(r, 90);
    var (r2, vtype) := if tagged then Uvarint(r1) else (r1, VEC_FLAT);
    if vtype == VEC_FLAT {
      FlatHealthy(r2, t, count, depth);
    } else if vtype == VEC_CONSTANT {
      ValuesHealthy(r2, t, 1, depth + 1);
    } else if vtype == VEC_DICTIONARY {
      DictionaryHealthy(r2, t, count, depth);
    }
  }

  /** An empty dictionary has no entry to select, so a row needs a full one. */
  lemma {:induction false} DictionaryHealthy(r: Rd, t: LogicalType, count: nat, depth: nat)
    requires count > 0 && !IsInteger(t.id) && depth <= MAX_TYPE_DEPTH
    requires DecodeDictionary(r, t, count, depth).1.Vals?
    ensures DecodeDictionary(r, t, count, depth).0.Ok?
    decreases Fuel(depth), 0
  {
    hide TryField, Uvarint, Blob, DecodeVector;
    var (r1, _) := TryField(r, 91);
    var (r2, sel) := Blob(r1);
    var (r3, _) := TryField(r2, 92);
    var (r4, size) := Uvarint(r3);
    if size > 0 {
      ValuesHealthy(r4, t, size, depth + 1);
    }
  }

  /** A sequence vector cut off behind its second field id. */
  function CutSequence(): Bytes
  {
    FieldId(90) + (UvEncode(VEC_SEQUENCE) + (FieldId(91) + (SvEncode(5) + (FieldId(92) + []))))
  }

  /** It decodes to values all the same, with a failed reader. */
  lemma CutSequenceDecodes(t: LogicalType, count: nat, depth: nat)
    requires depth <= MAX_TYPE_DEPTH && count <= MAX_VECTOR_ROWS && (count == 0 || IsInteger(t.id))
    ensures DecodeVector(Ok(CutSequence()), t, count, depth)
            == (Failed(Truncated), Vals(if count == 0 then [] else SequenceVals(t.id, 5, 0, count)))
  {
    hide TryField, Uvarint, FieldId, UvEncode, SvEncode;
    var k2 := SvEncode(5) + (FieldId(92) + []);
    FieldBack(90, 90, UvEncode(VEC_SEQUENCE) + (FieldId(91) + k2));
    UvarintBack(VEC_SEQUENCE, FieldId(91) + k2);
    FieldBack(91, 91, k2);
    SvarintBack(5, FieldId(92) + []);
    FieldBack(92, 92, []);
    assert Svarint(Ok([])) == (Failed(Truncated), 0);
  }

  /** One BIGINT, decoded from a sequence whose increment is missing. */
  lemma CutBigint()
    ensures DecodeVector(Ok(CutSequence()), Plain(BIGINT), 1, 0) == (Failed(Truncated), Vals([VInt(64, true, 5)]))
  {
    hide DecodeVector, CutSequence;
    CutSequenceDecodes(Plain(BIGINT), 1, 0);
    WordSizes();
    assert SequenceVals(BIGINT, 5, 0, 1) == [VInt(64, true, 5)];
  }

  /** A vector's values vouch for its reader exactly when there are rows and
      the type is not an integer one. */
  lemma NeverHidesExactly(t: LogicalType, count: nat, depth: nat)
    requires depth <= MAX_TYPE_DEPTH && count <= MAX_VECTOR_ROWS
    ensures NeverHides(t, count, depth) <==> count > 0 && !IsInteger(t.id)
  {
    hide DecodeVector, CutSequence;
    if count > 0 && !IsInteger(t.id) {
      forall r | DecodeVector(r, t, count, depth).1.Vals? ensures DecodeVector(r, t, count, depth).0.Ok? {
        ValuesHealthy(r, t, count, depth);
      }
    } else {
      CutSequenceDecodes(t, count, depth);
    }
  }
}
