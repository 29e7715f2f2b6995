/** decodeVector computes the meaning of every well-shaped encoding and
    consumes exactly its bytes. */
module VectorBack {
  import opened Basics
  import opened Leb128
  import opened Framing
  import opened LogicalTypes
  import opened Values
  import opened Vectors
  import opened VectorWire

  // ---- scalars --------------------------------------------------------------------

  lemma {:induction false} SelBytesAt(sel: seq<nat>, i: nat)
    requires i < |sel| && forall j :: 0 <= j < |sel| ==> sel[j] < P32
    ensures SelAt(SelBytes(sel), i) == sel[i]
  {
    WordSizes();
    var s, head := SelBytes(sel), LE(sel[0], 4);
    if i == 0 {
      assert s[0..4] == head;
      LERoundTrip(sel[0], 4);
    } else {
      SelBytesAt(sel[1..], i - 1);
      assert s[4 * i..4 * i + 4] == SelBytes(sel[1..])[4 * (i - 1)..4 * (i - 1) + 4];
    }
  }

  lemma {:induction false} SelectAll(sel: seq<nat>, dict: seq<Value>, i: nat, acc: seq<Value>)
    requires forall j :: 0 <= j < |sel| ==> sel[j] < P32 && sel[j] < |dict|
    requires i <= |sel| && |acc| == i && forall j :: 0 <= j < i ==> acc[j] == dict[sel[j]]
    ensures Select(SelBytes(sel), dict, |sel|, i, acc)
            == Some(seq(|sel|, j requires 0 <= j < |sel| => dict[sel[j]]))
    decreases |sel| - i
  {
    if i == |sel| {
      assert acc == seq(|sel|, j requires 0 <= j < |sel| => dict[sel[j]]);
    } else {
      SelBytesAt(sel, i);
      SelectAll(sel, dict, i + 1, acc + [dict[sel[i]]]);
    }
  }

  /** A multiple of the modulus does not change the residue. */
  lemma WrapShift(v: int, q: int, m: int)
    requires m > 0
    ensures Wrap(v + q * m, m) == Wrap(v, m)
  {
    ModUnique(v + q * m, m, v / m + q, v % m);
  }

  /** int64 wrap and then truncation to the column width is one truncation. */
  lemma SequenceTermTruncates(id: nat, start: int, inc: int, i: nat)
    requires IsInteger(id)
    ensures SequenceValue(id, SequenceTerm(start, inc, i)) == Some(Residue(id, start + i * inc))
  {
    WordSizes();
    var x, m := start + i * inc, Pow256(KindOf(id).bits / 8);
    var y := SequenceTerm(start, inc, i);
    assert P64 == (P64 / m) * m && m in {P8, P16, P32, P64};
    var q := if Wrap(x, P64) < P64 / 2 then -(x / P64) else -(x / P64) - 1;
    assert y == x + q * P64;
    assert q * P64 == (q * (P64 / m)) * m;
    WrapShift(x, q * (P64 / m), m);
  }

  lemma SequenceMeans(id: nat, start: int, inc: int, count: nat)
    requires IsInteger(id)
    ensures SequenceVals(id, start, inc, count)
            == seq(count, i requires 0 <= i < count => Residue(id, start + i * inc))
  {
    forall i | 0 <= i < count
      ensures SequenceValue(id, SequenceTerm(start, inc, i)) == Some(Residue(id, start + i * inc))
    {
      SequenceTermTruncates(id, start, inc, i);
    }
  }

  // ---- compressed vectors -------------------------------------------------------------

  lemma TagBack(vtype: nat, k: Bytes)
    requires vtype < P64
    ensures TryField(Ok(FieldId(90) + (UvEncode(vtype) + k)), 90) == (Ok(UvEncode(vtype) + k), true)
    ensures Uvarint(Ok(UvEncode(vtype) + k)) == (Ok(k), vtype)
  {
    FieldBack(90, 90, UvEncode(vtype) + k);
    UvarintBack(vtype, k);
  }

  lemma ConstantBack(one: Vec, t: LogicalType, count: nat, depth: nat, k: Bytes)
    requires depth <= MAX_TYPE_DEPTH && Shaped(Constant(one), t, count)
    requires DecodeVector(Ok(VecBytes(one, k)), t, 1, depth + 1) == (Ok(k), Meaning(one, t, 1))
    ensures DecodeVector(Ok(VecBytes(Constant(one), k)), t, count, depth) == (Ok(k), Meaning(Constant(one), t, count))
  {
    hide TryField, Uvarint, FieldId, UvEncode, DecodeFlat, DecodeDictionary, DecodeSequence;
    TagBack(VEC_CONSTANT, VecBytes(one, k));
  }

  lemma DictionaryBack(v: Vec, t: LogicalType, count: nat, depth: nat, k: Bytes)
    requires depth <= MAX_TYPE_DEPTH && v.Dictionary? && Shaped(v, t, count)
    requires DecodeVector(Ok(VecBytes(v.dict, k)), t, v.size, depth + 1) == (Ok(k), Meaning(v.dict, t, v.size))
    ensures DecodeDictionary(Ok(FieldId(91) + (Prefixed(SelBytes(v.sel))
              + (FieldId(92) + (UvEncode(v.size) + VecBytes(v.dict, k))))), t, count, depth) == (Ok(k), Meaning(v, t, count))
  {
    hide TryField, Uvarint, Blob, FieldId, UvEncode, Prefixed, DecodeVector, Select, SelBytes;
    var k1 := VecBytes(v.dict, k);
    var k2 := FieldId(92) + (UvEncode(v.size) + k1);
    FieldBack(91, 91, Prefixed(SelBytes(v.sel)) + k2);
    BlobBack(SelBytes(v.sel), k2);
    FieldBack(92, 92, UvEncode(v.size) + k1);
    UvarintBack(v.size, k1);
    var m := Meaning(v.dict, t, v.size);
    if m.Vals? {
      SelectAll(v.sel, m.vals, 0, []);
    }
  }

  lemma SequenceBack(v: Vec, t: LogicalType, count: nat, k: Bytes)
    requires v.Sequence? && Shaped(v, t, count)
    ensures DecodeSequence(Ok(FieldId(91) + (SvEncode(v.start) + (FieldId(92) + (SvEncode(v.inc) + k)))), t, count)
            == (Ok(k), Meaning(v, t, count))
  {
    hide TryField, Svarint, FieldId, SvEncode, SequenceVals, Residue;
    FieldBack(91, 91, SvEncode(v.start) + (FieldId(92) + (SvEncode(v.inc) + k)));
    SvarintBack(v.start, FieldId(92) + (SvEncode(v.inc) + k));
    FieldBack(92, 92, SvEncode(v.inc) + k);
    SvarintBack(v.inc, k);
    if count > 0 {
      SequenceMeans(t.id, v.start, v.inc, count);
    }
  }

  lemma CompressedBack(v: Vec, t: LogicalType, count: nat, depth: nat, k: Bytes)
    requires depth <= MAX_TYPE_DEPTH && (v.Dictionary? || v.Sequence?) && Shaped(v, t, count)
    requires v.Dictionary? ==>
               DecodeVector(Ok(VecBytes(v.dict, k)), t, v.size, depth + 1) == (Ok(k), Meaning(v.dict, t, v.size))
    ensures DecodeVector(Ok(VecBytes(v, k)), t, count, depth) == (Ok(k), Meaning(v, t, count))
  {
    hide TryField, Uvarint, FieldId, UvEncode, SvEncode, Prefixed, SelBytes, Meaning, DecodeFlat, DecodeConstant, DecodeDictionary,
      DecodeSequence;
    if v.Dictionary? {
      DictionaryBack(v, t, count, depth, k);
      TagBack(VEC_DICTIONARY, FieldId(91) + (Prefixed(SelBytes(v.sel)) + (FieldId(92) + (UvEncode(v.size) + VecBytes(v.dict, k)))));
    } else {
      SequenceBack(v, t, count, k);
      TagBack(VEC_SEQUENCE, FieldId(91) + (SvEncode(v.start) + (FieldId(92) + (SvEncode(v.inc) + k))));
    }
  }

  // ---- flat vectors ---------------------------------------------------------------------

  lemma MaskBack(mask: Option<Bytes>, geo: bool, count: nat, k: Bytes)
    requires Covers(mask, count) && (mask.Some? ==> |mask.value| < P64)
    ensures var r := Ok(MaskBytes(mask, k));
            && TryField(r, 99) == (r, false) && TryField(r, 90) == (r, false)
            && var (r3, flag) := TryField(r, 100);
               var (r4, hasNulls) := Bool(r3);
               && flag && hasNulls == mask.Some?
               && if hasNulls then TryField(r4, 101).1 && Blob(TryField(r4, 101).0) == (Ok(k), mask.value) else r4 == Ok(k)
  {
    hide TryField, Bool, Blob, FieldId, Prefixed, BoolByte;
    var k1 := if mask.Some? then FieldId(101) + (Prefixed(mask.value) + k) else k;
    FieldBack(100, 99, BoolByte(mask.Some?) + k1);
    FieldBack(100, 90, BoolByte(mask.Some?) + k1);
    FieldBack(100, 100, BoolByte(mask.Some?) + k1);
    BoolBack(mask.Some?, k1);
    if mask.Some? {
      FieldBack(101, 101, Prefixed(mask.value) + k);
      BlobBack(mask.value, k);
    }
  }

  lemma HeadBack(geo: Option<nat>, mask: Option<Bytes>, count: nat, k: Bytes)
    requires OptionWord(geo) && Covers(mask, count) && (mask.Some? ==> |mask.value| < P64)
    ensures DecodeFlatHead(Ok(GeoBytes(geo, MaskBytes(mask, k))), count) == (Ok(k), Some(FlatHead(geo.Some?, mask)))
    ensures TryField(Ok(GeoBytes(geo, MaskBytes(mask, k))), 90) == (Ok(GeoBytes(geo, MaskBytes(mask, k))), false)
  {
    hide TryField, Bool, Blob, Uvarint, FieldId, UvEncode, MaskBytes;
    MaskBack(mask, geo.Some?, count, k);
    if geo.Some? {
      var k1 := MaskBytes(mask, k);
      FieldBack(99, 99, UvEncode(geo.value) + k1);
      FieldBack(99, 90, UvEncode(geo.value) + k1);
      UvarintBack(geo.value, k1);
    }
  }

  /** Reading an untagged vector is reading its flat body after the head. */
  lemma FlatBack(v: Vec, t: LogicalType, count: nat, depth: nat, k: Bytes)
    requires depth <= MAX_TYPE_DEPTH && v.Flat? && Shaped(v, t, count)
    requires var h := FlatHead(v.geo.Some?, v.mask);
             DecodeFlatBody(Ok(BodyBytes(v.body, k)), t, count, depth, h) == (Ok(k), BodyMeaning(v.body, t, count, h))
    ensures DecodeVector(Ok(VecBytes(v, k)), t, count, depth) == (Ok(k), Meaning(v, t, count))
  {
    hide TryField, Uvarint, FieldId, UvEncode, MaskBytes, GeoBytes, DecodeFlatBody, DecodeFlatHead, BodyBytes, BodyMeaning,
      DecodeConstant, DecodeDictionary, DecodeSequence, BodyShaped, Covers;
    HeadBack(v.geo, v.mask, count, BodyBytes(v.body, k));
  }

  // Text.

  ghost function TextVals(id: nat, items: seq<Bytes>, mask: Option<Bytes>, skip: bool): (s: seq<Value>)
    requires Covers(mask, |items|)
    requires skip || forall i :: 0 <= i < |items| && IsValid(mask, i) ==> TextValue(id, items[i]).Some?
    ensures |s| == |items|
  {
    seq(|items|, i requires 0 <= i < |items| =>
      if !skip && IsValid(mask, i) then TextValue(id, items[i]).value else VNull)
  }

  lemma {:induction false} TextEntriesBack(items: seq<Bytes>, id: nat, mask: Option<Bytes>, skip: bool, n: nat, k: Bytes)
    requires Covers(mask, |items|) && n <= |items| && forall item <- items :: |item| < P64
    requires skip || forall i :: 0 <= i < |items| && IsValid(mask, i) ==> TextValue(id, items[i]).Some?
    ensures DecodeTextEntries(Ok(StringsBytes(items[n..], k)), id, |items|, mask, skip, TextVals(id, items, mask, skip)[..n])
            == (Ok(k), Some(TextVals(id, items, mask, skip)))
    decreases |items| - n
  {
    hide Blob, Prefixed, TextValue;
    var all := TextVals(id, items, mask, skip);
    if n == |items| {
      assert all[..n] == all;
    } else {
      BlobBack(items[n], StringsBytes(items[n + 1..], k));
      assert items[n..][1..] == items[n + 1..];
      assert all[..n] + [all[n]] == all[..n + 1];
      TextEntriesBack(items, id, mask, skip, n + 1, k);
    }
  }

  lemma TextsBack(items: seq<Bytes>, t: LogicalType, count: nat, h: FlatHead, k: Bytes)
    requires count <= MAX_VECTOR_ROWS && Covers(h.mask, count) && BodyShaped(Texts(items), t, count, h)
    ensures DecodeTexts(Ok(BodyBytes(Texts(items), k)), t, count, h) == (Ok(k), BodyMeaning(Texts(items), t, count, h))
  {
    hide TryField, ListCount, FieldId, UvEncode, DecodeTextEntries, TextValue, StringsBytes;
    var skip := h.geo || t.id == GEOMETRY;
    FieldBack(102, 102, UvEncode(count) + StringsBytes(items, k));
    ListCountBack(count, StringsBytes(items, k));
    TextEntriesBack(items, t.id, h.mask, skip, 0, k);
    assert items[0..] == items && TextVals(t.id, items, h.mask, skip)[..0] == [];
    if !skip {
      assert BodyMeaning(Texts(items), t, count, h).vals == TextVals(t.id, items, h.mask, skip);
    }
  }

  // Struct children.

  ghost function KidsSoFar(kids: seq<Vec>, fields: seq<StructField>, count: nat, geo: bool, n: nat): (c: Children)
    requires |kids| == |fields| && n <= |kids|
    requires forall i :: 0 <= i < |kids| ==> Shaped(kids[i], fields[i].typ, count)
    ensures ChildrenOf(c, n, count)
  {
    var ms := seq(n, i requires 0 <= i < n => Meaning(kids[i], fields[i].typ, count));
    Children(
      seq(n, i requires 0 <= i < n => if ms[i].Vals? then ms[i].vals else []),
      geo || exists i :: 0 <= i < n && ms[i].Unsupported?)
  }

  lemma KidsSoFarNext(kids: seq<Vec>, fields: seq<StructField>, count: nat, geo: bool, n: nat)
    requires |kids| == |fields| && n < |kids|
    requires forall i :: 0 <= i < |kids| ==> Shaped(kids[i], fields[i].typ, count)
    ensures var acc, v := KidsSoFar(kids, fields, count, geo, n), Meaning(kids[n], fields[n].typ, count);
            KidsSoFar(kids, fields, count, geo, n + 1)
            == if v.Vals? then acc.(cols := acc.cols + [v.vals]) else Children(acc.cols + [[]], true)
  {
    hide Meaning, Shaped;
    var next := KidsSoFar(kids, fields, count, geo, n + 1);
    var acc, v := KidsSoFar(kids, fields, count, geo, n), Meaning(kids[n], fields[n].typ, count);
    assert next.cols == acc.cols + [if v.Vals? then v.vals else []];
    var ms := seq(n + 1, i requires 0 <= i < n + 1 => Meaning(kids[i], fields[i].typ, count));
    var ms0 := seq(n, i requires 0 <= i < n => Meaning(kids[i], fields[i].typ, count));
    assert forall i :: 0 <= i < n ==> ms[i] == ms0[i];
    assert ms[n] == v;
    assert next.bad == (acc.bad || v.Unsupported?);
  }

  lemma StructBack(kids: seq<Vec>, t: LogicalType, count: nat, depth: nat, h: FlatHead, k: Bytes)
    requires depth <= MAX_TYPE_DEPTH && count <= MAX_VECTOR_ROWS
    requires Covers(h.mask, count) && BodyShaped(Kids(kids), t, count, h)
    requires DecodeChildren(Ok(KidsBytes(kids, k)), t.fields, count, depth, Children([], h.geo))
             == (Ok(k), Some(KidsSoFar(kids, t.fields, count, h.geo, |kids|)), Malformed)
    ensures DecodeStruct(Ok(BodyBytes(Kids(kids), k)), t, count, depth, h) == (Ok(k), BodyMeaning(Kids(kids), t, count, h))
  {
    hide TryField, ListCount, FieldId, UvEncode, DecodeChildren, KidsBytes, Meaning, Shaped, StructRows;
    FieldBack(103, 103, UvEncode(|kids|) + KidsBytes(kids, k));
    ListCountBack(|kids|, KidsBytes(kids, k));
    var c := KidsSoFar(kids, t.fields, count, h.geo, |kids|);
    var ms := seq(|kids|, i requires 0 <= i < |kids| => Meaning(kids[i], t.fields[i].typ, count));
    assert forall i :: 0 <= i < |kids| ==> ms[i] == Meaning(kids[i], t.fields[i].typ, count);
    assert c.bad == (h.geo || exists i :: 0 <= i < |kids| && ms[i].Unsupported?);
    if exists i :: 0 <= i < |kids| && ms[i].Unsupported? {
      var i :| 0 <= i < |kids| && ms[i].Unsupported?;
      assert Meaning(kids[i], t.fields[i].typ, count).Unsupported?;
    }
    if !c.bad {
      assert forall i :: 0 <= i < |kids| ==> ms[i].Vals?;
      assert forall i :: 0 <= i < |kids| ==> Meaning(kids[i], t.fields[i].typ, count).Vals?;
      assert c.cols == seq(|kids|, i requires 0 <= i < |kids| => Meaning(kids[i], t.fields[i].typ, count).vals);
    }
  }

  // List windows.

  lemma EntryBack(e: WindowEntry, k: Bytes)
    requires OptionWord(e.off) && OptionWord(e.len)
    ensures var r := Ok(OptionBytes(100, e.off, OptionBytes(101, e.len, EndMark() + k)));
            var (r1, hasOff) := TryField(r, 100);
            var (r2, off) := if hasOff then Uvarint(r1) else (r1, 0);
            var (r3, hasLen) := TryField(r2, 101);
            var (r4, len) := if hasLen then Uvarint(r3) else (r3, 0);
            EndObject(r4) == Ok(k) && Window(off, len) == WindowOf(e)
  {
    hide TryField, Uvarint, EndObject, FieldId, UvEncode;
    var k1 := EndMark() + k;
    var k2 := OptionBytes(101, e.len, k1);
    EndBack(k);
    if e.len.Some? {
      FieldBack(101, 101, UvEncode(e.len.value) + k1);
      FieldBack(101, 100, UvEncode(e.len.value) + k1);
      UvarintBack(e.len.value, k1);
    } else {
      EndNotField(101, k);
      EndNotField(100, k);
    }
    if e.off.Some? {
      FieldBack(100, 100, UvEncode(e.off.value) + k2);
      UvarintBack(e.off.value, k2);
    }
  }

  lemma {:induction false} WindowsBack(es: seq<WindowEntry>, n: nat, k: Bytes)
    requires n <= |es| && forall e <- es :: OptionWord(e.off) && OptionWord(e.len)
    ensures DecodeWindows(Ok(EntriesBytes(es[n..], k)), |es|, WindowsOf(es)[..n]) == (Ok(k), WindowsOf(es))
    decreases |es| - n
  {
    hide TryField, Uvarint, EndObject, FieldId, UvEncode, OptionBytes, WindowOf;
    if n == |es| {
      assert WindowsOf(es)[..n] == WindowsOf(es);
    } else {
      EntryBack(es[n], EntriesBytes(es[n + 1..], k));
      assert es[n..][1..] == es[n + 1..];
      assert WindowsOf(es)[..n] + [WindowOf(es[n])] == WindowsOf(es)[..n + 1];
      WindowsBack(es, n + 1, k);
    }
  }

  lemma {:induction false} ListRowsMean(id: nat, ws: seq<Window>, child: seq<Value>, mask: Option<Bytes>, all: seq<Value>, n: nat)
    requires Covers(mask, |ws|) && n <= |ws| == |all|
    requires forall i :: 0 <= i < |ws| && IsValid(mask, i) ==> WindowFits(ws[i], |child|)
    requires forall i :: 0 <= i < |ws| ==> all[i] == if IsValid(mask, i) then ListRow(id, ws[i], child) else VNull
    ensures ListRows(id, ws, child, mask, all[..n]) == Some(all)
    decreases |ws| - n
  {
    if n == |ws| {
      assert all[..n] == all;
    } else {
      assert all[..n] + [all[n]] == all[..n + 1];
      ListRowsMean(id, ws, child, mask, all, n + 1);
    }
  }

  lemma ListBack(b: Body, t: LogicalType, count: nat, depth: nat, h: FlatHead, k: Bytes)
    requires depth <= MAX_TYPE_DEPTH && count <= MAX_VECTOR_ROWS
    requires b.Windows? && Covers(h.mask, count) && BodyShaped(b, t, count, h)
    requires var k1 := EndMark() + k;
             DecodeVector(Ok(VecBytes(b.child, k1)), t.child.value, b.size, depth + 1)
             == (Ok(k1), Meaning(b.child, t.child.value, b.size))
    ensures DecodeList(Ok(BodyBytes(b, k)), t, count, depth, h) == (Ok(k), BodyMeaning(b, t, count, h))
  {
    hide TryField, Uvarint, ListCount, EndObject, FieldId, UvEncode, DecodeVector, VecBytes, EntriesBytes, DecodeWindows, Meaning,
      Shaped, ListRow, ListRows, WindowOf;
    var m := Meaning(b.child, t.child.value, b.size);
    var k1 := VecBytes(b.child, EndMark() + k);
    var k2 := EntriesBytes(b.entries, FieldId(106) + k1);
    FieldBack(104, 104, UvEncode(b.size) + (FieldId(105) + (UvEncode(count) + k2)));
    UvarintBack(b.size, FieldId(105) + (UvEncode(count) + k2));
    FieldBack(105, 105, UvEncode(count) + k2);
    ListCountBack(count, k2);
    WindowsBack(b.entries, 0, FieldId(106) + k1);
    assert b.entries[0..] == b.entries && WindowsOf(b.entries)[..0] == [];
    FieldBack(106, 106, k1);
    EndBack(k);
    if m.Vals? && !h.geo {
      var all := BodyMeaning(b, t, count, h).vals;
      ListRowsMean(t.id, WindowsOf(b.entries), m.vals, h.mask, all, 0);
      assert all[..0] == [];
    }
  }

  // Array groups.

  lemma ArrayBack(b: Body, t: LogicalType, count: nat, depth: nat, h: FlatHead, k: Bytes)
    requires depth <= MAX_TYPE_DEPTH && count <= MAX_VECTOR_ROWS
    requires b.Groups? && Covers(h.mask, count) && BodyShaped(b, t, count, h)
    requires var k1 := EndMark() + k;
             DecodeVector(Ok(VecBytes(b.child, k1)), t.child.value, b.size * count, depth + 1)
             == (Ok(k1), Meaning(b.child, t.child.value, b.size * count))
    ensures DecodeArray(Ok(BodyBytes(b, k)), t, count, depth, h) == (Ok(k), BodyMeaning(b, t, count, h))
  {
    hide TryField, Uvarint, EndObject, FieldId, UvEncode, DecodeVector, VecBytes, Meaning, Shaped, ArrayRows;
    var k1 := VecBytes(b.child, EndMark() + k);
    FieldBack(103, 103, UvEncode(b.size) + (FieldId(104) + k1));
    UvarintBack(b.size, FieldId(104) + k1);
    FieldBack(104, 104, k1);
    EndBack(k);
  }

  // Fixed-width cells.

  lemma {:induction false} FixedRowsMean(t: LogicalType, data: Bytes, mask: Option<Bytes>, count: nat, all: seq<Value>, n: nat)
    requires KindOf(t.id) != KNone && |data| >= count * PhysicalWidth(t)
    requires Covers(mask, count) && n <= count == |all|
    requires forall i :: 0 <= i < count && IsValid(mask, i) ==> CellValue(t, data, count, i).Some?
    requires forall i :: 0 <= i < count ==> all[i] == if IsValid(mask, i) then CellValue(t, data, count, i).value else VNull
    ensures FixedRows(t, data, mask, count, all[..n]) == Some(all)
    decreases count - n
  {
    hide DecodeCell, KindOf, PhysicalWidth;
    if n == count {
      assert all[..n] == all;
    } else {
      assert all[..n] + [all[n]] == all[..n + 1];
      FixedRowsMean(t, data, mask, count, all, n + 1);
    }
  }

  lemma FixedBack(data: Bytes, t: LogicalType, count: nat, h: FlatHead, k: Bytes)
    requires count <= MAX_VECTOR_ROWS && Covers(h.mask, count) && BodyShaped(Fixed(data), t, count, h)
    ensures DecodeFixed(Ok(BodyBytes(Fixed(data), k)), t, count, h) == (Ok(k), BodyMeaning(Fixed(data), t, count, h))
  {
    hide TryField, Blob, FieldId, Prefixed, KindOf, PhysicalWidth, CellValue, FixedRows;
    FieldBack(102, 102, Prefixed(data) + k);
    BlobBack(data, k);
    var m := BodyMeaning(Fixed(data), t, count, h);
    if m.Vals? {
      FixedRowsMean(t, data, h.mask, count, m.vals, 0);
      assert m.vals[..0] == [];
    }
  }

  // ---- the theorem ------------------------------------------------------------------------

  /** Whatever encoding a server chooses at any nesting level, decodeVector
      returns exactly the values it stands for, or reports the one type it has
      no values for, and stops exactly behind it. */
  lemma {:induction false} VecBack(v: Vec, t: LogicalType, count: nat, depth: nat, k: Bytes)
    requires Shaped(v, t, count) && depth + Depth(v) <= MAX_TYPE_DEPTH
    ensures DecodeVector(Ok(VecBytes(v, EndMark() + k)), t, count, depth) == (Ok(EndMark() + k), Meaning(v, t, count))
    decreases v, 2
  {
    hide DecodeVector, VecBytes, Meaning, EndMark, DecodeFlatBody, BodyMeaning, BodyBytes;
    var k1 := EndMark() + k;
    match v
    case Constant(one) =>
      VecBack(one, t, 1, depth + 1, k);
      ConstantBack(one, t, count, depth, k1);
    case Dictionary(_, size, dict) =>
      VecBack(dict, t, size, depth + 1, k);
      CompressedBack(v, t, count, depth, k1);
    case Sequence(_, _) =>
      CompressedBack(v, t, count, depth, k1);
    case Flat(geo, mask, body) =>
      BodyBack(body, t, count, depth, FlatHead(geo.Some?, mask), k1);
      FlatBack(v, t, count, depth, k1);
  }

  function BodyDepth(b: Body): nat { Depth(Flat(None, None, b)) }

  lemma {:induction false} BodyBack(b: Body, t: LogicalType, count: nat, depth: nat, h: FlatHead, k: Bytes)
    requires count <= MAX_VECTOR_ROWS && Covers(h.mask, count) && BodyShaped(b, t, count, h)
    requires depth + BodyDepth(b) <= MAX_TYPE_DEPTH
    ensures DecodeFlatBody(Ok(BodyBytes(b, k)), t, count, depth, h) == (Ok(k), BodyMeaning(b, t, count, h))
    decreases b, 1
  {
    hide DecodeVector, VecBytes, BodyBytes, Meaning, EndMark, BodyMeaning, DecodeTexts, DecodeStruct, DecodeList, DecodeArray, DecodeFixed,
      KidsSoFar, DecodeChildren, KidsBytes;
    match b
    case Texts(items) => TextsBack(items, t, count, h, k);
    case Kids(kids) =>
      KidsBack(kids, t.fields, count, depth, h.geo, 0, k);
      KidsStart(kids, t.fields, count, h.geo);
      StructBack(kids, t, count, depth, h, k);
    case Windows(size, _, child) =>
      VecBack(child, t.child.value, size, depth + 1, k);
      ListBack(b, t, count, depth, h, k);
    case Groups(size, child) =>
      VecBack(child, t.child.value, size * count, depth + 1, k);
      ArrayBack(b, t, count, depth, h, k);
    case Fixed(data) => FixedBack(data, t, count, h, k);
  }

  lemma KidsStart(kids: seq<Vec>, fields: seq<StructField>, count: nat, geo: bool)
    requires |kids| == |fields|
    requires forall i :: 0 <= i < |kids| ==> Shaped(kids[i], fields[i].typ, count)
    ensures KidsSoFar(kids, fields, count, geo, 0) == Children([], geo)
    ensures kids[0..] == kids
  {
  }

  lemma {:induction false} KidsBack(kids: seq<Vec>, fields: seq<StructField>, count: nat, depth: nat, geo: bool, n: nat, k: Bytes)
    requires |kids| == |fields| && n <= |kids| && depth <= MAX_TYPE_DEPTH
    requires forall i :: 0 <= i < |kids| ==> Shaped(kids[i], fields[i].typ, count)
    requires forall i :: n <= i < |kids| ==> depth + 1 + Depth(kids[i]) <= MAX_TYPE_DEPTH
    ensures DecodeChildren(Ok(KidsBytes(kids[n..], k)), fields, count, depth, KidsSoFar(kids, fields, count, geo, n))
            == (Ok(k), Some(KidsSoFar(kids, fields, count, geo, |kids|)), Malformed)
    decreases kids[n..], 0
  {
    hide DecodeVector, VecBytes, Meaning, EndObject, FieldId, KidsSoFar, Shaped, Depth;
    if n < |kids| {
      var k1 := KidsBytes(kids[n + 1..], k);
      assert kids[n..][0] == kids[n] && kids[n..][1..] == kids[n + 1..];
      VecBack(kids[n], fields[n].typ, count, depth + 1, k1);
      EndBack(k1);
      KidsSoFarNext(kids, fields, count, geo, n);
      KidsBack(kids, fields, count, depth, geo, n + 1, k);
    }
  }
}
