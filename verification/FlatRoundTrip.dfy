/** The flat encoding of a column is well-shaped and means the column. */
module FlatRoundTrip {
  import opened Basics
  import opened LogicalTypes
  import opened Values
  import opened Vectors
  import opened VectorWire
  import opened FlatEncoding

  /** `v` encodes exactly the values `vals`. */
  ghost predicate Encodes(v: Vec, t: LogicalType, vals: seq<Value>)
  {
    Shaped(v, t, |vals|) && Meaning(v, t, |vals|) == Vals(vals)
  }

  lemma FlatStands(v: Vec, t: LogicalType, vals: seq<Value>)
    requires |vals| <= MAX_VECTOR_ROWS && v.Flat? && v.geo.None?
    requires (v.mask.Some? ==> |v.mask.value| < P64) && Covers(v.mask, |vals|)
    requires var h := FlatHead(false, v.mask);
             BodyShaped(v.body, t, |vals|, h) && BodyMeaning(v.body, t, |vals|, h) == Vals(vals)
    ensures Encodes(v, t, vals)
  {
    hide BodyShaped, BodyMeaning, Covers, Withheld, BodyWithheld;
  }

  // ---- text -------------------------------------------------------------------------

  lemma TextBack(t: LogicalType, v: Value)
    requires SupportedType(t) && IsScalarText(t.id) && Typed(t, v)
    ensures |TextBytes(t.id, v)| < P64
    ensures !v.VNull? ==> TextValue(t.id, TextBytes(t.id, v)) == Some(v)
  {
    hide BitString, BitBlob;
    if t.id == BIT && !v.VNull? {
      BitBack(v.s);
    }
  }

  lemma TextsEncode(t: LogicalType, vals: seq<Value>)
    requires SupportedType(t) && IsScalarText(t.id) && AllTyped(t, vals) && WithinLimits(t, vals)
    ensures Encodes(FlatOf(t, vals), t, vals)
  {
    var v := FlatOf(t, vals);
    var items, mask := v.body.items, v.mask;
    MaskCovers(vals);
    forall i | 0 <= i < |vals|
      ensures |items[i]| < P64
      ensures IsValid(mask, i) <==> !vals[i].VNull?
      ensures !vals[i].VNull? ==> TextValue(t.id, items[i]) == Some(vals[i])
    {
      assert vals[i] in vals;
      TextBack(t, vals[i]);
      ValidityBack(vals, i);
    }
    hide TextValue, IsValid, TextBytes, ValidityMask, Meaning, Shaped, Withheld, BodyWithheld, FlatOf, Typed, SupportedType, Encodes;
    assert BodyShaped(v.body, t, |vals|, FlatHead(false, mask));
    assert BodyMeaning(v.body, t, |vals|, FlatHead(false, mask)).vals == vals;
    FlatStands(v, t, vals);
  }

  // ---- structs ------------------------------------------------------------------------

  lemma StructEncodes(t: LogicalType, vals: seq<Value>)
    requires SupportedType(t) && t.id == STRUCT && AllTyped(t, vals) && WithinLimits(t, vals) && |t.fields| < P64
    requires forall j :: 0 <= j < |t.fields| ==>
               AllTyped(t.fields[j].typ, ChildColumn(vals, j))
               && Encodes(FlatOf(t.fields[j].typ, ChildColumn(vals, j)), t.fields[j].typ, ChildColumn(vals, j))
    ensures Encodes(FlatOf(t, vals), t, vals)
  {
    hide Meaning, Shaped, Withheld, BodyWithheld, ValidityMask, Typed, ChildColumn;
    var v := FlatOf(t, vals);
    var kids, mask, n := v.body.kids, v.mask, |vals|;
    MaskCovers(vals);
    assert forall j :: 0 <= j < |kids| ==> kids[j] == FlatOf(t.fields[j].typ, ChildColumn(vals, j));
    assert forall j :: 0 <= j < |kids| ==> Shaped(kids[j], t.fields[j].typ, n);
    assert forall j :: 0 <= j < |kids| ==> Meaning(kids[j], t.fields[j].typ, n) == Vals(ChildColumn(vals, j));
    hide FlatOf, Encodes, SupportedType, WithinLimits;
    var cols := seq(|kids|, j requires 0 <= j < |kids| => ChildColumn(vals, j));
    StructRowsBack(t, vals, cols);
    assert BodyShaped(v.body, t, n, FlatHead(false, mask));
    assert seq(|kids|, j requires 0 <= j < |kids| => Meaning(kids[j], t.fields[j].typ, n).vals) == cols;
    assert BodyMeaning(v.body, t, n, FlatHead(false, mask)) == Vals(StructRows(t.fields, cols, mask, n));
    FlatStands(v, t, vals);
  }

  lemma StructRowsBack(t: LogicalType, vals: seq<Value>, cols: seq<seq<Value>>)
    requires SupportedType(t) && t.id == STRUCT && AllTyped(t, vals)
    requires |cols| == |t.fields| && forall j :: 0 <= j < |cols| ==> cols[j] == ChildColumn(vals, j)
    ensures Covers(ValidityMask(vals), |vals|)
    ensures forall col <- cols :: |col| == |vals|
    ensures StructRows(t.fields, cols, ValidityMask(vals), |vals|) == vals
  {
    MaskCovers(vals);
    hide ValidityMask;
    forall row | 0 <= row < |vals|
      ensures IsValid(ValidityMask(vals), row) <==> !vals[row].VNull?
      ensures !vals[row].VNull? ==> StructRow(t.fields, cols, row) == vals[row]
    {
      ValidityBack(vals, row);
      assert Typed(t, vals[row]);
      if !vals[row].VNull? {
        forall j | 0 <= j < |t.fields|
          ensures Entry(t.fields[j].name, cols[j][row]) == vals[row].entries[j]
        {
        }
        assert StructRow(t.fields, cols, row).entries == vals[row].entries;
      }
    }
  }

  // ---- lists and maps -------------------------------------------------------------------

  lemma {:induction false} FlattenSlice(t: LogicalType, vals: seq<Value>, i: nat)
    requires t.id == MAP ==> t.child.Some? && |t.child.value.fields| == 2
    requires i < |vals|
    ensures var off, len := |Flatten(t, vals[..i])|, |RowElems(t, vals[i])|;
            && off + len <= |Flatten(t, vals)|
            && Flatten(t, vals)[off..off + len] == RowElems(t, vals[i])
    decreases |vals|
  {
    var init := vals[..|vals| - 1];
    if i < |init| {
      FlattenSlice(t, init, i);
      assert vals[..i] == init[..i];
    } else {
      assert vals[..i] == init;
    }
  }

  lemma RowBack(t: LogicalType, v: Value)
    requires SupportedType(t) && IsList(t.id) && Typed(t, v) && !v.VNull?
    ensures (if t.id == MAP then VMap(PairsOf(RowElems(t, v))) else VList(RowElems(t, v))) == v
  {
    if t.id == MAP {
      assert PairsOf(RowElems(t, v)) == v.pairs;
    }
  }

  lemma WindowsUnfold(size: nat, es: seq<WindowEntry>, child: Vec, t: LogicalType, mask: Option<Bytes>, elems: seq<Value>,
                      vals: seq<Value>)
    requires IsList(t.id) && t.child.Some? && Covers(mask, |vals|) && |es| == |vals| && |elems| == size <= MAX_VECTOR_ROWS
    requires Shaped(child, t.child.value, size) && Meaning(child, t.child.value, size) == Vals(elems)
    requires forall i :: 0 <= i < |vals| ==>
               && OptionWord(es[i].off) && OptionWord(es[i].len) && WindowFits(WindowOf(es[i]), size)
               && vals[i] == if IsValid(mask, i) then ListRow(t.id, WindowOf(es[i]), elems) else VNull
    ensures var b, h := Windows(size, es, child), FlatHead(false, mask);
            BodyShaped(b, t, |vals|, h) && BodyMeaning(b, t, |vals|, h) == Vals(vals)
  {
    hide Meaning, Shaped, Withheld, BodyWithheld, ListRow, WindowOf, IsValid, OptionWord, WindowFits;
    assert BodyMeaning(Windows(size, es, child), t, |vals|, FlatHead(false, mask)).vals == vals;
  }

  lemma ListEncodes(t: LogicalType, vals: seq<Value>)
    requires SupportedType(t) && IsList(t.id) && AllTyped(t, vals) && WithinLimits(t, vals)
    requires AllTyped(t.child.value, Flatten(t, vals))
    requires Encodes(FlatOf(t.child.value, Flatten(t, vals)), t.child.value, Flatten(t, vals))
    ensures Encodes(FlatOf(t, vals), t, vals)
  {
    var v := FlatOf(t, vals);
    var es, mask, n, child := v.body.entries, v.mask, |vals|, Flatten(t, vals);
    MaskCovers(vals);
    assert v == Flat(None, ValidityMask(vals), Windows(|child|, WindowEntries(t, vals), FlatOf(t.child.value, child)));
    assert n <= MAX_VECTOR_ROWS && |child| <= MAX_VECTOR_ROWS;
    WindowRows(t, vals);
    hide Meaning, Shaped, FlatOf, ValidityMask, Flatten, RowElems, WithinLimits, AllTyped, Typed, SupportedType, WindowEntries, ListRow,
      WindowOf, WindowFits, OptionWord, IsValid, Covers;
    WindowsUnfold(|child|, es, v.body.child, t, mask, child, vals);
    hide Encodes, BodyShaped, BodyMeaning;
    FlatStands(v, t, vals);
  }

  lemma WindowRows(t: LogicalType, vals: seq<Value>)
    requires SupportedType(t) && IsList(t.id) && AllTyped(t, vals) && |vals| <= MAX_VECTOR_ROWS && |Flatten(t, vals)| <= MAX_VECTOR_ROWS
    ensures var es, child := WindowEntries(t, vals), Flatten(t, vals);
            forall i :: 0 <= i < |vals| ==>
              && OptionWord(es[i].off) && OptionWord(es[i].len)
              && WindowFits(WindowOf(es[i]), |child|)
              && Covers(ValidityMask(vals), |vals|)
              && (IsValid(ValidityMask(vals), i) <==> !vals[i].VNull?)
              && (!vals[i].VNull? ==> ListRow(t.id, WindowOf(es[i]), child) == vals[i])
  {
    MaskCovers(vals);
    assert t.id == MAP ==> t.child.Some? && |t.child.value.fields| == 2;
    hide ValidityMask, IsValid, Flatten, RowElems, SupportedType, WindowEntries, WindowOf, WindowFits, ListRow, AllTyped;
    forall i | 0 <= i < |vals|
      ensures OptionWord(WindowEntries(t, vals)[i].off) && OptionWord(WindowEntries(t, vals)[i].len)
      ensures WindowFits(WindowOf(WindowEntries(t, vals)[i]), |Flatten(t, vals)|)
      ensures IsValid(ValidityMask(vals), i) <==> !vals[i].VNull?
      ensures !vals[i].VNull? ==> ListRow(t.id, WindowOf(WindowEntries(t, vals)[i]), Flatten(t, vals)) == vals[i]
    {
      ValidityBack(vals, i);
      WindowRow(t, vals, i);
    }
  }

  lemma WindowRow(t: LogicalType, vals: seq<Value>, i: nat)
    requires SupportedType(t) && IsList(t.id) && AllTyped(t, vals) && i < |vals| && |Flatten(t, vals)| <= MAX_VECTOR_ROWS
    ensures var w, e := WindowOf(WindowEntries(t, vals)[i]), WindowEntries(t, vals)[i];
            && OptionWord(e.off) && OptionWord(e.len)
            && WindowFits(w, |Flatten(t, vals)|)
            && (!vals[i].VNull? ==> ListRow(t.id, w, Flatten(t, vals)) == vals[i])
  {
    FlattenSlice(t, vals, i);
    assert Typed(t, vals[i]);
    hide Flatten, RowElems, SupportedType, PairsOf, Typed, AllTyped;
    if !vals[i].VNull? {
      RowBack(t, vals[i]);
    }
  }

  // ---- arrays -----------------------------------------------------------------------------

  lemma {:induction false} GroupsSlice(size: nat, vals: seq<Value>, i: nat)
    requires i < |vals|
    ensures Group(FlattenGroups(size, vals), size, |vals|, i) == GroupElems(size, vals[i])
    decreases |vals|
  {
    var n := |vals| - 1;
    var init := vals[..n];
    GroupFits(size, |vals|, i);
    assert size * |vals| == size * n + size;
    if i < n {
      GroupsSlice(size, init, i);
      GroupFits(size, n, i);
    } else {
      assert i * size == size * n;
    }
  }

  lemma GroupsUnfold(size: nat, child: Vec, t: LogicalType, count: nat, mask: Option<Bytes>, elems: seq<Value>)
    requires t.id == ARRAY && t.child.Some? && Covers(mask, count)
    requires size <= MAX_VECTOR_ROWS && size * count <= MAX_VECTOR_ROWS && |elems| == size * count
    requires Shaped(child, t.child.value, size * count) && Meaning(child, t.child.value, size * count) == Vals(elems)
    ensures var b, h := Groups(size, child), FlatHead(false, mask);
            BodyShaped(b, t, count, h) && BodyMeaning(b, t, count, h) == Vals(ArrayRows(size, elems, mask, count))
  {
    hide Meaning, Shaped, Withheld, BodyWithheld, ArrayRows, Covers;
  }

  lemma ArrayEncodes(t: LogicalType, vals: seq<Value>)
    requires SupportedType(t) && t.id == ARRAY && AllTyped(t, vals) && WithinLimits(t, vals)
    requires AllTyped(t.child.value, FlattenGroups(t.arraySize, vals))
    requires Encodes(FlatOf(t.child.value, FlattenGroups(t.arraySize, vals)), t.child.value, FlattenGroups(t.arraySize, vals))
    ensures Encodes(FlatOf(t, vals), t, vals)
  {
    var v := FlatOf(t, vals);
    var mask, n, child, size := v.mask, |vals|, FlattenGroups(t.arraySize, vals), t.arraySize;
    MaskCovers(vals);
    assert n <= MAX_VECTOR_ROWS && |child| <= MAX_VECTOR_ROWS && size <= MAX_VECTOR_ROWS;
    hide Meaning, Shaped, Withheld, BodyWithheld, FlatOf, ValidityMask, FlattenGroups, WithinLimits, Group;
    forall i | 0 <= i < n
      ensures IsValid(mask, i) <==> !vals[i].VNull?
      ensures !vals[i].VNull? ==> VList(Group(child, size, n, i)) == vals[i]
    {
      GroupsSlice(size, vals, i);
      ValidityBack(vals, i);
      assert Typed(t, vals[i]);
    }
    GroupsUnfold(size, v.body.child, t, n, mask, child);
    assert ArrayRows(size, child, mask, n) == vals;
    hide BodyShaped, BodyMeaning, IsValid, ArrayRows, Encodes;
    FlatStands(v, t, vals);
  }

  // ---- fixed-width cells -----------------------------------------------------------------

  lemma {:induction false} CellsSlice(t: LogicalType, vals: seq<Value>, i: nat)
    requires KindOf(t.id) != KNone && i < |vals| && forall v <- vals :: v.VNull? || CellTyped(t, v)
    requires (i + 1) * PhysicalWidth(t) <= |CellsBytes(t, vals)|
    ensures CellAt(CellsBytes(t, vals), PhysicalWidth(t), i) == CellBytes(t, vals[i])
    decreases |vals|
  {
    hide CellBytes, CellTyped, PhysicalWidth, KindOf;
    var n, w := |vals| - 1, PhysicalWidth(t);
    var init := vals[..n];
    assert |vals| * w == n * w + w && (i + 1) * w == i * w + w;
    if i < n {
      MulMono(i + 1, n, w);
      CellsSlice(t, init, i);
    } else {
      assert i * w == n * w;
    }
  }

  lemma FixedUnfold(data: Bytes, t: LogicalType, mask: Option<Bytes>, vals: seq<Value>)
    requires KindOf(t.id) != KNone && !IsText(t.id) && !IsStructLike(t.id) && !IsList(t.id) && t.id != ARRAY
    requires |data| == |vals| * PhysicalWidth(t) && |data| < P64 && Covers(mask, |vals|)
    requires forall i :: 0 <= i < |vals| ==>
               && (IsValid(mask, i) <==> !vals[i].VNull?)
               && (!vals[i].VNull? ==> CellValue(t, data, |vals|, i) == Some(vals[i]))
    ensures var h := FlatHead(false, mask);
            BodyShaped(Fixed(data), t, |vals|, h) && BodyMeaning(Fixed(data), t, |vals|, h) == Vals(vals)
  {
    hide CellValue, PhysicalWidth, KindOf, IsValid, Withheld, BodyWithheld;
    assert BodyMeaning(Fixed(data), t, |vals|, FlatHead(false, mask)).vals == vals;
  }

  lemma FixedTyped(t: LogicalType, vals: seq<Value>)
    requires SupportedType(t) && AllTyped(t, vals)
    requires !IsText(t.id) && !IsStructLike(t.id) && !IsList(t.id) && t.id != ARRAY
    ensures KindOf(t.id) != KNone && forall v <- vals :: v.VNull? || CellTyped(t, v)
    ensures FlatOf(t, vals) == Flat(None, ValidityMask(vals), Fixed(CellsBytes(t, vals)))
  {
    hide CellTyped, KindOf, ValidityMask, CellsBytes;
  }

  lemma FixedEncodes(t: LogicalType, vals: seq<Value>)
    requires SupportedType(t) && AllTyped(t, vals) && WithinLimits(t, vals)
    requires !IsText(t.id) && !IsStructLike(t.id) && !IsList(t.id) && t.id != ARRAY
    ensures Encodes(FlatOf(t, vals), t, vals)
  {
    assert |vals| <= MAX_VECTOR_ROWS;
    hide SupportedType, AllTyped, WithinLimits, FlatOf, Encodes, ValidityMask, CellsBytes, CellValue, CellTyped, PhysicalWidth, KindOf,
      IsValid, BodyShaped, BodyMeaning, Covers, IsText, IsStructLike, IsList;
    FixedTyped(t, vals);
    MaskCovers(vals);
    CellRows(t, vals);
    FixedUnfold(CellsBytes(t, vals), t, ValidityMask(vals), vals);
    FlatStands(FlatOf(t, vals), t, vals);
  }

  lemma CellRows(t: LogicalType, vals: seq<Value>)
    requires KindOf(t.id) != KNone && |vals| <= MAX_VECTOR_ROWS && forall v <- vals :: v.VNull? || CellTyped(t, v)
    ensures |CellsBytes(t, vals)| < P64 && Covers(ValidityMask(vals), |vals|)
    ensures forall i :: 0 <= i < |vals| ==>
              && (IsValid(ValidityMask(vals), i) <==> !vals[i].VNull?)
              && (!vals[i].VNull? ==> CellValue(t, CellsBytes(t, vals), |vals|, i) == Some(vals[i]))
  {
    var n, w := |vals|, PhysicalWidth(t);
    MaskCovers(vals);
    assert w <= 16;
    MulMono(n, MAX_VECTOR_ROWS, w);
    assert MAX_VECTOR_ROWS * w < P64;
    hide ValidityMask, CellsBytes, CellTyped, CellValue, IsValid, PhysicalWidth;
    forall i | 0 <= i < n
      ensures IsValid(ValidityMask(vals), i) <==> !vals[i].VNull?
      ensures !vals[i].VNull? ==> CellValue(t, CellsBytes(t, vals), n, i) == Some(vals[i])
    {
      ValidityBack(vals, i);
      CellRow(t, vals, i);
    }
  }

  lemma CellRow(t: LogicalType, vals: seq<Value>, i: nat)
    requires KindOf(t.id) != KNone && i < |vals| && forall v <- vals :: v.VNull? || CellTyped(t, v)
    ensures !vals[i].VNull? ==> CellValue(t, CellsBytes(t, vals), |vals|, i) == Some(vals[i])
  {
    hide CellBytes, CellsBytes, DecodeCell, CellTyped, PhysicalWidth, KindOf;
    MulMono(i + 1, |vals|, PhysicalWidth(t));
    CellsSlice(t, vals, i);
    if !vals[i].VNull? {
      CellBack(t, vals[i]);
    }
  }

  lemma {:induction false} FlatEncodes(t: LogicalType, vals: seq<Value>)
    requires SupportedType(t) && WellFormed(t) && AllTyped(t, vals) && WithinLimits(t, vals)
    ensures Encodes(FlatOf(t, vals), t, vals)
    decreases t
  {
    hide FlatOf, Encodes, ChildColumn, Flatten, FlattenGroups, AllTyped, Height;
    ChildrenTyped(t, vals);
    if IsScalarText(t.id) {
      TextsEncode(t, vals);
    } else if t.id == STRUCT {
      forall j | 0 <= j < |t.fields|
        ensures Encodes(FlatOf(t.fields[j].typ, ChildColumn(vals, j)), t.fields[j].typ, ChildColumn(vals, j))
      {
        FlatEncodes(t.fields[j].typ, ChildColumn(vals, j));
      }
      StructEncodes(t, vals);
    } else if IsList(t.id) {
      FlatEncodes(t.child.value, Flatten(t, vals));
      ListEncodes(t, vals);
    } else if t.id == ARRAY {
      FlatEncodes(t.child.value, FlattenGroups(t.arraySize, vals));
      ArrayEncodes(t, vals);
    } else {
      FixedEncodes(t, vals);
    }
  }

  /** Vectors nest no deeper than their types. */
  lemma {:induction false} FlatDepth(t: LogicalType, vals: seq<Value>)
    requires SupportedType(t) && WellFormed(t) && AllTyped(t, vals)
    ensures Depth(FlatOf(t, vals)) <= Height(t)
    decreases t
  {
    ChildrenTyped(t, vals);
    var v := FlatOf(t, vals);
    if IsScalarText(t.id) {
    } else if t.id == STRUCT {
      forall j | 0 <= j < |t.fields|
        ensures Depth(v.body.kids[j]) <= Height(t.fields[j].typ)
      {
        FlatDepth(t.fields[j].typ, ChildColumn(vals, j));
      }
      DepthsBound(v.body.kids, t.fields);
    } else if IsList(t.id) {
      FlatDepth(t.child.value, Flatten(t, vals));
    } else if t.id == ARRAY {
      FlatDepth(t.child.value, FlattenGroups(t.arraySize, vals));
    }
  }

  lemma {:induction false} DepthsBound(kids: seq<Vec>, fields: seq<StructField>)
    requires |kids| == |fields| && forall j :: 0 <= j < |kids| ==> Depth(kids[j]) <= Height(fields[j].typ)
    ensures KidsDepth(kids) <= FieldsHeight(fields)
    decreases |kids|
  {
    if kids != [] {
      DepthsBound(kids[1..], fields[1..]);
    }
  }
}
