/** ARRAY lengths: a vector's group size comes from the wire and is not
    compared with the type's. When do decoded rows have the declared length
    all the same? */
module ArrayLengths {
  import opened Basics
  import opened Framing
  import opened LogicalTypes
  import opened Values
  import opened Vectors
  import opened VectorWire
  import opened VectorBack
  import opened VectorComplete

  /** Every ARRAY value inside `v` has the length its type declares. */
  predicate Declared(t: LogicalType, v: Value)
    decreases v
  {
    match v
    case VStruct(entries) =>
      t.id == STRUCT ==>
        forall i :: 0 <= i < |entries| && i < |t.fields| ==> Declared(t.fields[i].typ, entries[i].value)
    case VList(elems) =>
      && (t.id == ARRAY ==> |elems| == t.arraySize)
      && (t.child.Some? ==> forall i :: 0 <= i < |elems| ==> Declared(t.child.value, elems[i]))
    case VMap(pairs) =>
      PairedMap(t) ==>
        forall i :: 0 <= i < |pairs| ==>
          && Declared(t.child.value.fields[0].typ, pairs[i].key)
          && Declared(t.child.value.fields[1].typ, pairs[i].value)
    case _ => true
  }

  /** A MAP whose entries keep their keys and values when decoded. */
  predicate PairedMap(t: LogicalType)
  {
    t.id == MAP && t.child.Some? && t.child.value.id == STRUCT && |t.child.value.fields| == 2
  }

  // ---- one ARRAY vector -----------------------------------------------------------------

  /** The rows of one ARRAY vector have the declared length exactly when the
      wire's group size is the declared one, or every row is NULL. */
  lemma GroupLengths(b: Body, t: LogicalType, count: nat, h: FlatHead)
    requires Covers(h.mask, count) && BodyShaped(b, t, count, h) && b.Groups? && BodyMeaning(b, t, count, h).Vals?
    ensures (forall i :: 0 <= i < count && IsValid(h.mask, i) ==>
               BodyMeaning(b, t, count, h).vals[i].VList? && |BodyMeaning(b, t, count, h).vals[i].elems| == t.arraySize)
            <==> b.size == t.arraySize || forall i :: 0 <= i < count ==> !IsValid(h.mask, i)
  {
    var vals := BodyMeaning(b, t, count, h).vals;
    assert forall i :: 0 <= i < count && IsValid(h.mask, i) ==> vals[i].VList? && |vals[i].elems| == b.size;
  }

  // ---- any nesting ------------------------------------------------------------------------

  /** The rows of the child that the windows of the seen rows show. */
  ghost function Shown(ws: seq<WindowEntry>, seen: set<nat>, size: nat): set<nat>
  {
    set k: nat | k < size && ShownBy(ws, seen, k)
  }

  ghost predicate ShownBy(ws: seq<WindowEntry>, seen: set<nat>, k: nat)
  {
    exists i :: i in seen && i < |ws| && InWindow(WindowOf(ws[i]), k)
  }

  predicate InWindow(w: Window, k: nat) { w.off <= k < w.off + w.len }

  /** The rows of the child that the groups of the seen rows hold. */
  ghost function Grouped(size: nat, seen: set<nat>, count: nat): set<nat>
  {
    set k: nat | k < size * count && GroupedBy(size, seen, k)
  }

  ghost predicate GroupedBy(size: nat, seen: set<nat>, k: nat)
  {
    exists i :: i in seen && InGroup(i, size, k)
  }

  predicate InGroup(i: nat, size: nat, k: nat) { i * size <= k < i * size + size }

  ghost function NotNull(mask: Option<Bytes>, seen: set<nat>, count: nat): set<nat>
    requires Covers(mask, count)
  {
    set i: nat | i in seen && i < count && IsValid(mask, i)
  }

  /** Every group size that a seen row depends on is the declared one. What no
      row shows may have any size: NULL rows, entries not selected, child rows
      outside every window. */
  ghost predicate Agrees(v: Vec, t: LogicalType, count: nat, seen: set<nat>)
    requires Shaped(v, t, count)
    decreases v, 1
  {
    match v
    case Constant(one) => seen != {} ==> Agrees(one, t, 1, {0})
    case Dictionary(sel, size, dict) => Agrees(dict, t, size, set i | i in seen && i < count :: sel[i])
    case Sequence(_, _) => true
    case Flat(geo, mask, body) => BodyAgrees(body, t, count, FlatHead(geo.Some?, mask), NotNull(mask, seen, count))
  }

  /** The same for a flat vector, `rows` being its seen rows but the NULLs. */
  ghost predicate BodyAgrees(b: Body, t: LogicalType, count: nat, h: FlatHead, rows: set<nat>)
    requires Covers(h.mask, count) && BodyShaped(b, t, count, h)
    decreases b, 0
  {
    match b
    case Kids(kids) => forall j :: 0 <= j < |kids| ==> Agrees(kids[j], t.fields[j].typ, count, rows)
    case Windows(size, entries, child) =>
      t.id == LIST || PairedMap(t) ==> Agrees(child, t.child.value, size, Shown(entries, rows, size))
    case Groups(size, child) =>
      && (rows != {} ==> size == t.arraySize)
      && Agrees(child, t.child.value, size * count, Grouped(size, rows, count))
    case _ => true
  }

  /** The seen rows all have declared lengths. */
  ghost predicate RowsDeclared(t: LogicalType, vals: seq<Value>, seen: set<nat>)
  {
    forall i :: i in seen && i < |vals| ==> Declared(t, vals[i])
  }

  lemma ConstantLengths(t: LogicalType, one: seq<Value>, count: nat, seen: set<nat>)
    requires |one| == 1 && forall i <- seen :: i < count
    ensures RowsDeclared(t, Repeat(one[0], count), seen) <==> (seen != {} ==> RowsDeclared(t, one, {0}))
  {
    hide Declared;
    if seen != {} {
      var i :| i in seen;
      assert Repeat(one[0], count)[i] == one[0];
    }
  }

  lemma DictionaryLengths(t: LogicalType, entries: seq<Value>, sel: seq<nat>, seen: set<nat>)
    requires (forall i :: 0 <= i < |sel| ==> sel[i] < |entries|) && forall i <- seen :: i < |sel|
    ensures RowsDeclared(t, seq(|sel|, i requires 0 <= i < |sel| => entries[sel[i]]), seen)
            <==> RowsDeclared(t, entries, set i | i in seen && i < |sel| :: sel[i])
  {
    hide Declared;
    var vals := seq(|sel|, i requires 0 <= i < |sel| => entries[sel[i]]);
    var picked := set i | i in seen && i < |sel| :: sel[i];
    if RowsDeclared(t, entries, picked) {
      forall i | i in seen && i < |vals| ensures Declared(t, vals[i]) {
        assert sel[i] in picked;
      }
    }
    if RowsDeclared(t, vals, seen) {
      forall k | k in picked && k < |entries| ensures Declared(t, entries[k]) {
        var i :| i in seen && i < |sel| && sel[i] == k;
        assert Declared(t, vals[i]);
      }
    }
  }

  lemma StructRowLengths(t: LogicalType, cols: seq<seq<Value>>, row: nat)
    requires t.id == STRUCT && |cols| == |t.fields| && forall col <- cols :: row < |col|
    ensures Declared(t, StructRow(t.fields, cols, row))
            <==> forall j :: 0 <= j < |cols| ==> Declared(t.fields[j].typ, cols[j][row])
  {
    var entries := StructRow(t.fields, cols, row).entries;
    assert forall j :: 0 <= j < |cols| ==> entries[j].value == cols[j][row];
  }

  lemma StructLengths(t: LogicalType, cols: seq<seq<Value>>, mask: Option<Bytes>, count: nat, seen: set<nat>)
    requires t.id == STRUCT && |cols| == |t.fields| && (forall col <- cols :: |col| == count) && Covers(mask, count)
    requires forall i <- seen :: i < count
    ensures RowsDeclared(t, StructRows(t.fields, cols, mask, count), seen)
            <==> forall j :: 0 <= j < |cols| ==> RowsDeclared(t.fields[j].typ, cols[j], NotNull(mask, seen, count))
  {
    var vals, rows := StructRows(t.fields, cols, mask, count), NotNull(mask, seen, count);
    forall i | 0 <= i < count
      ensures Declared(t, vals[i])
              <==> (IsValid(mask, i) ==> forall j :: 0 <= j < |cols| ==> Declared(t.fields[j].typ, cols[j][i]))
    {
      if IsValid(mask, i) {
        StructRowLengths(t, cols, i);
      }
    }
    hide Declared, StructRows, IsValid;
    if RowsDeclared(t, vals, seen) {
      forall j, i | 0 <= j < |cols| && i in rows && i < |cols[j]| ensures Declared(t.fields[j].typ, cols[j][i]) {
        assert Declared(t, vals[i]);
      }
    }
    if forall j :: 0 <= j < |cols| ==> RowsDeclared(t.fields[j].typ, cols[j], rows) {
      forall i | i in seen && i < |vals| ensures Declared(t, vals[i]) {
        forall j | IsValid(mask, i) && 0 <= j < |cols| ensures Declared(t.fields[j].typ, cols[j][i]) {
          assert i in rows && RowsDeclared(t.fields[j].typ, cols[j], rows);
        }
      }
    }
  }

  /** What a STRUCT child can hold. */
  predicate StructOrNull(t: LogicalType, v: Value) { v.VNull? || (v.VStruct? && |v.entries| == |t.fields|) }

  lemma {:induction false} StructMeaning(v: Vec, t: LogicalType, count: nat)
    requires Shaped(v, t, count) && Meaning(v, t, count).Vals? && t.id == STRUCT
    ensures forall i :: 0 <= i < count ==> StructOrNull(t, Meaning(v, t, count).vals[i])
    decreases v
  {
    match v
    case Constant(one) => StructMeaning(one, t, 1);
    case Dictionary(_, size, dict) => StructMeaning(dict, t, size);
    case _ =>
  }

  /** All child rows in the window. */
  ghost predicate WindowDeclared(t: LogicalType, w: Window, child: seq<Value>)
  {
    forall k :: 0 <= k < |child| && InWindow(w, k) ==> Declared(t, child[k])
  }

  lemma WindowElements(t: LogicalType, w: Window, child: seq<Value>, row: seq<Value>)
    requires WindowFits(w, |child|) && row == child[w.off..w.off + w.len]
    ensures WindowDeclared(t, w, child) <==> forall j :: 0 <= j < |row| ==> Declared(t, row[j])
  {
    hide Declared;
    if WindowDeclared(t, w, child) {
      forall j | 0 <= j < |row| ensures Declared(t, row[j]) {
        assert row[j] == child[w.off + j] && InWindow(w, w.off + j);
      }
    }
    if forall j :: 0 <= j < |row| ==> Declared(t, row[j]) {
      forall k | 0 <= k < |child| && InWindow(w, k) ensures Declared(t, child[k]) {
        assert child[k] == row[k - w.off];
      }
    }
  }

  /** A list or map row has declared lengths exactly when its elements do. */
  lemma ListRowLengths(t: LogicalType, w: Window, child: seq<Value>)
    requires (t.id == LIST || PairedMap(t)) && t.child.Some? && WindowFits(w, |child|)
    requires t.id == MAP ==> forall k :: 0 <= k < |child| ==> StructOrNull(t.child.value, child[k])
    ensures Declared(t, ListRow(t.id, w, child)) <==> WindowDeclared(t.child.value, w, child)
  {
    hide WindowDeclared, Declared;
    var row := child[w.off..w.off + w.len];
    WindowElements(t.child.value, w, child, row);
    if t.id == MAP {
      assert ListRow(t.id, w, child) == VMap(PairsOf(row));
      MapRowLengths(t, row);
    } else {
      assert ListRow(t.id, w, child) == VList(row);
      ListLengths(t, row);
    }
  }

  lemma ListLengths(t: LogicalType, row: seq<Value>)
    requires t.id == LIST && t.child.Some?
    ensures Declared(t, VList(row)) <==> forall j :: 0 <= j < |row| ==> Declared(t.child.value, row[j])
  {
  }

  lemma MapRowLengths(t: LogicalType, row: seq<Value>)
    requires PairedMap(t) && forall k :: 0 <= k < |row| ==> StructOrNull(t.child.value, row[k])
    ensures Declared(t, VMap(PairsOf(row))) <==> forall j :: 0 <= j < |row| ==> Declared(t.child.value, row[j])
  {
    hide PairOf;
    forall j | 0 <= j < |row|
      ensures Declared(t.child.value, row[j])
              <==> Declared(t.child.value.fields[0].typ, PairsOf(row)[j].key) && Declared(t.child.value.fields[1].typ, PairsOf(row)[j].value)
    {
      PairLengths(t.child.value, row[j]);
    }
  }

  lemma PairLengths(t: LogicalType, v: Value)
    requires t.id == STRUCT && |t.fields| == 2 && StructOrNull(t, v)
    ensures Declared(t, v) <==> Declared(t.fields[0].typ, PairOf(v).key) && Declared(t.fields[1].typ, PairOf(v).value)
  {
    if v.VStruct? {
      var a, b := v.entries[0].value, v.entries[1].value;
      assert PairOf(v) == Pair(a, b);
      assert Declared(t, v) <==> forall i :: 0 <= i < 2 ==> Declared(t.fields[i].typ, v.entries[i].value);
      if Declared(t.fields[0].typ, a) && Declared(t.fields[1].typ, b) {
        forall i | 0 <= i < 2 ensures Declared(t.fields[i].typ, v.entries[i].value) {
          assert i == 0 || i == 1;
        }
      }
    } else {
      assert PairOf(v) == Pair(VNull, VNull);
      assert Declared(t.fields[0].typ, VNull) && Declared(t.fields[1].typ, VNull);
    }
  }

  lemma WindowLengths(t: LogicalType, es: seq<WindowEntry>, child: seq<Value>, mask: Option<Bytes>, vals: seq<Value>, seen: set<nat>)
    requires IsList(t.id) && t.child.Some? && Covers(mask, |es|) && |vals| == |es| && forall i <- seen :: i < |es|
    requires forall i :: 0 <= i < |es| ==>
               if IsValid(mask, i) then WindowFits(WindowOf(es[i]), |child|) && vals[i] == ListRow(t.id, WindowOf(es[i]), child)
               else vals[i] == VNull
    requires PairedMap(t) ==> forall k :: 0 <= k < |child| ==> StructOrNull(t.child.value, child[k])
    ensures RowsDeclared(t, vals, seen)
            <==> (t.id == LIST || PairedMap(t) ==>
                    RowsDeclared(t.child.value, child, Shown(es, NotNull(mask, seen, |es|), |child|)))
  {
    var rows := NotNull(mask, seen, |es|);
    var shown := Shown(es, rows, |child|);
    if t.id == LIST || PairedMap(t) {
      forall i | 0 <= i < |es|
        ensures Declared(t, vals[i])
                <==> (IsValid(mask, i) ==> WindowDeclared(t.child.value, WindowOf(es[i]), child))
      {
        if IsValid(mask, i) {
          ListRowLengths(t, WindowOf(es[i]), child);
        }
      }
      hide Declared, IsValid, ListRow, WindowOf, WindowFits, InWindow;
      if RowsDeclared(t, vals, seen) {
        forall k | k in shown && k < |child| ensures Declared(t.child.value, child[k]) {
          var i :| i in rows && i < |es| && InWindow(WindowOf(es[i]), k);
          assert Declared(t, vals[i]);
        }
      }
      if RowsDeclared(t.child.value, child, shown) {
        forall i | i in seen && i < |vals| ensures Declared(t, vals[i]) {
          forall k | IsValid(mask, i) && 0 <= k < |child| && InWindow(WindowOf(es[i]), k) ensures Declared(t.child.value, child[k]) {
            assert i in rows;
            assert k in shown;
          }
        }
      }
    } else {
      forall i | i in seen && i < |vals| ensures Declared(t, vals[i]) {
      }
    }
  }

  /** A group has declared lengths exactly when its size and its members do. */
  lemma GroupRow(t: LogicalType, size: nat, child: seq<Value>, count: nat, i: nat)
    requires t.id == ARRAY && t.child.Some? && |child| == size * count && i < count
    ensures Declared(t, VList(Group(child, size, count, i)))
            <==> size == t.arraySize && forall k :: 0 <= k < |child| && InGroup(i, size, k) ==> Declared(t.child.value, child[k])
  {
    GroupFits(size, count, i);
    var row, at := Group(child, size, count, i), i * size;
    assert row == child[at..at + size];
    if size == t.arraySize {
      if Declared(t, VList(row)) {
        forall k | 0 <= k < |child| && InGroup(i, size, k) ensures Declared(t.child.value, child[k]) {
          assert child[k] == row[k - at];
        }
      }
      if forall k :: 0 <= k < |child| && InGroup(i, size, k) ==> Declared(t.child.value, child[k]) {
        forall j | 0 <= j < |row| ensures Declared(t.child.value, row[j]) {
          assert row[j] == child[at + j] && InGroup(i, size, at + j);
        }
      }
    }
  }

  lemma GroupRowLengths(t: LogicalType, size: nat, child: seq<Value>, mask: Option<Bytes>, count: nat, seen: set<nat>)
    requires t.id == ARRAY && t.child.Some? && |child| == size * count && Covers(mask, count) && forall i <- seen :: i < count
    ensures var rows := NotNull(mask, seen, count);
            RowsDeclared(t, ArrayRows(size, child, mask, count), seen)
            <==> (rows != {} ==> size == t.arraySize) && RowsDeclared(t.child.value, child, Grouped(size, rows, count))
  {
    var vals, rows := ArrayRows(size, child, mask, count), NotNull(mask, seen, count);
    var grouped := Grouped(size, rows, count);
    forall i | 0 <= i < count
      ensures Declared(t, vals[i])
              <==> (IsValid(mask, i) ==>
                      size == t.arraySize && forall k :: 0 <= k < |child| && InGroup(i, size, k) ==> Declared(t.child.value, child[k]))
    {
      if IsValid(mask, i) {
        GroupRow(t, size, child, count, i);
      }
    }
    hide Declared, IsValid, ArrayRows, Group, InGroup, Covers;
    if RowsDeclared(t, vals, seen) {
      forall k | k in grouped && k < |child| ensures Declared(t.child.value, child[k]) {
        var i :| i in rows && InGroup(i, size, k);
        assert Declared(t, vals[i]);
      }
      if rows != {} {
        var i :| i in rows;
        assert Declared(t, vals[i]);
      }
    }
    if (rows != {} ==> size == t.arraySize) && RowsDeclared(t.child.value, child, grouped) {
      forall i | i in seen && i < |vals| ensures Declared(t, vals[i]) {
        forall k | IsValid(mask, i) && 0 <= k < |child| && InGroup(i, size, k) ensures Declared(t.child.value, child[k]) {
          assert i in rows;
          assert k in grouped;
        }
        assert IsValid(mask, i) ==> i in rows;
      }
    }
  }

  /** No cell holds an array. */
  lemma CellLength(t: LogicalType, cell: Bytes)
    requires KindOf(t.id) != KNone && |cell| == PhysicalWidth(t) && DecodeCell(t, cell).Some?
    ensures Declared(t, DecodeCell(t, cell).value)
  {
  }

  lemma ScalarLengths(b: Body, t: LogicalType, count: nat, h: FlatHead, seen: set<nat>)
    requires Covers(h.mask, count) && BodyShaped(b, t, count, h) && (b.Texts? || b.Fixed?) && BodyMeaning(b, t, count, h).Vals?
    ensures RowsDeclared(t, BodyMeaning(b, t, count, h).vals, seen)
  {
    var vals := BodyMeaning(b, t, count, h).vals;
    forall i | 0 <= i < count ensures Declared(t, vals[i]) {
      if b.Fixed? && IsValid(h.mask, i) {
        MulMono(i + 1, count, PhysicalWidth(t));
        CellLength(t, CellAt(b.data, PhysicalWidth(t), i));
      }
    }
  }

  /** At every nesting level: the decoded rows have the declared lengths
      exactly when the sizes they depend on agree. */
  lemma {:induction false} LengthsExactly(v: Vec, t: LogicalType, count: nat, seen: set<nat>)
    requires Shaped(v, t, count) && Meaning(v, t, count).Vals? && forall i <- seen :: i < count
    ensures RowsDeclared(t, Meaning(v, t, count).vals, seen) <==> Agrees(v, t, count, seen)
    decreases v
  {
    match v
    case Constant(one) =>
      LengthsExactly(one, t, 1, {0});
      ConstantLengths(t, Meaning(one, t, 1).vals, count, seen);
    case Dictionary(sel, size, dict) =>
      var picked := set i | i in seen && i < count :: sel[i];
      LengthsExactly(dict, t, size, picked);
      DictionaryLengths(t, Meaning(dict, t, size).vals, sel, seen);
    case Sequence(_, _) =>
    case Flat(geo, mask, body) =>
      var rows := NotNull(mask, seen, count);
      match body
      case Kids(kids) =>
        forall j | 0 <= j < |kids|
          ensures Meaning(kids[j], t.fields[j].typ, count).Vals?
          ensures RowsDeclared(t.fields[j].typ, Meaning(kids[j], t.fields[j].typ, count).vals, rows)
                  <==> Agrees(kids[j], t.fields[j].typ, count, rows)
        {
          LengthsExactly(kids[j], t.fields[j].typ, count, rows);
        }
        var cols := seq(|kids|, i requires 0 <= i < |kids| => Meaning(kids[i], t.fields[i].typ, count).vals);
        StructLengths(t, cols, mask, count, seen);
      case Windows(size, entries, child) =>
        if t.id == LIST || PairedMap(t) {
          LengthsExactly(child, t.child.value, size, Shown(entries, rows, size));
        }
        if PairedMap(t) {
          StructMeaning(child, t.child.value, size);
        }
        WindowLengths(t, entries, Meaning(child, t.child.value, size).vals, mask, Meaning(v, t, count).vals, seen);
      case Groups(size, child) =>
        LengthsExactly(child, t.child.value, size * count, Grouped(size, rows, count));
        GroupRowLengths(t, size, Meaning(child, t.child.value, size * count).vals, mask, count, seen);
      case _ => ScalarLengths(body, t, count, FlatHead(geo.Some?, mask), seen);
  }

  // ---- the decoder -------------------------------------------------------------------------

  /** Whatever bytes decode to values: any of the rows, all of them or a
      selection, have their declared lengths at every nesting level exactly
      when the sizes that they depend on are the declared ones, in every
      encoding that stands for the column; and there is one. */
  lemma DecodedLengths(r: Rd, t: LogicalType, count: nat, depth: nat, seen: set<nat>)
    requires DecodeVector(r, t, count, depth).1.Vals? && forall i <- seen :: i < count
    ensures var m := DecodeVector(r, t, count, depth).1;
            && (exists v :: StandsFor(v, t, count, depth, m))
            && forall v :: StandsFor(v, t, count, depth, m) ==>
                             ((forall i <- seen :: Declared(t, m.vals[i])) <==> Agrees(v, t, count, seen))
  {
    hide DecodeVector, Depth, Shaped, Agrees, Declared, Meaning, Withheld;
    var m := DecodeVector(r, t, count, depth).1;
    var w := EncodingOf(r, t, count, depth);
    forall v | StandsFor(v, t, count, depth, m)
      ensures (forall i <- seen :: Declared(t, m.vals[i])) <==> Agrees(v, t, count, seen)
    {
      LengthsExactly(v, t, count, seen);
    }
  }

  /** A two-row vector of VARCHAR. */
  lemma TwoTexts(a: Bytes, b: Bytes)
    requires |a| < P64 && |b| < P64
    ensures var v := Flat(None, None, Texts([a, b]));
            && Depth(v) == 0 && Shaped(v, Plain(VARCHAR), 2)
            && Meaning(v, Plain(VARCHAR), 2) == Vals([VString(a), VString(b)])
  {
    assert Meaning(Flat(None, None, Texts([a, b])), Plain(VARCHAR), 2).vals == [VString(a), VString(b)];
  }

  /** A row of two elements decodes as a VARCHAR[3]. */
  lemma ShortArrayDecodes(k: Bytes)
    ensures var t := Plain(ARRAY).(child := Some(Plain(VARCHAR)), arraySize := 3);
            var v := Flat(None, None, Groups(2, Flat(None, None, Texts([[97], [98]]))));
            DecodeVector(Ok(VecBytes(v, EndMark() + k)), t, 1, 0).1 == Vals([VList([VString([97]), VString([98])])])
            && !Declared(t, VList([VString([97]), VString([98])]))
  {
    hide DecodeVector, VecBytes, Withheld, BodyWithheld;
    var t := Plain(ARRAY).(child := Some(Plain(VARCHAR)), arraySize := 3);
    var inner := Flat(None, None, Texts([[97], [98]]));
    var v := Flat(None, None, Groups(2, inner));
    var row := [VString([97]), VString([98])];
    TwoTexts([97], [98]);
    assert BodyMeaning(v.body, t, 1, FlatHead(false, None)).vals == [VList(row)] by {
      assert Group(row, 2, 1, 0) == row;
    }
    VecBack(v, t, 1, 0, k);
  }
}
