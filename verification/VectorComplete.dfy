/** The other half of VectorBack: whatever decodeVector accepts is the meaning
    of some well-shaped encoding. So the encodings stand for exactly the
    columns that any bytes can decode to. */
module VectorComplete {
  import opened Basics
  import opened Framing
  import opened LogicalTypes
  import opened Values
  import opened Vectors
  import opened VectorWire
  import opened VectorBack

  /** `v` is an encoding of what `m` is, shallow enough below `depth`. */
  ghost predicate StandsFor(v: Vec, t: LogicalType, count: nat, depth: nat, m: VectorResult)
  {
    depth + Depth(v) <= MAX_TYPE_DEPTH && Shaped(v, t, count) && Meaning(v, t, count) == m
  }

  /** The same for the body of a flat vector. */
  ghost predicate BodyStandsFor(b: Body, t: LogicalType, count: nat, depth: nat, h: FlatHead, m: VectorResult)
    requires Covers(h.mask, count)
  {
    depth + BodyDepth(b) <= MAX_TYPE_DEPTH && BodyShaped(b, t, count, h) && BodyMeaning(b, t, count, h) == m
  }

  lemma BlobWord(r: Rd)
    ensures |Blob(r).1| < P64
  {
  }

  lemma CountWord(r: Rd)
    ensures ListCount(r).1 < P64
  {
  }

  // ---- compressed vectors -------------------------------------------------------------

  lemma {:induction false} SelectOf(sel: Bytes, dict: seq<Value>, count: nat, i: nat, acc: seq<Value>)
    requires |sel| == 4 * count && i <= count && |acc| == i && Select(sel, dict, count, i, acc).Some?
    ensures var out := Select(sel, dict, count, i, acc).value;
            && out[..i] == acc
            && forall j :: i <= j < count ==> SelAt(sel, j) < |dict| && out[j] == dict[SelAt(sel, j)]
    decreases count - i
  {
    hide SelAt;
    if i < count {
      SelectOf(sel, dict, count, i + 1, acc + [dict[SelAt(sel, i)]]);
    }
  }

  lemma SelWord(sel: Bytes, i: nat)
    requires 4 * i + 4 <= |sel|
    ensures SelAt(sel, i) < P32
  {
    WordSizes();
    FromLEBound(sel[4 * i..4 * i + 4]);
  }

  /** The selection a blob spells out. */
  function SelOf(sel: Bytes, count: nat): (s: seq<nat>)
    requires |sel| == 4 * count
    ensures |s| == count
  {
    seq(count, i requires 0 <= i < count => SelAt(sel, i))
  }

  lemma DictionaryStands(sel: Bytes, t: LogicalType, count: nat, depth: nat, size: nat, dict: Vec, m: VectorResult)
    requires count <= MAX_VECTOR_ROWS && size <= MAX_CHUNK_ROWS && |sel| == 4 * count
    requires StandsFor(dict, t, size, depth + 1, m)
    requires m.Vals? ==> Select(sel, m.vals, count, 0, []).Some?
    ensures StandsFor(Dictionary(SelOf(sel, count), size, dict), t, count, depth,
                      if m.Vals? then Vals(Select(sel, m.vals, count, 0, []).value) else m)
  {
    hide SelAt, Select, Withheld;
    forall i | 0 <= i < count ensures SelAt(sel, i) < P32 {
      SelWord(sel, i);
    }
    var v := Dictionary(SelOf(sel, count), size, dict);
    if m.Vals? {
      SelectOf(sel, m.vals, count, 0, []);
      assert Meaning(v, t, count).vals == Select(sel, m.vals, count, 0, []).value;
    }
  }

  lemma SequenceStands(r: Rd, t: LogicalType, count: nat, depth: nat) returns (v: Vec)
    requires depth <= MAX_TYPE_DEPTH && count <= MAX_VECTOR_ROWS && !DecodeSequence(r, t, count).1.Bad?
    ensures StandsFor(v, t, count, depth, DecodeSequence(r, t, count).1)
  {
    hide TryField, Svarint, Residue, SequenceVals;
    var (r1, _) := TryField(r, 91);
    var (r2, start) := Svarint(r1);
    var (r3, _) := TryField(r2, 92);
    var (_, inc) := Svarint(r3);
    v := Sequence(start, inc);
    if count > 0 {
      SequenceMeans(t.id, start, inc, count);
    }
  }

  // ---- scalars ----------------------------------------------------------------------------

  /** The texts the entry loop read. */
  lemma {:induction false} TextItems(r: Rd, id: nat, count: nat, mask: Option<Bytes>, skip: bool, acc: seq<Value>) returns (items: seq<Bytes>)
    requires Covers(mask, count) && |acc| <= count && DecodeTextEntries(r, id, count, mask, skip, acc).1.Some?
    ensures |items| == count - |acc| && forall item <- items :: |item| < P64
    ensures var out := DecodeTextEntries(r, id, count, mask, skip, acc).1.value;
            && out[..|acc|] == acc
            && forall j :: |acc| <= j < count ==>
                 if !skip && IsValid(mask, j) then TextValue(id, items[j - |acc|]) == Some(out[j]) else out[j] == VNull
    decreases count - |acc|
  {
    hide Blob, TextValue, IsValid;
    if |acc| == count {
      items := [];
    } else {
      var (r1, b) := Blob(r);
      BlobWord(r);
      var valid := !skip && IsValid(mask, |acc|);
      var next := if valid then acc + [TextValue(id, b).value] else acc + [VNull];
      var rest := TextItems(r1, id, count, mask, skip, next);
      items := [b] + rest;
      var out := DecodeTextEntries(r, id, count, mask, skip, acc).1.value;
      assert out[..|next|] == next;
      assert out[|acc|] == next[|acc|];
    }
  }

  lemma TextsStand(r: Rd, t: LogicalType, count: nat, depth: nat, h: FlatHead) returns (b: Body)
    requires depth <= MAX_TYPE_DEPTH && Covers(h.mask, count) && IsText(t.id) && !DecodeTexts(r, t, count, h).1.Bad?
    ensures BodyStandsFor(b, t, count, depth, h, DecodeTexts(r, t, count, h).1)
  {
    hide TryField, ListCount, DecodeTextEntries, TextValue, IsValid;
    var skip := h.geo || t.id == GEOMETRY;
    var (r1, _) := TryField(r, 102);
    var (r2, _) := ListCount(r1);
    var items := TextItems(r2, t.id, count, h.mask, skip, []);
    b := Texts(items);
    if !skip {
      assert BodyMeaning(b, t, count, h).vals == DecodeTextEntries(r2, t.id, count, h.mask, skip, []).1.value;
    }
  }

  lemma {:induction false} FixedCells(t: LogicalType, data: Bytes, mask: Option<Bytes>, count: nat, acc: seq<Value>)
    requires KindOf(t.id) != KNone && |data| >= count * PhysicalWidth(t)
    requires Covers(mask, count) && |acc| <= count && FixedRows(t, data, mask, count, acc).Some?
    ensures var out := FixedRows(t, data, mask, count, acc).value;
            && out[..|acc|] == acc
            && forall j :: |acc| <= j < count ==>
                 if IsValid(mask, j) then CellValue(t, data, count, j) == Some(out[j]) else out[j] == VNull
    decreases count - |acc|
  {
    hide DecodeCell, KindOf, PhysicalWidth, IsValid, CellAt;
    if |acc| < count {
      MulMono(|acc| + 1, count, PhysicalWidth(t));
      var next := acc + [if IsValid(mask, |acc|) then CellValue(t, data, count, |acc|).value else VNull];
      FixedCells(t, data, mask, count, next);
      var out := FixedRows(t, data, mask, count, acc).value;
      assert out[..|next|] == next;
      assert out[|acc|] == next[|acc|];
    }
  }

  lemma FixedStands(r: Rd, t: LogicalType, count: nat, depth: nat, h: FlatHead) returns (b: Body)
    requires depth <= MAX_TYPE_DEPTH && Covers(h.mask, count) && !DecodeFixed(r, t, count, h).1.Bad?
    requires !IsText(t.id) && !IsStructLike(t.id) && !IsList(t.id) && t.id != ARRAY
    ensures BodyStandsFor(b, t, count, depth, h, DecodeFixed(r, t, count, h).1)
  {
    hide TryField, Blob, FixedRows, CellValue, IsValid, PhysicalWidth;
    var (r1, _) := TryField(r, 102);
    if KindOf(t.id) == KNone {
      b := Fixed([]);
    } else {
      var data := Blob(r1).1;
      BlobWord(r1);
      b := Fixed(data);
      if !h.geo {
        FixedCells(t, data, h.mask, count, []);
        assert BodyMeaning(b, t, count, h).vals == FixedRows(t, data, h.mask, count, []).value;
      }
    }
  }

  // ---- children ------------------------------------------------------------------------------

  /** The entries of a list vector, both fields written. */
  function EntriesFor(ws: seq<Window>): (es: seq<WindowEntry>)
    ensures |es| == |ws| && forall i :: 0 <= i < |ws| ==> WindowOf(es[i]) == ws[i]
  {
    seq(|ws|, i requires 0 <= i < |ws| => WindowEntry(Some(ws[i].off), Some(ws[i].len)))
  }

  predicate WindowWord(w: Window) { w.off < P64 && w.len < P64 }

  lemma {:induction false} WindowWords(r: Rd, n: nat, acc: seq<Window>)
    requires |acc| <= n && forall w <- acc :: WindowWord(w)
    ensures forall w <- DecodeWindows(r, n, acc).1 :: WindowWord(w)
    decreases n - |acc|
  {
    hide TryField, Uvarint, EndObject;
    if |acc| < n {
      var (r1, hasOff) := TryField(r, 100);
      var (r2, off) := if hasOff then Uvarint(r1) else (r1, 0);
      var (r3, hasLen) := TryField(r2, 101);
      var (r4, len) := if hasLen then Uvarint(r3) else (r3, 0);
      WindowWords(EndObject(r4), n, acc + [Window(off, len)]);
    }
  }

  lemma {:induction false} ListRowsOf(id: nat, ws: seq<Window>, child: seq<Value>, mask: Option<Bytes>, acc: seq<Value>)
    requires Covers(mask, |ws|) && |acc| <= |ws| && ListRows(id, ws, child, mask, acc).Some?
    ensures var out := ListRows(id, ws, child, mask, acc).value;
            && out[..|acc|] == acc
            && forall j :: |acc| <= j < |ws| ==>
                 if IsValid(mask, j) then WindowFits(ws[j], |child|) && out[j] == ListRow(id, ws[j], child) else out[j] == VNull
    decreases |ws| - |acc|
  {
    hide ListRow, IsValid;
    if |acc| < |ws| {
      var next := acc + [if IsValid(mask, |acc|) then ListRow(id, ws[|acc|], child) else VNull];
      ListRowsOf(id, ws, child, mask, next);
      var out := ListRows(id, ws, child, mask, acc).value;
      assert out[..|next|] == next;
      assert out[|acc|] == next[|acc|];
    }
  }

  lemma ListStands(r: Rd, t: LogicalType, ws: seq<Window>, size: nat, child: Vec, m: VectorResult, depth: nat, h: FlatHead)
    requires IsList(t.id) && t.child.Some? && size <= MAX_VECTOR_ROWS && Covers(h.mask, |ws|)
    requires StandsFor(child, t.child.value, size, depth + 1, m) && forall w <- ws :: WindowWord(w)
    requires !FinishList(r, t, ws, m, h).1.Bad?
    ensures BodyStandsFor(Windows(size, EntriesFor(ws), child), t, |ws|, depth, h, FinishList(r, t, ws, m, h).1)
  {
    hide Shaped, Meaning, Withheld, ListRow, ListRows, EndObject, IsValid, WindowOf;
    var es := EntriesFor(ws);
    forall e | e in es ensures OptionWord(e.off) && OptionWord(e.len) {
      var i :| 0 <= i < |es| && es[i] == e;
      assert WindowWord(ws[i]);
    }
    var b := Windows(size, es, child);
    if m.Vals? && !h.geo {
      ListRowsOf(t.id, ws, m.vals, h.mask, []);
      assert BodyMeaning(b, t, |ws|, h).vals == ListRows(t.id, ws, m.vals, h.mask, []).value;
    }
  }

  lemma ArrayStands(r: Rd, t: LogicalType, size: nat, count: nat, child: Vec, m: VectorResult, depth: nat, h: FlatHead)
    requires t.id == ARRAY && t.child.Some? && size <= MAX_VECTOR_ROWS && size * count <= MAX_VECTOR_ROWS && Covers(h.mask, count)
    requires StandsFor(child, t.child.value, size * count, depth + 1, m)
    requires !FinishArray(r, t, size, count, m, h).1.Bad?
    ensures BodyStandsFor(Groups(size, child), t, count, depth, h, FinishArray(r, t, size, count, m, h).1)
  {
    hide Shaped, Meaning, Withheld, ArrayRows, EndObject;
  }

  /** `kids` are the children of a struct from field `from` on, and `c` is
      what all of them come to. */
  ghost predicate KidsStandFor(kids: seq<Vec>, fields: seq<StructField>, count: nat, depth: nat, acc: Children, c: Children)
  {
    && |acc.cols| + |kids| == |fields| == |c.cols|
    && c.cols[..|acc.cols|] == acc.cols
    && (forall i :: |acc.cols| <= i < |fields| ==> KidStandsFor(kids[i - |acc.cols|], fields[i].typ, count, depth, c.cols[i]))
    && (c.bad <==> acc.bad || SomeWithheld(kids, fields, |acc.cols|))
  }

  ghost predicate SomeWithheld(kids: seq<Vec>, fields: seq<StructField>, from: nat)
    requires from + |kids| == |fields|
  {
    exists i :: from <= i < |fields| && Withheld(kids[i - from], fields[i].typ)
  }

  ghost predicate KidStandsFor(kid: Vec, t: LogicalType, count: nat, depth: nat, col: seq<Value>)
  {
    && depth + 1 + Depth(kid) <= MAX_TYPE_DEPTH && Shaped(kid, t, count)
    && col == if Withheld(kid, t) then [] else Meaning(kid, t, count).vals
  }

  lemma SomeNext(kid: Vec, rest: seq<Vec>, fields: seq<StructField>, from: nat)
    requires from + 1 + |rest| == |fields|
    ensures SomeWithheld([kid] + rest, fields, from) <==> Withheld(kid, fields[from].typ) || SomeWithheld(rest, fields, from + 1)
  {
    hide Withheld;
    var kids := [kid] + rest;
    if SomeWithheld(rest, fields, from + 1) {
      var i :| from + 1 <= i < |fields| && Withheld(rest[i - (from + 1)], fields[i].typ);
      assert kids[i - from] == rest[i - (from + 1)];
    }
    if SomeWithheld(kids, fields, from) {
      var i :| from <= i < |fields| && Withheld(kids[i - from], fields[i].typ);
      assert i > from ==> kids[i - from] == rest[i - (from + 1)];
    }
    assert kids[from - from] == kid;
  }

  lemma KidsNext(kid: Vec, m: VectorResult, rest: seq<Vec>, fields: seq<StructField>, count: nat, depth: nat, acc: Children,
                 next: Children, c: Children)
    requires |acc.cols| < |fields| && StandsFor(kid, fields[|acc.cols|].typ, count, depth + 1, m)
    requires next == if m.Vals? then acc.(cols := acc.cols + [m.vals]) else Children(acc.cols + [[]], true)
    requires KidsStandFor(rest, fields, count, depth, next, c)
    ensures KidsStandFor([kid] + rest, fields, count, depth, acc, c)
  {
    hide Shaped, Meaning, Withheld, Depth, SomeWithheld;
    var n, kids := |acc.cols|, [kid] + rest;
    SomeNext(kid, rest, fields, n);
    assert c.cols[..n + 1] == next.cols;
    assert c.cols[n] == next.cols[n];
    assert KidStandsFor(kid, fields[n].typ, count, depth, c.cols[n]);
    assert acc.cols == next.cols[..n];
    hide KidStandsFor;
    forall i | n <= i < |fields| ensures KidStandsFor(kids[i - n], fields[i].typ, count, depth, c.cols[i]) {
      if i > n {
        assert kids[i - n] == rest[i - (n + 1)];
      }
    }
  }

  lemma KidsMean(kids: seq<Vec>, t: LogicalType, c: Children, count: nat, h: FlatHead)
    requires IsStructLike(t.id) && |kids| == |t.fields| < P64 && Covers(h.mask, count) && ChildrenOf(c, |t.fields|, count)
    requires forall i :: 0 <= i < |kids| ==> Shaped(kids[i], t.fields[i].typ, count)
    requires forall i :: 0 <= i < |kids| && !Withheld(kids[i], t.fields[i].typ) ==> c.cols[i] == Meaning(kids[i], t.fields[i].typ, count).vals
    requires c.bad <==> h.geo || SomeWithheld(kids, t.fields, 0)
    ensures BodyShaped(Kids(kids), t, count, h)
    ensures BodyMeaning(Kids(kids), t, count, h)
            == if c.bad || t.id != STRUCT then Unsupported(t) else Vals(StructRows(t.fields, c.cols, h.mask, count))
  {
    hide Shaped, Meaning, Withheld, BodyWithheld, StructRows, Covers;
    if SomeWithheld(kids, t.fields, 0) {
      var i :| 0 <= i < |t.fields| && Withheld(kids[i - 0], t.fields[i].typ);
      assert Meaning(kids[i], t.fields[i].typ, count).Unsupported?;
    } else {
      forall i | 0 <= i < |kids| ensures !Withheld(kids[i], t.fields[i].typ) {
        assert !Withheld(kids[i - 0], t.fields[i].typ);
      }
      assert c.cols == seq(|kids|, i requires 0 <= i < |kids| => Meaning(kids[i], t.fields[i].typ, count).vals);
    }
  }

  lemma StructStands(t: LogicalType, kids: seq<Vec>, c: Children, count: nat, depth: nat, h: FlatHead)
    requires depth <= MAX_TYPE_DEPTH && IsStructLike(t.id) && |t.fields| < P64 && Covers(h.mask, count)
    requires KidsStandFor(kids, t.fields, count, depth, Children([], h.geo), c) && ChildrenOf(c, |t.fields|, count)
    ensures BodyStandsFor(Kids(kids), t, count, depth, h,
                          if c.bad || t.id != STRUCT then Unsupported(t) else Vals(StructRows(t.fields, c.cols, h.mask, count)))
  {
    hide Shaped, Meaning, Withheld, BodyWithheld, Depth, BodyDepth, StructRows, Covers, ChildrenOf, SomeWithheld, BodyShaped, BodyMeaning;
    forall i | 0 <= i < |kids|
      ensures depth + 1 + Depth(kids[i]) <= MAX_TYPE_DEPTH && Shaped(kids[i], t.fields[i].typ, count)
      ensures !Withheld(kids[i], t.fields[i].typ) ==> c.cols[i] == Meaning(kids[i], t.fields[i].typ, count).vals
    {
      assert KidStandsFor(kids[i - 0], t.fields[i].typ, count, depth, c.cols[i]);
    }
    KidsShallow(kids, depth);
    KidsMean(kids, t, c, count, h);
  }

  lemma {:induction false} KidsShallow(kids: seq<Vec>, depth: nat)
    requires depth <= MAX_TYPE_DEPTH && forall j :: 0 <= j < |kids| ==> depth + 1 + Depth(kids[j]) <= MAX_TYPE_DEPTH
    ensures depth + BodyDepth(Kids(kids)) <= MAX_TYPE_DEPTH
    ensures kids != [] ==> depth + 1 + KidsDepth(kids) <= MAX_TYPE_DEPTH
    decreases |kids|
  {
    if kids != [] {
      KidsShallow(kids[1..], depth);
      assert kids[1..] == [] ==> KidsDepth(kids[1..]) == 0;
    }
    assert BodyDepth(Kids(kids)) == if kids == [] then 0 else 1 + KidsDepth(kids);
  }

  // ---- the theorem --------------------------------------------------------------------------

  /** Whatever bytes decodeVector accepts, there is an encoding that stands
      for what it returned. */
  lemma {:induction false} EncodingOf(r: Rd, t: LogicalType, count: nat, depth: nat) returns (v: Vec)
    requires !DecodeVector(r, t, count, depth).1.Bad?
    ensures StandsFor(v, t, count, depth, DecodeVector(r, t, count, depth).1)
    decreases Fuel(depth), 4
  {
    hide TryField, Uvarint, DecodeFlat, DecodeDictionary, DecodeSequence, Withheld;
    var (r1, tagged) := TryField(r, 90);
    var (r2, vtype) := if tagged then Uvarint(r1) else (r1, VEC_FLAT);
    if vtype == VEC_FLAT {
      v := FlatOfBytes(r2, t, count, depth);
    } else if vtype == VEC_CONSTANT {
      var one := EncodingOf(r2, t, 1, depth + 1);
      v := Constant(one);
    } else if vtype == VEC_DICTIONARY {
      v := DictionaryOf(r2, t, count, depth);
    } else {
      v := SequenceStands(r2, t, count, depth);
    }
  }

  lemma {:induction false} DictionaryOf(r: Rd, t: LogicalType, count: nat, depth: nat) returns (v: Vec)
    requires depth <= MAX_TYPE_DEPTH && count <= MAX_VECTOR_ROWS && !DecodeDictionary(r, t, count, depth).1.Bad?
    ensures StandsFor(v, t, count, depth, DecodeDictionary(r, t, count, depth).1)
    decreases Fuel(depth), 0
  {
    hide TryField, Uvarint, Blob, DecodeVector, Select, StandsFor;
    var (r1, _) := TryField(r, 91);
    var (r2, sel) := Blob(r1);
    var (r3, _) := TryField(r2, 92);
    var (r4, size) := Uvarint(r3);
    var dict := EncodingOf(r4, t, size, depth + 1);
    v := Dictionary(SelOf(sel, count), size, dict);
    DictionaryStands(sel, t, count, depth, size, dict, DecodeVector(r4, t, size, depth + 1).1);
  }

  lemma HeadWord(r: Rd, count: nat)
    requires DecodeFlatHead(r, count).1.Some?
    ensures var mask := DecodeFlatHead(r, count).1.value.mask; mask.Some? ==> |mask.value| < P64
  {
    hide TryField, Bool, Blob;
    var (r1, geo) := TryField(r, 99);
    var r2 := if geo then Uvarint(r1).0 else r1;
    var (r3, _) := TryField(r2, 100);
    var (r4, _) := Bool(r3);
    BlobWord(TryField(r4, 101).0);
  }

  lemma {:induction false} FlatOfBytes(r: Rd, t: LogicalType, count: nat, depth: nat) returns (v: Vec)
    requires depth <= MAX_TYPE_DEPTH && count <= MAX_VECTOR_ROWS && !DecodeFlat(r, t, count, depth).1.Bad?
    ensures StandsFor(v, t, count, depth, DecodeFlat(r, t, count, depth).1)
    decreases Fuel(depth), 3
  {
    hide DecodeFlatHead, DecodeFlatBody, BodyShaped, BodyMeaning, Covers;
    var (r1, head) := DecodeFlatHead(r, count);
    HeadWord(r, count);
    var b := BodyOf(r1, t, count, depth, head.value);
    v := Flat(if head.value.geo then Some(0) else None, head.value.mask, b);
    assert FlatHead(v.geo.Some?, v.mask) == head.value;
    SameDepth(v);
  }

  lemma SameDepth(v: Vec)
    requires v.Flat?
    ensures Depth(v) == BodyDepth(v.body)
  {
  }

  lemma {:induction false} BodyOf(r: Rd, t: LogicalType, count: nat, depth: nat, h: FlatHead) returns (b: Body)
    requires depth <= MAX_TYPE_DEPTH && count <= MAX_VECTOR_ROWS && Covers(h.mask, count)
    requires !DecodeFlatBody(r, t, count, depth, h).1.Bad?
    ensures BodyStandsFor(b, t, count, depth, h, DecodeFlatBody(r, t, count, depth, h).1)
    decreases Fuel(depth), 2
  {
    hide DecodeTexts, DecodeStruct, DecodeList, DecodeArray, DecodeFixed, BodyStandsFor, Covers;
    if IsText(t.id) {
      b := TextsStand(r, t, count, depth, h);
    } else if IsStructLike(t.id) {
      b := StructOf(r, t, count, depth, h);
    } else if IsList(t.id) {
      b := ListOf(r, t, count, depth, h);
    } else if t.id == ARRAY {
      b := ArrayOf(r, t, count, depth, h);
    } else {
      b := FixedStands(r, t, count, depth, h);
    }
  }

  lemma {:induction false} ListOf(r: Rd, t: LogicalType, count: nat, depth: nat, h: FlatHead) returns (b: Body)
    requires depth <= MAX_TYPE_DEPTH && Covers(h.mask, count) && IsList(t.id) && !DecodeList(r, t, count, depth, h).1.Bad?
    ensures BodyStandsFor(b, t, count, depth, h, DecodeList(r, t, count, depth, h).1)
    decreases Fuel(depth), 1
  {
    hide TryField, Uvarint, ListCount, DecodeVector, DecodeWindows, FinishList, StandsFor, BodyStandsFor;
    var (r1, _) := TryField(r, 104);
    var (r2, size) := Uvarint(r1);
    var (r3, _) := TryField(r2, 105);
    var (r4, _) := ListCount(r3);
    var (r5, ws) := DecodeWindows(r4, count, []);
    var (r6, _) := TryField(r5, 106);
    var (r7, m) := DecodeVector(r6, t.child.value, size, depth + 1);
    ListBad(r7, t, ws, m, h);
    var child := EncodingOf(r6, t.child.value, size, depth + 1);
    WindowWords(r4, count, []);
    b := Windows(size, EntriesFor(ws), child);
    ListStands(r7, t, ws, size, child, m, depth, h);
  }

  lemma ListBad(r: Rd, t: LogicalType, ws: seq<Window>, m: VectorResult, h: FlatHead)
    requires Covers(h.mask, |ws|)
    ensures m.Bad? ==> FinishList(r, t, ws, m, h).1.Bad?
  {
  }

  lemma ArrayBad(r: Rd, t: LogicalType, size: nat, count: nat, m: VectorResult, h: FlatHead)
    requires Covers(h.mask, count) && (m.Vals? ==> |m.vals| == size * count)
    ensures m.Bad? ==> FinishArray(r, t, size, count, m, h).1.Bad?
  {
  }

  lemma {:induction false} ArrayOf(r: Rd, t: LogicalType, count: nat, depth: nat, h: FlatHead) returns (b: Body)
    requires depth <= MAX_TYPE_DEPTH && Covers(h.mask, count) && t.id == ARRAY && !DecodeArray(r, t, count, depth, h).1.Bad?
    ensures BodyStandsFor(b, t, count, depth, h, DecodeArray(r, t, count, depth, h).1)
    decreases Fuel(depth), 1
  {
    hide TryField, Uvarint, DecodeVector, FinishArray, StandsFor, BodyStandsFor;
    var (r1, _) := TryField(r, 103);
    var (r2, size) := Uvarint(r1);
    var (r3, _) := TryField(r2, 104);
    var (r4, m) := DecodeVector(r3, t.child.value, size * count, depth + 1);
    ArrayBad(r4, t, size, count, m, h);
    var child := EncodingOf(r3, t.child.value, size * count, depth + 1);
    b := Groups(size, child);
    ArrayStands(r4, t, size, count, child, m, depth, h);
  }

  lemma {:induction false} StructOf(r: Rd, t: LogicalType, count: nat, depth: nat, h: FlatHead) returns (b: Body)
    requires depth <= MAX_TYPE_DEPTH && Covers(h.mask, count) && IsStructLike(t.id) && !DecodeStruct(r, t, count, depth, h).1.Bad?
    ensures BodyStandsFor(b, t, count, depth, h, DecodeStruct(r, t, count, depth, h).1)
    decreases Fuel(depth), 1
  {
    hide TryField, ListCount, DecodeChildren, BodyStandsFor, KidsStandFor, StructRows;
    var (r1, _) := TryField(r, 103);
    var (r2, n) := ListCount(r1);
    CountWord(r1);
    var kids := KidsOf(r2, t.fields, count, depth, Children([], h.geo));
    var (r3, c, _) := DecodeChildren(r2, t.fields, count, depth, Children([], h.geo));
    b := Kids(kids);
    StructStands(t, kids, c.value, count, depth, h);
  }

  lemma {:induction false} KidsOf(r: Rd, fields: seq<StructField>, count: nat, depth: nat, acc: Children) returns (kids: seq<Vec>)
    requires depth <= MAX_TYPE_DEPTH && ChildrenOf(acc, |acc.cols|, count) && |acc.cols| <= |fields|
    requires DecodeChildren(r, fields, count, depth, acc).1.Some?
    ensures KidsStandFor(kids, fields, count, depth, acc, DecodeChildren(r, fields, count, depth, acc).1.value)
    decreases Fuel(depth), 0, |fields| - |acc.cols|
  {
    hide DecodeVector, EndObject, Shaped, Meaning, Withheld, Depth;
    if |acc.cols| == |fields| {
      kids := [];
    } else {
      var typ := fields[|acc.cols|].typ;
      var (r1, m) := DecodeVector(r, typ, count, depth + 1);
      var kid := EncodingOf(r, typ, count, depth + 1);
      var next := if m.Vals? then acc.(cols := acc.cols + [m.vals]) else Children(acc.cols + [[]], true);
      var rest := KidsOf(EndObject(r1), fields, count, depth, next);
      kids := [kid] + rest;
      hide KidsStandFor;
      KidsNext(kid, m, rest, fields, count, depth, acc, next, DecodeChildren(r, fields, count, depth, acc).1.value);
    }
  }

  /** What can be decoded at all is what the well-shaped encodings stand for. */
  lemma DecodableExactly(t: LogicalType, count: nat, depth: nat, m: VectorResult)
    requires !m.Bad?
    ensures (exists r :: DecodeVector(r, t, count, depth).1 == m) <==> (exists v :: StandsFor(v, t, count, depth, m))
  {
    hide DecodeVector, VecBytes, Shaped, Meaning, Depth, Withheld;
    if r :| DecodeVector(r, t, count, depth).1 == m {
      var v := EncodingOf(r, t, count, depth);
    }
    if v :| StandsFor(v, t, count, depth, m) {
      VecBack(v, t, count, depth, []);
    }
  }
}
