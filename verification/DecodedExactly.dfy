/** What columns of a type can decode to, over all bytes: which types have
    values, and for which types all decoded values convert for database/sql. */
module DecodedExactly {
  import opened Basics
  import opened Framing
  import opened LogicalTypes
  import opened Values
  import opened Vectors
  import opened VectorWire
  import opened VectorBack
  import opened VectorComplete
  import opened DecodedTyped
  import opened Json

  // ---- types with values ----------------------------------------------------------------

  function Zeros(n: nat): (s: Bytes)
    ensures |s| == n
  {
    seq<Byte>(n, _ => 0)
  }

  lemma NoneValid(n: nat, i: nat)
    requires i < n
    ensures Covers(Some(Zeros((n + 7) / 8)), n) && !IsValid(Some(Zeros((n + 7) / 8)), i)
  {
  }

  /** `n` NULL rows. */
  ghost function NullVec(t: LogicalType, n: nat): Vec
    requires Valued(t)
    decreases t
  {
    Flat(None, Some(Zeros((n + 7) / 8)),
      if IsText(t.id) then Texts(seq(n, _ => []))
      else if t.id == STRUCT then Kids(seq(|t.fields|, i requires 0 <= i < |t.fields| => NullVec(t.fields[i].typ, n)))
      else if IsList(t.id) then Windows(0, seq(n, _ => WindowEntry(None, None)), Sequence(0, 0))
      else if t.id == ARRAY then Groups(0, Sequence(0, 0))
      else Fixed(Zeros(n * PhysicalWidth(t))))
  }

  /** Zero rows of any type. */
  lemma NoRows(t: LogicalType, depth: nat)
    requires depth <= MAX_TYPE_DEPTH
    ensures StandsFor(Sequence(0, 0), t, 0, depth, Vals([]))
  {
  }

  lemma NullBody(t: LogicalType, n: nat, depth: nat)
    requires Valued(t) && WellFormed(t) && depth + Height(t) <= MAX_TYPE_DEPTH && n <= MAX_VECTOR_ROWS && t.id != STRUCT
    ensures Covers(NullVec(t, n).mask, n)
    ensures BodyStandsFor(NullVec(t, n).body, t, n, depth, FlatHead(false, NullVec(t, n).mask), Vals(Repeat(VNull, n)))
  {
    var v := NullVec(t, n);
    forall i | 0 <= i < n ensures !IsValid(v.mask, i) {
      NoneValid(n, i);
    }
    if IsList(t.id) || t.id == ARRAY {
      NoRows(t.child.value, depth + 1);
    } else if !IsText(t.id) {
      assert PhysicalWidth(t) <= 16;
      MulMono(n, MAX_VECTOR_ROWS, PhysicalWidth(t));
    }
    hide IsValid, Withheld, BodyWithheld, PhysicalWidth, CellValue, TextValue, ListRow, KindOf;
    assert BodyMeaning(v.body, t, n, FlatHead(false, v.mask)).vals == Repeat(VNull, n);
  }

  lemma FlatStandsFor(v: Vec, t: LogicalType, n: nat, depth: nat, m: VectorResult)
    requires v.Flat? && v.geo.None? && n <= MAX_VECTOR_ROWS && Covers(v.mask, n) && (v.mask.Some? ==> |v.mask.value| < P64)
    requires BodyStandsFor(v.body, t, n, depth, FlatHead(false, v.mask), m)
    ensures StandsFor(v, t, n, depth, m)
  {
    hide BodyShaped, BodyMeaning, Withheld, BodyWithheld, Covers;
    SameDepth(v);
  }

  /** A struct of children that stand for columns. */
  lemma KidsStandAll(kids: seq<Vec>, t: LogicalType, cols: seq<seq<Value>>, n: nat, depth: nat, mask: Option<Bytes>)
    requires t.id == STRUCT && |kids| == |t.fields| == |cols| && |t.fields| < P64 && n <= MAX_VECTOR_ROWS && depth <= MAX_TYPE_DEPTH
    requires Covers(mask, n) && (forall col <- cols :: |col| == n)
    requires forall i :: 0 <= i < |kids| ==> StandsFor(kids[i], t.fields[i].typ, n, depth + 1, Vals(cols[i]))
    ensures BodyStandsFor(Kids(kids), t, n, depth, FlatHead(false, mask), Vals(StructRows(t.fields, cols, mask, n)))
  {
    hide Shaped, Meaning, Withheld, BodyWithheld, Depth, BodyDepth, StructRows, Covers;
    KidsShallow(kids, depth);
    KidsMean(kids, t, Children(cols, false), n, FlatHead(false, mask));
  }

  lemma FieldFits(t: LogicalType, i: nat)
    requires WellFormed(t) && t.id == STRUCT && i < |t.fields|
    ensures WellFormed(t.fields[i].typ) && Height(t) >= 1 + Height(t.fields[i].typ) && |t.fields| < P64
  {
    assert t.fields[i] in t.fields;
    HeightOfField(t.fields, i);
  }

  lemma {:induction false} HeightOfField(fs: seq<StructField>, i: nat)
    requires i < |fs|
    ensures FieldsHeight(fs) >= Height(fs[i].typ)
    decreases i
  {
    if i > 0 {
      HeightOfField(fs[1..], i - 1);
    }
  }

  lemma {:induction false} NullStands(t: LogicalType, n: nat, depth: nat)
    requires Valued(t) && WellFormed(t) && depth + Height(t) <= MAX_TYPE_DEPTH && n <= MAX_VECTOR_ROWS
    ensures StandsFor(NullVec(t, n), t, n, depth, Vals(Repeat(VNull, n)))
    decreases t
  {
    var v := NullVec(t, n);
    hide StandsFor, BodyStandsFor, Height, WellFormed, IsValid;
    if t.id == STRUCT {
      forall i | 0 <= i < |t.fields| ensures StandsFor(v.body.kids[i], t.fields[i].typ, n, depth + 1, Vals(Repeat(VNull, n))) {
        FieldFits(t, i);
        NullStands(t.fields[i].typ, n, depth + 1);
      }
      NullStruct(t, n, depth);
    } else {
      NullBody(t, n, depth);
    }
    FlatStandsFor(v, t, n, depth, Vals(Repeat(VNull, n)));
  }

  lemma NullStruct(t: LogicalType, n: nat, depth: nat)
    requires Valued(t) && WellFormed(t) && t.id == STRUCT && depth <= MAX_TYPE_DEPTH && n <= MAX_VECTOR_ROWS
    requires forall i :: 0 <= i < |t.fields| ==>
               StandsFor(NullVec(t, n).body.kids[i], t.fields[i].typ, n, depth + 1, Vals(Repeat(VNull, n)))
    ensures Covers(NullVec(t, n).mask, n)
    ensures BodyStandsFor(NullVec(t, n).body, t, n, depth, FlatHead(false, NullVec(t, n).mask), Vals(Repeat(VNull, n)))
  {
    var v := NullVec(t, n);
    var nulls := Repeat(VNull, n);
    var cols := seq(|t.fields|, _ => nulls);
    forall i | 0 <= i < n ensures !IsValid(v.mask, i) {
      NoneValid(n, i);
    }
    assert forall col <- cols :: |col| == n;
    hide IsValid, StandsFor, BodyStandsFor;
    KidsStandAll(v.body.kids, t, cols, n, depth, v.mask);
    assert StructRows(t.fields, cols, v.mask, n) == Repeat(VNull, n);
  }

  /** Some bytes decode to rows of the type exactly when it is a type with
      values; an empty column is one of any type. */
  lemma ValuesExactly(t: LogicalType, count: nat, depth: nat)
    requires WellFormed(t) && depth + Height(t) <= MAX_TYPE_DEPTH && count <= MAX_VECTOR_ROWS
    ensures (exists r :: DecodeVector(r, t, count, depth).1.Vals?) <==> count == 0 || Valued(t)
  {
    hide DecodeVector, VecBytes, Holds, Shaped, Meaning;
    if r :| DecodeVector(r, t, count, depth).1.Vals? {
      VectorHolds(r, t, count, depth);
      if count > 0 {
        assert Holds(t, DecodeVector(r, t, count, depth).1.vals[0]);
        HoldsValued(t, DecodeVector(r, t, count, depth).1.vals[0]);
      }
    }
    if count == 0 {
      NoRows(t, depth);
      VecBack(Sequence(0, 0), t, 0, depth, []);
    } else if Valued(t) {
      NullStands(t, count, depth);
      VecBack(NullVec(t, count), t, count, depth, []);
    }
  }

  lemma HoldsValued(t: LogicalType, v: Value)
    requires Holds(t, v)
    ensures Valued(t)
  {
  }

  // ---- types whose values convert ----------------------------------------------------------

  /** The list with one element, or with none. */
  function OneWindow(len: nat): seq<WindowEntry> { [WindowEntry(None, Some(len))] }

  /** One row that decodes and does not print. */
  ghost function BadVec(t: LogicalType): Vec
    requires !MapsPrint(t)
    decreases t
  {
    Flat(None, None,
      if t.id == STRUCT then
        var at := FirstUnprintable(t.fields);
        Kids(seq(|t.fields|, i requires 0 <= i < |t.fields| =>
          if i == at then BadVec(t.fields[i].typ) else NullVec(t.fields[i].typ, 1)))
      else if t.id == ARRAY then Groups(1, BadVec(t.child.value))
      else if t.id == MAP && |t.child.value.fields| != 2 then Windows(0, OneWindow(0), Sequence(0, 0))
      else Windows(1, OneWindow(1), BadVec(t.child.value)))
  }

  lemma OneRowList(t: LogicalType, size: nat, child: Vec, elems: seq<Value>, depth: nat)
    requires IsList(t.id) && t.child.Some? && size <= 1 && StandsFor(child, t.child.value, size, depth + 1, Vals(elems))
    ensures StandsFor(Flat(None, None, Windows(size, OneWindow(size), child)), t, 1, depth,
                      Vals([if t.id == MAP then VMap(PairsOf(elems)) else VList(elems)]))
  {
    hide Shaped, Meaning, Withheld, BodyWithheld;
    assert elems[0..size] == elems;
    var b, h := Windows(size, OneWindow(size), child), FlatHead(false, None);
    assert WindowOf(OneWindow(size)[0]) == Window(0, size);
    assert BodyShaped(b, t, 1, h);
    assert BodyMeaning(b, t, 1, h).vals == [if t.id == MAP then VMap(PairsOf(elems)) else VList(elems)];
    FlatStandsFor(Flat(None, None, b), t, 1, depth, BodyMeaning(b, t, 1, h));
  }

  lemma OneRowArray(t: LogicalType, child: Vec, elem: Value, depth: nat)
    requires t.id == ARRAY && t.child.Some? && StandsFor(child, t.child.value, 1, depth + 1, Vals([elem]))
    ensures StandsFor(Flat(None, None, Groups(1, child)), t, 1, depth, Vals([VList([elem])]))
  {
    hide Shaped, Meaning, Withheld, BodyWithheld;
    var b, h := Groups(1, child), FlatHead(false, None);
    assert BodyShaped(b, t, 1, h);
    assert Group([elem], 1, 1, 0) == [elem];
    assert BodyMeaning(b, t, 1, h).vals == [VList([elem])];
    FlatStandsFor(Flat(None, None, b), t, 1, depth, BodyMeaning(b, t, 1, h));
  }

  lemma OneRowStruct(t: LogicalType, kids: seq<Vec>, row: Value, depth: nat)
    requires t.id == STRUCT && |kids| == |t.fields| < P64 && depth <= MAX_TYPE_DEPTH
    requires row.VStruct? && |row.entries| == |t.fields| && forall i :: 0 <= i < |t.fields| ==> row.entries[i].name == t.fields[i].name
    requires forall i :: 0 <= i < |kids| ==> StandsFor(kids[i], t.fields[i].typ, 1, depth + 1, Vals([row.entries[i].value]))
    ensures StandsFor(Flat(None, None, Kids(kids)), t, 1, depth, Vals([row]))
  {
    hide StandsFor;
    var cols := seq(|kids|, i requires 0 <= i < |kids| => [row.entries[i].value]);
    KidsStandAll(kids, t, cols, 1, depth, None);
    assert StructRow(t.fields, cols, 0).entries == row.entries;
    assert StructRows(t.fields, cols, None, 1) == [row];
    hide BodyStandsFor;
    FlatStandsFor(Flat(None, None, Kids(kids)), t, 1, depth, Vals([row]));
  }

  lemma NotPrinting(t: LogicalType)
    requires !MapsPrint(t)
    ensures t.id == STRUCT ==> exists i :: 0 <= i < |t.fields| && !MapsPrint(t.fields[i].typ)
    ensures t.id != STRUCT ==>
              && (IsList(t.id) || t.id == ARRAY) && t.child.Some? && Height(t) == 1 + Height(t.child.value)
              && (!(t.id == MAP && |t.child.value.fields| != 2) ==> !MapsPrint(t.child.value))
              && (WellFormed(t) ==> WellFormed(t.child.value))
  {
  }

  lemma {:induction false} BadStands(t: LogicalType, depth: nat)
    requires !MapsPrint(t) && WellFormed(t) && depth + Height(t) <= MAX_TYPE_DEPTH
    ensures StandsFor(BadVec(t), t, 1, depth, Vals([Unprintable(t)]))
    decreases t
  {
    NotPrinting(t);
    hide StandsFor, BadVec, Unprintable, Valued, MapsPrint, Height, WellFormed;
    if t.id == STRUCT {
      forall i | 0 <= i < |t.fields| ensures WellFormed(t.fields[i].typ) && depth + 1 + Height(t.fields[i].typ) <= MAX_TYPE_DEPTH {
        FieldFits(t, i);
      }
      var at := FirstUnprintable(t.fields);
      BadStands(t.fields[at].typ, depth + 1);
      BadStruct(t, at, depth);
    } else if t.id == MAP && |t.child.value.fields| != 2 {
      BadWidth(t, depth);
    } else {
      BadStands(t.child.value, depth + 1);
      BadElement(t, depth);
    }
  }

  lemma BadStruct(t: LogicalType, at: nat, depth: nat)
    requires !MapsPrint(t) && WellFormed(t) && t.id == STRUCT && at == FirstUnprintable(t.fields) && depth <= MAX_TYPE_DEPTH
    requires forall i :: 0 <= i < |t.fields| ==> WellFormed(t.fields[i].typ) && depth + 1 + Height(t.fields[i].typ) <= MAX_TYPE_DEPTH
    requires StandsFor(BadVec(t.fields[at].typ), t.fields[at].typ, 1, depth + 1, Vals([Unprintable(t.fields[at].typ)]))
    ensures StandsFor(BadVec(t), t, 1, depth, Vals([Unprintable(t)]))
  {
    var kids, row := BadVec(t).body.kids, Unprintable(t);
    assert |t.fields| < P64;
    hide StandsFor, WellFormed, Height;
    forall i | 0 <= i < |t.fields| ensures StandsFor(kids[i], t.fields[i].typ, 1, depth + 1, Vals([row.entries[i].value])) {
      if i != at {
        NullStands(t.fields[i].typ, 1, depth + 1);
        assert Repeat(VNull, 1) == [VNull];
      }
    }
    OneRowStruct(t, kids, row, depth);
  }

  lemma BadWidth(t: LogicalType, depth: nat)
    requires !MapsPrint(t) && t.id == MAP && |t.child.value.fields| != 2 && depth < MAX_TYPE_DEPTH
    ensures StandsFor(BadVec(t), t, 1, depth, Vals([Unprintable(t)]))
  {
    hide StandsFor;
    NoRows(t.child.value, depth + 1);
    OneRowList(t, 0, Sequence(0, 0), [], depth);
  }

  lemma BadElement(t: LogicalType, depth: nat)
    requires !MapsPrint(t) && t.id != STRUCT && (t.id == MAP ==> |t.child.value.fields| == 2)
    requires StandsFor(BadVec(t.child.value), t.child.value, 1, depth + 1, Vals([Unprintable(t.child.value)]))
    ensures StandsFor(BadVec(t), t, 1, depth, Vals([Unprintable(t)]))
  {
    hide StandsFor;
    var elem := Unprintable(t.child.value);
    if t.id == ARRAY {
      OneRowArray(t, BadVec(t.child.value), elem, depth);
    } else {
      OneRowList(t, 1, BadVec(t.child.value), [elem], depth);
      assert PairsOf([elem]) == [PairOf(elem)];
    }
  }

  /** A decoded value that does not convert. */
  ghost predicate Spoils(lib: Library, t: LogicalType, r: Rd, count: nat, i: nat)
  {
    var m := DecodeVector(r, t, count, 0).1;
    m.Vals? && i < count && DriverOf(lib, t, m.vals[i]).None?
  }

  /** Everything decoded for a type converts, whatever the bytes, exactly when
      the MAPs that can occur in its values have two-field children. */
  lemma DecodedPrintExactly(lib: Library, t: LogicalType)
    requires Trusted(lib) && WellFormed(t) && Height(t) <= MAX_TYPE_DEPTH
    ensures (forall r, count, i :: !Spoils(lib, t, r, count, i)) <==> MapsPrint(t)
  {
    hide DecodeVector, VecBytes, Holds, Trusted, DriverOf, JsonOf, StandsFor;
    if MapsPrint(t) {
      forall r, count: nat, i: nat | DecodeVector(r, t, count, 0).1.Vals? && i < count
        ensures DriverOf(lib, t, DecodeVector(r, t, count, 0).1.vals[i]).Some?
      {
        VectorHolds(r, t, count, 0);
        HoldsRenders(lib, t, DecodeVector(r, t, count, 0).1.vals[i]);
      }
    } else {
      BadStands(t, 0);
      var r := Ok(VecBytes(BadVec(t), EndMark() + []));
      FromStandsFor(BadVec(t), t, 1, Vals([Unprintable(t)]), []);
      UnprintableStays(lib, t);
      assert Spoils(lib, t, r, 1, 0);
    }
  }

  lemma UnprintableStays(lib: Library, t: LogicalType)
    requires !MapsPrint(t)
    ensures DriverOf(lib, t, Unprintable(t)).None?
  {
    UnprintableFails(lib, t);
  }

  /** One empty MAP over INTEGER, as it decodes; it does not convert. */
  lemma EmptyMapFails(lib: Library, k: Bytes)
    ensures var t := Plain(MAP).(child := Some(Plain(INTEGER)));
            var v := Flat(None, None, Windows(0, OneWindow(0), Flat(None, None, Fixed([]))));
            && DecodeVector(Ok(VecBytes(v, EndMark() + k)), t, 1, 0) == (Ok(EndMark() + k), Vals([VMap([])]))
            && DriverOf(lib, t, VMap([])).None?
  {
    hide DecodeVector, VecBytes, StandsFor;
    var t, child := Plain(MAP).(child := Some(Plain(INTEGER))), Flat(None, None, Fixed([]));
    NoIntegers();
    OneRowList(t, 0, child, [], 0);
    FromStandsFor(Flat(None, None, Windows(0, OneWindow(0), child)), t, 1, Vals([VMap([])]), k);
  }

  lemma NoIntegers()
    ensures StandsFor(Flat(None, None, Fixed([])), Plain(INTEGER), 0, 1, Vals([]))
  {
  }

  lemma FromStandsFor(v: Vec, t: LogicalType, count: nat, m: VectorResult, k: Bytes)
    requires StandsFor(v, t, count, 0, m)
    ensures DecodeVector(Ok(VecBytes(v, EndMark() + k)), t, count, 0) == (Ok(EndMark() + k), m)
  {
    hide DecodeVector, VecBytes, Shaped, Meaning, Depth;
    VecBack(v, t, count, 0, k);
  }
}
