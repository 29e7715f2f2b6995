/** What a vector may look like on the wire and what it means, apart from any
    decoder: a tree of encodings, its bytes, and the values it stands for. */
module VectorWire {
  import opened Basics
  import opened Leb128
  import opened Framing
  import opened LogicalTypes
  import opened Values
  import opened Vectors

  datatype Vec =
    | Flat(geo: Option<nat>, mask: Option<Bytes>, body: Body)
    | Constant(one: Vec)
    | Dictionary(sel: seq<nat>, size: nat, dict: Vec)
    | Sequence(start: int, inc: int)

  datatype Body =
    | Texts(items: seq<Bytes>)
    | Kids(kids: seq<Vec>)
    | Windows(size: nat, entries: seq<WindowEntry>, child: Vec)
    | Groups(size: nat, child: Vec)
    | Fixed(data: Bytes)

  /** A list entry whose fields may be left out when zero. */
  datatype WindowEntry = WindowEntry(off: Option<nat>, len: Option<nat>)

  function WindowOf(e: WindowEntry): Window
  {
    Window(if e.off.Some? then e.off.value else 0, if e.len.Some? then e.len.value else 0)
  }

  function WindowsOf(es: seq<WindowEntry>): (ws: seq<Window>)
    ensures |ws| == |es|
  {
    seq(|es|, i requires 0 <= i < |es| => WindowOf(es[i]))
  }

  /** How many vectors deep the encoding nests. */
  function Depth(v: Vec): (d: nat)
    decreases v, 1
  {
    match v
    case Constant(one) => 1 + Depth(one)
    case Dictionary(_, _, dict) => 1 + Depth(dict)
    case Sequence(_, _) => 0
    case Flat(_, _, body) =>
      match body
      case Kids(kids) => if kids == [] then 0 else 1 + KidsDepth(kids)
      case Windows(_, _, child) => 1 + Depth(child)
      case Groups(_, child) => 1 + Depth(child)
      case _ => 0
  }

  function KidsDepth(kids: seq<Vec>): (d: nat)
    ensures forall kid <- kids :: Depth(kid) <= d
    decreases kids, 0
  {
    if kids == [] then 0
    else
      var a, b := Depth(kids[0]), KidsDepth(kids[1..]);
      if a >= b then a else b
  }

  // ---- bytes ----------------------------------------------------------------------

  function SelBytes(sel: seq<nat>): (s: Bytes)
    ensures |s| == 4 * |sel|
  {
    if sel == [] then [] else LE(sel[0], 4) + SelBytes(sel[1..])
  }

  function MaskBytes(mask: Option<Bytes>, k: Bytes): Bytes
  {
    FieldId(100) + (BoolByte(mask.Some?) + if mask.Some? then FieldId(101) + (Prefixed(mask.value) + k) else k)
  }

  function GeoBytes(geo: Option<nat>, k: Bytes): Bytes
  {
    if geo.Some? then FieldId(99) + (UvEncode(geo.value) + k) else k
  }

  function VecBytes(v: Vec, k: Bytes): (s: Bytes)
    ensures |s| >= |k|
    decreases v, 2
  {
    match v
    case Flat(geo, mask, body) => GeoBytes(geo, MaskBytes(mask, BodyBytes(body, k)))
    case Constant(one) => FieldId(90) + (UvEncode(VEC_CONSTANT) + VecBytes(one, k))
    case Dictionary(sel, size, dict) =>
      FieldId(90) + (UvEncode(VEC_DICTIONARY) + (FieldId(91) + (Prefixed(SelBytes(sel))
        + (FieldId(92) + (UvEncode(size) + VecBytes(dict, k))))))
    case Sequence(start, inc) =>
      FieldId(90) + (UvEncode(VEC_SEQUENCE) + (FieldId(91) + (SvEncode(start) + (FieldId(92) + (SvEncode(inc) + k)))))
  }

  function BodyBytes(b: Body, k: Bytes): (s: Bytes)
    ensures |s| >= |k|
    decreases b, 1
  {
    match b
    case Texts(items) => FieldId(102) + (UvEncode(|items|) + StringsBytes(items, k))
    case Kids(kids) => FieldId(103) + (UvEncode(|kids|) + KidsBytes(kids, k))
    case Windows(size, entries, child) =>
      FieldId(104) + (UvEncode(size) + (FieldId(105) + (UvEncode(|entries|)
        + EntriesBytes(entries, FieldId(106) + VecBytes(child, EndMark() + k)))))
    case Groups(size, child) =>
      FieldId(103) + (UvEncode(size) + (FieldId(104) + VecBytes(child, EndMark() + k)))
    case Fixed(data) => FieldId(102) + (Prefixed(data) + k)
  }

  function KidsBytes(kids: seq<Vec>, k: Bytes): (s: Bytes)
    ensures |s| >= |kids| + |k|
    decreases kids, 0
  {
    if kids == [] then k
    else VecBytes(kids[0], EndMark() + KidsBytes(kids[1..], k))
  }

  function OptionBytes(id: nat, v: Option<nat>, k: Bytes): (s: Bytes)
    requires id < P16
    ensures |s| >= |k|
  {
    if v.Some? then FieldId(id) + (UvEncode(v.value) + k) else k
  }

  function EntriesBytes(es: seq<WindowEntry>, k: Bytes): (s: Bytes)
    ensures |s| >= |es| + |k|
  {
    if es == [] then k
    else OptionBytes(100, es[0].off, OptionBytes(101, es[0].len, EndMark() + EntriesBytes(es[1..], k)))
  }

  // ---- shape ------------------------------------------------------------------------

  predicate OptionWord(v: Option<nat>) { v.Some? ==> v.value < P64 }

  /** The encoding gives a column error in place of values: a flat vector in it
      carries the geometry storage tag or is of a type without values. Zero
      rows sent as a sequence are values of any type. */
  predicate Withheld(v: Vec, t: LogicalType)
    decreases v, 1
  {
    match v
    case Constant(one) => Withheld(one, t)
    case Dictionary(_, _, dict) => Withheld(dict, t)
    case Sequence(_, _) => false
    case Flat(geo, _, body) => geo.Some? || BodyWithheld(body, t)
  }

  predicate BodyWithheld(b: Body, t: LogicalType)
    decreases b, 0
  {
    match b
    case Texts(_) => t.id == GEOMETRY
    case Kids(kids) => t.id != STRUCT || exists i :: 0 <= i < |kids| && i < |t.fields| && Withheld(kids[i], t.fields[i].typ)
    case Windows(_, _, child) => t.child.Some? && Withheld(child, t.child.value)
    case Groups(_, child) => t.child.Some? && Withheld(child, t.child.value)
    case Fixed(_) => KindOf(t.id) == KNone
  }

  /** `v` is an encoding of `count` values of type `t` that the decoder takes:
      the sizes agree, and where values are made no index points outside what
      it indexes. */
  ghost predicate Shaped(v: Vec, t: LogicalType, count: nat)
    decreases v, 1
  {
    && count <= MAX_VECTOR_ROWS
    && match v
       case Constant(one) => Shaped(one, t, 1)
       case Dictionary(sel, size, dict) =>
         && |sel| == count && size <= MAX_CHUNK_ROWS
         && (forall i :: 0 <= i < count ==> sel[i] < P32)
         && (Withheld(dict, t) || forall i :: 0 <= i < count ==> sel[i] < size)
         && Shaped(dict, t, size)
       case Sequence(start, inc) => (count == 0 || IsInteger(t.id)) && IsSigned(start, P64) && IsSigned(inc, P64)
       case Flat(geo, mask, body) =>
         && OptionWord(geo)
         && (mask.Some? ==> |mask.value| < P64)
         && Covers(mask, count)
         && BodyShaped(body, t, count, FlatHead(geo.Some?, mask))
  }

  ghost predicate BodyShaped(b: Body, t: LogicalType, count: nat, h: FlatHead)
    requires Covers(h.mask, count)
    decreases b, 0
  {
    match b
    case Texts(items) =>
      && IsText(t.id) && |items| == count
      && (forall item <- items :: |item| < P64)
      && (h.geo || t.id == GEOMETRY ||
          forall i :: 0 <= i < count && IsValid(h.mask, i) ==> TextValue(t.id, items[i]).Some?)
    case Kids(kids) =>
      && IsStructLike(t.id) && |kids| == |t.fields| < P64
      && forall i :: 0 <= i < |kids| ==> Shaped(kids[i], t.fields[i].typ, count)
    case Windows(size, entries, child) =>
      && IsList(t.id) && t.child.Some? && |entries| == count && size <= MAX_VECTOR_ROWS
      && (forall e <- entries :: OptionWord(e.off) && OptionWord(e.len))
      && (h.geo || Withheld(child, t.child.value) ||
          forall i :: 0 <= i < count && IsValid(h.mask, i) ==> WindowFits(WindowOf(entries[i]), size))
      && Shaped(child, t.child.value, size)
    case Groups(size, child) =>
      && t.id == ARRAY && t.child.Some?
      && size <= MAX_VECTOR_ROWS && size * count <= MAX_VECTOR_ROWS
      && Shaped(child, t.child.value, size * count)
    case Fixed(data) =>
      && !IsText(t.id) && !IsStructLike(t.id) && !IsList(t.id) && t.id != ARRAY
      && |data| < P64
      && (KindOf(t.id) != KNone ==>
            && |data| >= count * PhysicalWidth(t)
            && (h.geo || forall i :: 0 <= i < count && IsValid(h.mask, i) ==> CellValue(t, data, count, i).Some?))
  }

  function CellValue(t: LogicalType, data: Bytes, count: nat, i: nat): Option<Value>
    requires KindOf(t.id) != KNone && i < count && |data| >= count * PhysicalWidth(t)
  {
    MulMono(i + 1, count, PhysicalWidth(t));
    DecodeCell(t, CellAt(data, PhysicalWidth(t), i))
  }

  // ---- meaning ------------------------------------------------------------------------

  /** The integer of `t`'s width congruent to `n`. */
  function Residue(id: nat, n: int): Value
    requires IsInteger(id)
  {
    var kind := KindOf(id);
    var m := Pow256(kind.bits / 8);
    VInt(kind.bits, kind.signed, if kind.signed then Signed(Wrap(n, m), m) else Wrap(n, m))
  }

  /** The values an encoding stands for, or the type it cannot give values for. */
  ghost function Meaning(v: Vec, t: LogicalType, count: nat): (m: VectorResult)
    requires Shaped(v, t, count)
    ensures !m.Bad?
    ensures m.Vals? ==> |m.vals| == count
    ensures m.Unsupported? <==> Withheld(v, t)
    decreases v, 1
  {
    match v
    case Constant(one) =>
      var m := Meaning(one, t, 1);
      if m.Vals? then Vals(Repeat(m.vals[0], count)) else m
    case Dictionary(sel, size, dict) =>
      var m := Meaning(dict, t, size);
      if m.Vals? then Vals(seq(count, i requires 0 <= i < count => m.vals[sel[i]])) else m
    case Sequence(start, inc) =>
      Vals(seq(count, i requires 0 <= i < count => Residue(t.id, start + i * inc)))
    case Flat(geo, mask, body) => BodyMeaning(body, t, count, FlatHead(geo.Some?, mask))
  }

  ghost function BodyMeaning(b: Body, t: LogicalType, count: nat, h: FlatHead): (m: VectorResult)
    requires Covers(h.mask, count) && BodyShaped(b, t, count, h)
    ensures !m.Bad?
    ensures m.Vals? ==> |m.vals| == count
    ensures m.Unsupported? <==> h.geo || BodyWithheld(b, t)
    decreases b, 0
  {
    match b
    case Texts(items) =>
      if h.geo || t.id == GEOMETRY then Unsupported(t)
      else Vals(seq(count, i requires 0 <= i < count =>
        if IsValid(h.mask, i) then TextValue(t.id, items[i]).value else VNull))
    case Kids(kids) =>
      if h.geo || t.id != STRUCT
         || exists i :: 0 <= i < |kids| && Meaning(kids[i], t.fields[i].typ, count).Unsupported?
      then Unsupported(t)
      else
        var cols := seq(|kids|, i requires 0 <= i < |kids| => Meaning(kids[i], t.fields[i].typ, count).vals);
        Vals(StructRows(t.fields, cols, h.mask, count))
    case Windows(size, entries, child) =>
      var m := Meaning(child, t.child.value, size);
      if h.geo then Unsupported(t)
      else if m.Unsupported? then m
      else Vals(seq(count, i requires 0 <= i < count =>
        if IsValid(h.mask, i) then ListRow(t.id, WindowOf(entries[i]), m.vals) else VNull))
    case Groups(size, child) =>
      var m := Meaning(child, t.child.value, size * count);
      if h.geo then Unsupported(t)
      else if m.Unsupported? then m
      else Vals(ArrayRows(size, m.vals, h.mask, count))
    case Fixed(data) =>
      if h.geo || KindOf(t.id) == KNone then Unsupported(t)
      else Vals(seq(count, i requires 0 <= i < count =>
        if IsValid(h.mask, i) then CellValue(t, data, count, i).value else VNull))
  }
}
