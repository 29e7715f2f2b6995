/** What each row of a vector stands for, by type id and by position on the
    wire, apart from the decoder's own functions. */
module VectorRows {
  import opened Basics
  import opened LogicalTypes
  import opened Values
  import opened Vectors
  import opened VectorWire
  import opened Storage

  /** A row of a flat vector is NULL exactly when the mask's bit is clear. */
  predicate NotNull(mask: Option<Bytes>, row: nat)
    requires mask.Some? ==> row / 8 < |mask.value|
  {
    mask.None? || LowBit(mask.value, row)
  }

  lemma MaskReaches(mask: Option<Bytes>, count: nat, row: nat)
    requires Covers(mask, count) && row < count
    ensures mask.Some? ==> row / 8 < |mask.value|
    ensures IsValid(mask, row) <==> NotNull(mask, row)
  {
    MaskExactly(mask, row, count);
  }

  // ---- compressed vectors -------------------------------------------------------------

  /** The integer types by id: their bits and whether they are signed. */
  function IntegerOf(id: nat): Option<(nat, bool)>
  {
    match id
    case 11 => Some((8, true))
    case 12 => Some((16, true))
    case 13 => Some((32, true))
    case 14 => Some((64, true))
    case 28 => Some((8, false))
    case 29 => Some((16, false))
    case 30 => Some((32, false))
    case 31 => Some((64, false))
    case _ => None
  }

  /** `v` is the integer of so many bits that equals `n` up to a multiple of
      two to the bits. */
  predicate IsResidue(v: Value, bits: nat, signed: bool, n: int)
  {
    && v == VInt(bits, signed, if v.VInt? then v.n else 0) && (v.n - n) % Power2(bits) == 0
    && 0 <= (if signed then v.n + Power2(bits) / 2 else v.n) < Power2(bits)
  }

  predicate Congruent(id: nat, v: Value, n: int)
  {
    IntegerOf(id).Some? && IsResidue(v, IntegerOf(id).value.0, IntegerOf(id).value.1, n)
  }

  lemma Powers()
    ensures Power2(8) == 0x100 && Power2(16) == 0x1_0000 && Power2(32) == 0x1_0000_0000
    ensures Power2(64) == 0x1_0000_0000_0000_0000
  {
    assert Power2(8) == 0x100;
    assert Power2(16) == 0x1_0000;
    assert Power2(24) == 0x100_0000;
    assert Power2(32) == 0x1_0000_0000;
    assert Power2(40) == 0x100_0000_0000;
    assert Power2(48) == 0x1_0000_0000_0000;
    assert Power2(56) == 0x100_0000_0000_0000;
  }

  /** Two's complement is the one representative in range. */
  lemma SignedIs(n: int, m: int)
    requires m > 0 && m % 2 == 0
    ensures (Wrap(n, m) - n) % m == 0 && (Signed(Wrap(n, m), m) - n) % m == 0
    ensures 0 <= Signed(Wrap(n, m), m) + m / 2 < m
  {
    var q := n / m;
    assert n == m * q + n % m;
    ModUnique(Wrap(n, m) - n, m, -q, 0);
    if Wrap(n, m) >= m / 2 {
      ModUnique(Wrap(n, m) - m - n, m, -q - 1, 0);
    }
  }

  lemma ResidueOf(bits: nat, signed: bool, n: int)
    requires Power2(bits) > 0 && Power2(bits) % 2 == 0
    ensures var m := Power2(bits);
            IsResidue(VInt(bits, signed, if signed then Signed(Wrap(n, m), m) else Wrap(n, m)), bits, signed, n)
  {
    SignedIs(n, Power2(bits));
    hide Signed, Power2;
  }

  lemma ResidueIs(id: nat, n: int)
    requires IsInteger(id)
    ensures Congruent(id, Residue(id, n), n)
  {
    IntegersAre(id);
    WordSizes();
    Powers();
    hide KindOf, IntegerOf, Wrap, Signed, Power2, Pow256, IsResidue;
    var kind := KindOf(id);
    assert Pow256(kind.bits / 8) == Power2(kind.bits);
    ResidueOf(kind.bits, kind.signed, n);
  }

  /** Sequences stand for integer types only, or for no rows. */
  lemma IntegersAre(id: nat)
    ensures IsInteger(id) <==> IntegerOf(id).Some?
    ensures IsInteger(id) ==>
              KindOf(id) == KInt(IntegerOf(id).value.0, IntegerOf(id).value.1) && IntegerOf(id).value.0 in {8, 16, 32, 64}
  {
  }

  /** Rows of compressed vectors: the one value, the selected entry, the term
      of the sequence. */
  lemma CompressedRow(v: Vec, t: LogicalType, count: nat, i: nat)
    requires Shaped(v, t, count) && !Withheld(v, t) && i < count && !v.Flat?
    ensures var x := Meaning(v, t, count).vals[i];
            match v
            case Constant(one) => x == Meaning(one, t, 1).vals[0]
            case Dictionary(sel, size, dict) => sel[i] < size && x == Meaning(dict, t, size).vals[sel[i]]
            case Sequence(start, inc) => Congruent(t.id, x, start + i * inc)
            case _ => true
  {
    if v.Sequence? {
      ResidueIs(t.id, v.start + i * v.inc);
    }
  }

  // ---- flat vectors --------------------------------------------------------------------------

  /** Texts: a string, bytes, or a bit string's characters. */
  lemma TextRow(b: Body, t: LogicalType, count: nat, h: FlatHead, i: nat)
    requires Covers(h.mask, count) && b.Texts? && BodyShaped(b, t, count, h) && !h.geo && !BodyWithheld(b, t) && i < count
    ensures h.mask.Some? ==> i / 8 < |h.mask.value|
    ensures t.id in {25, 26, 36}
    ensures var x := BodyMeaning(b, t, count, h).vals[i];
            if !NotNull(h.mask, i) then x == VNull
            else if t.id == 25 then x == VString(b.items[i])
            else if t.id == 26 then x == VBytes(b.items[i])
            else BitString(b.items[i]).Some? && x == VString(BitString(b.items[i]).value)
  {
    hide BitString;
    MaskReaches(h.mask, count, i);
  }

  /** Cells: the type's width of bytes at the row's place. */
  lemma CellRow(b: Body, t: LogicalType, count: nat, h: FlatHead, i: nat)
    requires Covers(h.mask, count) && b.Fixed? && BodyShaped(b, t, count, h) && !h.geo && !BodyWithheld(b, t) && i < count
    ensures h.mask.Some? ==> i / 8 < |h.mask.value|
    ensures CellWidth(t).Some? && (i + 1) * CellWidth(t).value <= |b.data|
    ensures var w := CellWidth(t).value;
            var x := BodyMeaning(b, t, count, h).vals[i];
            if NotNull(h.mask, i) then Stored(t, b.data[i * w..i * w + w]) == Some(x) else x == VNull
  {
    hide Stored, DecodeCell, IsValid;
    MaskReaches(h.mask, count, i);
    WidthsAre(t);
    var w := CellWidth(t).value;
    MulMono(i + 1, count, w);
    assert (i + 1) * w == i * w + w;
    CellsExactly(t, b.data[i * w..i * w + w]);
    assert CellAt(b.data, w, i) == b.data[i * w..i * w + w];
  }

  /** Structs: each field's name with its child's value in the row. */
  lemma StructRowIs(b: Body, t: LogicalType, count: nat, h: FlatHead, i: nat)
    requires Covers(h.mask, count) && b.Kids? && BodyShaped(b, t, count, h) && !h.geo && !BodyWithheld(b, t) && i < count
    ensures h.mask.Some? ==> i / 8 < |h.mask.value|
    ensures t.id == 100 && |b.kids| == |t.fields|
    ensures forall k :: 0 <= k < |b.kids| ==> Shaped(b.kids[k], t.fields[k].typ, count) && !Withheld(b.kids[k], t.fields[k].typ)
    ensures var x := BodyMeaning(b, t, count, h).vals[i];
            if !NotNull(h.mask, i) then x == VNull
            else
              && x.VStruct? && |x.entries| == |t.fields|
              && forall k :: 0 <= k < |t.fields| ==>
                   x.entries[k] == Entry(t.fields[k].name, Meaning(b.kids[k], t.fields[k].typ, count).vals[i])
  {
    hide Shaped, Meaning, Withheld;
    MaskReaches(h.mask, count, i);
  }

  /** Lists and maps: the elements of the row's window, in order; a map's keys
      and values are the fields of its entries. Absent offsets and lengths
      are zero. */
  lemma ListRowIs(b: Body, t: LogicalType, count: nat, h: FlatHead, i: nat)
    requires Covers(h.mask, count) && b.Windows? && BodyShaped(b, t, count, h) && !h.geo && !BodyWithheld(b, t) && i < count
    ensures h.mask.Some? ==> i / 8 < |h.mask.value|
    ensures t.id == 101 || t.id == 102
    ensures Shaped(b.child, t.child.value, b.size) && !Withheld(b.child, t.child.value)
    ensures var off := if b.entries[i].off.Some? then b.entries[i].off.value else 0;
            var len := if b.entries[i].len.Some? then b.entries[i].len.value else 0;
            var x, child := BodyMeaning(b, t, count, h).vals[i], Meaning(b.child, t.child.value, b.size).vals;
            if !NotNull(h.mask, i) then x == VNull
            else off + len <= |child| && if t.id == 102 then MapOf(x, child, off, len) else ListOf(x, child, off, len)
  {
    hide Shaped, Meaning, Withheld, ListRow, IsValid;
    MaskReaches(h.mask, count, i);
    var child := Meaning(b.child, t.child.value, b.size).vals;
    var w := WindowOf(b.entries[i]);
    if NotNull(h.mask, i) {
      RowsByPosition(t.id, w, child);
    }
  }

  /** Arrays: the row's group of the child, in order. */
  lemma ArrayRowIs(b: Body, t: LogicalType, count: nat, h: FlatHead, i: nat)
    requires Covers(h.mask, count) && b.Groups? && BodyShaped(b, t, count, h) && !h.geo && !BodyWithheld(b, t) && i < count
    ensures h.mask.Some? ==> i / 8 < |h.mask.value|
    ensures t.id == 108
    ensures Shaped(b.child, t.child.value, b.size * count) && !Withheld(b.child, t.child.value)
    ensures 0 <= i * b.size && i * b.size + b.size <= b.size * count
    ensures var x, child := BodyMeaning(b, t, count, h).vals[i], Meaning(b.child, t.child.value, b.size * count).vals;
            if !NotNull(h.mask, i) then x == VNull else ListOf(x, child, i * b.size, b.size)
  {
    hide Shaped, Meaning, Withheld, IsValid;
    MaskReaches(h.mask, count, i);
    GroupFits(b.size, count, i);
  }

  /** One row of a list: the elements from `off` on, in order. */
  predicate ListOf(v: Value, child: seq<Value>, off: nat, len: nat)
    requires off + len <= |child|
  {
    v.VList? && |v.elems| == len && forall j :: 0 <= j < len ==> v.elems[j] == child[off + j]
  }

  /** One row of a map: the two fields of each entry; anything but a struct of
      two is the zero entry. */
  predicate MapOf(v: Value, child: seq<Value>, off: nat, len: nat)
    requires off + len <= |child|
  {
    v.VMap? && |v.pairs| == len && forall j :: 0 <= j < len ==> IsPair(v.pairs[j], child[off + j])
  }

  predicate IsPair(p: Pair, v: Value)
  {
    if v.VStruct? && |v.entries| == 2 then p.key == v.entries[0].value && p.value == v.entries[1].value
    else p.key == VNull && p.value == VNull
  }

  /** What a window picks, position by position. */
  lemma RowsByPosition(id: nat, w: Window, child: seq<Value>)
    requires WindowFits(w, |child|)
    ensures w.off + w.len <= |child|
    ensures id == 102 ==> MapOf(ListRow(id, w, child), child, w.off, w.len)
    ensures id == 101 ==> ListOf(ListRow(id, w, child), child, w.off, w.len)
  {
    var row := child[w.off..w.off + w.len];
    assert forall j :: 0 <= j < w.len ==> row[j] == child[w.off + j];
    forall j | 0 <= j < w.len ensures IsPair(PairsOf(row)[j], row[j]) {
    }
  }
}
