/** The test encoder's choice of encoding: everything flat, NULL slots filled
    in, rows of nested types flattened into child vectors. Decoding it gives
    back exactly the values encoded. */
module FlatEncoding {
  import opened Basics
  import opened LogicalTypes
  import opened Values
  import opened Vectors
  import opened VectorWire

  // ---- validity masks ----------------------------------------------------------

  function Weight(i: nat): nat
    requires i < 8
  {
    [1, 2, 4, 8, 16, 32, 64, 128][i]
  }

  function BitValue(b: bool): nat { if b then 1 else 0 }

  /** The number with the given bits, least significant first. */
  function ByteOf(bits: seq<bool>): Byte
    requires |bits| == 8
  {
    BitValue(bits[0]) + 2 * BitValue(bits[1]) + 4 * BitValue(bits[2]) + 8 * BitValue(bits[3])
    + 16 * BitValue(bits[4]) + 32 * BitValue(bits[5]) + 64 * BitValue(bits[6]) + 128 * BitValue(bits[7])
  }

  lemma BitSplit(b: nat, i: nat, low: nat, bit: bool, high: nat)
    requires i < 8 && low < Weight(i) && b == low + Weight(i) * (BitValue(bit) + 2 * high)
    ensures Bit(b, i) == bit
  {
    ModUnique(b, Weight(i), BitValue(bit) + 2 * high, low);
  }

  lemma ByteOfBits(bits: seq<bool>, i: nat)
    requires |bits| == 8 && i < 8
    ensures Bit(ByteOf(bits), i) == bits[i]
  {
    hide Bit;
    var b := ByteOf(bits);
    var a0, a1, a2, a3 := BitValue(bits[0]), BitValue(bits[1]), BitValue(bits[2]), BitValue(bits[3]);
    var a4, a5, a6, a7 := BitValue(bits[4]), BitValue(bits[5]), BitValue(bits[6]), BitValue(bits[7]);
    match i
    case 0 => BitSplit(b, 0, 0, bits[0], a1 + 2 * a2 + 4 * a3 + 8 * a4 + 16 * a5 + 32 * a6 + 64 * a7);
    case 1 => BitSplit(b, 1, a0, bits[1], a2 + 2 * a3 + 4 * a4 + 8 * a5 + 16 * a6 + 32 * a7);
    case 2 => BitSplit(b, 2, a0 + 2 * a1, bits[2], a3 + 2 * a4 + 4 * a5 + 8 * a6 + 16 * a7);
    case 3 => BitSplit(b, 3, a0 + 2 * a1 + 4 * a2, bits[3], a4 + 2 * a5 + 4 * a6 + 8 * a7);
    case 4 => BitSplit(b, 4, a0 + 2 * a1 + 4 * a2 + 8 * a3, bits[4], a5 + 2 * a6 + 4 * a7);
    case 5 => BitSplit(b, 5, a0 + 2 * a1 + 4 * a2 + 8 * a3 + 16 * a4, bits[5], a6 + 2 * a7);
    case 6 => BitSplit(b, 6, a0 + 2 * a1 + 4 * a2 + 8 * a3 + 16 * a4 + 32 * a5, bits[6], a7);
    case 7 => BitSplit(b, 7, a0 + 2 * a1 + 4 * a2 + 8 * a3 + 16 * a4 + 32 * a5 + 64 * a6, bits[7], 0);
  }

  /** The byte whose bit `i` says whether value `base + i` is there. */
  function MaskByte(vals: seq<Value>, base: nat): Byte
  {
    ByteOf(seq(8, i requires 0 <= i => base + i < |vals| && !vals[base + i].VNull?))
  }

  /** validityMask: none when nothing is NULL, else padded to 8-byte words. */
  function ValidityMask(vals: seq<Value>): Option<Bytes>
  {
    if VNull in vals then Some(seq<Byte>((|vals| + 63) / 64 * 8, j requires 0 <= j => MaskByte(vals, 8 * j))) else None
  }

  /** `valid` reads back exactly the NULLs the encoder saw. */
  lemma ValidityBack(vals: seq<Value>, row: nat)
    requires row < |vals|
    ensures Covers(ValidityMask(vals), |vals|)
    ensures IsValid(ValidityMask(vals), row) <==> !vals[row].VNull?
  {
    if VNull in vals {
      var base := 8 * (row / 8);
      ByteOfBits(seq(8, i requires 0 <= i => base + i < |vals| && !vals[base + i].VNull?), row % 8);
      assert base + row % 8 == row;
    }
  }

  lemma MaskCovers(vals: seq<Value>)
    ensures Covers(ValidityMask(vals), |vals|)
    ensures ValidityMask(vals).Some? ==> |ValidityMask(vals).value| <= |vals| + 64
  {
  }

  // ---- BIT blobs ------------------------------------------------------------------

  predicate IsBitText(s: Bytes)
  {
    forall i :: 0 <= i < |s| ==> s[i] == 48 || s[i] == 49
  }

  /** Eight characters as a byte, most significant first. */
  function CharByte(cs: Bytes): Byte
    requires |cs| == 8
  {
    ByteOf(seq(8, i requires 0 <= i < 8 => cs[7 - i] == 49))
  }

  function PackChars(cs: Bytes): (b: Bytes)
    requires |cs| % 8 == 0
    ensures |b| == |cs| / 8
  {
    if |cs| == 0 then [] else [CharByte(cs[..8])] + PackChars(cs[8..])
  }

  function Padding(n: nat): nat { (8 - n % 8) % 8 }

  function Ones(n: nat): (s: Bytes)
    ensures |s| == n && IsBitText(s)
  {
    seq<Byte>(n, i => 49)
  }

  /** bitBlob: the padding count, then the padded bits, most significant first. */
  function BitBlob(s: Bytes): (b: Bytes)
    requires IsBitText(s)
    ensures |b| == 1 + (|s| + Padding(|s|)) / 8
  {
    [Padding(|s|)] + PackChars(Ones(Padding(|s|)) + s)
  }

  lemma CharByteBits(cs: Bytes, from: nat)
    requires |cs| == 8 && IsBitText(cs) && from <= 8
    ensures ByteBits(CharByte(cs), from) == cs[from..]
  {
    hide Bit, ByteOf;
    forall i | 0 <= i < 8 - from
      ensures ByteBits(CharByte(cs), from)[i] == cs[from + i]
    {
      ByteOfBits(seq(8, j requires 0 <= j < 8 => cs[7 - j] == 49), 7 - (from + i));
      assert BitChar(CharByte(cs), from + i) == cs[from + i];
    }
  }

  lemma {:induction false} AllBitsBack(cs: Bytes)
    requires |cs| % 8 == 0 && IsBitText(cs)
    ensures AllBits(PackChars(cs)) == cs
    decreases |cs|
  {
    if |cs| > 0 {
      CharByteBits(cs[..8], 0);
      AllBitsBack(cs[8..]);
      assert PackChars(cs)[1..] == PackChars(cs[8..]);
      assert cs == cs[..8] + cs[8..];
    }
  }

  /** bitString inverts bitBlob on every string of bits, of any length. */
  lemma BitBack(s: Bytes)
    requires IsBitText(s)
    ensures BitString(BitBlob(s)) == Some(s)
  {
    hide CharByte, ByteBits, AllBits;
    var p := Padding(|s|);
    var cs := Ones(p) + s;
    if |s| > 0 {
      var b := BitBlob(s);
      assert |cs| % 8 == 0 && |cs| >= 8;
      assert b[1] == CharByte(cs[..8]) && b[2..] == PackChars(cs[8..]);
      CharByteBits(cs[..8], p);
      AllBitsBack(cs[8..]);
      assert cs[..8][p..] + cs[8..] == s;
    }
  }

  /** Whatever a server puts into the padding bits does not matter. */
  lemma PaddingIgnored(p: Byte, b: Byte, b': Byte, rest: Bytes)
    requires 1 <= p <= 7 && b % Weight(8 - p) == b' % Weight(8 - p)
    ensures BitString([p, b] + rest) == BitString([p, b'] + rest)
  {
    forall i | 0 <= i < 8 - p
      ensures ByteBits(b, p)[i] == ByteBits(b', p)[i]
    {
      LowBits(b, b', 8 - p, 7 - (p + i));
      assert BitChar(b, p + i) == BitChar(b', p + i);
    }
    assert ByteBits(b, p) == ByteBits(b', p);
    assert ([p, b] + rest)[2..] == rest && ([p, b'] + rest)[2..] == rest;
    assert ([p, b] + rest)[1] == b && ([p, b'] + rest)[1] == b';
  }

  lemma LowBits(b: Byte, b': Byte, n: nat, i: nat)
    requires i < n < 8 && b % Weight(n) == b' % Weight(n)
    ensures Bit(b, i) == Bit(b', i)
  {
    var w := Weight(i);
    var q := Weight(n) / w / 2;
    assert Weight(n) == 2 * w * q by { if n == 1 {} else if n == 2 {} else if n == 3 {} else if n == 4 {} else if n == 5 {} else if n == 6 {} else {} }
    ResidueBit(b, w, q);
    ResidueBit(b', w, q);
  }

  lemma ResidueBit(b: nat, w: nat, q: nat)
    requires w > 0 && q > 0
    ensures b / w % 2 == b % (2 * w * q) / w % 2
  {
    var m := 2 * w * q;
    var k, r := b / m, b % m;
    assert b == (2 * q * k) * w + r;
    var r1, r0 := r / w, r % w;
    assert b == (2 * q * k + r1) * w + r0;
    ModUnique(b, w, 2 * q * k + r1, r0);
    assert (2 * q * k + r1) % 2 == r1 % 2 by {
      ModUnique(2 * q * k + r1, 2, q * k + r1 / 2, r1 % 2);
    }
  }

  // ---- values a column can hold -----------------------------------------------------

  /** Types the encoder and the decoder both produce values for. */
  predicate SupportedType(t: LogicalType)
  {
    if t.id == STRUCT then forall i :: 0 <= i < |t.fields| ==> SupportedType(t.fields[i].typ)
    else if t.id == LIST || t.id == ARRAY then t.child.Some? && SupportedType(t.child.value)
    else if t.id == MAP then
      && t.child.Some? && t.child.value.id == STRUCT && |t.child.value.fields| == 2
      && SupportedType(t.child.value)
      && SupportedType(t.child.value.fields[0].typ) && SupportedType(t.child.value.fields[1].typ)
    else if t.id == VARCHAR || t.id == BLOB || t.id == BIT then true
    else KindOf(t.id) != KNone
  }

  /** `v` is what a column of type `t` can hold: NULL, or the Go value codec
      decodes to, at every level. */
  predicate Typed(t: LogicalType, v: Value)
    requires SupportedType(t)
    decreases t
  {
    v.VNull? ||
    if t.id == STRUCT then
      && v.VStruct? && |v.entries| == |t.fields|
      && forall i :: 0 <= i < |t.fields| ==>
           v.entries[i].name == t.fields[i].name && Typed(t.fields[i].typ, v.entries[i].value)
    else if t.id == LIST then v.VList? && forall e <- v.elems :: Typed(t.child.value, e)
    else if t.id == MAP then
      && v.VMap?
      && forall p <- v.pairs ::
           Typed(t.child.value.fields[0].typ, p.key) && Typed(t.child.value.fields[1].typ, p.value)
    else if t.id == ARRAY then
      v.VList? && |v.elems| == t.arraySize && forall e <- v.elems :: Typed(t.child.value, e)
    else if t.id == VARCHAR then v.VString? && |v.s| < P64
    else if t.id == BLOB then v.VBytes? && |v.s| < P64
    else if t.id == BIT then v.VString? && IsBitText(v.s) && |v.s| < P64
    else CellTyped(t, v)
  }

  ghost predicate AllTyped(t: LogicalType, vals: seq<Value>)
    requires SupportedType(t)
  {
    forall v <- vals :: Typed(t, v)
  }

  // ---- flattening ----------------------------------------------------------------------

  /** The child column of field `j`; NULL structs have NULL children. */
  function ChildColumn(vals: seq<Value>, j: nat): (c: seq<Value>)
    ensures |c| == |vals|
  {
    seq(|vals|, i requires 0 <= i < |vals| =>
      if vals[i].VStruct? && j < |vals[i].entries| then vals[i].entries[j].value else VNull)
  }

  function PairStruct(t: LogicalType, p: Pair): Value
    requires |t.fields| == 2
  {
    VStruct([Entry(t.fields[0].name, p.key), Entry(t.fields[1].name, p.value)])
  }

  /** The child rows one LIST or MAP row contributes. */
  function RowElems(t: LogicalType, v: Value): seq<Value>
    requires t.id == MAP ==> t.child.Some? && |t.child.value.fields| == 2
  {
    if v.VList? then v.elems
    else if v.VMap? && t.id == MAP then
      seq(|v.pairs|, i requires 0 <= i < |v.pairs| => PairStruct(t.child.value, v.pairs[i]))
    else []
  }

  function Flatten(t: LogicalType, vals: seq<Value>): seq<Value>
    requires t.id == MAP ==> t.child.Some? && |t.child.value.fields| == 2
  {
    if vals == [] then [] else Flatten(t, vals[..|vals| - 1]) + RowElems(t, vals[|vals| - 1])
  }

  function WindowEntries(t: LogicalType, vals: seq<Value>): (es: seq<WindowEntry>)
    requires t.id == MAP ==> t.child.Some? && |t.child.value.fields| == 2
    ensures |es| == |vals|
  {
    seq(|vals|, i requires 0 <= i < |vals| =>
      WindowEntry(Some(|Flatten(t, vals[..i])|), Some(|RowElems(t, vals[i])|)))
  }

  /** The child rows one ARRAY row contributes: always `size` of them. */
  function GroupElems(size: nat, v: Value): (s: seq<Value>)
    ensures |s| == size
  {
    if v.VList? && |v.elems| == size then v.elems else Repeat(VNull, size)
  }

  function FlattenGroups(size: nat, vals: seq<Value>): (s: seq<Value>)
    ensures |s| == size * |vals|
  {
    if vals == [] then []
    else
      assert size * |vals| == size * (|vals| - 1) + size;
      FlattenGroups(size, vals[..|vals| - 1]) + GroupElems(size, vals[|vals| - 1])
  }

  function TextBytes(id: nat, v: Value): Bytes
    requires v.VNull? || v.VBytes? || (v.VString? && (id == BIT ==> IsBitText(v.s)))
  {
    if v.VNull? then [] else if id == BIT && v.VString? then BitBlob(v.s) else v.s
  }

  function CellsBytes(t: LogicalType, vals: seq<Value>): (s: Bytes)
    requires KindOf(t.id) != KNone && forall v <- vals :: v.VNull? || CellTyped(t, v)
    ensures |s| == |vals| * PhysicalWidth(t)
  {
    if vals == [] then []
    else
      assert |vals| * PhysicalWidth(t) == (|vals| - 1) * PhysicalWidth(t) + PhysicalWidth(t);
      CellsBytes(t, vals[..|vals| - 1]) + CellBytes(t, vals[|vals| - 1])
  }

  // ---- the encoding ---------------------------------------------------------------------

  predicate IsScalarText(id: nat) { id == VARCHAR || id == BLOB || id == BIT }

  /** Within the decoder's limits on rows at every level. */
  predicate WithinLimits(t: LogicalType, vals: seq<Value>)
    requires SupportedType(t)
    decreases t
  {
    && |vals| <= MAX_VECTOR_ROWS
    && if t.id == STRUCT then
         forall j :: 0 <= j < |t.fields| ==> WithinLimits(t.fields[j].typ, ChildColumn(vals, j))
       else if IsList(t.id) then WithinLimits(t.child.value, Flatten(t, vals))
       else if t.id == ARRAY then
         && t.arraySize <= MAX_VECTOR_ROWS
         && WithinLimits(t.child.value, FlattenGroups(t.arraySize, vals))
       else true
  }

  lemma ChildrenTyped(t: LogicalType, vals: seq<Value>)
    requires SupportedType(t) && AllTyped(t, vals)
    ensures t.id == STRUCT ==>
              forall j :: 0 <= j < |t.fields| ==> AllTyped(t.fields[j].typ, ChildColumn(vals, j))
    ensures IsList(t.id) ==> AllTyped(t.child.value, Flatten(t, vals))
    ensures t.id == ARRAY ==> AllTyped(t.child.value, FlattenGroups(t.arraySize, vals))
  {
    if t.id == STRUCT {
      forall j | 0 <= j < |t.fields| ensures AllTyped(t.fields[j].typ, ChildColumn(vals, j)) {
        ColumnTyped(t, vals, j);
      }
    } else if IsList(t.id) {
      FlattenTyped(t, vals);
    } else if t.id == ARRAY {
      GroupsTyped(t, vals);
    }
  }

  lemma ColumnTyped(t: LogicalType, vals: seq<Value>, j: nat)
    requires SupportedType(t) && t.id == STRUCT && AllTyped(t, vals) && j < |t.fields|
    ensures AllTyped(t.fields[j].typ, ChildColumn(vals, j))
  {
    forall i | 0 <= i < |vals|
      ensures Typed(t.fields[j].typ, ChildColumn(vals, j)[i])
    {
      assert Typed(t, vals[i]);
    }
  }

  lemma {:induction false} FlattenTyped(t: LogicalType, vals: seq<Value>)
    requires SupportedType(t) && IsList(t.id) && AllTyped(t, vals)
    ensures AllTyped(t.child.value, Flatten(t, vals))
    decreases |vals|
  {
    if vals != [] {
      var v := vals[|vals| - 1];
      FlattenTyped(t, vals[..|vals| - 1]);
      RowTyped(t, v);
    }
  }

  lemma RowTyped(t: LogicalType, v: Value)
    requires SupportedType(t) && IsList(t.id) && Typed(t, v)
    ensures AllTyped(t.child.value, RowElems(t, v))
  {
    if v.VMap? && t.id == MAP {
      forall i | 0 <= i < |v.pairs|
        ensures Typed(t.child.value, PairStruct(t.child.value, v.pairs[i]))
      {
        assert v.pairs[i] in v.pairs;
      }
    }
  }

  lemma {:induction false} GroupsTyped(t: LogicalType, vals: seq<Value>)
    requires SupportedType(t) && t.id == ARRAY && AllTyped(t, vals)
    ensures AllTyped(t.child.value, FlattenGroups(t.arraySize, vals))
    decreases |vals|
  {
    if vals != [] {
      var v := vals[|vals| - 1];
      GroupsTyped(t, vals[..|vals| - 1]);
      assert Typed(t, v);
      assert AllTyped(t.child.value, GroupElems(t.arraySize, v));
    }
  }

  /** writeVector's encoding of a column. */
  ghost function FlatOf(t: LogicalType, vals: seq<Value>): Vec
    requires SupportedType(t) && AllTyped(t, vals)
    decreases t
  {
    ChildrenTyped(t, vals);
    Flat(None, ValidityMask(vals),
      if IsScalarText(t.id) then
        Texts(seq(|vals|, i requires 0 <= i < |vals| => assert vals[i] in vals; TextBytes(t.id, vals[i])))
      else if t.id == STRUCT then
        Kids(seq(|t.fields|, j requires 0 <= j < |t.fields| => FlatOf(t.fields[j].typ, ChildColumn(vals, j))))
      else if IsList(t.id) then
        Windows(|Flatten(t, vals)|, WindowEntries(t, vals), FlatOf(t.child.value, Flatten(t, vals)))
      else if t.id == ARRAY then
        Groups(t.arraySize, FlatOf(t.child.value, FlattenGroups(t.arraySize, vals)))
      else Fixed(CellsBytes(t, vals)))
  }
}
