/** The storage format in plain terms: what the bytes of a cell, a mask and a
    bit string stand for, by type id and position, apart from how the decoder
    computes it. */
module Storage {
  import opened Basics
  import opened LogicalTypes
  import opened Values
  import opened Vectors

  // ---- words ----------------------------------------------------------------------------

  function At(s: Bytes, i: nat): int
    requires i < |s|
  {
    s[i]
  }

  /** A machine word, by the place value of each byte. */
  function Word(s: Bytes): nat
    requires |s| in {1, 2, 4, 8}
  {
    if |s| == 1 then At(s, 0)
    else if |s| == 2 then At(s, 0) + 0x100 * At(s, 1)
    else if |s| == 4 then At(s, 0) + 0x100 * At(s, 1) + 0x1_0000 * At(s, 2) + 0x100_0000 * At(s, 3)
    else
      At(s, 0) + 0x100 * At(s, 1) + 0x1_0000 * At(s, 2) + 0x100_0000 * At(s, 3) + 0x1_0000_0000 * At(s, 4) + 0x100_0000_0000 * At(s, 5)
      + 0x1_0000_0000_0000 * At(s, 6) + 0x100_0000_0000_0000 * At(s, 7)
  }

  /** One more than the largest word of `n` bytes. */
  function Capacity(n: nat): nat
    requires n in {1, 2, 4, 8}
  {
    if n == 1 then 0x100 else if n == 2 then 0x1_0000 else if n == 4 then 0x1_0000_0000 else 0x1_0000_0000_0000_0000
  }

  /** A word whose last byte carries the sign. */
  function SignedWord(s: Bytes): int
    requires |s| in {1, 2, 4, 8}
  {
    if s[|s| - 1] < 128 then Word(s) else Word(s) - Capacity(|s|)
  }

  lemma WordIs(s: Bytes)
    requires |s| in {1, 2, 4, 8}
    ensures FromLE(s) == Word(s)
  {
    if |s| == 1 {
      Unroll1(s);
    } else if |s| == 2 {
      Unroll2(s);
    } else if |s| == 4 {
      Unroll4(s);
    } else {
      Unroll4(s[..4]);
      Unroll4(s[4..]);
      FromLESplit(s, 4);
      assert Pow256(4) == 0x1_0000_0000;
    }
  }

  lemma Unroll1(s: Bytes)
    requires |s| == 1
    ensures FromLE(s) == s[0]
  {
    assert s[1..] == [];
  }

  lemma Unroll2(s: Bytes)
    requires |s| == 2
    ensures FromLE(s) == At(s, 0) + 0x100 * At(s, 1)
  {
    Unroll1(s[1..]);
  }

  lemma Unroll4(s: Bytes)
    requires |s| == 4
    ensures FromLE(s) == At(s, 0) + 0x100 * At(s, 1) + 0x1_0000 * At(s, 2) + 0x100_0000 * At(s, 3)
  {
    Unroll2(s[2..]);
    assert s[1..][1..] == s[2..];
  }

  lemma Scaled(x: int, a: int, p: int, b: int)
    ensures x + 256 * (a + p * b) == (x + 256 * a) + (256 * p) * b
  {
    assert (256 * p) * b == 256 * (p * b);
  }

  lemma {:induction false} FromLESplit(s: Bytes, i: nat)
    requires i <= |s|
    ensures FromLE(s) == FromLE(s[..i]) + Pow256(i) * FromLE(s[i..])
    decreases i
  {
    if i > 0 {
      FromLESplit(s[1..], i - 1);
      assert s[1..][..i - 1] == s[..i][1..] && s[1..][i - 1..] == s[i..];
      Scaled(s[0], FromLE(s[..i][1..]), Pow256(i - 1), FromLE(s[i..]));
    } else {
      assert s[0..] == s;
    }
  }

  /** Little-endian, and two's complement where the type is signed. */
  lemma WordsAre(s: Bytes)
    requires |s| in {1, 2, 4, 8}
    ensures FromLE(s) == Word(s) && Pow256(|s|) == Capacity(|s|)
    ensures Signed(FromLE(s), Pow256(|s|)) == SignedWord(s)
  {
    WordIs(s);
    WordSizes();
    FromLESplit(s, |s| - 1);
    FromLEBound(s[..|s| - 1]);
    Unroll1(s[|s| - 1..]);
    assert Pow256(0) == 1 && Pow256(3) == 0x100_0000 && Pow256(7) == 0x100_0000_0000_0000;
  }

  // ---- cells ------------------------------------------------------------------------------

  /** The bytes a cell takes, by type id; None for types without cells. */
  function CellWidth(t: LogicalType): Option<nat>
  {
    match t.id
    case 10 => Some(1)
    case 11 => Some(1)
    case 12 => Some(2)
    case 13 => Some(4)
    case 14 => Some(8)
    case 15 => Some(4)
    case 16 => Some(8)
    case 17 => Some(8)
    case 18 => Some(8)
    case 19 => Some(8)
    case 20 => Some(8)
    case 21 => Some(if t.width < 5 then 2 else if t.width < 10 then 4 else if t.width < 19 then 8 else 16)
    case 22 => Some(4)
    case 23 => Some(8)
    case 27 => Some(16)
    case 28 => Some(1)
    case 29 => Some(2)
    case 30 => Some(4)
    case 31 => Some(8)
    case 32 => Some(8)
    case 34 => Some(8)
    case 35 => Some(8)
    case 49 => Some(16)
    case 50 => Some(16)
    case 54 => Some(16)
    case 104 => Some(if |t.labels| < 256 then 1 else if |t.labels| < 65536 then 2 else 4)
    case _ => None
  }

  function Flipped(b: Byte): Byte { if b < 128 then b + 128 else b - 128 }

  /** An instant so many units of which make a second. */
  function Instant(count: int, perSecond: nat): Value
    requires perSecond in {1, 1_000, 1_000_000, 1_000_000_000}
  {
    VInstant(count / perSecond, count % perSecond * (1_000_000_000 / perSecond))
  }

  /** What a cell stands for; None for an index outside an enum's labels. */
  function Stored(t: LogicalType, c: Bytes): Option<Value>
    requires CellWidth(t) == Some(|c|)
  {
    match t.id
    case 10 => Some(VBool(c[0] != 0))                                                      // BOOLEAN
    case 11 => Some(VInt(8, true, if At(c, 0) < 128 then At(c, 0) else At(c, 0) - 256))                // TINYINT
    case 12 => Some(VInt(16, true, SignedWord(c)))                                         // SMALLINT
    case 13 => Some(VInt(32, true, SignedWord(c)))                                         // INTEGER
    case 14 => Some(VInt(64, true, SignedWord(c)))                                         // BIGINT
    case 15 => Some(VInstant(86400 * SignedWord(c), 0))                                    // DATE: days
    case 16 => Some(VTime(SignedWord(c)))                                                  // TIME
    case 17 => Some(VInstant(SignedWord(c), 0))                                            // TIMESTAMP_S
    case 18 => Some(Instant(SignedWord(c), 1_000))                                         // TIMESTAMP_MS
    case 19 => Some(Instant(SignedWord(c), 1_000_000))                                     // TIMESTAMP
    case 20 => Some(Instant(SignedWord(c), 1_000_000_000))                                 // TIMESTAMP_NS
    case 21 => Some(VDecimal(StoredDecimal(t, c)))                                         // DECIMAL
    case 22 => Some(VFloat(32, Word(c)))                                                   // FLOAT
    case 23 => Some(VFloat(64, Word(c)))                                                   // DOUBLE
    case 27 => Some(VInterval(SignedWord(c[..4]), SignedWord(c[4..8]), SignedWord(c[8..]))) // INTERVAL
    case 28 => Some(VInt(8, false, c[0]))                                                  // UTINYINT
    case 29 => Some(VInt(16, false, Word(c)))                                              // USMALLINT
    case 30 => Some(VInt(32, false, Word(c)))                                              // UINTEGER
    case 31 => Some(VInt(64, false, Word(c)))                                              // UBIGINT
    case 32 => Some(Instant(SignedWord(c), 1_000_000))                                     // TIMESTAMP WITH TIME ZONE
    case 34 => Some(VTimeTZ(Word(c) / 0x100_0000, 57599 - Word(c) % 0x100_0000))           // TIME WITH TIME ZONE
    case 35 => Some(VTimeNS(SignedWord(c)))                                                // TIME_NS
    case 49 => Some(VBig(Word(c[..8]) + 0x1_0000_0000_0000_0000 * Word(c[8..])))           // UHUGEINT
    case 50 => Some(VBig(Word(c[..8]) + 0x1_0000_0000_0000_0000 * SignedWord(c[8..])))     // HUGEINT
    case 54 => Some(VUuid(seq<Byte>(16, i requires 0 <= i < 16 => if i == 0 then Flipped(c[15]) else c[15 - i])))
    case 104 => if Word(c) < |t.labels| then Some(VString(t.labels[Word(c)])) else None    // ENUM
    case _ => None
  }

  /** A decimal's unscaled integer, as its 128-bit halves. */
  function StoredDecimal(t: LogicalType, c: Bytes): Decimal
    requires |c| in {2, 4, 8, 16}
  {
    if |c| == 16 then Decimal(t.width, t.scale, SignedWord(c[8..]), Word(c[..8]))
    else if SignedWord(c) < 0 then Decimal(t.width, t.scale, -1, SignedWord(c) + 0x1_0000_0000_0000_0000)
    else Decimal(t.width, t.scale, 0, SignedWord(c))
  }

  lemma WidthsAre(t: LogicalType)
    ensures KindOf(t.id) == KNone <==> CellWidth(t).None?
    ensures CellWidth(t).Some? ==> CellWidth(t).value == PhysicalWidth(t)
  {
  }

  lemma NarrowCells(t: LogicalType, c: Bytes)
    requires CellWidth(t) == Some(|c|) && |c| in {1, 2, 4, 8} && t.id != 21
    ensures PhysicalWidth(t) == |c| && KindOf(t.id) != KNone && DecodeCell(t, c) == Stored(t, c)
  {
    WidthsAre(t);
    WordsAre(c);
    WordSizes();
    hide FromLE, Pow256, Word, SignedWord, Signed;
  }

  lemma DecimalCells(t: LogicalType, c: Bytes)
    requires t.id == 21 && |c| in {2, 4, 8, 16}
    ensures DecodeDecimalCell(t, c) == StoredDecimal(t, c)
  {
    if |c| == 16 {
      WordsAre(c[8..]);
      WordsAre(c[..8]);
    } else {
      WordsAre(c);
      FromLEBound(c);
      var v := SignedWord(c);
      if v < 0 {
        ModUnique(v, P64, -1, v + P64);
      } else {
        ModUnique(v, P64, 0, v);
      }
    }
    WordSizes();
  }

  lemma HugeCells(t: LogicalType, c: Bytes)
    requires t.id in {49, 50} && |c| == 16
    ensures PhysicalWidth(t) == |c| && KindOf(t.id) != KNone && DecodeCell(t, c) == Stored(t, c)
  {
    WordSizes();
    WordsAre(c[..8]);
    WordsAre(c[8..]);
    hide FromLE, Pow256, Word, SignedWord;
  }

  lemma IntervalCells(t: LogicalType, c: Bytes)
    requires t.id == 27 && |c| == 16
    ensures PhysicalWidth(t) == |c| && KindOf(t.id) != KNone && DecodeCell(t, c) == Stored(t, c)
  {
    WordSizes();
    WordsAre(c[..4]);
    WordsAre(c[4..8]);
    WordsAre(c[8..]);
    hide FromLE, Pow256, Word, SignedWord;
  }

  lemma UuidCell(t: LogicalType, c: Bytes)
    requires t.id == 54 && |c| == 16
    ensures PhysicalWidth(t) == |c| && KindOf(t.id) != KNone && DecodeCell(t, c) == Stored(t, c)
  {
    UuidCells(c);
    hide FromLE, LE, FlipTop;
  }

  lemma {:induction false} TopByte(s: Bytes, n: nat)
    requires n > 0 && |s| == n
    ensures FromLE(s) == FromLE(s[..n - 1]) + Pow256(n - 1) * s[n - 1]
  {
    FromLESplit(s, n - 1);
    Unroll1(s[n - 1..]);
  }

  lemma FlipArithmetic(low: nat, b: Byte)
    requires low < 0x100_0000_0000_0000
    ensures FlipTop(low + 0x100_0000_0000_0000 * b) == low + 0x100_0000_0000_0000 * Flipped(b)
  {
  }

  /** Toggling the top bit of a word toggles that of its last byte. */
  lemma FlipLast(s: Bytes)
    requires |s| == 8
    ensures LE(FlipTop(FromLE(s)), 8) == s[..7] + [Flipped(s[7])]
  {
    var flipped := s[..7] + [Flipped(s[7])];
    assert Pow256(7) == 0x100_0000_0000_0000;
    FromLEBound(s[..7]);
    TopByte(s, 8);
    TopByte(flipped, 8);
    hide FromLE, LE, Pow256, FlipTop, Flipped;
    assert flipped[..7] == s[..7];
    FlipArithmetic(FromLE(s[..7]), s[7]);
    FromLERoundTrip(flipped);
  }

  lemma UuidCells(c: Bytes)
    requires |c| == 16
    ensures FlipTop(FromLE(c[8..])) >= 0
    ensures Reversed(LE(FlipTop(FromLE(c[8..])), 8)) + Reversed(c[..8])
            == seq<Byte>(16, i requires 0 <= i < 16 => if i == 0 then Flipped(c[15]) else c[15 - i])
  {
    FromLEBound(c[8..]);
    WordSizes();
    FlipLast(c[8..]);
  }

  /** decodeCell, by type id and raw bytes: every width, sign, byte order,
      unit and bias. */
  lemma CellsExactly(t: LogicalType, c: Bytes)
    ensures KindOf(t.id) == KNone <==> CellWidth(t).None?
    ensures CellWidth(t) == Some(|c|) ==>
              PhysicalWidth(t) == |c| && DecodeCell(t, c) == Stored(t, c)
  {
    WidthsAre(t);
    hide DecodeCell, Stored, KindOf;
    if CellWidth(t) == Some(|c|) {
      if t.id == 21 {
        DecimalCells(t, c);
        DecimalStored(t, c);
      } else if t.id == 27 {
        IntervalCells(t, c);
      } else if t.id == 54 {
        UuidCell(t, c);
      } else if |c| == 16 {
        HugeCells(t, c);
      } else {
        NarrowCells(t, c);
      }
    }
  }

  lemma DecimalStored(t: LogicalType, c: Bytes)
    requires t.id == 21 && CellWidth(t) == Some(|c|) && DecodeDecimalCell(t, c) == StoredDecimal(t, c)
    ensures PhysicalWidth(t) == |c| && KindOf(t.id) != KNone && DecodeCell(t, c) == Stored(t, c)
  {
    hide DecodeDecimalCell, StoredDecimal, FromLE;
  }

  // ---- masks and bit strings -----------------------------------------------------------------

  function Power2(n: nat): (p: nat)
    ensures p > 0
  {
    if n == 0 then 1 else Power2(n - 1) * 2
  }

  /** Bit `i` of a byte string, counted from the low end of its first byte. */
  predicate LowBit(s: Bytes, i: nat)
    requires i / 8 < |s|
  {
    At(s, i / 8) / Power2(i % 8) % 2 == 1
  }

  /** Bit `i` of a byte string, counted from the high end of its first byte. */
  predicate HighBit(s: Bytes, i: nat)
    requires i / 8 < |s|
  {
    At(s, i / 8) / Power2(7 - i % 8) % 2 == 1
  }

  lemma BitIs(b: Byte, i: nat)
    requires i < 8
    ensures Bit(b, i) <==> b / Power2(i) % 2 == 1
  {
    assert Power2(1) == 2 && Power2(2) == 4 && Power2(3) == 8 && Power2(4) == 16;
    assert Power2(5) == 32 && Power2(6) == 64 && Power2(7) == 128;
    assert i in {0, 1, 2, 3, 4, 5, 6, 7};
  }

  /** A row is valid unless the mask's bit for it, low bits first, is clear;
      a mask for `count` rows has at least one bit for each. */
  lemma MaskExactly(mask: Option<Bytes>, row: nat, count: nat)
    ensures Covers(mask, count) <==> mask.None? || 8 * |mask.value| >= count
    ensures mask.None? ==> IsValid(mask, row)
    ensures mask.Some? && row / 8 < |mask.value| ==> (IsValid(mask, row) <==> LowBit(mask.value, row))
  {
    if mask.Some? && row / 8 < |mask.value| {
      BitIs(mask.value[row / 8], row % 8);
    }
  }

  lemma BitCharIs(b: Byte, i: nat)
    requires i < 8
    ensures BitChar(b, i) == if b / Power2(7 - i) % 2 == 1 then 49 else 48
  {
    BitIs(b, 7 - i);
  }

  lemma {:induction false} AllBitsAt(s: Bytes, i: nat)
    requires i < 8 * |s|
    ensures AllBits(s)[i] == if HighBit(s, i) then 49 else 48
    decreases |s|
  {
    if i < 8 {
      BitCharIs(s[0], i);
    } else {
      AllBitsAt(s[1..], i - 8);
      assert AllBits(s)[i] == AllBits(s[1..])[i - 8];
    }
  }

  /** bitString: the first byte counts the padding bits in front, at most
      seven and none without data; the rest are the bits, high bits first,
      as the characters 0 and 1. */
  lemma BitStringExactly(b: Bytes)
    ensures BitString(b).Some? <==> b != [] && b[0] < 8 && (b[0] > 0 ==> |b| > 1)
    ensures BitString(b).Some? ==> |BitString(b).value| == 8 * (|b| - 1) - b[0]
    ensures BitString(b).Some? ==>
              forall i :: 0 <= i < |BitString(b).value| ==>
                BitString(b).value[i] == if HighBit(b[1..], b[0] + i) then 49 else 48
  {
    if BitString(b).Some? {
      forall i | 0 <= i < |BitString(b).value|
        ensures BitString(b).value[i] == if HighBit(b[1..], b[0] + i) then 49 else 48
      {
        if i < 8 - b[0] {
          BitCharIs(b[1], b[0] + i);
        } else {
          AllBitsAt(b[2..], i - (8 - b[0]));
          BitsLater(b, b[0] + i);
        }
      }
    }
  }

  lemma BitsLater(b: Bytes, n: nat)
    requires |b| > 1 && 8 <= n < 8 * (|b| - 1)
    ensures HighBit(b[1..], n) == HighBit(b[2..], n - 8)
  {
  }
}
