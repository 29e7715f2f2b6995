/** Decoded values and the fixed-width cells they are stored in. */
module Values {
  import opened Basics
  import opened LogicalTypes

  /** A decoded value, one constructor per Go type that can come out. Floats
      are kept as bit patterns and text as bytes. */
  datatype Value =
    | VNull
    | VBool(b: bool)
    | VInt(bits: nat, signed: bool, n: int)
    | VFloat(bits: nat, pattern: nat)
    | VString(s: Bytes)
    | VBytes(s: Bytes)
    | VInstant(sec: int, nsec: nat)         // time.Time: seconds and nanoseconds since the Unix epoch
    | VTime(micros: int)
    | VTimeNS(nanos: int)
    | VTimeTZ(micros: int, offset: int)
    | VInterval(months: int, days: int, micros: int)
    | VDecimal(d: Decimal)
    | VBig(n: int)
    | VUuid(s: Bytes)
    | VList(elems: seq<Value>)              // LIST and ARRAY
    | VStruct(entries: seq<Entry>)
    | VMap(pairs: seq<Pair>)

  datatype Entry = Entry(name: Bytes, value: Value)
  datatype Pair = Pair(key: Value, value: Value)

  /** Width and scale, and the 128-bit two's-complement halves. */
  datatype Decimal = Decimal(width: nat, scale: nat, hi: int, lo: nat)

  // ---- two's complement -------------------------------------------------------

  /** The low word of `v`: Go's conversion to an unsigned type. */
  function Wrap(v: int, modulus: int): (u: nat)
    requires modulus > 0
    ensures u < modulus
  {
    v % modulus
  }

  lemma SignedWrap(v: int, modulus: int)
    requires modulus > 0 && modulus % 2 == 0 && IsSigned(v, modulus)
    ensures Signed(Wrap(v, modulus), modulus) == v
  {
    if v >= 0 {
      ModUnique(v, modulus, 0, v);
    } else {
      ModUnique(v, modulus, -1, v + modulus);
    }
  }

  lemma ModUnique(v: int, m: int, q: int, r: int)
    requires m > 0 && v == q * m + r && 0 <= r < m
    ensures v % m == r && v / m == q
  {
    var q', r' := v / m, v % m;
    assert (q - q') * m == r' - r;
    NoMultiple(q - q', m);
  }

  lemma NoMultiple(k: int, m: int)
    requires -m < k * m < m
    ensures k == 0
  {
    if k >= 1 {
      MulAtLeast(k, m);
    } else if k <= -1 {
      MulAtLeast(-k, m);
    }
  }

  lemma MulAtLeast(k: int, m: int)
    requires k >= 1 && m > 0
    ensures k * m >= m
  {
  }

  /** NewDecimal */
  function NewDecimal(width: nat, scale: nat, unscaled: int): Decimal
  {
    var b := if unscaled < 0 then unscaled + P128 else unscaled;
    Decimal(width, scale, Signed(Wrap(b / P64, P64), P64), Wrap(b, P64))
  }

  /** int128Big, and Decimal.BigInt through it */
  function Int128(hi: int, lo: nat): int { hi * P64 + lo }

  function BigInt(d: Decimal): int { Int128(d.hi, d.lo) }

  predicate ValidDecimal(d: Decimal)
  {
    IsSigned(d.hi, P64) && d.lo < P64
  }

  /** int128parts */
  function Int128Parts(v: int): (int, nat)
  {
    var b := if v < 0 then v + P128 else v;
    (Signed(Wrap(b / P64, P64), P64), Wrap(b, P64))
  }

  lemma Int128PartsJoin(hi: int, lo: nat)
    requires IsSigned(hi, P64) && lo < P64
    ensures Int128Parts(Int128(hi, lo)) == (hi, lo)
    ensures IsSigned(Int128(hi, lo), P128)
  {
    var v := Int128(hi, lo);
    if v < 0 {
      ModUnique(v + P128, P64, hi + P64, lo);
    } else {
      ModUnique(v, P64, hi, lo);
    }
  }

  /** Every 128-bit integer survives NewDecimal and BigInt. */
  lemma NewDecimalExact(width: nat, scale: nat, unscaled: int)
    requires IsSigned(unscaled, P128)
    ensures BigInt(NewDecimal(width, scale, unscaled)) == unscaled
    ensures ValidDecimal(NewDecimal(width, scale, unscaled))
  {
    var b := if unscaled < 0 then unscaled + P128 else unscaled;
    assert b == (b / P64) * P64 + b % P64 && 0 <= b / P64 < P64;
  }

  /** uint128Big */
  function UInt128(hi: nat, lo: nat): nat { hi * P64 + lo }

  // ---- instants ----------------------------------------------------------------

  /** Ticks per second of a timestamp type. */
  function TickRate(id: nat): (n: nat)
    ensures n > 0 && 1_000_000_000 % n == 0
  {
    if id == TIMESTAMP_SEC then 1
    else if id == TIMESTAMP_MS then 1_000
    else if id == TIMESTAMP_NS then 1_000_000_000
    else 1_000_000
  }

  /** timestampValue */
  function TimestampValue(id: nat, ticks: int): Value
  {
    var rate := TickRate(id);
    VInstant(ticks / rate, (ticks % rate) * (1_000_000_000 / rate))
  }

  /** Unix, UnixMilli, UnixMicro or UnixNano of an instant, by type. */
  function TicksOf(id: nat, sec: int, nsec: nat): int
  {
    var rate := TickRate(id);
    sec * rate + nsec / (1_000_000_000 / rate)
  }

  lemma TicksBack(id: nat, ticks: int)
    ensures var v := TimestampValue(id, ticks); TicksOf(id, v.sec, v.nsec) == ticks
    ensures TimestampValue(id, ticks).nsec < 1_000_000_000
  {
    var rate := TickRate(id);
    if rate == 1 {} else if rate == 1_000 {} else if rate == 1_000_000 {} else {}
  }

  // ---- cells ------------------------------------------------------------------

  datatype CellKind =
    | KBool | KInt(bits: nat, signed: bool) | KFloat(bits: nat) | KDate | KTime | KTimeNS | KTimeTZ | KTimestamp
    | KDecimal | KHugeint | KUHugeint | KUuid | KInterval | KEnum | KNone

  /** The cases decodeCell and appendCell tell apart. */
  function KindOf(id: nat): CellKind
  {
    match id
    case BOOLEAN => KBool
    case TINYINT => KInt(8, true)
    case SMALLINT => KInt(16, true)
    case INTEGER => KInt(32, true)
    case BIGINT => KInt(64, true)
    case UTINYINT => KInt(8, false)
    case USMALLINT => KInt(16, false)
    case UINTEGER => KInt(32, false)
    case UBIGINT => KInt(64, false)
    case FLOAT => KFloat(32)
    case DOUBLE => KFloat(64)
    case DATE => KDate
    case TIME => KTime
    case TIME_NS => KTimeNS
    case TIME_TZ => KTimeTZ
    case TIMESTAMP_SEC => KTimestamp
    case TIMESTAMP_MS => KTimestamp
    case TIMESTAMP => KTimestamp
    case TIMESTAMP_NS => KTimestamp
    case TIMESTAMP_TZ => KTimestamp
    case DECIMAL => KDecimal
    case HUGEINT => KHugeint
    case UHUGEINT => KUHugeint
    case UUID => KUuid
    case INTERVAL => KInterval
    case ENUM => KEnum
    case _ => KNone
  }

  /** enumIndexWidth */
  function EnumIndexWidth(n: nat): nat
  {
    if n <= 0xFF then 1 else if n <= 0xFFFF then 2 else 4
  }

  function DecimalBytes(width: nat): nat
  {
    if width <= 4 then 2 else if width <= 9 then 4 else if width <= 18 then 8 else 16
  }

  /** physicalWidth: the storage size of a constant-size type, else 0. */
  function PhysicalWidth(t: LogicalType): nat
  {
    match KindOf(t.id)
    case KBool => 1
    case KInt(bits, _) => bits / 8
    case KFloat(bits) => bits / 8
    case KDate => 4
    case KTime => 8
    case KTimeNS => 8
    case KTimeTZ => 8
    case KTimestamp => 8
    case KDecimal => DecimalBytes(t.width)
    case KHugeint => 16
    case KUHugeint => 16
    case KUuid => 16
    case KInterval => 16
    case KEnum => EnumIndexWidth(|t.labels|)
    case KNone => 0
  }

  const TIMETZ_MAX_OFFSET := 16 * 60 * 60 - 1

  function Reversed(s: Bytes): (r: Bytes)
    ensures |r| == |s|
    ensures forall i :: 0 <= i < |s| ==> r[i] == s[|s| - 1 - i]
  {
    seq(|s|, i requires 0 <= i < |s| => s[|s| - 1 - i])
  }

  /** Toggling the top bit of a word. */
  function FlipTop(v: int): int
  {
    if v < P64 / 2 then v + P64 / 2 else v - P64 / 2
  }

  /** decodeCell; None is the enum index error. */
  function DecodeCell(t: LogicalType, cell: Bytes): (v: Option<Value>)
    requires |cell| == PhysicalWidth(t) && KindOf(t.id) != KNone
  {
    match KindOf(t.id)
    case KBool => Some(VBool(cell[0] != 0))
    case KInt(bits, signed) =>
      var u := FromLE(cell);
      Some(VInt(bits, signed, if signed then Signed(u, Pow256(bits / 8)) else u))
    case KFloat(bits) => Some(VFloat(bits, FromLE(cell)))
    case KDate => Some(VInstant(Signed(FromLE(cell), P32) * 86400, 0))
    case KTime => Some(VTime(Signed(FromLE(cell), P64)))
    case KTimeNS => Some(VTimeNS(Signed(FromLE(cell), P64)))
    case KTimeTZ =>
      var bits := FromLE(cell);
      Some(VTimeTZ(bits / 0x100_0000, TIMETZ_MAX_OFFSET - bits % 0x100_0000))
    case KTimestamp => Some(TimestampValue(t.id, Signed(FromLE(cell), P64)))
    case KDecimal => Some(VDecimal(DecodeDecimalCell(t, cell)))
    case KHugeint => Some(VBig(Int128(Signed(FromLE(cell[8..]), P64), FromLE(cell[..8]))))
    case KUHugeint => Some(VBig(UInt128(FromLE(cell[8..]), FromLE(cell[..8]))))
    case KUuid =>
      FromLEBound(cell[8..]); WordSizes();
      Some(VUuid(Reversed(LE(FlipTop(FromLE(cell[8..])), 8)) + Reversed(cell[..8])))
    case KInterval =>
      Some(VInterval(Signed(FromLE(cell[..4]), P32), Signed(FromLE(cell[4..8]), P32), Signed(FromLE(cell[8..]), P64)))
    case KEnum =>
      var idx := FromLE(cell);
      if idx >= |t.labels| then None else Some(VString(t.labels[idx]))
  }

  /** decodeDecimalCell: narrow cells are sign-extended to 128 bits. */
  function DecodeDecimalCell(t: LogicalType, cell: Bytes): Decimal
    requires |cell| in {2, 4, 8, 16}
  {
    if |cell| == 16 then Decimal(t.width, t.scale, Signed(FromLE(cell[8..]), P64), FromLE(cell[..8]))
    else
      var v := Signed(FromLE(cell), Pow256(|cell|));
      Decimal(t.width, t.scale, if v < 0 then -1 else 0, Wrap(v, P64))
  }

  function FirstIndex(labels: seq<Bytes>, s: Bytes): (i: nat)
    requires s in labels
    ensures i < |labels| && labels[i] == s
  {
    if labels[0] == s then 0 else 1 + FirstIndex(labels[1..], s)
  }

  /** The non-NULL values of a fixed-width column: what its Go type can hold. */
  predicate CellTyped(t: LogicalType, v: Value)
  {
    match KindOf(t.id)
    case KBool => v.VBool?
    case KInt(bits, signed) =>
      && v.VInt? && v.bits == bits && v.signed == signed
      && if signed then IsSigned(v.n, Pow256(bits / 8)) else 0 <= v.n < Pow256(bits / 8)
    case KFloat(bits) => v.VFloat? && v.bits == bits && v.pattern < Pow256(bits / 8)
    case KDate => v.VInstant? && v.nsec == 0 && v.sec % 86400 == 0 && IsSigned(v.sec / 86400, P32)
    case KTime => v.VTime? && IsSigned(v.micros, P64)
    case KTimeNS => v.VTimeNS? && IsSigned(v.nanos, P64)
    case KTimeTZ => v.VTimeTZ? && 0 <= v.micros < 0x100_0000_0000 && 0 <= TIMETZ_MAX_OFFSET - v.offset < 0x100_0000
    case KTimestamp =>
      && v.VInstant? && v.nsec < 1_000_000_000
      && v.nsec % (1_000_000_000 / TickRate(t.id)) == 0
      && IsSigned(TicksOf(t.id, v.sec, v.nsec), P64)
    case KDecimal =>
      && v.VDecimal? && v.d.width == t.width && v.d.scale == t.scale
      && ValidDecimal(v.d) && IsSigned(BigInt(v.d), Pow256(DecimalBytes(t.width)))
    case KHugeint => v.VBig? && IsSigned(v.n, P128)
    case KUHugeint => v.VBig? && 0 <= v.n < P128
    case KUuid => v.VUuid? && |v.s| == 16
    case KInterval => v.VInterval? && IsSigned(v.months, P32) && IsSigned(v.days, P32) && IsSigned(v.micros, P64)
    case KEnum => v.VString? && v.s in t.labels && |t.labels| < P32
    case KNone => false
  }

  /** appendCell: NULL slots occupy their width with zeros. */
  function CellBytes(t: LogicalType, v: Value): (s: Bytes)
    requires KindOf(t.id) != KNone && (v.VNull? || CellTyped(t, v))
    ensures |s| == PhysicalWidth(t)
  {
    if v.VNull? then LE(0, PhysicalWidth(t))
    else
      match KindOf(t.id)
      case KBool => [if v.b then 1 else 0]
      case KInt(bits, _) => LE(Wrap(v.n, Pow256(bits / 8)), bits / 8)
      case KFloat(bits) => LE(v.pattern, bits / 8)
      case KDate => LE(Wrap(v.sec / 86400, P32), 4)
      case KTime => LE(Wrap(v.micros, P64), 8)
      case KTimeNS => LE(Wrap(v.nanos, P64), 8)
      case KTimeTZ => LE(v.micros * 0x100_0000 + (TIMETZ_MAX_OFFSET - v.offset) % 0x100_0000, 8)
      case KTimestamp => LE(Wrap(TicksOf(t.id, v.sec, v.nsec), P64), 8)
      case KDecimal => DecimalCell(t.width, BigInt(v.d))
      case KHugeint => Halves(v.n)
      case KUHugeint => Halves(v.n)
      case KUuid => Reversed(v.s[8..]) + LE(FlipTop(FromLE(Reversed(v.s[..8]))), 8)
      case KInterval => LE(Wrap(v.months, P32), 4) + (LE(Wrap(v.days, P32), 4) + LE(Wrap(v.micros, P64), 8))
      case KEnum => LE(FirstIndex(t.labels, v.s), EnumIndexWidth(|t.labels|))
  }

  /** Low word first, each little-endian. */
  function Halves(n: int): (s: Bytes)
    ensures |s| == 16
  {
    var (hi, lo) := Int128Parts(n);
    LE(lo, 8) + LE(Wrap(hi, P64), 8)
  }

  /** appendDecimal */
  function DecimalCell(width: nat, unscaled: int): (s: Bytes)
    ensures |s| == DecimalBytes(width)
  {
    var (hi, lo) := Int128Parts(unscaled);
    if width <= 4 then LE(lo % P16, 2)
    else if width <= 9 then LE(lo % P32, 4)
    else if width <= 18 then LE(lo, 8)
    else LE(lo, 8) + LE(Wrap(hi, P64), 8)
  }

  // ---- decodeCell after appendCell ------------------------------------------------

  lemma WordBack(v: int, n: nat)
    requires n in {1, 2, 4, 8} && IsSigned(v, Pow256(n))
    ensures Signed(FromLE(LE(Wrap(v, Pow256(n)), n)), Pow256(n)) == v
  {
    WordSizes();
    LERoundTrip(Wrap(v, Pow256(n)), n);
    SignedWrap(v, Pow256(n));
  }

  lemma UnsignedWordBack(v: nat, n: nat)
    requires v < Pow256(n)
    ensures FromLE(LE(Wrap(v, Pow256(n)), n)) == v
  {
    LERoundTrip(v, n);
    ModUnique(v, Pow256(n), 0, v);
  }

  lemma HalvesBack(n: int)
    requires -(P128 / 2) <= n < P128
    ensures var s := Halves(n);
            && FromLE(s[..8]) == Int128Parts(n).1
            && Signed(FromLE(s[8..]), P64) == Int128Parts(n).0
            && FromLE(s[8..]) == Wrap(Int128Parts(n).0, P64)
            && s[..8] == LE(Int128Parts(n).1, 8) && s[8..] == LE(Wrap(Int128Parts(n).0, P64), 8)
  {
    var (hi, lo) := Int128Parts(n);
    WordSizes();
    assert Halves(n)[..8] == LE(lo, 8) && Halves(n)[8..] == LE(Wrap(hi, P64), 8);
    LERoundTrip(lo, 8);
    WordBack(hi, 8);
    LERoundTrip(Wrap(hi, P64), 8);
  }

  lemma PartsValue(n: int)
    requires -(P128 / 2) <= n < P128
    ensures var (hi, lo) := Int128Parts(n);
            && (IsSigned(n, P128) ==> Int128(hi, lo) == n)
            && (0 <= n ==> UInt128(Wrap(hi, P64), lo) == n)
  {
    var b := if n < 0 then n + P128 else n;
    assert b == (b / P64) * P64 + b % P64 && 0 <= b / P64 < P64;
    SignedWrap(Signed(b / P64, P64), P64);
    UnsignedSigned(b / P64, P64);
  }

  lemma UnsignedSigned(u: int, modulus: int)
    requires modulus > 0 && modulus % 2 == 0 && 0 <= u < modulus
    ensures Wrap(Signed(u, modulus), modulus) == u
  {
    if u >= modulus / 2 {
      ModUnique(u - modulus, modulus, -1, u);
    } else {
      ModUnique(u, modulus, 0, u);
    }
  }

  lemma HugeintCellBack(t: LogicalType, v: Value)
    requires KindOf(t.id) in {KHugeint, KUHugeint} && CellTyped(t, v)
    ensures DecodeCell(t, CellBytes(t, v)) == Some(v)
  {
    HalvesBack(v.n);
    PartsValue(v.n);
  }

  lemma IntervalCellBack(t: LogicalType, v: Value)
    requires KindOf(t.id) == KInterval && CellTyped(t, v)
    ensures DecodeCell(t, CellBytes(t, v)) == Some(v)
  {
    WordSizes();
    var a, b, c := LE(Wrap(v.months, P32), 4), LE(Wrap(v.days, P32), 4), LE(Wrap(v.micros, P64), 8);
    var s := CellBytes(t, v);
    assert s[..4] == a && s[4..8] == b && s[8..] == c;
    WordBack(v.months, 4);
    WordBack(v.days, 4);
    WordBack(v.micros, 8);
  }

  lemma UuidCellBack(t: LogicalType, v: Value)
    requires KindOf(t.id) == KUuid && CellTyped(t, v)
    ensures DecodeCell(t, CellBytes(t, v)) == Some(v)
  {
    WordSizes();
    var hi := FromLE(Reversed(v.s[..8]));
    FromLEBound(Reversed(v.s[..8]));
    LERoundTrip(FlipTop(hi), 8);
    FromLERoundTrip(Reversed(v.s[..8]));
    var s := CellBytes(t, v);
    assert s[..8] == Reversed(v.s[8..]) && s[8..] == LE(FlipTop(hi), 8);
    assert Reversed(Reversed(v.s[8..])) == v.s[8..];
    assert Reversed(Reversed(v.s[..8])) == v.s[..8];
    hide Reversed, LE, FromLE, PhysicalWidth;
    assert v.s[..8] + v.s[8..] == v.s;
  }

  lemma TimeTZCellBack(t: LogicalType, v: Value)
    requires KindOf(t.id) == KTimeTZ && CellTyped(t, v)
    ensures DecodeCell(t, CellBytes(t, v)) == Some(v)
  {
    WordSizes();
    var o := TIMETZ_MAX_OFFSET - v.offset;
    ModUnique(o, 0x100_0000, 0, o);
    ModUnique(v.micros * 0x100_0000 + o, 0x100_0000, v.micros, o);
    LERoundTrip(v.micros * 0x100_0000 + o, 8);
  }

  lemma DateCellBack(t: LogicalType, v: Value)
    requires KindOf(t.id) == KDate && CellTyped(t, v)
    ensures DecodeCell(t, CellBytes(t, v)) == Some(v)
  {
    WordSizes();
    WordBack(v.sec / 86400, 4);
  }

  lemma TimestampCellBack(t: LogicalType, v: Value)
    requires KindOf(t.id) == KTimestamp && CellTyped(t, v)
    ensures DecodeCell(t, CellBytes(t, v)) == Some(v)
  {
    WordSizes();
    WordBack(TicksOf(t.id, v.sec, v.nsec), 8);
    InstantBack(t.id, v);
  }

  lemma InstantBack(id: nat, v: Value)
    requires v.VInstant? && v.nsec < 1_000_000_000 && v.nsec % (1_000_000_000 / TickRate(id)) == 0
    ensures TimestampValue(id, TicksOf(id, v.sec, v.nsec)) == v
  {
    var rate := TickRate(id);
    if rate == 1 {} else if rate == 1_000 {} else if rate == 1_000_000 {} else {}
  }

  /** Sign extension undoes the truncation of a decimal to its cell. */
  lemma DecimalCellBack(t: LogicalType, d: Decimal)
    requires d.width == t.width && d.scale == t.scale && ValidDecimal(d)
    requires IsSigned(BigInt(d), Pow256(DecimalBytes(t.width)))
    ensures DecodeDecimalCell(t, DecimalCell(t.width, BigInt(d))) == d
  {
    WordSizes();
    var v := BigInt(d);
    Int128PartsJoin(d.hi, d.lo);
    if t.width <= 18 {
      var n := DecimalBytes(t.width);
      NarrowDecimal(v, n);
      WordBack(v, n);
      assert DecimalCell(t.width, v) == LE(Wrap(v, Pow256(n)), n);
      SmallParts(d);
    } else {
      var s := DecimalCell(t.width, v);
      assert s[..8] == LE(d.lo, 8) && s[8..] == LE(Wrap(d.hi, P64), 8);
      LERoundTrip(d.lo, 8);
      WordBack(d.hi, 8);
    }
  }

  lemma NarrowDecimal(v: int, n: nat)
    requires n in {2, 4, 8} && IsSigned(v, Pow256(n))
    ensures Pow256(2) == P16 && Pow256(4) == P32 && Pow256(8) == P64
    ensures Wrap(v, Pow256(n)) == if n == 8 then Int128Parts(v).1 else Int128Parts(v).1 % Pow256(n)
  {
    WordSizes();
    assert P128 == 0x1_0000_0000_0000_0000 * P64;
    if n == 2 {
    } else if n == 4 {
    } else {
    }
  }

  lemma SmallParts(d: Decimal)
    requires ValidDecimal(d) && IsSigned(BigInt(d), P64)
    ensures d.hi == (if BigInt(d) < 0 then -1 else 0) && d.lo == Wrap(BigInt(d), P64)
  {
    if BigInt(d) < 0 {
      ModUnique(BigInt(d), P64, -1, d.lo);
    } else {
      ModUnique(BigInt(d), P64, 0, d.lo);
    }
  }

  lemma IntCellBack(t: LogicalType, v: Value)
    requires KindOf(t.id).KInt? && CellTyped(t, v)
    ensures DecodeCell(t, CellBytes(t, v)) == Some(v)
  {
    WordSizes();
    var n := KindOf(t.id).bits / 8;
    if v.signed {
      WordBack(v.n, n);
    } else {
      UnsignedWordBack(v.n, n);
    }
  }

  lemma EnumCellBack(t: LogicalType, v: Value)
    requires KindOf(t.id) == KEnum && CellTyped(t, v)
    ensures DecodeCell(t, CellBytes(t, v)) == Some(v)
  {
    WordSizes();
    LERoundTrip(FirstIndex(t.labels, v.s), EnumIndexWidth(|t.labels|));
  }

  lemma OtherCellBack(t: LogicalType, v: Value)
    requires (KindOf(t.id) in {KBool, KTime, KTimeNS} || KindOf(t.id).KFloat?) && CellTyped(t, v)
    ensures DecodeCell(t, CellBytes(t, v)) == Some(v)
  {
    WordSizes();
    if v.VTime? {
      WordBack(v.micros, 8);
    } else if v.VTimeNS? {
      WordBack(v.nanos, 8);
    } else if v.VFloat? {
      LERoundTrip(v.pattern, KindOf(t.id).bits / 8);
    }
  }

  /** decodeCell inverts appendCell on every value of every supported scalar
      type. */
  lemma CellBack(t: LogicalType, v: Value)
    requires CellTyped(t, v)
    ensures DecodeCell(t, CellBytes(t, v)) == Some(v)
  {
    hide DecodeCell, CellBytes;
    match KindOf(t.id)
    case KInt(_, _) => IntCellBack(t, v);
    case KDate => DateCellBack(t, v);
    case KTimeTZ => TimeTZCellBack(t, v);
    case KTimestamp => TimestampCellBack(t, v);
    case KDecimal => DecimalBack(t, v);
    case KHugeint => HugeintCellBack(t, v);
    case KUHugeint => HugeintCellBack(t, v);
    case KUuid => UuidCellBack(t, v);
    case KInterval => IntervalCellBack(t, v);
    case KEnum => EnumCellBack(t, v);
    case _ => OtherCellBack(t, v);
  }

  lemma DecimalBack(t: LogicalType, v: Value)
    requires KindOf(t.id) == KDecimal && CellTyped(t, v)
    ensures DecodeCell(t, CellBytes(t, v)) == Some(v)
  {
    DecimalCellBack(t, v.d);
  }
}
