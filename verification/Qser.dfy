/** The reader and writer objects: a cursor with a sticky error, and a growing
    buffer. Every method is tied to the framing functions it implements. */
module Qser {
  import opened Basics
  import opened Leb128
  import S = Framing

  function Pow2(n: nat): (p: nat)
    ensures 0 < p
  {
    if n == 0 then 1 else 2 * Pow2(n - 1)
  }

  /** The ten shifts a varint can use. */
  lemma ShiftTable()
    ensures Pow2(0) == 1 && Pow2(7) == 0x80 && Pow2(14) == 0x4000 && Pow2(21) == 0x20_0000 && Pow2(28) == 0x1000_0000
    ensures Pow2(35) == 0x8_0000_0000 && Pow2(42) == 0x400_0000_0000 && Pow2(49) == 0x2_0000_0000_0000
    ensures Pow2(56) == 0x100_0000_0000_0000 && Pow2(63) == 0x8000_0000_0000_0000
  {
    Pow2Add7(0); Pow2Add7(7); Pow2Add7(14); Pow2Add7(21); Pow2Add7(28);
    Pow2Add7(35); Pow2Add7(42); Pow2Add7(49); Pow2Add7(56);
  }

  lemma Pow2Add7(n: nat)
    ensures Pow2(n + 7) == 128 * Pow2(n)
  {
    assert Pow2(n + 2) == 4 * Pow2(n);
    assert Pow2(n + 4) == 4 * Pow2(n + 2);
    assert Pow2(n + 6) == 4 * Pow2(n + 4);
  }

  /** `<<` on a uint64. */
  function Shl(x: nat, n: nat): (y: nat)
    ensures y < P64
  {
    x * Pow2(n) % P64
  }

  class Reader {
    const buf: Bytes
    var off: nat
    var err: Option<S.ReadError>

    constructor (input: Bytes)
      ensures Valid() && State() == S.Ok(input) && off == 0 && buf == input
    {
      buf := input;
      off := 0;
      err := None;
    }

    ghost predicate Valid()
      reads this
    {
      off <= |buf|
    }

    /** What the reader still promises: its unread input, or its first error. */
    function State(): S.Rd
      reads this
      requires Valid()
    {
      if err.None? then S.Ok(buf[off..]) else S.Failed(err.value)
    }

    method Fail(e: S.ReadError)
      requires Valid()
      modifies this
      ensures Valid() && off == old(off)
      ensures State() == if old(State()).Failed? then old(State()) else S.Failed(e)
    {
      if err.None? {
        err := Some(e);
      }
    }

    method PeekID() returns (id: nat)
      requires Valid()
      modifies this
      ensures Valid() && off == old(off)
      ensures (State(), id) == S.PeekId(old(State()))
    {
      if err.Some? {
        return S.END_ID;
      }
      if |buf| - off < 2 {
        Fail(S.Truncated);
        return S.END_ID;
      }
      id := buf[off] as int + 256 * buf[off + 1] as int;
    }

    method TryField(id: nat) returns (ok: bool)
      requires Valid()
      modifies this
      ensures Valid() && off >= old(off)
      ensures (State(), ok) == S.TryField(old(State()), id)
    {
      var got := PeekID();
      if got != id || err.Some? {
        return false;
      }
      off := off + 2;
      return true;
    }

    method End()
      requires Valid()
      modifies this
      ensures Valid() && off >= old(off)
      ensures State() == S.EndObject(old(State()))
    {
      var id := PeekID();
      if err.Some? {
        return;
      }
      if id != S.END_ID {
        Fail(S.UnexpectedField(id));
        return;
      }
      off := off + 2;
    }

    method Take(n: int) returns (b: Bytes)
      requires Valid()
      modifies this
      ensures Valid() && off >= old(off)
      ensures (State(), b) == S.Take(old(State()), n)
      ensures State().Failed? ==> off == old(off)
    {
      if err.Some? {
        return [];
      }
      if n < 0 || |buf| - off < n {
        Fail(S.Truncated);
        return [];
      }
      b := buf[off..off + n];
      assert b == buf[off..][..n];
      off := off + n;
    }

    method Uvarint() returns (v: nat)
      requires Valid()
      modifies this
      ensures Valid() && off >= old(off)
      ensures (State(), v) == S.Uvarint(old(State()))
    {
      if err.Some? {
        return 0;
      }
      var d := UvDecode(buf[off..], 0);
      match d
      case VarTruncated =>
        Fail(S.Truncated);
        v := 0;
      case VarOverflow =>
        Fail(S.Overflow);
        v := 0;
      case VarOk(x, n) =>
        off := off + n;
        v := x;
    }

    /** Reader.Svarint: the accumulator is a uint64, the shift grows by seven
        and the tenth byte lands on bit 63. */
    method Svarint() returns (v: int)
      requires Valid()
      modifies this
      ensures Valid() && off >= old(off)
      ensures (State(), v) == S.Svarint(old(State()))
    {
      if err.Some? {
        return 0;
      }
      hide SvDecode, Joins, Pow2, SoFar, Signed, Shl, S.Svarint;
      ghost var start := buf[off..];
      SoFarStart(start);
      var acc, shift, i := 0, 0, 0;
      while true
        invariant Valid() && err.None? && off == old(off) + i && old(err.None?)
        invariant i <= 10 && shift == 7 * i
        invariant SoFar(start, buf[off..], acc, i)
        decreases 10 - i
      {
        if |buf| - off == 0 {
          SoFarStop(start, buf[off..], acc, i);
          Fail(S.Truncated);
          return 0;
        }
        if i == 10 {
          SoFarStop(start, buf[off..], acc, i);
          Fail(S.Overflow);
          return 0;
        }
        var b: int := buf[off];
        ghost var tail, acc0 := buf[off..], acc;
        assert tail[1..] == buf[off + 1..];
        off := off + 1;
        if shift < 64 {
          acc := acc + Shl(b % 128, shift); // v |= ..., the bits being disjoint
        }
        if b < 128 {
          var u := acc;
          if shift + 7 < 64 && b % 128 >= 64 {
            u := acc + (P64 - Pow2(shift + 7));
          }
          v := Signed(u, P64);
          SoFarFinish(start, tail, acc0, i);
          assert start[i + 1..] == buf[off..];
          return;
        }
        SoFarStep(start, tail, acc0, i);
        shift := shift + 7;
        i := i + 1;
      }
    }

    method Bool() returns (b: bool)
      requires Valid()
      modifies this
      ensures Valid() && off >= old(off)
      ensures (State(), b) == S.Bool(old(State()))
    {
      var x := Take(1);
      b := |x| == 1 && x[0] != 0;
    }

    /** Reader.Bytes */
    method Blob() returns (b: Bytes)
      requires Valid()
      modifies this
      ensures Valid() && off >= old(off)
      ensures (State(), b) == S.Blob(old(State()))
    {
      var n := Uvarint();
      if err.Some? {
        return [];
      }
      if n > |buf| - off {
        Fail(S.Truncated);
        return [];
      }
      b := Take(n);
    }

    method ListCount() returns (n: nat)
      requires Valid()
      modifies this
      ensures Valid() && off >= old(off)
      ensures (State(), n) == S.ListCount(old(State()))
    {
      n := Uvarint();
      if err.Some? {
        return 0;
      }
      if n > |buf| - off {
        Fail(S.Truncated);
        return 0;
      }
    }

    method Hugeint() returns (h: S.Hugeint)
      requires Valid()
      modifies this
      ensures Valid() && off >= old(off)
      ensures (State(), h) == S.ReadHugeint(old(State()))
    {
      var u := Svarint();
      var l := Uvarint();
      h := S.Hugeint(u, l);
    }
  }

  /** The decoding of a whole varint, given the decoding from byte `i` on and
      what the bytes before contributed. */
  predicate Joins(whole: VarResult, part: VarResult, acc: int, p: int, i: nat)
  {
    match part
    case VarOk(v, n) => whole == VarOk(acc + p * v, i + n)
    case VarTruncated => whole == VarTruncated
    case VarOverflow => whole == VarOverflow
  }

  lemma JoinsStep(whole: VarResult, part: VarResult, next: VarResult, acc: int, p: int, i: nat, b: int)
    requires Joins(whole, part, acc, p, i)
    requires part == match next
                     case VarOk(v, n) => VarOk(b - 128 + 128 * v, n + 1)
                     case other => other
    ensures Joins(whole, next, acc + (b - 128) * p, 128 * p, i + 1)
  {
    match next
    case VarOk(v, n) =>
      assert p * (b - 128 + 128 * v) == (b - 128) * p + (128 * p) * v;
    case VarTruncated =>
    case VarOverflow =>
  }

  /** What Reader.Svarint's accumulator holds after one more byte. */
  function Accumulate(acc: int, b: nat, i: nat): int
  {
    acc + Shl(b % 128, 7 * i)
  }

  /** The int64 Reader.Svarint returns when `b` is the last byte. */
  function Finish(acc: int, b: nat, i: nat): int
  {
    var a := Accumulate(acc, b, i);
    Signed(if 7 * i + 7 < 64 && b % 128 >= 64 then a + (P64 - Pow2(7 * i + 7)) else a, P64)
  }

  lemma SmallDigit(acc: int, d: int, p: int)
    requires 0 <= acc < p && 0 <= d < 128 && 128 * p <= P64 / 2
    ensures 0 <= acc + d * p < 128 * p
    ensures d * p % P64 == d * p
  {
    assert d * p <= 127 * p by { MulMonotone(d, 127, p); }
    assert 0 <= d * p by { MulMonotone(0, d, p); }
  }

  lemma MulMonotone(x: int, y: int, p: int)
    requires x <= y && 0 <= p
    ensures x * p <= y * p
  {
  }

  /** Below the tenth byte the accumulator never wraps. */
  lemma AccumulatorStep(acc: int, b: int, i: nat)
    requires i <= 8 && 0 <= acc < Pow2(7 * i) && 0 <= b < 256
    ensures Pow2(7 * i + 7) == 128 * Pow2(7 * i) <= P64 / 2
    ensures Accumulate(acc, b, i) == acc + (b % 128) * Pow2(7 * i)
    ensures 0 <= Accumulate(acc, b, i) < Pow2(7 * i + 7)
  {
    ShiftBound(i);
    Pow2Add7(7 * i);
    SmallDigit(acc, b % 128, Pow2(7 * i));
  }

  lemma ShiftBound(i: nat)
    requires i <= 8
    ensures 128 * Pow2(7 * i) <= P64 / 2
  {
    ShiftTable();
    if i == 0 {} else if i == 1 {} else if i == 2 {} else if i == 3 {} else if i == 4 {}
    else if i == 5 {} else if i == 6 {} else if i == 7 {} else {}
  }

  lemma FinishValue(acc: int, b: int, i: nat)
    requires i <= 9 && 0 <= acc < Pow2(7 * i) && 0 <= b < 128
    ensures Finish(acc, b, i) ==
              acc + Pow2(7 * i) * (if i == 9 then -(b % 2) else if b >= 64 then b - 128 else b)
  {
    hide Pow2, Accumulate, Signed;
    if i <= 8 {
      AccumulatorStep(acc, b, i);
      assert b % 128 == b;
      FinishSmall(acc, b, Pow2(7 * i));
    } else {
      FinishLast(acc, b);
    }
  }

  lemma FinishLast(acc: int, b: int)
    requires 0 <= acc < Pow2(63) && 0 <= b < 128
    ensures Finish(acc, b, 9) == acc + Pow2(63) * -(b % 2)
  {
    ShiftTable();
    LastDigit(b);
  }

  lemma FinishSmall(acc: int, b: int, p: int)
    requires 0 <= acc < p && 0 <= b < 128 && 128 * p <= P64 / 2
    ensures Signed(if b >= 64 then acc + b * p + (P64 - 128 * p) else acc + b * p, P64)
            == acc + p * (if b >= 64 then b - 128 else b)
  {
    SmallDigit(acc, b, p);
    if b >= 64 {
      assert p * (b - 128) == b * p - 128 * p;
    } else {
      MulMonotone(b, 63, p);
    }
  }

  lemma LastDigit(b: int)
    requires 0 <= b < 128
    ensures b * (P64 / 2) % P64 == (b % 2) * (P64 / 2)
  {
    assert P64 == 0x1_0000_0000_0000_0000 && P64 / 2 == 0x8000_0000_0000_0000;
    var q, r := b / 2, b % 2;
    assert b * 0x8000_0000_0000_0000 == r * 0x8000_0000_0000_0000 + q * 0x1_0000_0000_0000_0000;
    assert 0 <= r * 0x8000_0000_0000_0000 < 0x1_0000_0000_0000_0000;
  }

  /** The loop of Reader.Svarint after `i` bytes: `rest` is unread, `acc` read. */
  ghost predicate SoFar(start: Bytes, rest: Bytes, acc: int, i: nat)
  {
    && i <= 10
    && (i <= 9 ==> 0 <= acc < Pow2(7 * i) && Joins(SvDecode(start, 0), SvDecode(rest, i), acc, Pow2(7 * i), i))
    && (i == 10 ==> SvDecode(start, 0) == if rest == [] then VarTruncated else VarOverflow)
  }

  lemma SoFarStart(start: Bytes)
    ensures SoFar(start, start, 0, 0)
  {
  }

  /** Stopping for want of a byte, or at an eleventh one. */
  lemma SoFarStop(start: Bytes, rest: Bytes, acc: int, i: nat)
    requires SoFar(start, rest, acc, i) && (rest == [] || i == 10)
    ensures S.Svarint(S.Ok(start)) == (S.Failed(if rest == [] then S.Truncated else S.Overflow), 0)
  {
  }

  lemma SoFarStep(start: Bytes, rest: Bytes, acc: int, i: nat)
    requires i <= 9 && SoFar(start, rest, acc, i) && rest != [] && rest[0] >= 128
    ensures SoFar(start, rest[1..], Accumulate(acc, rest[0], i), i + 1)
  {
    hide Accumulate, Pow2;
    if i < 9 {
      SoFarNext(start, rest, acc, i);
    } else {
      assert SvDecode(rest[1..], 10) == if rest[1..] == [] then VarTruncated else VarOverflow;
      assert SvDecode(rest, i) == SvDecode(rest[1..], 10);
    }
  }

  lemma SoFarNext(start: Bytes, rest: Bytes, acc: int, i: nat)
    requires i < 9 && SoFar(start, rest, acc, i) && rest != [] && rest[0] >= 128
    ensures SoFar(start, rest[1..], Accumulate(acc, rest[0], i), i + 1)
  {
    var b: int := rest[0];
    var part, next := SvDecode(rest, i), SvDecode(rest[1..], i + 1);
    assert part == match next
                   case VarOk(v, n) => VarOk(b - 128 + 128 * v, n + 1)
                   case other => other;
    hide SvDecode, Accumulate, Pow2;
    AccumulatorStep(acc, b, i);
    JoinsStep(SvDecode(start, 0), part, next, acc, Pow2(7 * i), i, b);
    assert b % 128 == b - 128;
  }

  lemma SoFarFinish(start: Bytes, rest: Bytes, acc: int, i: nat)
    requires i <= 9 && SoFar(start, rest, acc, i) && rest != [] && rest[0] < 128
    ensures i < |start| && S.Svarint(S.Ok(start)) == (S.Ok(start[i + 1..]), Finish(acc, rest[0], i))
  {
    hide Finish;
    FinishValue(acc, rest[0], i);
    assert SvDecode(start, 0) == VarOk(Finish(acc, rest[0], i), i + 1);
  }

  class Writer {
    var buf: Bytes

    constructor ()
      ensures buf == []
    {
      buf := [];
    }

    method Raw(b: Bytes)
      modifies this
      ensures buf == old(buf) + b
    {
      buf := buf + b;
    }

    method Field(id: nat)
      requires id < P16
      modifies this
      ensures buf == old(buf) + S.FieldId(id)
    {
      buf := buf + LE(id, 2);
      assert LE(id, 2) == S.FieldId(id);
    }

    method End()
      modifies this
      ensures buf == old(buf) + S.EndMark()
    {
      Field(S.END_ID);
    }

    method Uvarint(v: nat)
      modifies this
      ensures buf == old(buf) + UvEncode(v)
    {
      buf := buf + UvEncode(v);
    }

    /** Writer.Svarint: emits seven bits at a time until the rest is all sign. */
    method Svarint(v: int)
      modifies this
      ensures buf == old(buf) + SvEncode(v)
    {
      var x := v;
      while true
        invariant buf + SvEncode(x) == old(buf) + SvEncode(v)
        decreases if x < 0 then -x else x
      {
        var b := x % 128;
        ghost var x0 := x;
        x := x / 128;
        if (x == 0 && b < 64) || (x == -1 && b >= 64) {
          buf := buf + [b];
          return;
        }
        assert buf + SvEncode(x0) == (buf + [b + 128]) + SvEncode(x);
        buf := buf + [b + 128];
      }
    }

    method Bool(b: bool)
      modifies this
      ensures buf == old(buf) + S.BoolByte(b)
    {
      if b {
        buf := buf + [1];
      } else {
        buf := buf + [0];
      }
    }

    method BytesVal(b: Bytes)
      modifies this
      ensures buf == old(buf) + S.Prefixed(b)
    {
      Uvarint(|b|);
      buf := buf + b;
      assert buf == old(buf) + (UvEncode(|b|) + b);
    }

    method Hugeint(h: S.Hugeint)
      modifies this
      ensures buf == old(buf) + S.HugeintBytes(h)
    {
      Svarint(h.upper);
      Uvarint(h.lower);
      assert buf == old(buf) + (SvEncode(h.upper) + UvEncode(h.lower));
    }
  }
}
