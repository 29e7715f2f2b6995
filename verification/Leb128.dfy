/** LEB128, section 7.6 of DWARF Version 5: unsigned as in Go's
    encoding/binary, signed with sign extension (not zigzag). */
module Leb128 {
  import opened Basics

  datatype VarResult = VarOk(v: int, used: nat) | VarTruncated | VarOverflow

  /** binary.Uvarint from the `i`-th byte of a varint on. */
  function UvDecode(s: Bytes, i: nat): (r: VarResult)
    ensures r.VarOk? ==> 0 < r.used <= |s| && 0 <= r.v
  {
    if s == [] then VarTruncated
    else if i == 10 then VarOverflow
    else if s[0] < 128 then
      if i == 9 && s[0] > 1 then VarOverflow else VarOk(s[0], 1)
    else
      match UvDecode(s[1..], i + 1)
      case VarOk(v, n) => VarOk(s[0] - 128 + 128 * v, n + 1)
      case other => other
  }

  /** binary.AppendUvarint. */
  function UvEncode(v: nat): (s: Bytes)
    ensures |s| > 0
  {
    if v < 128 then [v] else [v % 128 + 128] + UvEncode(v / 128)
  }

  /** One more than the largest value the bytes from the `i`-th on can add. */
  function UvCap(i: nat): nat
    decreases 9 - i
  {
    if i >= 9 then 2 else 128 * UvCap(i + 1)
  }

  lemma UvCapZero()
    ensures UvCap(0) == P64
  {
    assert UvCap(6) == 0x40_0000;
    assert UvCap(3) == 0x800_0000_0000;
  }

  lemma {:induction false} UvRoundTripAt(v: nat, i: nat, k: Bytes)
    requires i <= 9 && v < UvCap(i)
    ensures UvDecode(UvEncode(v) + k, i) == VarOk(v, |UvEncode(v)|)
    ensures |UvEncode(v)| <= 10 - i
    decreases v
  {
    var s := UvEncode(v) + k;
    if v >= 128 {
      UvRoundTripAt(v / 128, i + 1, k);
      assert s[1..] == UvEncode(v / 128) + k;
    }
  }

  /** binary.Uvarint inverts binary.AppendUvarint on every uint64, whatever
      follows, in at most ten bytes. */
  lemma UvRoundTrip(v: nat, k: Bytes)
    requires v < P64
    ensures UvDecode(UvEncode(v) + k, 0) == VarOk(v, |UvEncode(v)|)
    ensures |UvEncode(v)| <= 10
  {
    UvCapZero();
    UvRoundTripAt(v, 0, k);
  }

  lemma {:induction false} UvBoundAt(s: Bytes, i: nat)
    requires i <= 10 && UvDecode(s, i).VarOk?
    ensures i <= 9 && UvDecode(s, i).v < UvCap(i)
    decreases |s|
  {
    if s != [] && i < 10 && s[0] >= 128 {
      UvBoundAt(s[1..], i + 1);
    } else if i < 9 {
      UvCapLarge(i);
    }
  }

  lemma {:induction false} UvCapLarge(i: nat)
    requires i < 9
    ensures UvCap(i) >= 128
    decreases 9 - i
  {
    if i < 8 {
      UvCapLarge(i + 1);
    }
  }

  lemma UvBound(s: Bytes)
    requires UvDecode(s, 0).VarOk?
    ensures UvDecode(s, 0).v < P64
  {
    UvCapZero();
    UvBoundAt(s, 0);
  }

  lemma {:induction false} UvExtend(s: Bytes, i: nat, x: Bytes)
    requires UvDecode(s, i).VarOk?
    ensures UvDecode(s + x, i) == UvDecode(s, i)
    decreases |s|
  {
    if s[0] >= 128 {
      UvExtend(s[1..], i + 1, x);
      assert (s + x)[1..] == s[1..] + x;
    }
  }

  /** The value Reader.Svarint returns from the `i`-th byte on. The tenth byte
      only contributes the sign bit. */
  function SvDecode(s: Bytes, i: nat): (r: VarResult)
    ensures r.VarOk? ==> 0 < r.used <= |s|
  {
    if s == [] then VarTruncated
    else if i == 10 then VarOverflow
    else if s[0] < 128 then
      var b: int := s[0];
      VarOk(if i == 9 then -(b % 2) else if b >= 64 then b - 128 else b, 1)
    else
      match SvDecode(s[1..], i + 1)
      case VarOk(v, n) => VarOk(s[0] - 128 + 128 * v, n + 1)
      case other => other
  }

  function SvEncode(v: int): (s: Bytes)
    ensures |s| > 0
    decreases if v < 0 then -v else v
  {
    if -64 <= v < 64 then [v % 128] else [v % 128 + 128] + SvEncode(v / 128)
  }

  function SvCap(i: nat): int
    decreases 9 - i
  {
    if i >= 9 then 1 else 128 * SvCap(i + 1)
  }

  lemma SvCapZero()
    ensures SvCap(0) == P64 / 2
  {
    assert SvCap(6) == 0x20_0000;
    assert SvCap(3) == 0x400_0000_0000;
  }

  lemma {:induction false} SvRoundTripAt(v: int, i: nat, k: Bytes)
    requires i <= 9 && -SvCap(i) <= v < SvCap(i)
    ensures SvDecode(SvEncode(v) + k, i) == VarOk(v, |SvEncode(v)|)
    ensures |SvEncode(v)| <= 10 - i
    decreases 9 - i
  {
    var s := SvEncode(v) + k;
    if !(-64 <= v < 64) {
      SvRoundTripAt(v / 128, i + 1, k);
      assert s[1..] == SvEncode(v / 128) + k;
    }
  }

  /** Reader.Svarint inverts Writer.Svarint on every int64, whatever follows,
      in at most ten bytes. */
  lemma SvRoundTrip(v: int, k: Bytes)
    requires IsSigned(v, P64)
    ensures SvDecode(SvEncode(v) + k, 0) == VarOk(v, |SvEncode(v)|)
    ensures |SvEncode(v)| <= 10
  {
    SvCapZero();
    SvRoundTripAt(v, 0, k);
  }

  lemma {:induction false} SvBoundAt(s: Bytes, i: nat)
    requires i <= 10 && SvDecode(s, i).VarOk?
    ensures i <= 9 && -SvCap(i) <= SvDecode(s, i).v < SvCap(i)
    decreases |s|
  {
    if s != [] && i < 10 && s[0] >= 128 {
      SvBoundAt(s[1..], i + 1);
    } else if i < 9 {
      assert SvCap(i) >= 64 by { SvCapLarge(i); }
    }
  }

  lemma {:induction false} SvCapLarge(i: nat)
    requires i < 9
    ensures SvCap(i) >= 128
    decreases 9 - i
  {
    if i < 8 {
      SvCapLarge(i + 1);
    }
  }

  lemma SvBound(s: Bytes)
    requires SvDecode(s, 0).VarOk?
    ensures IsSigned(SvDecode(s, 0).v, P64)
  {
    SvCapZero();
    SvBoundAt(s, 0);
  }

  lemma {:induction false} SvExtend(s: Bytes, i: nat, x: Bytes)
    requires SvDecode(s, i).VarOk?
    ensures SvDecode(s + x, i) == SvDecode(s, i)
    decreases |s|
  {
    if s[0] >= 128 {
      SvExtend(s[1..], i + 1, x);
      assert (s + x)[1..] == s[1..] + x;
    }
  }
}
