/** What a varint is: groups of seven bits, least significant first, the last
    byte without its top bit; apart from how it is read and written. */
module Varints {
  import opened Basics
  import opened Leb128

  function Pow128(n: nat): (p: nat)
    ensures p > 0
  {
    if n == 0 then 1 else 128 * Pow128(n - 1)
  }

  /** The groups of seven bits, each at its place, summed from the last one. */
  function Groups(s: Bytes): nat
  {
    if s == [] then 0 else s[|s| - 1] % 128 * Pow128(|s| - 1) + Groups(s[..|s| - 1])
  }

  /** The first byte without its top bit is the `n`-th. */
  predicate Ends(s: Bytes, n: nat)
  {
    0 < n <= |s| && s[n - 1] < 128 && forall i :: 0 <= i < n - 1 ==> s[i] >= 128
  }

  lemma Step(x: int, p: int, g: int, d: int)
    ensures 128 * (d * p + g) + x == d * (128 * p) + (x + 128 * g)
  {
    assert d * (128 * p) == 128 * (d * p);
  }

  lemma {:induction false} GroupsFront(s: Bytes)
    requires s != []
    ensures Groups(s) == s[0] % 128 + 128 * Groups(s[1..])
    decreases |s|
  {
    var n := |s| - 1;
    if n > 0 {
      GroupsFront(s[..n]);
      assert s[..n][1..] == s[1..][..n - 1];
      Step(s[0] % 128, Pow128(n - 1), Groups(s[1..][..n - 1]), s[n] % 128);
    } else {
      assert s[..0] == [] && s[1..] == [];
    }
  }

  lemma {:induction false} GroupsBound(s: Bytes)
    ensures Groups(s) < Pow128(|s|)
    decreases |s|
  {
    if s != [] {
      var n := |s| - 1;
      GroupsBound(s[..n]);
      MulAtMost(s[n] % 128, 127, Pow128(n));
    }
  }

  lemma MulAtMost(a: nat, b: nat, p: nat)
    requires a <= b
    ensures a * p <= b * p
  {
  }

  lemma Powers()
    ensures Pow128(9) == 0x8000_0000_0000_0000
  {
    assert Pow128(3) == 0x20_0000 && Pow128(6) == 0x400_0000_0000;
  }

  lemma EndsLater(s: Bytes, n: nat)
    requires Ends(s, n) && s[0] >= 128
    ensures n > 1 && Ends(s[1..], n - 1) && s[1..][..n - 1] == s[..n][1..]
  {
  }

  // ---- unsigned ------------------------------------------------------------------------------

  lemma {:induction false} UvAt(s: Bytes, i: nat, n: nat)
    requires Ends(s, n) && i <= 10
    ensures UvDecode(s, i) == if i + n > 10 || (i + n == 10 && s[n - 1] > 1) then VarOverflow else VarOk(Groups(s[..n]), n)
    decreases |s|
  {
    if i < 10 {
      GroupsFront(s[..n]);
      if s[0] >= 128 {
        EndsLater(s, n);
        UvAt(s[1..], i + 1, n - 1);
      } else {
        assert n == 1 && s[..1][1..] == [];
      }
    }
  }

  lemma {:induction false} UvEndless(s: Bytes, i: nat)
    requires i <= 10 && forall j :: 0 <= j < |s| && j < 11 - i ==> s[j] >= 128
    ensures UvDecode(s, i) == if |s| <= 10 - i then VarTruncated else VarOverflow
    decreases |s|
  {
    if s != [] && i < 10 {
      UvEndless(s[1..], i + 1);
    }
  }

  /** Uvarint reads the groups' value if it is a uint64 in at most ten bytes;
      anything larger or longer overflows; too few bytes are truncation. */
  lemma UvarintExactly(s: Bytes, n: nat)
    ensures Ends(s, n) && n <= 10 ==> UvDecode(s, 0) == if Groups(s[..n]) < P64 then VarOk(Groups(s[..n]), n) else VarOverflow
    ensures Ends(s, n) && n > 10 ==> UvDecode(s, 0) == VarOverflow
    ensures |s| <= 10 && (forall j :: 0 <= j < |s| ==> s[j] >= 128) ==> UvDecode(s, 0) == VarTruncated
  {
    if Ends(s, n) {
      UvAt(s, 0, n);
      if n == 10 {
        TenthByte(s[..10]);
      } else if n < 10 {
        GroupsBound(s[..n]);
        PowersRise(n, 9);
        Powers();
      }
    }
    if |s| <= 10 && forall j :: 0 <= j < |s| ==> s[j] >= 128 {
      UvEndless(s, 0);
    }
  }

  lemma {:induction false} PowersRise(n: nat, m: nat)
    requires n <= m
    ensures Pow128(n) <= Pow128(m)
    decreases m
  {
    if n < m {
      PowersRise(n, m - 1);
    }
  }

  /** The tenth byte has the weight 2^63. */
  lemma TenthByte(s: Bytes)
    requires |s| == 10 && s[9] < 128
    ensures Groups(s) < P64 <==> s[9] <= 1
  {
    GroupsBound(s[..9]);
    Powers();
  }

  /** What is written: the value's groups, no more of them than it has. */
  lemma {:induction false} UvEncodeIs(v: nat)
    ensures Ends(UvEncode(v), |UvEncode(v)|) && Groups(UvEncode(v)) == v
    ensures |UvEncode(v)| > 1 ==> UvEncode(v)[|UvEncode(v)| - 1] > 0
    decreases v
  {
    var s := UvEncode(v);
    GroupsFront(s);
    if v >= 128 {
      UvEncodeIs(v / 128);
      assert s[1..] == UvEncode(v / 128);
    } else {
      assert s[1..] == [];
    }
  }

  // ---- signed -------------------------------------------------------------------------------

  /** The value of the groups of a signed varint's end, of which `before` bytes
      came before: bit 6 of the last byte is the sign, of a tenth byte only
      bit 0 counts. */
  function Extended(s: Bytes, before: nat): int
    requires s != []
  {
    var last: int := s[|s| - 1];
    if before + |s| < 10 then Groups(s) - (if last >= 64 then Pow128(|s|) else 0)
    else Groups(s[..|s| - 1]) - (if last % 2 == 1 then Pow128(|s| - 1) else 0)
  }

  lemma ExtendedFront(s: Bytes, before: nat)
    requires |s| > 1 && s[0] >= 128 && before + |s| <= 10
    ensures Extended(s, before) == s[0] - 128 + 128 * Extended(s[1..], before + 1)
  {
    GroupsFront(s);
    GroupsFront(s[..|s| - 1]);
    assert s[1..][..|s| - 2] == s[..|s| - 1][1..];
  }

  lemma {:induction false} SvAt(s: Bytes, i: nat, n: nat)
    requires Ends(s, n) && i <= 10
    ensures SvDecode(s, i) == if i + n > 10 then VarOverflow else VarOk(Extended(s[..n], i), n)
    decreases |s|
  {
    hide Extended;
    if i < 10 {
      if s[0] >= 128 {
        EndsLater(s, n);
        SvAt(s[1..], i + 1, n - 1);
        if i + n <= 10 {
          ExtendedFront(s[..n], i);
        }
      } else {
        OneByte(s, i);
      }
    }
  }

  lemma OneByte(s: Bytes, i: nat)
    requires s != [] && s[0] < 128 && i < 10
    ensures SvDecode(s, i) == VarOk(Extended(s[..1], i), 1)
  {
    GroupsFront(s[..1]);
    assert s[..1][1..] == [] && s[..1][..0] == [];
  }

  /** Svarint reads the groups' value in two's complement. */
  lemma SvarintExactly(s: Bytes, n: nat)
    requires Ends(s, n)
    ensures n < 10 ==> SvDecode(s, 0) == VarOk(Groups(s[..n]) - (if s[n - 1] >= 64 then Pow128(n) else 0), n)
    ensures n == 10 ==> SvDecode(s, 0) == VarOk(Groups(s[..9]) - (if s[9] % 2 == 1 then 0x8000_0000_0000_0000 else 0), 10)
    ensures n > 10 ==> SvDecode(s, 0) == VarOverflow
  {
    SvAt(s, 0, n);
    Powers();
    assert n == 10 ==> s[..10][..9] == s[..9];
  }

  // ---- the examples of DWARF Version 5, section 7.6 ---------------------------------------------

  lemma UnsignedExamples()
    ensures UvEncode(2) == [2] && UvEncode(127) == [127] && UvEncode(128) == [0x80, 1] && UvEncode(129) == [0x81, 1]
    ensures UvEncode(12857) == [0xB9, 0x64]
  {
    assert UvEncode(1) == [1] && UvEncode(100) == [100];
  }

  lemma SignedExamples()
    ensures SvEncode(2) == [2] && SvEncode(-2) == [0x7E] && SvEncode(127) == [0xFF, 0] && SvEncode(-127) == [0x81, 0x7F]
    ensures SvEncode(128) == [0x80, 1] && SvEncode(-128) == [0x80, 0x7F] && SvEncode(129) == [0x81, 1] && SvEncode(-129) == [0xFF, 0x7E]
  {
    assert SvEncode(0) == [0] && SvEncode(-1) == [0x7F] && SvEncode(1) == [1] && SvEncode(-2) == [0x7E];
  }
}
