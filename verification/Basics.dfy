/** Bytes, machine integers and the little-endian layout every field uses. */
module Basics {

  type Byte = b: int | 0 <= b < 256
  type Bytes = seq<Byte>

  datatype Option<+T> = None | Some(value: T)

  // Ranges of the machine integers of the original.
  const P8: int := 0x100
  const P16: int := 0x1_0000
  const P32: int := 0x1_0000_0000
  const P64: int := 0x1_0000_0000_0000_0000
  const P128: int := 0x1_0000_0000_0000_0000_0000_0000_0000_0000

  /** Reinterprets an unsigned value below `modulus` as two's complement. */
  function Signed(u: int, modulus: int): int
  {
    if u < modulus / 2 then u else u - modulus
  }

  predicate IsSigned(v: int, modulus: int)
  {
    -(modulus / 2) <= v < modulus / 2
  }

  function Pow256(n: nat): (p: nat)
    ensures 0 < p
  {
    if n == 0 then 1 else 256 * Pow256(n - 1)
  }

  lemma WordSizes()
    ensures Pow256(1) == P8 && Pow256(2) == P16 && Pow256(4) == P32 && Pow256(8) == P64 && Pow256(16) == P128
  {
    assert Pow256(4) == P32;
    assert Pow256(8) == P64;
    assert Pow256(12) == P64 * P32;
    assert Pow256(16) == P128;
  }

  /** The low `n` bytes of `v`, least significant first. */
  function LE(v: nat, n: nat): (s: Bytes)
    ensures |s| == n
  {
    if n == 0 then [] else [v % 256] + LE(v / 256, n - 1)
  }

  function FromLE(s: Bytes): (v: nat)
  {
    if s == [] then 0 else s[0] + 256 * FromLE(s[1..])
  }

  lemma {:induction false} FromLEBound(s: Bytes)
    ensures FromLE(s) < Pow256(|s|)
  {
    if s != [] {
      FromLEBound(s[1..]);
    }
  }

  lemma {:induction false} LERoundTrip(v: nat, n: nat)
    requires v < Pow256(n)
    ensures FromLE(LE(v, n)) == v
  {
    if n > 0 {
      LERoundTrip(v / 256, n - 1);
      assert LE(v, n)[1..] == LE(v / 256, n - 1);
    }
  }

  /** The other direction: a byte string is the layout of its own value. */
  lemma {:induction false} FromLERoundTrip(s: Bytes)
    ensures LE(FromLE(s), |s|) == s
  {
    if s != [] {
      FromLERoundTrip(s[1..]);
      assert s == [s[0]] + s[1..];
    }
  }
}
