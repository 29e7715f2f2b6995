/** The test encoder's choices, position by position: what it writes where the
    decoder does not look as well. */
module EncoderChoices {
  import opened Basics
  import opened LogicalTypes
  import opened Values
  import opened Vectors
  import opened VectorWire
  import opened FlatEncoding
  import opened Storage

  lemma MaskByteBit(vals: seq<Value>, base: nat, i: nat)
    requires i < 8
    ensures MaskByte(vals, base) / Power2(i) % 2 == 1 <==> base + i < |vals| && vals[base + i] != VNull
  {
    hide ByteOf, Bit, Power2;
    ByteOfBits(seq(8, k requires 0 <= k => base + k < |vals| && !vals[base + k].VNull?), i);
    BitIs(MaskByte(vals, base), i);
  }

  lemma MaskBit(vals: seq<Value>, i: nat)
    requires VNull in vals && i / 8 < |ValidityMask(vals).value|
    ensures LowBit(ValidityMask(vals).value, i) <==> i < |vals| && vals[i] != VNull
  {
    hide MaskByte, Power2;
    MaskByteBit(vals, 8 * (i / 8), i % 8);
    assert 8 * (i / 8) + i % 8 == i;
    assert ValidityMask(vals).value[i / 8] == MaskByte(vals, 8 * (i / 8));
  }

  lemma MaskLength(vals: seq<Value>)
    requires VNull in vals
    ensures ValidityMask(vals).Some?
    ensures |ValidityMask(vals).value| == (|vals| + 63) / 64 * 8
  {
  }

  lemma WholeWords(n: nat)
    requires n > 0
    ensures var size := (n + 63) / 64 * 8; size % 8 == 0 && n <= 8 * size < n + 64
  {
  }

  /** A mask is written exactly when something is NULL, in 8-byte words, its
      bit set exactly for the values that are there. */
  lemma MaskWritten(vals: seq<Value>, i: nat)
    ensures ValidityMask(vals).Some? <==> VNull in vals
    ensures VNull in vals ==>
              var mask := ValidityMask(vals).value;
              && |mask| % 8 == 0 && |vals| <= 8 * |mask| < |vals| + 64
              && (i / 8 < |mask| ==> (LowBit(mask, i) <==> i < |vals| && vals[i] != VNull))
  {
    if VNull in vals {
      MaskLength(vals);
      hide ValidityMask, LowBit;
      WholeWords(|vals|);
      if i / 8 < |ValidityMask(vals).value| {
        MaskBit(vals, i);
      }
    }
  }

  lemma {:induction false} PackedAt(cs: Bytes, i: nat)
    requires |cs| % 8 == 0 && i < |cs|
    ensures HighBit(PackChars(cs), i) <==> cs[i] == 49
    decreases |cs|
  {
    if i < 8 {
      var first := cs[..8];
      ByteOfBits(seq(8, k requires 0 <= k < 8 => first[7 - k] == 49), 7 - i);
      BitIs(CharByte(first), 7 - i);
      assert PackChars(cs)[0] == CharByte(first);
    } else {
      PackedAt(cs[8..], i - 8);
      LaterBit(PackChars(cs), PackChars(cs[8..]), i);
    }
  }

  lemma LaterBit(s: Bytes, rest: Bytes, i: nat)
    requires 8 <= i < 8 * |s| && s[1..] == rest
    ensures HighBit(s, i) == HighBit(rest, i - 8)
  {
    assert s[i / 8] == rest[i / 8 - 1];
  }

  /** A bit string's bytes: how many bits of padding, the padding as ones, the
      characters, high bits first. */
  lemma BlobWritten(s: Bytes, i: nat)
    requires IsBitText(s)
    ensures var b, pad := BitBlob(s), (8 - |s| % 8) % 8;
            && b[0] == pad && |b| == 1 + (|s| + pad) / 8
            && (i < |s| + pad ==> (HighBit(b[1..], i) <==> i < pad || s[i - pad] == 49))
  {
    var pad := Padding(|s|);
    var cs := Ones(pad) + s;
    assert BitBlob(s)[1..] == PackChars(cs);
    if i < |cs| {
      hide HighBit;
      PackedAt(cs, i);
    }
  }

  /** A NULL's cell is zeros. */
  lemma {:induction false} Zeros(n: nat, i: nat)
    requires i < n
    ensures LE(0, n)[i] == 0
    decreases n
  {
    if i > 0 {
      Zeros(n - 1, i - 1);
    }
  }

  lemma NullCell(t: LogicalType, i: nat)
    requires KindOf(t.id) != KNone && i < PhysicalWidth(t)
    ensures CellBytes(t, VNull)[i] == 0
  {
    Zeros(PhysicalWidth(t), i);
  }

  /** How many child rows a LIST or MAP row contributes. */
  function Elements(v: Value): nat
  {
    if v.VList? then |v.elems| else if v.VMap? then |v.pairs| else 0
  }

  /** Windows follow one another from zero, both numbers written. */
  lemma WindowsWritten(t: LogicalType, vals: seq<Value>, i: nat)
    requires t.id in {101, 102} && (t.id == 102 ==> t.child.Some? && |t.child.value.fields| == 2) && i < |vals|
    requires t.id == 101 ==> !vals[i].VMap?
    ensures var es := WindowEntries(t, vals);
            && es[i].off.Some? && es[i].len == Some(Elements(vals[i]))
            && (i == 0 ==> es[i].off == Some(0))
            && (i > 0 ==> es[i - 1].off.Some? && es[i - 1].len.Some? && es[i].off.value == es[i - 1].off.value + es[i - 1].len.value)
  {
    if i > 0 {
      assert vals[..i][..i - 1] == vals[..i - 1];
    }
  }
}
