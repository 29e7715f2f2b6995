/** Compression at any nesting level: re-encoding a vector inside an encoding
    leaves the column as it was. */
module Reencoding {
  import opened Basics
  import opened Framing
  import opened LogicalTypes
  import opened Values
  import opened Vectors
  import opened VectorWire
  import opened VectorBack
  import opened FlatRoundTrip

  /** Two encodings of one column. */
  ghost predicate Same(v: Vec, w: Vec, t: LogicalType, count: nat)
  {
    Shaped(v, t, count) && Shaped(w, t, count) && Meaning(v, t, count) == Meaning(w, t, count)
  }

  /** `w` is `v` with any number of vectors inside it, at any depths,
      exchanged for other encodings of what they stand for. */
  ghost predicate Reencoded(v: Vec, w: Vec, t: LogicalType, count: nat)
    decreases v
  {
    || Same(v, w, t, count)
    || (v.Constant? && w.Constant? && Reencoded(v.one, w.one, t, 1))
    || (v.Dictionary? && w.Dictionary? && v.sel == w.sel && v.size == w.size && Reencoded(v.dict, w.dict, t, v.size))
    || (v.Flat? && w.Flat? && v.geo == w.geo && v.mask == w.mask &&
        match (v.body, w.body)
        case (Kids(a), Kids(b)) =>
          && |a| == |b| == |t.fields|
          && forall i :: 0 <= i < |a| ==> Reencoded(a[i], b[i], t.fields[i].typ, count)
        case (Windows(n, es, a), Windows(m, fs, b)) =>
          n == m && es == fs && t.child.Some? && Reencoded(a, b, t.child.value, n)
        case (Groups(n, a), Groups(m, b)) => n == m && t.child.Some? && Reencoded(a, b, t.child.value, n * count)
        case _ => false)
  }

  /** Re-encoding anywhere inside keeps the shape and every value. */
  lemma {:induction false} ReencodingKeeps(v: Vec, w: Vec, t: LogicalType, count: nat)
    requires Shaped(v, t, count) && Reencoded(v, w, t, count)
    ensures Same(v, w, t, count)
    decreases v
  {
    if !Same(v, w, t, count) {
      match v
      case Constant(one) => ReencodingKeeps(one, w.one, t, 1);
      case Dictionary(_, size, dict) => ReencodingKeeps(dict, w.dict, t, size);
      case Sequence(_, _) =>
      case Flat(geo, mask, body) =>
        match body
        case Kids(kids) =>
          forall i | 0 <= i < |kids| ensures Same(kids[i], w.body.kids[i], t.fields[i].typ, count) {
            ReencodingKeeps(kids[i], w.body.kids[i], t.fields[i].typ, count);
          }
          KidsKeep(v, w, t, count);
        case Windows(size, _, child) => ReencodingKeeps(child, w.body.child, t.child.value, size);
        case Groups(size, child) => ReencodingKeeps(child, w.body.child, t.child.value, size * count);
        case _ =>
    }
  }

  lemma KidsKeep(v: Vec, w: Vec, t: LogicalType, count: nat)
    requires v.Flat? && w.Flat? && v.geo == w.geo && v.mask == w.mask && v.body.Kids? && w.body.Kids?
    requires Shaped(v, t, count) && |w.body.kids| == |v.body.kids| == |t.fields|
    requires forall i :: 0 <= i < |v.body.kids| ==> Same(v.body.kids[i], w.body.kids[i], t.fields[i].typ, count)
    ensures Same(v, w, t, count)
  {
    var a, b, h := v.body.kids, w.body.kids, FlatHead(v.geo.Some?, v.mask);
    assert BodyShaped(w.body, t, count, h);
    if BodyMeaning(v.body, t, count, h).Vals? {
      assert seq(|a|, i requires 0 <= i < |a| => Meaning(a[i], t.fields[i].typ, count).vals)
             == seq(|b|, i requires 0 <= i < |b| => Meaning(b[i], t.fields[i].typ, count).vals);
    }
  }

  /** So an encoding of some values stays one, and decodes to them. */
  lemma ReencodedDecodes(v: Vec, w: Vec, t: LogicalType, vals: seq<Value>, k: Bytes)
    requires Encodes(v, t, vals) && Reencoded(v, w, t, |vals|) && Depth(w) <= MAX_TYPE_DEPTH
    ensures Encodes(w, t, vals)
    ensures DecodeVector(Ok(VecBytes(w, EndMark() + k)), t, |vals|, 0) == (Ok(EndMark() + k), Vals(vals))
  {
    hide DecodeVector, VecBytes, Depth, Reencoded, Shaped, Meaning;
    ReencodingKeeps(v, w, t, |vals|);
    VecBack(w, t, |vals|, 0, k);
  }
}
