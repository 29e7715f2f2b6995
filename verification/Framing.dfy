/** BinarySerializer framing as functions on the unread input. A reader that
    failed stays failed with its first error, so its position no longer
    matters and is not part of its state. */
module Framing {
  import opened Basics
  import opened Leb128

  datatype ReadError = Truncated | Overflow | UnexpectedField(id: nat)

  datatype Rd = Ok(rest: Bytes) | Failed(error: ReadError)

  const END_ID: nat := 0xFFFF
  const IDX_ABSENT: nat := 0xFFFF_FFFF_FFFF_FFFF

  datatype Hugeint = Hugeint(upper: int, lower: nat)

  predicate ValidHugeint(h: Hugeint)
  {
    IsSigned(h.upper, P64) && h.lower < P64
  }

  // ---- writing -----------------------------------------------------------

  function FieldId(id: nat): (s: Bytes)
    requires id < P16
    ensures |s| == 2
  {
    [id % 256, id / 256]
  }

  function EndMark(): Bytes { FieldId(END_ID) }

  function BoolByte(b: bool): Bytes { if b then [1] else [0] }

  function Prefixed(b: Bytes): (s: Bytes)
    ensures |s| > |b|
  {
    UvEncode(|b|) + b
  }

  function HugeintBytes(h: Hugeint): Bytes
  {
    SvEncode(h.upper) + UvEncode(h.lower)
  }

  // ---- reading -----------------------------------------------------------

  function PeekId(r: Rd): (res: (Rd, nat))
    ensures r.Failed? ==> res == (r, END_ID)
  {
    if r.Failed? then (r, END_ID)
    else if |r.rest| < 2 then (Failed(Truncated), END_ID)
    else (r, r.rest[0] as int + 256 * r.rest[1] as int)
  }

  function TryField(r: Rd, id: nat): (res: (Rd, bool))
    ensures r.Failed? ==> res == (r, false)
  {
    var (r', got) := PeekId(r);
    if got != id || r'.Failed? then (r', false) else (Ok(r'.rest[2..]), true)
  }

  function EndObject(r: Rd): (r': Rd)
    ensures r.Failed? ==> r' == r
  {
    var (p, id) := PeekId(r);
    if p.Failed? then p
    else if id != END_ID then Failed(UnexpectedField(id))
    else Ok(p.rest[2..])
  }

  function Take(r: Rd, n: int): (res: (Rd, Bytes))
    ensures r.Failed? ==> res == (r, [])
    ensures res.0.Ok? ==> |res.1| == n
  {
    if r.Failed? then (r, [])
    else if n < 0 || |r.rest| < n then (Failed(Truncated), [])
    else (Ok(r.rest[n..]), r.rest[..n])
  }

  function Advance(r: Rd, d: VarResult): (res: (Rd, int))
    requires r.Ok? && d.VarOk? ==> d.used <= |r.rest|
  {
    if r.Failed? then (r, 0)
    else match d
         case VarOk(v, n) => (Ok(r.rest[n..]), v)
         case VarTruncated => (Failed(Truncated), 0)
         case VarOverflow => (Failed(Overflow), 0)
  }

  function Uvarint(r: Rd): (res: (Rd, nat))
    ensures r.Failed? ==> res == (r, 0)
    ensures res.1 < P64
  {
    if r.Failed? then (r, 0)
    else
      var d := UvDecode(r.rest, 0);
      if d.VarOk? then UvBound(r.rest); Advance(r, d) else Advance(r, d)
  }

  function Svarint(r: Rd): (res: (Rd, int))
    ensures r.Failed? ==> res == (r, 0)
    ensures IsSigned(res.1, P64)
  {
    if r.Failed? then (r, 0)
    else
      var d := SvDecode(r.rest, 0);
      if d.VarOk? then SvBound(r.rest); Advance(r, d) else Advance(r, d)
  }

  function Bool(r: Rd): (res: (Rd, bool))
    ensures r.Failed? ==> res == (r, false)
  {
    var (r', b) := Take(r, 1);
    (r', |b| == 1 && b[0] != 0)
  }

  /** Reader.Bytes: a length prefix and that many bytes. */
  function Blob(r: Rd): (res: (Rd, Bytes))
    ensures r.Failed? ==> res == (r, [])
  {
    var (r1, n) := Uvarint(r);
    if r1.Failed? then (r1, [])
    else if n > |r1.rest| then (Failed(Truncated), [])
    else Take(r1, n)
  }

  function ListCount(r: Rd): (res: (Rd, nat))
    ensures r.Failed? ==> res == (r, 0)
    ensures res.0.Ok? ==> res.1 <= |res.0.rest|
  {
    var (r1, n) := Uvarint(r);
    if r1.Failed? then (r1, 0)
    else if n > |r1.rest| then (Failed(Truncated), 0)
    else (r1, n)
  }

  function ReadHugeint(r: Rd): (res: (Rd, Hugeint))
    ensures r.Failed? ==> res.0 == r
  {
    var (r1, u) := Svarint(r);
    var (r2, l) := Uvarint(r1);
    (r2, Hugeint(u, l))
  }

  // ---- reading back what was written --------------------------------------

  lemma FieldBack(id: nat, j: nat, k: Bytes)
    requires id < P16 && j < END_ID
    ensures TryField(Ok(FieldId(id) + k), j) == if id == j then (Ok(k), true) else (Ok(FieldId(id) + k), false)
  {
    var s := FieldId(id) + k;
    assert s[..2] == FieldId(id) && s[2..] == k;
    assert s[0] == id % 256 && s[1] == id / 256;
  }

  lemma EndBack(k: Bytes)
    ensures EndObject(Ok(EndMark() + k)) == Ok(k)
  {
    var s := EndMark() + k;
    assert s[0] == 255 && s[1] == 255 && s[2..] == k;
  }

  lemma UvarintBack(v: nat, k: Bytes)
    requires v < P64
    ensures Uvarint(Ok(UvEncode(v) + k)) == (Ok(k), v)
  {
    UvRoundTrip(v, k);
    assert (UvEncode(v) + k)[|UvEncode(v)|..] == k;
  }

  lemma SvarintBack(v: int, k: Bytes)
    requires IsSigned(v, P64)
    ensures Svarint(Ok(SvEncode(v) + k)) == (Ok(k), v)
  {
    SvRoundTrip(v, k);
    assert (SvEncode(v) + k)[|SvEncode(v)|..] == k;
  }

  lemma BoolBack(b: bool, k: Bytes)
    ensures Bool(Ok(BoolByte(b) + k)) == (Ok(k), b)
  {
    var s := BoolByte(b) + k;
    assert s[..1] == BoolByte(b) && s[1..] == k;
  }

  lemma BlobBack(b: Bytes, k: Bytes)
    requires |b| < P64
    ensures Blob(Ok(Prefixed(b) + k)) == (Ok(k), b)
  {
    assert Prefixed(b) + k == UvEncode(|b|) + (b + k);
    UvarintBack(|b|, b + k);
    assert (b + k)[..|b|] == b && (b + k)[|b|..] == k;
  }

  lemma ListCountBack(n: nat, k: Bytes)
    requires n < P64 && n <= |k|
    ensures ListCount(Ok(UvEncode(n) + k)) == (Ok(k), n)
  {
    UvarintBack(n, k);
  }

  /** Hugeints, result uuids among them, survive for every 128-bit pair. */
  lemma HugeintBack(h: Hugeint, k: Bytes)
    requires ValidHugeint(h)
    ensures ReadHugeint(Ok(HugeintBytes(h) + k)) == (Ok(k), h)
  {
    assert HugeintBytes(h) + k == SvEncode(h.upper) + (UvEncode(h.lower) + k);
    SvarintBack(h.upper, UvEncode(h.lower) + k);
    UvarintBack(h.lower, k);
  }

  /** Everything above at once, for proofs that read a whole object back. */
  lemma ReadBack()
    ensures forall id: nat, j: nat, k: Bytes {:trigger TryField(Ok(FieldId(id) + k), j)} ::
              id < P16 && j < END_ID ==>
                TryField(Ok(FieldId(id) + k), j) == if id == j then (Ok(k), true) else (Ok(FieldId(id) + k), false)
    ensures forall k: Bytes {:trigger EndObject(Ok(EndMark() + k))} :: EndObject(Ok(EndMark() + k)) == Ok(k)
    ensures forall v: nat, k: Bytes {:trigger Uvarint(Ok(UvEncode(v) + k))} ::
              v < P64 ==> Uvarint(Ok(UvEncode(v) + k)) == (Ok(k), v)
    ensures forall v: int, k: Bytes {:trigger Svarint(Ok(SvEncode(v) + k))} ::
              IsSigned(v, P64) ==> Svarint(Ok(SvEncode(v) + k)) == (Ok(k), v)
    ensures forall b: bool, k: Bytes {:trigger Bool(Ok(BoolByte(b) + k))} :: Bool(Ok(BoolByte(b) + k)) == (Ok(k), b)
    ensures forall b: Bytes, k: Bytes {:trigger Blob(Ok(Prefixed(b) + k))} ::
              |b| < P64 ==> Blob(Ok(Prefixed(b) + k)) == (Ok(k), b)
    ensures forall n: nat, k: Bytes {:trigger ListCount(Ok(UvEncode(n) + k))} ::
              n < P64 && n <= |k| ==> ListCount(Ok(UvEncode(n) + k)) == (Ok(k), n)
  {
    forall id: nat, j: nat, k: Bytes | id < P16 && j < END_ID
      ensures TryField(Ok(FieldId(id) + k), j) == if id == j then (Ok(k), true) else (Ok(FieldId(id) + k), false)
    {
      FieldBack(id, j, k);
    }
    forall k: Bytes ensures EndObject(Ok(EndMark() + k)) == Ok(k) { EndBack(k); }
    forall v: nat, k: Bytes | v < P64 ensures Uvarint(Ok(UvEncode(v) + k)) == (Ok(k), v) { UvarintBack(v, k); }
    forall v: int, k: Bytes | IsSigned(v, P64) ensures Svarint(Ok(SvEncode(v) + k)) == (Ok(k), v) { SvarintBack(v, k); }
    forall b: bool, k: Bytes ensures Bool(Ok(BoolByte(b) + k)) == (Ok(k), b) { BoolBack(b, k); }
    forall b: Bytes, k: Bytes | |b| < P64 ensures Blob(Ok(Prefixed(b) + k)) == (Ok(k), b) { BlobBack(b, k); }
    forall n: nat, k: Bytes | n < P64 && n <= |k| ensures ListCount(Ok(UvEncode(n) + k)) == (Ok(k), n) { ListCountBack(n, k); }
  }

  // ---- reading with more input behind -------------------------------------

  /** The same reader with `x` appended to its input. */
  function Extend(r: Rd, x: Bytes): (r': Rd)
    ensures r'.Ok? <==> r.Ok?
  {
    if r.Ok? then Ok(r.rest + x) else r
  }

  lemma TryFieldExtends(r: Rd, id: nat, x: Bytes)
    requires TryField(r, id).0.Ok?
    ensures TryField(Extend(r, x), id) == (Extend(TryField(r, id).0, x), TryField(r, id).1)
  {
    assert (r.rest + x)[2..] == r.rest[2..] + x;
  }

  lemma EndExtends(r: Rd, x: Bytes)
    requires EndObject(r).Ok?
    ensures EndObject(Extend(r, x)) == Extend(EndObject(r), x)
  {
    assert (r.rest + x)[2..] == r.rest[2..] + x;
  }

  lemma TakeExtends(r: Rd, n: int, x: Bytes)
    requires Take(r, n).0.Ok?
    ensures Take(Extend(r, x), n) == (Extend(Take(r, n).0, x), Take(r, n).1)
  {
    assert (r.rest + x)[n..] == r.rest[n..] + x && (r.rest + x)[..n] == r.rest[..n];
  }

  lemma UvarintExtends(r: Rd, x: Bytes)
    requires Uvarint(r).0.Ok?
    ensures Uvarint(Extend(r, x)) == (Extend(Uvarint(r).0, x), Uvarint(r).1)
  {
    UvExtend(r.rest, 0, x);
    var n := UvDecode(r.rest, 0).used;
    assert (r.rest + x)[n..] == r.rest[n..] + x;
  }

  lemma SvarintExtends(r: Rd, x: Bytes)
    requires Svarint(r).0.Ok?
    ensures Svarint(Extend(r, x)) == (Extend(Svarint(r).0, x), Svarint(r).1)
  {
    SvExtend(r.rest, 0, x);
    var n := SvDecode(r.rest, 0).used;
    assert (r.rest + x)[n..] == r.rest[n..] + x;
  }

  lemma BoolExtends(r: Rd, x: Bytes)
    requires Bool(r).0.Ok?
    ensures Bool(Extend(r, x)) == (Extend(Bool(r).0, x), Bool(r).1)
  {
    TakeExtends(r, 1, x);
  }

  lemma BlobExtends(r: Rd, x: Bytes)
    requires Blob(r).0.Ok?
    ensures Blob(Extend(r, x)) == (Extend(Blob(r).0, x), Blob(r).1)
  {
    UvarintExtends(r, x);
    TakeExtends(Uvarint(r).0, Uvarint(r).1, x);
  }

  lemma ListCountExtends(r: Rd, x: Bytes)
    requires ListCount(r).0.Ok?
    ensures ListCount(Extend(r, x)) == (Extend(ListCount(r).0, x), ListCount(r).1)
  {
    UvarintExtends(r, x);
  }

  /** A read that succeeds is not changed by more input behind it. */
  lemma ReadsExtend(x: Bytes)
    ensures forall r: Rd, id: nat {:trigger TryField(Extend(r, x), id)} ::
              TryField(r, id).0.Ok? ==> TryField(Extend(r, x), id) == (Extend(TryField(r, id).0, x), TryField(r, id).1)
    ensures forall r: Rd {:trigger EndObject(Extend(r, x))} ::
              EndObject(r).Ok? ==> EndObject(Extend(r, x)) == Extend(EndObject(r), x)
    ensures forall r: Rd {:trigger Uvarint(Extend(r, x))} ::
              Uvarint(r).0.Ok? ==> Uvarint(Extend(r, x)) == (Extend(Uvarint(r).0, x), Uvarint(r).1)
    ensures forall r: Rd {:trigger Svarint(Extend(r, x))} ::
              Svarint(r).0.Ok? ==> Svarint(Extend(r, x)) == (Extend(Svarint(r).0, x), Svarint(r).1)
    ensures forall r: Rd {:trigger Bool(Extend(r, x))} ::
              Bool(r).0.Ok? ==> Bool(Extend(r, x)) == (Extend(Bool(r).0, x), Bool(r).1)
    ensures forall r: Rd {:trigger Blob(Extend(r, x))} ::
              Blob(r).0.Ok? ==> Blob(Extend(r, x)) == (Extend(Blob(r).0, x), Blob(r).1)
    ensures forall r: Rd {:trigger ListCount(Extend(r, x))} ::
              ListCount(r).0.Ok? ==> ListCount(Extend(r, x)) == (Extend(ListCount(r).0, x), ListCount(r).1)
  {
    forall r: Rd, id: nat | TryField(r, id).0.Ok?
      ensures TryField(Extend(r, x), id) == (Extend(TryField(r, id).0, x), TryField(r, id).1)
    {
      TryFieldExtends(r, id, x);
    }
    forall r: Rd | EndObject(r).Ok? ensures EndObject(Extend(r, x)) == Extend(EndObject(r), x) { EndExtends(r, x); }
    forall r: Rd | Uvarint(r).0.Ok?
      ensures Uvarint(Extend(r, x)) == (Extend(Uvarint(r).0, x), Uvarint(r).1)
    {
      UvarintExtends(r, x);
    }
    forall r: Rd | Svarint(r).0.Ok?
      ensures Svarint(Extend(r, x)) == (Extend(Svarint(r).0, x), Svarint(r).1)
    {
      SvarintExtends(r, x);
    }
    forall r: Rd | Bool(r).0.Ok?
      ensures Bool(Extend(r, x)) == (Extend(Bool(r).0, x), Bool(r).1)
    {
      BoolExtends(r, x);
    }
    forall r: Rd | Blob(r).0.Ok?
      ensures Blob(Extend(r, x)) == (Extend(Blob(r).0, x), Blob(r).1)
    {
      BlobExtends(r, x);
    }
    forall r: Rd | ListCount(r).0.Ok?
      ensures ListCount(Extend(r, x)) == (Extend(ListCount(r).0, x), ListCount(r).1)
    {
      ListCountExtends(r, x);
    }
  }
}
