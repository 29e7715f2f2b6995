/** The wire format, byte by byte: every field id, tag and terminator the
    printers write, as numbers. Decoders are proved to read what the printers
    write; these equations say what that is. A varint's bytes are in Varints. */
module WireFormat {
  import opened Basics
  import opened Leb128
  import opened Framing
  import opened LogicalTypes
  import opened Vectors
  import opened Storage
  import opened VectorWire
  import opened Chunks

  // ---- pieces -----------------------------------------------------------------------------

  lemma Ids(id: nat)
    requires id < 256
    ensures FieldId(id) == [id, 0]
  {
  }

  lemma Glue(a: Bytes, b: Bytes, c: Bytes)
    ensures a + (b + c) == (a + b) + c
  {
  }

  /** Field ids are two bytes, low byte first; objects end with 0xFFFF; a
      string is its length and its bytes; truth is one byte. */
  lemma FramingBytes(low: Byte, high: Byte, b: Bytes)
    ensures low + 256 * high < P16 && FieldId(low + 256 * high) == [low, high]
    ensures EndMark() == [255, 255]
    ensures |b| < 128 ==> Prefixed(b) == [|b|] + b
    ensures BoolByte(true) == [1] && BoolByte(false) == [0]
  {
  }

  /** What the readers make of any two bytes, of any byte, of any length. */
  lemma ReadersExactly(a: Byte, b: Byte, id: nat, n: nat, k: Bytes)
    requires id < 65535 && n < P64
    ensures TryField(Ok([a, b] + k), id) == if a + 256 * b == id then (Ok(k), true) else (Ok([a, b] + k), false)
    ensures EndObject(Ok([a, b] + k)) == if a == 255 && b == 255 then Ok(k) else Failed(UnexpectedField(a + 256 * b))
    ensures Bool(Ok([a] + k)) == (Ok(k), a != 0)
    ensures Blob(Ok(UvEncode(n) + k)) == if n <= |k| then (Ok(k[n..]), k[..n]) else (Failed(Truncated), [])
    ensures ListCount(Ok(UvEncode(n) + k)) == if n <= |k| then (Ok(k), n) else (Failed(Truncated), 0)
  {
    assert ([a, b] + k)[2..] == k && ([a] + k)[1..] == k && ([a] + k)[..1] == [a];
    assert Bool(Ok([a] + k)) == (Ok(k), a != 0);
    UvarintBack(n, k);
    hide Uvarint, UvEncode, Bool;
  }

  lemma ReadersEnd()
    ensures EndObject(Ok([])) == Failed(Truncated) && Bool(Ok([])) == (Failed(Truncated), false)
    ensures Uvarint(Ok([])) == (Failed(Truncated), 0) && Svarint(Ok([])) == (Failed(Truncated), 0)
    ensures forall a: Byte :: EndObject(Ok([a])) == Failed(Truncated)
  {
  }

  // ---- vectors ---------------------------------------------------------------------------

  lemma ConstantBytes(one: Vec, k: Bytes)
    ensures VecBytes(Constant(one), k) == [90, 0, 2] + VecBytes(one, k)
  {
    Glue([90, 0], [2], VecBytes(one, k));
  }

  lemma DictionaryBytes(sel: seq<nat>, size: nat, dict: Vec, k: Bytes)
    ensures VecBytes(Dictionary(sel, size, dict), k)
            == [90, 0, 3, 91, 0] + (Prefixed(SelBytes(sel)) + ([92, 0] + (UvEncode(size) + VecBytes(dict, k))))
  {
    hide Prefixed;
    assert UvEncode(3) == [3];
  }

  lemma SequenceBytes(start: int, inc: int, k: Bytes)
    ensures VecBytes(Sequence(start, inc), k) == [90, 0, 4, 91, 0] + (SvEncode(start) + ([92, 0] + (SvEncode(inc) + k)))
  {
    hide SvEncode;
    assert UvEncode(4) == [4];
  }

  /** A selection's entries are four bytes each, low byte first. */
  lemma SelectionBytes(sel: seq<nat>)
    requires sel != []
    ensures SelBytes(sel) == LE(sel[0], 4) + SelBytes(sel[1..])
    ensures |LE(sel[0], 4)| == 4 && sel[0] < P32 ==> Word(LE(sel[0], 4)) == sel[0]
  {
    if sel[0] < P32 {
      assert Pow256(4) == P32;
      LERoundTrip(sel[0], 4);
      WordIs(LE(sel[0], 4));
    }
  }

  /** A flat vector: the geometry tag if any, whether there is a mask, the
      mask, the body. */
  lemma FlatBytes(geo: Option<nat>, mask: Option<Bytes>, body: Body, k: Bytes)
    ensures var head := if mask.Some? then [100, 0, 1, 101, 0] + (Prefixed(mask.value) + BodyBytes(body, k))
                        else [100, 0, 0] + BodyBytes(body, k);
            VecBytes(Flat(geo, mask, body), k) == if geo.Some? then [99, 0] + (UvEncode(geo.value) + head) else head
  {
    hide Prefixed, UvEncode, BodyBytes;
    if mask.Some? {
      assert [100, 0] + ([1] + ([101, 0] + (Prefixed(mask.value) + BodyBytes(body, k))))
             == [100, 0, 1, 101, 0] + (Prefixed(mask.value) + BodyBytes(body, k));
    } else {
      assert [100, 0] + ([0] + BodyBytes(body, k)) == [100, 0, 0] + BodyBytes(body, k);
    }
  }

  /** The five kinds of body. */
  lemma BodiesBytes(items: seq<Bytes>, kids: seq<Vec>, data: Bytes, k: Bytes)
    ensures BodyBytes(Texts(items), k) == [102, 0] + (UvEncode(|items|) + StringsBytes(items, k))
    ensures BodyBytes(Kids(kids), k) == [103, 0] + (UvEncode(|kids|) + KidsBytes(kids, k))
    ensures BodyBytes(Fixed(data), k) == [102, 0] + (Prefixed(data) + k)
  {
    assert FieldId(102) == [102, 0] && FieldId(103) == [103, 0];
    hide Prefixed, UvEncode, StringsBytes, KidsBytes, VecBytes, FieldId;
  }

  lemma GroupsBytes(size: nat, child: Vec, k: Bytes)
    ensures BodyBytes(Groups(size, child), k) == [103, 0] + (UvEncode(size) + ([104, 0] + VecBytes(child, [255, 255] + k)))
  {
    hide UvEncode, VecBytes;
  }

  lemma ListBytes(size: nat, es: seq<WindowEntry>, child: Vec, k: Bytes)
    ensures BodyBytes(Windows(size, es, child), k)
            == [104, 0] + (UvEncode(size) + ([105, 0] + (UvEncode(|es|)
                 + EntriesBytes(es, [106, 0] + VecBytes(child, [255, 255] + k)))))
  {
    hide UvEncode, EntriesBytes, VecBytes;
  }

  /** A list entry: its offset and its length, each left out at will. */
  lemma EntryBytes(es: seq<WindowEntry>, k: Bytes)
    requires es != []
    ensures var rest := [255, 255] + EntriesBytes(es[1..], k);
            var len := if es[0].len.Some? then [101, 0] + (UvEncode(es[0].len.value) + rest) else rest;
            EntriesBytes(es, k) == if es[0].off.Some? then [100, 0] + (UvEncode(es[0].off.value) + len) else len
  {
    hide UvEncode;
  }

  /** Children and strings one after the other. */
  lemma ListsBytes(kids: seq<Vec>, items: seq<Bytes>, k: Bytes)
    ensures KidsBytes([], k) == k && StringsBytes([], k) == k && EntriesBytes([], k) == k && SelBytes([]) == []
    ensures kids != [] ==> KidsBytes(kids, k) == VecBytes(kids[0], [255, 255] + KidsBytes(kids[1..], k))
    ensures items != [] ==> StringsBytes(items, k) == Prefixed(items[0]) + StringsBytes(items[1..], k)
  {
    hide VecBytes, Prefixed;
  }

  // ---- types ------------------------------------------------------------------------------

  /** A type without parameters is its id. */
  lemma PlainTypeBytes(id: nat, k: Bytes)
    requires id < 128 && id !in {21, 100, 101, 102, 104, 107, 108, 109}
    ensures WellFormed(Plain(id)) && TypeBytes(Plain(id), k) == [100, 0, id, 255, 255] + k
  {
    assert [100, 0] + ([id] + ([255, 255] + k)) == [100, 0, id, 255, 255] + k;
  }

  /** A parameterized type carries an info object, of one of five kinds. */
  lemma TypeWithInfoBytes(t: LogicalType, k: Bytes)
    requires WellFormed(t) && t.id in {21, 100, 101, 102, 104, 107, 108, 109}
    ensures HasInfo(t.id)
    ensures TypeBytes(t, k) == [100, 0, t.id, 101, 0, 1, 100, 0] + InfoBody(t, [255, 255, 255, 255] + k)
  {
    hide InfoBody;
    assert [255, 255] + ([255, 255] + k) == [255, 255, 255, 255] + k;
    var x := InfoBody(t, [255, 255, 255, 255] + k);
    assert [100, 0] + ([t.id] + ([101, 0] + ([1] + ([100, 0] + x)))) == [100, 0, t.id, 101, 0, 1, 100, 0] + x;
  }

  /** Decimals: kind 2, width and scale left out when zero. */
  lemma DecimalInfoBytes(t: LogicalType, k: Bytes)
    requires WellFormed(t) && t.id == 21 && t.width < 128 && t.scale < 128
    ensures var scale := if t.scale == 0 then k else [201, 0, t.scale] + k;
            InfoBody(t, k) == [2] + if t.width == 0 then scale else [200, 0, t.width] + scale
  {
    var scale := if t.scale == 0 then k else [201, 0, t.scale] + k;
    assert [201, 0] + ([t.scale as Byte] + k) == [201, 0, t.scale] + k;
    assert [200, 0] + ([t.width as Byte] + scale) == [200, 0, t.width] + scale;
  }

  /** Lists and maps: kind 4 and the child type. */
  lemma ListInfoBytes(t: LogicalType, k: Bytes)
    requires WellFormed(t) && t.id in {101, 102}
    ensures InfoBody(t, k) == [4, 200, 0] + TypeBytes(t.child.value, k)
  {
    hide TypeBytes;
    Glue([4], [200, 0], TypeBytes(t.child.value, k));
  }

  /** Structs, unions and variants: kind 5 and the fields. */
  lemma StructInfoBytes(t: LogicalType, k: Bytes)
    requires WellFormed(t) && t.id in {100, 107, 109}
    ensures InfoBody(t, k) == [5, 200, 0] + (UvEncode(|t.fields|) + FieldsBytes(t.fields, k))
  {
    hide FieldsBytes;
    assert UvEncode(5) == [5];
    hide UvEncode;
    Glue([5], [200, 0], UvEncode(|t.fields|) + FieldsBytes(t.fields, k));
  }

  /** A field: field 0 its name, field 1 its type. */
  lemma FieldBytes(fields: seq<StructField>, k: Bytes)
    requires fields != [] && forall f <- fields :: |f.name| < P64 && WellFormed(f.typ)
    ensures FieldsBytes([], k) == k
    ensures FieldsBytes(fields, k)
            == [0, 0] + (Prefixed(fields[0].name) + ([1, 0] + TypeBytes(fields[0].typ, [255, 255] + FieldsBytes(fields[1..], k))))
  {
    hide Prefixed, TypeBytes;
  }

  /** Enums: kind 6, how many labels, and the labels. */
  lemma EnumInfoBytes(t: LogicalType, k: Bytes)
    requires WellFormed(t) && t.id == 104
    ensures var n := UvEncode(|t.labels|);
            InfoBody(t, k) == [6, 200, 0] + (n + ([201, 0] + (n + StringsBytes(t.labels, k))))
  {
    hide StringsBytes;
    assert UvEncode(6) == [6];
    hide UvEncode;
    var n := UvEncode(|t.labels|);
    Glue([6], [200, 0], n + ([201, 0] + (n + StringsBytes(t.labels, k))));
  }

  /** Arrays: kind 9, the child type, and the size when not zero. */
  lemma ArrayInfoBytes(t: LogicalType, k: Bytes)
    requires WellFormed(t) && t.id == 108
    ensures var size := if t.arraySize == 0 then k else [201, 0] + (UvEncode(t.arraySize) + k);
            InfoBody(t, k) == [9, 200, 0] + TypeBytes(t.child.value, size)
  {
    hide TypeBytes;
    assert UvEncode(9) == [9];
    hide UvEncode;
    Glue([9], [200, 0], TypeBytes(t.child.value, OptionalUv(201, t.arraySize, k)));
  }

  // ---- chunks and bodies ----------------------------------------------------------------------

  /** A chunk: its row count, its types, its columns. */
  lemma ChunksBytes(c: ChunkWire, k: Bytes)
    requires WellFormedColumns(c.cols)
    ensures ChunkBytes(c, k)
            == [100, 0] + (UvEncode(c.rows) + ([101, 0] + (UvEncode(|c.cols|)
                 + TypesBytes(ColumnTypes(c.cols), [102, 0] + (UvEncode(|c.cols|) + ColumnsBytes(c.cols, [255, 255] + k))))))
    ensures c.cols != [] ==>
              ColumnsBytes(c.cols, k) == VecBytes(c.cols[0].vec, [255, 255] + ColumnsBytes(c.cols[1..], k))
    ensures ColumnsBytes([], k) == k
  {
    hide UvEncode, TypesBytes, VecBytes;
  }

  lemma TypeListBytes(types: seq<LogicalType>, k: Bytes)
    requires types != [] && forall t <- types :: WellFormed(t)
    ensures TypesBytes([], k) == k
    ensures TypesBytes(types, k) == TypeBytes(types[0], TypesBytes(types[1..], k))
  {
    hide TypeBytes;
  }

  /** A chunk list: a present chunk stands in field 300 of a wrapper object. */
  lemma ChunkListEntryBytes(chunks: seq<Option<ChunkWire>>, k: Bytes)
    requires chunks != [] && Printable(chunks)
    ensures EntriesOfChunks([], k) == k
    ensures var rest := EntriesOfChunks(chunks[1..], k);
            EntriesOfChunks(chunks, k)
            == if chunks[0].None? then [0] + rest else [1, 44, 1] + ChunkBytes(chunks[0].value, [255, 255] + rest)
    ensures ChunkListBytes(chunks, k) == UvEncode(|chunks|) + EntriesOfChunks(chunks, k)
  {
    hide ChunkBytes, UvEncode;
    if chunks[0].Some? {
      var x := ChunkBytes(chunks[0].value, [255, 255] + EntriesOfChunks(chunks[1..], k));
      assert [1] + ([44, 1] + x) == [1, 44, 1] + x;
    }
  }

  /** The fetch body: no chunk field when empty. */
  lemma FetchBodyBytes(chunks: seq<Option<ChunkWire>>, batchIndex: nat)
    requires Printable(chunks)
    ensures var tail := [2, 0] + (UvEncode(batchIndex) + [255, 255]);
            FetchBytes(chunks, batchIndex) == if chunks == [] then tail else [1, 0] + ChunkListBytes(chunks, tail)
  {
    hide UvEncode, ChunkListBytes;
    assert [255, 255] + [] == [255, 255];
  }

  /** The prepare body: types, names, whether there is more, chunks, uuid;
      defaults are left out. */
  lemma PrepareBodyBytes(defs: seq<ColumnDef>, inline: seq<Option<ChunkWire>>, needsMore: bool, uuid: Hugeint)
    requires DefsWellFormed(defs) && Printable(inline)
    ensures var tail := [5, 0] + (SvEncode(uuid.upper) + (UvEncode(uuid.lower) + [255, 255]));
            var chunks := if inline == [] then tail else [4, 0] + ChunkListBytes(inline, tail);
            var more := if needsMore then [3, 0, 1] + chunks else chunks;
            PrepareBytes(defs, inline, needsMore, uuid)
            == if defs == [] then more
               else
                 [1, 0] + (UvEncode(|defs|) + TypesBytes(DefTypes(defs), [2, 0] + (UvEncode(|defs|) + StringsBytes(DefNames(defs), more))))
  {
    Ids(1);
    Ids(2);
    Ids(3);
    Ids(4);
    Ids(5);
    assert EndMark() == [255, 255] && BoolByte(true) == [1];
    hide UvEncode, SvEncode, ChunkListBytes, TypesBytes, StringsBytes, FieldId, BoolByte;
    assert EndMark() + [] == [255, 255];
    var tail := [5, 0] + (SvEncode(uuid.upper) + (UvEncode(uuid.lower) + [255, 255]));
    var chunks := if inline == [] then tail else [4, 0] + ChunkListBytes(inline, tail);
    Glue([3, 0], [1], chunks);
    assert [3, 0] + [1] == [3, 0, 1];
  }
}
