/** A table from the server's splitting to the driver's rows: across the wire,
    through any interleaving of the fetch workers, each row exactly once. */
module EndToEnd {
  import opened Basics
  import opened Framing
  import opened LogicalTypes
  import opened Values
  import opened Vectors
  import opened FlatEncoding
  import opened Chunks
  import opened ChunkBack
  import opened RoundTrip
  import opened DecodedTyped
  import opened Json
  import opened Rows
  import S = Stream
  import Q = StreamSafety
  import R = StreamRuns

  // ---- AddResult --------------------------------------------------------------------

  /** All columns as long as the first. */
  predicate Rectangular(cols: seq<Col>)
  {
    forall i :: 0 <= i < |cols| ==> |cols[i].vals| == RowCount(cols)
  }

  function Part(cols: seq<Col>, at: nat, end: nat): (part: seq<Col>)
    requires Rectangular(cols) && at <= end <= RowCount(cols)
    ensures |part| == |cols|
  {
    seq(|cols|, i requires 0 <= i < |cols| => Col(cols[i].name, cols[i].typ, cols[i].vals[at..end]))
  }

  function Min(a: nat, b: nat): nat { if a < b then a else b }

  /** Chunks of `size` rows from row `at` on. */
  function Split(cols: seq<Col>, size: nat, at: nat): seq<seq<Col>>
    requires Rectangular(cols) && size > 0
    decreases RowCount(cols) - at
  {
    if at >= RowCount(cols) then []
    else [Part(cols, at, Min(at + size, RowCount(cols)))] + Split(cols, size, at + size)
  }

  /** Batches of `per` chunks. */
  function Grouped(chunks: seq<seq<Col>>, per: nat): seq<seq<seq<Col>>>
    requires per > 0
    decreases |chunks|
  {
    if chunks == [] then []
    else
      var n := Min(per, |chunks|);
      [chunks[..n]] + Grouped(chunks[n..], per)
  }

  /** AddResult's first loop */
  method SplitLoop(cols: seq<Col>, chunkRows: nat) returns (chunks: seq<seq<Col>>)
    requires Rectangular(cols) && chunkRows > 0
    ensures chunks == Split(cols, chunkRows, 0)
  {
    hide Part;
    var rows := if |cols| > 0 then |cols[0].vals| else 0;
    chunks := [];
    var at := 0;
    ghost var all := Split(cols, chunkRows, 0);
    assert [] + all == all;
    while at < rows
      invariant chunks + Split(cols, chunkRows, at) == all
      decreases rows - at
    {
      var part := Part(cols, at, Min(at + chunkRows, rows));
      ghost var rest := Split(cols, chunkRows, at + chunkRows);
      assert (chunks + [part]) + rest == chunks + ([part] + rest);
      chunks := chunks + [part];
      at := at + chunkRows;
    }
    assert chunks + [] == chunks;
  }

  /** ... and its second */
  method GroupLoop(chunks: seq<seq<Col>>, per: nat) returns (batches: seq<seq<seq<Col>>>)
    requires per > 0
    ensures batches == Grouped(chunks, per)
  {
    batches := [];
    var at := 0;
    ghost var all := Grouped(chunks, per);
    assert chunks[0..] == chunks && [] + all == all;
    while at < |chunks|
      invariant batches + Grouped(chunks[Min(at, |chunks|)..], per) == all
      decreases |chunks| - at
    {
      var end := Min(at + per, |chunks|);
      ghost var left, rest := chunks[at..], Grouped(chunks[end..], per);
      assert left[..end - at] == chunks[at..end] && left[end - at..] == chunks[end..];
      assert Grouped(left, per) == [chunks[at..end]] + rest;
      assert (batches + [chunks[at..end]]) + rest == batches + ([chunks[at..end]] + rest);
      batches := batches + [chunks[at..end]];
      at := at + per;
    }
    assert chunks[|chunks|..] == [] && batches + [] == batches;
  }

  /** AddResult */
  method SplitResult(cols: seq<Col>, chunkRows: nat, per: nat) returns (batches: seq<seq<seq<Col>>>)
    requires Rectangular(cols) && chunkRows > 0 && per > 0
    ensures batches == Grouped(Split(cols, chunkRows, 0), per)
  {
    var chunks := SplitLoop(cols, chunkRows);
    batches := GroupLoop(chunks, per);
  }

  /** Chunk `i` of a split holds the next `size` rows of every column, or what
      is left of them; and nothing is left behind the last. */
  lemma {:induction false} SplitAt(cols: seq<Col>, size: nat, at: nat, i: nat)
    requires Rectangular(cols) && size > 0 && i < |Split(cols, size, at)|
    ensures at + i * size < RowCount(cols)
    ensures Split(cols, size, at)[i] == Part(cols, at + i * size, Min(at + i * size + size, RowCount(cols)))
    ensures i == |Split(cols, size, at)| - 1 ==> at + i * size + size >= RowCount(cols)
    decreases i
  {
    hide Part;
    if i > 0 {
      SplitAt(cols, size, at + size, i - 1);
      assert size + (i - 1) * size == i * size;
    }
  }

  /** Batch `i` holds the next `per` chunks, or what is left of them. */
  lemma {:induction false} GroupedAt(chunks: seq<seq<Col>>, per: nat, i: nat)
    requires per > 0 && i < |Grouped(chunks, per)|
    ensures 0 <= i * per < |chunks| && Grouped(chunks, per)[i] == chunks[i * per..Min(i * per + per, |chunks|)]
    ensures i == |Grouped(chunks, per)| - 1 ==> i * per + per >= |chunks|
    decreases i
  {
    if i > 0 {
      var n := Min(per, |chunks|);
      var rest := chunks[n..];
      GroupedAt(rest, per, i - 1);
      assert per + (i - 1) * per == i * per;
      var from, to := (i - 1) * per, Min((i - 1) * per + per, |rest|);
      assert rest[from..to] == chunks[n + from..n + to];
    }
  }

  // ---- the server's replies ---------------------------------------------------------------

  /** What handlePrepare and handleFetch send, as the client decodes it. */
  function Served(batches: seq<seq<seq<Col>>>, workers: nat): S.Setup
  {
    S.Setup(workers,
            if batches == [] then [] else AllDecoded(batches[0]),
            |batches| > 1,
            if batches == [] then [] else seq(|batches| - 1, i requires 0 <= i < |batches| - 1 => Wrapped(AllDecoded(batches[i + 1]))))
  }

  /** Chunks that are all present in the reply. */
  function Wrapped(chunks: seq<Chunk>): seq<Option<Chunk>>
  {
    seq(|chunks|, i requires 0 <= i < |chunks| => Some(chunks[i]))
  }

  lemma {:induction false} WrappedPresent(chunks: seq<Chunk>)
    ensures S.Present(Wrapped(chunks)) == chunks
    decreases |chunks|
  {
    if chunks != [] {
      WrappedPresent(chunks[1..]);
      assert Wrapped(chunks)[1..] == Wrapped(chunks[1..]);
      assert chunks == [chunks[0]] + chunks[1..];
    }
  }

  lemma {:induction false} GroupsFilled(chunks: seq<seq<Col>>, per: nat)
    requires per > 0
    ensures forall b <- Grouped(chunks, per) :: b != []
    decreases |chunks|
  {
    if chunks != [] {
      GroupsFilled(chunks[Min(per, |chunks|)..], per);
    }
  }

  lemma {:induction false} FilledIsOrdered(q: seq<seq<Option<Chunk>>>)
    requires forall b <- q :: S.Present(b) != []
    ensures Q.NullsLast(q)
    decreases |q|
  {
    hide S.Present;
    if q != [] {
      assert forall b <- q[1..] :: b in q;
      FilledIsOrdered(q[1..]);
    }
  }

  /** The fake server tells the truth about its results. */
  lemma ServedIsWhole(chunks: seq<seq<Col>>, per: nat, workers: nat)
    requires per > 0
    ensures R.Whole(Served(Grouped(chunks, per), workers))
  {
    hide S.Present, Grouped;
    var batches := Grouped(chunks, per);
    var c := Served(batches, workers);
    GroupsFilled(chunks, per);
    forall i | 0 <= i < |c.batches| ensures S.Present(c.batches[i]) != [] {
      WrappedPresent(AllDecoded(batches[i + 1]));
      assert batches[i + 1] in batches;
    }
    FilledIsOrdered(c.batches);
  }

  /** What handlePrepare sends inline: the first batch, if there is one. */
  function FirstTables(batches: seq<seq<seq<Col>>>): seq<seq<Col>> { if batches == [] then [] else batches[0] }

  /** The prepare body carries the first batch, and whether there are more. */
  lemma PrepareArrives(defs: seq<ColumnDef>, batches: seq<seq<seq<Col>>>, workers: nat, uuid: Hugeint)
    requires DefsWellFormed(defs) && |defs| < P64 && ValidHugeint(uuid)
    requires forall j :: 0 <= j < |defs| ==> Height(defs[j].typ) <= MAX_TYPE_DEPTH
    requires AllEncodable(FirstTables(batches))
    ensures Printable(WiresOf(FirstTables(batches)))
    ensures var c := Served(batches, workers);
            var prepared := DecodePrepare(PrepareBytes(defs, WiresOf(FirstTables(batches)), |batches| > 1, uuid));
            && prepared.Success? && prepared.value.chunks == c.inline && prepared.value.needsMore == c.needsMore
            && prepared.value.uuid == uuid && SchemaIs(prepared.value.schema, defs)
  {
    hide DecodePrepare, PrepareBytes, Encodable;
    PrepareRoundTrip(defs, FirstTables(batches), |batches| > 1, uuid);
    assert AllDecoded([]) == [];
  }

  /** Each fetch body carries one of the other batches, whole. */
  lemma FetchArrives(batches: seq<seq<seq<Col>>>, workers: nat, i: nat)
    requires 0 < i < |batches| < P64 && AllEncodable(batches[i])
    ensures Printable(WiresOf(batches[i]))
    ensures var fetched := DecodeFetch(FetchBytes(WiresOf(batches[i]), i));
            fetched.Success? && fetched.value.chunks == S.Present(Served(batches, workers).batches[i - 1])
  {
    hide DecodeFetch, FetchBytes, S.Present, Encodable;
    FetchRoundTrip(batches[i], i);
    WrappedPresent(AllDecoded(batches[i]));
  }

  /** The reply behind the last batch decodes to no chunks, the stream's
      drained reply. */
  lemma DrainedArrives()
    ensures Printable(WiresOf([]))
    ensures var fetched := DecodeFetch(FetchBytes(WiresOf([]), IDX_ABSENT));
            fetched.Success? && fetched.value.chunks == S.Present([])
  {
    hide DecodeFetch, FetchBytes;
    FetchRoundTrip([], IDX_ABSENT);
    assert AllDecoded([]) == [];
  }

  // ---- rows ------------------------------------------------------------------------------

  /** The rows of some chunks, one chunk after the other. */
  function AllRows(lib: Library, width: nat, chunks: seq<Chunk>): seq<Fetched>
  {
    if chunks == [] then [] else AllRows(lib, width, chunks[..|chunks| - 1]) + ChunkRows(lib, width, chunks[|chunks| - 1])
  }

  function Pulls(chunks: seq<Chunk>): seq<Pull>
  {
    seq(|chunks|, i requires 0 <= i < |chunks| => Got(chunks[i]))
  }

  lemma {:induction false} PulledRows(lib: Library, width: nat, chunks: seq<Chunk>)
    ensures ToCome(lib, width, Pulls(chunks)) == AllRows(lib, width, chunks)
    decreases |chunks|
  {
    hide ChunkRows;
    if chunks != [] {
      var n := |chunks| - 1;
      PulledRows(lib, width, chunks[..n]);
      assert Pulls(chunks) == Pulls(chunks[..n]) + [Got(chunks[n])];
      ToComeAppend(lib, width, Pulls(chunks[..n]), [Got(chunks[n])]);
      assert ToCome(lib, width, [Got(chunks[n])]) == ChunkRows(lib, width, chunks[n]) by {
        assert [Got(chunks[n])][1..] == [];
        assert ChunkRows(lib, width, chunks[n]) + [] == ChunkRows(lib, width, chunks[n]);
      }
    }
  }

  lemma {:induction false} AllRowsAppend(lib: Library, width: nat, a: seq<Chunk>, b: seq<Chunk>)
    ensures AllRows(lib, width, a + b) == AllRows(lib, width, a) + AllRows(lib, width, b)
    decreases |b|
  {
    hide ChunkRows;
    if b == [] {
      assert a + b == a && AllRows(lib, width, a) + [] == AllRows(lib, width, a);
    } else {
      var n := |b| - 1;
      AllRowsAppend(lib, width, a, b[..n]);
      assert (a + b)[..|a + b| - 1] == a + b[..n];
      assert (AllRows(lib, width, a) + AllRows(lib, width, b[..n])) + ChunkRows(lib, width, b[n])
             == AllRows(lib, width, a) + (AllRows(lib, width, b[..n]) + ChunkRows(lib, width, b[n]));
    }
  }

  /** How many rows of the batches are `f`. */
  function RowTally(lib: Library, width: nat, batches: seq<seq<Chunk>>, f: Fetched): nat
  {
    if batches == [] then 0 else multiset(AllRows(lib, width, batches[0]))[f] + RowTally(lib, width, batches[1..], f)
  }

  lemma {:induction false} TallyAppend(lib: Library, width: nat, a: seq<seq<Chunk>>, b: seq<seq<Chunk>>, f: Fetched)
    ensures RowTally(lib, width, a + b, f) == RowTally(lib, width, a, f) + RowTally(lib, width, b, f)
    decreases |a|
  {
    hide AllRows;
    if a != [] {
      TallyAppend(lib, width, a[1..], b, f);
      assert (a + b)[1..] == a[1..] + b;
    } else {
      assert a + b == b;
    }
  }

  lemma OneLess(xs: seq<seq<Chunk>>, j: nat)
    requires j < |xs|
    ensures multiset(xs[..j] + xs[j + 1..]) == multiset(xs) - multiset{xs[j]}
  {
    assert xs == xs[..j] + [xs[j]] + xs[j + 1..];
  }

  lemma TallyCons(lib: Library, width: nat, x: seq<Chunk>, xs: seq<seq<Chunk>>, f: Fetched)
    ensures RowTally(lib, width, [x] + xs, f) == multiset(AllRows(lib, width, x))[f] + RowTally(lib, width, xs, f)
  {
    hide AllRows;
    assert ([x] + xs)[1..] == xs;
  }

  lemma Inhabited(xs: seq<seq<Chunk>>)
    ensures xs != [] ==> multiset(xs) != multiset{}
  {
    if xs != [] {
      assert xs[0] in multiset(xs);
    }
  }

  lemma PullOut(lib: Library, width: nat, xs: seq<seq<Chunk>>, j: nat, f: Fetched)
    requires j < |xs|
    ensures RowTally(lib, width, xs, f) == multiset(AllRows(lib, width, xs[j]))[f] + RowTally(lib, width, xs[..j] + xs[j + 1..], f)
  {
    hide RowTally, AllRows;
    var before, after := xs[..j], xs[j + 1..];
    TallyAppend(lib, width, before, after, f);
    TallyCons(lib, width, xs[j], after, f);
    TallyAppend(lib, width, before, [xs[j]] + after, f);
    assert xs == before + ([xs[j]] + after);
  }

  /** Reordering batches reorders rows. */
  lemma {:induction false} TallyPermutes(lib: Library, width: nat, a: seq<seq<Chunk>>, b: seq<seq<Chunk>>, f: Fetched)
    requires multiset(a) == multiset(b)
    ensures RowTally(lib, width, a, f) == RowTally(lib, width, b, f)
    decreases |a|
  {
    hide *;
    if a == [] {
      Inhabited(b);
    } else {
      assert a[0] in multiset(a);
      var j :| 0 <= j < |b| && b[j] == a[0];
      OneLess(a, 0);
      OneLess(b, j);
      var a', b' := a[..0] + a[1..], b[..j] + b[j + 1..];
      assert multiset(a') == multiset(b');
      TallyPermutes(lib, width, a', b', f);
      PullOut(lib, width, a, 0, f);
      PullOut(lib, width, b, j, f);
    }
  }

  lemma {:induction false} TallyCounts(lib: Library, width: nat, batches: seq<seq<Chunk>>, f: Fetched)
    ensures multiset(AllRows(lib, width, Q.Concat(batches)))[f] == RowTally(lib, width, batches, f)
    decreases |batches|
  {
    if batches == [] {
      NoRows(lib, width);
    } else {
      var n := |batches| - 1;
      hide AllRows;
      TallyCounts(lib, width, batches[..n], f);
      AllRowsAppend(lib, width, Q.Concat(batches[..n]), batches[n]);
      TallyAppend(lib, width, batches[..n], [batches[n]], f);
      assert batches == batches[..n] + [batches[n]];
      assert RowTally(lib, width, [batches[n]], f) == multiset(AllRows(lib, width, batches[n]))[f] by {
        assert [batches[n]][1..] == [];
      }
    }
  }

  // ---- splitting loses nothing ----------------------------------------------------------------

  lemma {:induction false} PartCells(lib: Library, cols: seq<Column>, parts: seq<Column>, at: nat, i: nat)
    requires |cols| == |parts|
    requires forall j :: 0 <= j < |cols| ==>
               && cols[j].typ == parts[j].typ && cols[j].content.Vals? && parts[j].content.Vals?
               && i < |parts[j].content.vals| && at + i < |cols[j].content.vals|
               && parts[j].content.vals[i] == cols[j].content.vals[at + i]
    ensures DriverCells(lib, parts, i) == DriverCells(lib, cols, at + i)
    decreases |cols|
  {
    hide DriverOf;
    if cols != [] {
      var n := |cols| - 1;
      PartCells(lib, cols[..n], parts[..n], at, i);
    }
  }

  lemma PartRows(lib: Library, width: nat, cols: seq<Col>, at: nat, end: nat)
    requires Rectangular(cols) && at <= end <= RowCount(cols)
    ensures ChunkRows(lib, width, Decoded(Part(cols, at, end))) == ChunkRows(lib, width, Decoded(cols))[at..end]
  {
    hide DriverCells;
    var part := Part(cols, at, end);
    assert RowCount(part) == end - at;
    forall i | 0 <= i < end - at
      ensures RowAt(lib, width, Decoded(part), i) == RowAt(lib, width, Decoded(cols), at + i)
    {
      if width <= |cols| {
        PartCells(lib, Decoded(cols).cols[..width], Decoded(part).cols[..width], at, i);
      }
    }
  }

  lemma {:induction false} SplitRows(lib: Library, width: nat, cols: seq<Col>, size: nat, at: nat)
    requires Rectangular(cols) && size > 0 && at <= RowCount(cols)
    ensures AllRows(lib, width, AllDecoded(Split(cols, size, at))) == ChunkRows(lib, width, Decoded(cols))[at..]
    decreases RowCount(cols) - at
  {
    hide ChunkRows, Part, Decoded;
    var table := ChunkRows(lib, width, Decoded(cols));
    assert |table| == RowCount(cols) by { TableLength(lib, width, cols); }
    if at < RowCount(cols) {
      var end := Min(at + size, RowCount(cols));
      var part, rest := Part(cols, at, end), Split(cols, size, at + size);
      PartRows(lib, width, cols, at, end);
      SplitFrom(cols, size, at + size, end);
      SplitRows(lib, width, cols, size, end);
      assert AllDecoded([part] + rest) == [Decoded(part)] + AllDecoded(rest);
      AllRowsAppend(lib, width, [Decoded(part)], AllDecoded(rest));
      OneChunk(lib, width, Decoded(part));
      assert table[at..end] + table[end..] == table[at..];
    } else {
      assert AllDecoded([]) == [] && table[at..] == [];
    }
  }

  lemma TableLength(lib: Library, width: nat, cols: seq<Col>)
    ensures |ChunkRows(lib, width, Decoded(cols))| == RowCount(cols)
  {
  }

  lemma OneChunk(lib: Library, width: nat, chunk: Chunk)
    ensures AllRows(lib, width, [chunk]) == ChunkRows(lib, width, chunk)
  {
    hide ChunkRows;
    assert [chunk][..0] == [] && [] + ChunkRows(lib, width, chunk) == ChunkRows(lib, width, chunk);
  }

  /** Past the end there is nothing to split, wherever one starts. */
  lemma SplitFrom(cols: seq<Col>, size: nat, a: nat, b: nat)
    requires Rectangular(cols) && size > 0 && (a == b || (a >= RowCount(cols) && b >= RowCount(cols)))
    ensures Split(cols, size, a) == Split(cols, size, b)
  {
  }

  lemma {:induction false} GroupedRows(lib: Library, width: nat, chunks: seq<seq<Col>>, per: nat)
    requires per > 0
    ensures AllRows(lib, width, Q.Concat(Batches(Grouped(chunks, per)))) == AllRows(lib, width, AllDecoded(chunks))
    decreases |chunks|
  {
    hide AllRows, Decoded;
    if chunks != [] {
      var n := Min(per, |chunks|);
      var first, rest := chunks[..n], Grouped(chunks[n..], per);
      GroupedRows(lib, width, chunks[n..], per);
      assert Batches([first] + rest) == [AllDecoded(first)] + Batches(rest);
      ConcatCons(AllDecoded(first), Batches(rest));
      AllRowsAppend(lib, width, AllDecoded(first), Q.Concat(Batches(rest)));
      AllRowsAppend(lib, width, AllDecoded(first), AllDecoded(chunks[n..]));
      assert AllDecoded(chunks) == AllDecoded(first) + AllDecoded(chunks[n..]);
    } else {
      assert Batches([]) == [] && AllDecoded(chunks) == [];
    }
  }

  function Batches(batches: seq<seq<seq<Col>>>): seq<seq<Chunk>>
  {
    seq(|batches|, i requires 0 <= i < |batches| => AllDecoded(batches[i]))
  }

  lemma {:induction false} ConcatCons(x: seq<Chunk>, xs: seq<seq<Chunk>>)
    ensures Q.Concat([x] + xs) == x + Q.Concat(xs)
    decreases |xs|
  {
    if xs == [] {
      assert ([x] + xs)[..0] == [] && [] + x == x && x + [] == x;
      assert [x] + xs == [x];
    } else {
      var n := |xs| - 1;
      ConcatCons(x, xs[..n]);
      assert ([x] + xs)[..n + 1] == [x] + xs[..n];
      assert (x + Q.Concat(xs[..n])) + xs[n] == x + (Q.Concat(xs[..n]) + xs[n]);
    }
  }

  /** The batches with data are those behind the first. */
  lemma {:induction false} FetchedBatches(batches: seq<seq<Chunk>>)
    requires forall b <- batches :: b != []
    ensures R.WithData(seq(|batches|, i requires 0 <= i < |batches| => Wrapped(batches[i]))) == batches
    decreases |batches|
  {
    hide S.Present;
    if batches != [] {
      var q := seq(|batches|, i requires 0 <= i < |batches| => Wrapped(batches[i]));
      assert q[1..] == seq(|batches| - 1, i requires 0 <= i < |batches| - 1 => Wrapped(batches[1..][i]));
      assert batches[0] in batches && forall b <- batches[1..] :: b in batches;
      FetchedBatches(batches[1..]);
      WrappedPresent(batches[0]);
      assert batches == [batches[0]] + batches[1..];
    }
  }

  // ---- the theorem ---------------------------------------------------------------------------

  lemma ServedParts(batches: seq<seq<seq<Col>>>, workers: nat)
    requires forall b <- batches :: b != []
    ensures var c, decoded := Served(batches, workers), Batches(batches);
            && c.inline == FirstBatch(decoded)
            && R.WithData(c.batches) == OtherBatches(decoded)
  {
    hide R.WithData, Wrapped;
    var c, decoded := Served(batches, workers), Batches(batches);
    if batches == [] {
      assert R.WithData([]) == [] by { NoBatches(); }
    } else {
      var rest := decoded[1..];
      assert c.batches == seq(|rest|, i requires 0 <= i < |rest| => Wrapped(rest[i]));
      forall i | 0 <= i < |rest| ensures rest[i] != [] {
        assert batches[i + 1] in batches && |rest[i]| == |batches[i + 1]|;
      }
      FetchedBatches(rest);
    }
  }

  lemma NoBatches()
    ensures R.WithData([]) == []
  {
  }

  /** The rows of the table are the rows of its batches. */
  lemma TableRows(lib: Library, width: nat, cols: seq<Col>, chunkRows: nat, per: nat)
    requires Rectangular(cols) && chunkRows > 0 && per > 0
    ensures AllRows(lib, width, Q.Concat(Batches(Grouped(Split(cols, chunkRows, 0), per)))) == ChunkRows(lib, width, Decoded(cols))
  {
    hide AllRows, Grouped, Split, ChunkRows, Decoded, Q.Concat, Batches;
    SplitRows(lib, width, cols, chunkRows, 0);
    GroupedRows(lib, width, Split(cols, chunkRows, 0), per);
    var table := ChunkRows(lib, width, Decoded(cols));
    assert table[0..] == table;
  }

  function FirstBatch(batches: seq<seq<Chunk>>): seq<Chunk> { if batches == [] then [] else batches[0] }

  function OtherBatches(batches: seq<seq<Chunk>>): seq<seq<Chunk>> { if batches == [] then [] else batches[1..] }

  lemma FirstThenOthers(lib: Library, width: nat, batches: seq<seq<Chunk>>)
    ensures AllRows(lib, width, Q.Concat(batches)) == AllRows(lib, width, FirstBatch(batches)) + AllRows(lib, width, Q.Concat(OtherBatches(batches)))
  {
    if batches != [] {
      hide AllRows, Q.Concat;
      assert batches == [batches[0]] + batches[1..];
      ConcatCons(batches[0], batches[1..]);
      AllRowsAppend(lib, width, batches[0], Q.Concat(batches[1..]));
    } else {
      NoRows(lib, width);
    }
  }

  lemma RowsPermute(lib: Library, width: nat, a: seq<seq<Chunk>>, b: seq<seq<Chunk>>)
    requires multiset(a) == multiset(b)
    ensures multiset(AllRows(lib, width, Q.Concat(a))) == multiset(AllRows(lib, width, Q.Concat(b)))
  {
    hide *;
    forall f ensures multiset(AllRows(lib, width, Q.Concat(a)))[f] == multiset(AllRows(lib, width, Q.Concat(b)))[f] {
      TallyCounts(lib, width, a, f);
      TallyCounts(lib, width, b, f);
      TallyPermutes(lib, width, a, b, f);
    }
  }

  /** First batch first, the others in any order: the same rows. */
  lemma SameRows(lib: Library, width: nat, batches: seq<seq<Chunk>>, received: seq<seq<Chunk>>)
    requires multiset(received) == multiset(OtherBatches(batches))
    ensures var inline := FirstBatch(batches);
            && multiset(AllRows(lib, width, inline + Q.Concat(received))) == multiset(AllRows(lib, width, Q.Concat(batches)))
            && AllRows(lib, width, inline) <= AllRows(lib, width, inline + Q.Concat(received))
            && AllRows(lib, width, inline) <= AllRows(lib, width, Q.Concat(batches))
  {
    hide *;
    FirstThenOthers(lib, width, batches);
    AllRowsAppend(lib, width, FirstBatch(batches), Q.Concat(received));
    RowsPermute(lib, width, received, OtherBatches(batches));
  }

  lemma NoRows(lib: Library, width: nat)
    ensures Q.Concat([]) == [] && AllRows(lib, width, []) == []
  {
  }

  /** For every table the server splits, every interleaving that ends without
      error, break or Close, and the driver's reader on its chunks: the rows
      read until EOF are the table's rows, each exactly once, those that came
      inline first and in order, and every batch in one piece. */
  lemma EachRowOnce(lib: Library, width: nat, cols: seq<Col>, chunkRows: nat, per: nat, workers: nat, steps: seq<S.Step>, t: S.State)
    requires Rectangular(cols) && chunkRows > 0 && per > 0 && workers > 0
    requires S.Reaches(Served(Grouped(Split(cols, chunkRows, 0), per), workers), steps, t)
    requires t.consumer == S.Ended(S.Clean) && !t.stop
    ensures var c := Served(Grouped(Split(cols, chunkRows, 0), per), workers);
            var read, table := ToCome(lib, width, Pulls(t.delivered)), ChunkRows(lib, width, Decoded(cols));
            && multiset(read) == multiset(table)
            && AllRows(lib, width, c.inline) <= read && AllRows(lib, width, c.inline) <= table
            && R.Complete(c, t)
  {
    var chunks := Split(cols, chunkRows, 0);
    var batches := Grouped(chunks, per);
    ServedIsWhole(chunks, per, workers);
    R.CleanIsComplete(Served(batches, workers), steps, t);
    GroupsFilled(chunks, per);
    hide AllRows, Grouped, Split, ChunkRows, Decoded, Q.Concat, R.WithData, Served;
    ServedParts(batches, workers);
    PulledRows(lib, width, t.delivered);
    TableRows(lib, width, cols, chunkRows, per);
    SameRows(lib, width, Batches(batches), t.received);
  }

  // ---- what is in a row -------------------------------------------------------------------------

  lemma {:induction false} SupportedValued(t: LogicalType)
    requires SupportedType(t)
    ensures Valued(t)
    decreases t
  {
    if t.id == STRUCT {
      forall i | 0 <= i < |t.fields| ensures Valued(t.fields[i].typ) {
        SupportedValued(t.fields[i].typ);
      }
    }
  }

  lemma {:induction false} TypedHolds(t: LogicalType, v: Value)
    requires SupportedType(t) && Typed(t, v)
    ensures Holds(t, v)
    decreases t
  {
    SupportedValued(t);
    if v.VNull? {
    } else if t.id == STRUCT {
      forall i | 0 <= i < |t.fields| ensures Holds(t.fields[i].typ, v.entries[i].value) {
        TypedHolds(t.fields[i].typ, v.entries[i].value);
      }
    } else if t.id == LIST || t.id == ARRAY {
      forall i | 0 <= i < |v.elems| ensures Holds(t.child.value, v.elems[i]) {
        assert v.elems[i] in v.elems;
        TypedHolds(t.child.value, v.elems[i]);
      }
    } else if t.id == MAP {
      forall i | 0 <= i < |v.pairs| ensures PairHolds(t.child.value, v.pairs[i]) {
        assert v.pairs[i] in v.pairs;
        TypedHolds(t.child.value.fields[0].typ, v.pairs[i].key);
        TypedHolds(t.child.value.fields[1].typ, v.pairs[i].value);
      }
    } else {
      ScalarHolds(t, v);
    }
  }

  lemma ScalarHolds(t: LogicalType, v: Value)
    requires SupportedType(t) && Typed(t, v) && !v.VNull? && !IsNested(t.id)
    ensures Holds(t, v)
  {
  }

  lemma {:induction false} SupportedPrints(t: LogicalType)
    requires SupportedType(t)
    ensures MapsPrint(t)
    decreases t
  {
    if t.id == STRUCT {
      forall i | 0 <= i < |t.fields| ensures MapsPrint(t.fields[i].typ) {
        SupportedPrints(t.fields[i].typ);
      }
    } else if t.id == MAP {
      SupportedPrints(t.child.value.fields[0].typ);
      SupportedPrints(t.child.value.fields[1].typ);
    } else if t.id == LIST || t.id == ARRAY {
      SupportedPrints(t.child.value);
    }
  }

  /** No row of a table of supported types fails, and each cell is what
      toDriverValue makes of the original value and says what it says. */
  lemma RowsAreTheTables(lib: Library, cols: seq<Col>, i: nat)
    requires Trusted(lib) && Rectangular(cols) && i < RowCount(cols)
    requires forall c <- cols :: ColWritable(c)
    ensures var row := ChunkRows(lib, |cols|, Decoded(cols))[i];
            && row.Row? && |row.cells| == |cols|
            && forall j :: 0 <= j < |cols| ==>
                 && DriverOf(lib, cols[j].typ, cols[j].vals[i]) == Some(row.cells[j])
                 && Says(lib, cols[j].typ, cols[j].vals[i], row.cells[j])
  {
    hide DriverOf, SupportedType, WellFormed, Trusted, Says;
    var decoded := Decoded(cols).cols;
    assert decoded[..|cols|] == decoded;
    forall k | 0 <= k < |cols|
      ensures DriverCell(lib, decoded[k], i) == DriverOf(lib, cols[k].typ, cols[k].vals[i])
      ensures DriverCell(lib, decoded[k], i).Some?
      ensures Says(lib, cols[k].typ, cols[k].vals[i], DriverCell(lib, decoded[k], i).value)
    {
      assert cols[k] in cols && ColWritable(cols[k]);
      CellRenders(lib, cols[k], i);
    }
    forall j | 0 <= j < |cols|
      ensures DriverCells(lib, decoded, i).Some?
      ensures DriverCell(lib, decoded[j], i) == Some(DriverCells(lib, decoded, i).value[j])
    {
      CellsAre(lib, decoded, i, j);
    }
    assert decoded != [];
    CellsAre(lib, decoded, i, 0);
  }

  lemma CellRenders(lib: Library, c: Col, i: nat)
    requires Trusted(lib) && ColWritable(c) && i < |c.vals|
    ensures DriverOf(lib, c.typ, c.vals[i]).Some? && Says(lib, c.typ, c.vals[i], DriverOf(lib, c.typ, c.vals[i]).value)
  {
    hide Holds, Trusted, DriverOf, WellFormed, SupportedType, Typed, Says, MapsPrint;
    assert c.vals[i] in c.vals;
    TypedHolds(c.typ, c.vals[i]);
    SupportedPrints(c.typ);
    DriverSays(lib, c.typ, c.vals[i]);
  }

  /** The same for a chunk decoded from any bytes at all: without column
      errors, a row fails exactly when the chunk is narrower than the schema. */
  lemma DecodedRowsRender(lib: Library, width: nat, buf: Bytes, i: nat)
    requires Trusted(lib)
    ensures DecodeChunk(buf).Success? && Renderable(DecodeChunk(buf).value) && i < DecodeChunk(buf).value.rows ==>
              (RowAt(lib, width, DecodeChunk(buf).value, i).Row? <==> width <= |DecodeChunk(buf).value.cols|)
  {
    hide DecodeChunk, DriverOf, Trusted, Holds, MapsPrint;
    ChunkHolds(buf);
    if DecodeChunk(buf).Success? && Renderable(DecodeChunk(buf).value) && i < DecodeChunk(buf).value.rows {
      RenderableRow(lib, width, DecodeChunk(buf).value, i);
    }
  }

  /** Columns with values, of types whose MAPs print. */
  predicate Renderable(chunk: Chunk)
  {
    forall col <- chunk.cols :: col.content.Vals? && MapsPrint(col.typ)
  }

  lemma RenderableRow(lib: Library, width: nat, chunk: Chunk, i: nat)
    requires Trusted(lib) && Renderable(chunk) && i < chunk.rows && forall col <- chunk.cols :: ColumnHolds(col, chunk.rows)
    ensures RowAt(lib, width, chunk, i).Row? <==> width <= |chunk.cols|
  {
    hide DriverOf, Trusted, Holds, MapsPrint;
    if width <= |chunk.cols| {
      var cols := chunk.cols[..width];
      forall k | 0 <= k < |cols| ensures DriverCell(lib, cols[k], i).Some? {
        var col := chunk.cols[k];
        assert col in chunk.cols && ColumnHolds(col, chunk.rows);
        HoldsRenders(lib, col.typ, col.content.vals[i]);
      }
      if cols != [] {
        CellsAre(lib, cols, i, 0);
      }
    }
  }

  lemma {:induction false} CellsAre(lib: Library, cols: seq<Column>, row: nat, j: nat)
    requires j < |cols| && forall k :: 0 <= k < |cols| ==> DriverCell(lib, cols[k], row).Some?
    ensures DriverCells(lib, cols, row).Some?
    ensures DriverCell(lib, cols[j], row) == Some(DriverCells(lib, cols, row).value[j])
    decreases |cols|
  {
    hide DriverCell;
    var n := |cols| - 1;
    if n > 0 {
      CellsAre(lib, cols[..n], row, if j < n then j else 0);
    } else {
      assert DriverCells(lib, cols[..0], row) == Some([]);
    }
  }
}
