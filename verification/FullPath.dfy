/** The whole path of a query's result: the fake server's replies as bytes,
    the client's decoding of them, a run of the fetch stream, and the loop
    over the driver's rows. */
module FullPath {
  import opened Basics
  import opened Framing
  import opened LogicalTypes
  import opened Chunks
  import opened ChunkBack
  import opened RoundTrip
  import opened ChunkEncoder
  import opened Json
  import opened Rows
  import opened EndToEnd
  import S = Stream
  import R = StreamRuns
  import E = StreamEnds

  // ---- the server -----------------------------------------------------------------------

  /** The schema a result is prepared with. */
  function DefsOf(cols: seq<Col>): (defs: seq<ColumnDef>)
    ensures |defs| == |cols|
  {
    seq(|cols|, i requires 0 <= i < |cols| => ColumnDef(cols[i].name, cols[i].typ))
  }

  /** A result a server can hold: its batches fit the wire. */
  ghost predicate Servable(cols: seq<Col>, batches: seq<seq<seq<Col>>>)
  {
    && DefsWellFormed(DefsOf(cols)) && |cols| < P64 && |batches| < P64
    && (forall i :: 0 <= i < |cols| ==> Height(cols[i].typ) <= MAX_TYPE_DEPTH)
    && AllEncodable(FirstTables(batches))
    && forall i :: 0 <= i < |batches| ==> AllEncodable(batches[i])
  }

  ghost function PrepareBody(cols: seq<Col>, batches: seq<seq<seq<Col>>>, uuid: Hugeint): Bytes
    requires Servable(cols, batches)
  {
    WritableTables(FirstTables(batches));
    PrepareBytes(DefsOf(cols), WiresOf(FirstTables(batches)), |batches| > 1, uuid)
  }

  /** The body of the `i`-th reply; behind the last batch, the drained one. */
  ghost function FetchBody(batches: seq<seq<seq<Col>>>, i: nat): Bytes
    requires i < |batches| ==> AllEncodable(batches[i])
  {
    var tables := if i < |batches| then batches[i] else [];
    WritableTables(tables);
    FetchBytes(WiresOf(tables), if i < |batches| then i else IDX_ABSENT)
  }

  /** One registered result and how far it has been fetched. */
  class LiveResult {
    const cols: seq<Col>
    const batches: seq<seq<seq<Col>>>
    var next: nat

    constructor (cols: seq<Col>, batches: seq<seq<seq<Col>>>)
      ensures this.cols == cols && this.batches == batches && next == 1
    {
      this.cols := cols;
      this.batches := batches;
      next := 1;
    }

    /** handlePrepare's reply */
    method HandlePrepare(uuid: Hugeint) returns (body: Bytes)
      requires Servable(cols, batches)
      ensures body == PrepareBody(cols, batches, uuid)
    {
      var inline := if |batches| > 0 then batches[0] else [];
      body := EncodePrepareBody(DefsOf(cols), inline, |batches| > 1, uuid);
    }

    /** handleFetch: the read is destructive. */
    method HandleFetch() returns (body: Bytes)
      requires Servable(cols, batches)
      modifies this
      ensures body == FetchBody(batches, old(next))
      ensures next == if old(next) < |batches| then old(next) + 1 else old(next)
    {
      var batch, idx := [], IDX_ABSENT;
      if next < |batches| {
        batch, idx := batches[next], next;
        next := next + 1;
      }
      body := EncodeFetchBody(batch, idx);
    }
  }

  // ---- the client --------------------------------------------------------------------------

  ghost predicate Decodes(prepare: Bytes, fetches: seq<Bytes>)
  {
    DecodePrepare(prepare).Success? && forall i :: 0 <= i < |fetches| ==> DecodeFetch(fetches[i]).Success?
  }

  /** The stream a client runs on these replies, the server handing the fetch
      bodies out in order. */
  ghost function ClientSetup(prepare: Bytes, fetches: seq<Bytes>, workers: nat): S.Setup
    requires Decodes(prepare, fetches)
  {
    S.Setup(workers, DecodePrepare(prepare).value.chunks, DecodePrepare(prepare).value.needsMore,
            seq(|fetches|, i requires 0 <= i < |fetches| => Wrapped(DecodeFetch(fetches[i]).value.chunks)))
  }

  /** The bodies of all fetch replies with data. */
  ghost function FetchBodies(batches: seq<seq<seq<Col>>>): (bodies: seq<Bytes>)
    requires forall i :: 0 <= i < |batches| ==> AllEncodable(batches[i])
  {
    seq(if batches == [] then 0 else |batches| - 1, i requires 0 <= i < |batches| - 1 => FetchBody(batches, i + 1))
  }

  lemma FetchBodyArrives(cols: seq<Col>, batches: seq<seq<seq<Col>>>, i: nat)
    requires Servable(cols, batches) && 0 < i < |batches|
    ensures var fetched := DecodeFetch(FetchBody(batches, i));
            fetched.Success? && fetched.value.chunks == AllDecoded(batches[i])
  {
    hide DecodeFetch, FetchBytes, Encodable, S.Present, WiresOf, AllDecoded;
    FetchArrives(batches, 1, i);
    WrappedPresent(AllDecoded(batches[i]));
    assert Served(batches, 1).batches[i - 1] == Wrapped(AllDecoded(batches[i]));
  }

  /** Decoding the server's own bytes sets up exactly the stream of what it
      serves. */
  lemma ClientSeesServed(cols: seq<Col>, batches: seq<seq<seq<Col>>>, workers: nat, uuid: Hugeint)
    requires Servable(cols, batches) && ValidHugeint(uuid)
    ensures Decodes(PrepareBody(cols, batches, uuid), FetchBodies(batches))
    ensures ClientSetup(PrepareBody(cols, batches, uuid), FetchBodies(batches), workers) == Served(batches, workers)
    ensures |DecodePrepare(PrepareBody(cols, batches, uuid)).value.schema| == |cols|
  {
    hide DecodePrepare, DecodeFetch, PrepareBytes, FetchBody, Encodable, WiresOf, AllDecoded;
    PrepareArrives(DefsOf(cols), batches, workers, uuid);
    var bodies := FetchBodies(batches);
    forall i | 0 <= i < |bodies|
      ensures DecodeFetch(bodies[i]).Success? && DecodeFetch(bodies[i]).value.chunks == AllDecoded(batches[i + 1])
    {
      FetchBodyArrives(cols, batches, i + 1);
    }
    assert ClientSetup(PrepareBody(cols, batches, uuid), bodies, workers).batches == Served(batches, workers).batches;
  }

  /** The stream of a query, as its client decodes it. */
  ghost function QueryStream(cols: seq<Col>, batches: seq<seq<seq<Col>>>, workers: nat, uuid: Hugeint): S.Setup
    requires Servable(cols, batches) && ValidHugeint(uuid)
  {
    ClientSeesServed(cols, batches, workers, uuid);
    ClientSetup(PrepareBody(cols, batches, uuid), FetchBodies(batches), workers)
  }

  // ---- the rows -----------------------------------------------------------------------------

  function AsFetched(rows: seq<seq<Driver>>): seq<Fetched>
  {
    seq(|rows|, i requires 0 <= i < |rows| => Row(rows[i]))
  }

  /** Everything to come is a row, so the loop reads it all. */
  lemma OnlyRows(lib: Library, cols: seq<Col>, left: seq<Fetched>)
    requires Trusted(lib) && Rectangular(cols) && forall c <- cols :: ColWritable(c)
    requires multiset(left) == multiset(ChunkRows(lib, |cols|, Decoded(cols)))
    ensures forall i :: 0 <= i < |left| ==> left[i].Row?
  {
    hide Trusted, ColWritable, DriverOf, RowAt;
    var table := ChunkRows(lib, |cols|, Decoded(cols));
    forall i | 0 <= i < |left| ensures left[i].Row? {
      assert left[i] in multiset(left);
      assert left[i] in table;
      var j :| 0 <= j < |table| && table[j] == left[i];
      RowsAreTheTables(lib, cols, j);
    }
  }

  /** What the driver pulls from a stream that ended: its chunks, and the
      error if it failed. */
  function StreamPulls(t: S.State): seq<Pull>
    requires t.consumer.Ended?
  {
    Pulls(t.delivered) + if t.consumer.outcome == S.Failed then [Broke] else []
  }

  /** A query from end to end: the server splits and encodes a table, the
      client decodes the replies, its stream takes any run, and the loop over
      rows.Next reads it. Unless the reader broke off or Close was called, EOF
      means that every row of the table was read exactly once, the inline rows
      first; after a failure, which takes a failed fetch or a dead context, the
      loop does not end in EOF. */
  method ReadTable(lib: Library, cols: seq<Col>, ghost chunkRows: nat, ghost per: nat, ghost workers: nat, ghost uuid: Hugeint,
                   ghost steps: seq<S.Step>, t: S.State)
    returns (rows: seq<seq<Driver>>, last: Fetched)
    requires Trusted(lib) && Rectangular(cols) && chunkRows > 0 && per > 0 && workers > 0 && ValidHugeint(uuid)
    requires forall c <- cols :: ColWritable(c)
    requires Servable(cols, Grouped(Split(cols, chunkRows, 0), per))
    requires S.Reaches(QueryStream(cols, Grouped(Split(cols, chunkRows, 0), per), workers, uuid), steps, t)
    requires t.consumer.Ended? && S.Consume(S.Yield(false)) !in steps && S.Close !in steps
    ensures last == Eof <==> t.consumer.outcome == S.Clean
    ensures last == Eof ==> multiset(AsFetched(rows)) == multiset(ChunkRows(lib, |cols|, Decoded(cols)))
    ensures last == Eof ==>
              var inline := AllRows(lib, |cols|, QueryStream(cols, Grouped(Split(cols, chunkRows, 0), per), workers, uuid).inline);
              inline <= AsFetched(rows) && inline <= ChunkRows(lib, |cols|, Decoded(cols))
    ensures last != Eof ==> E.FetchFailed(steps) || S.Cancel in steps
  {
    ghost var batches := Grouped(Split(cols, chunkRows, 0), per);
    ClientSeesServed(cols, batches, workers, uuid);
    assert QueryStream(cols, batches, workers, uuid) == Served(batches, workers);
    ghost var left := ToCome(lib, |cols|, StreamPulls(t));
    FailedPulls(lib, |cols|, t);
    E.VerdictExactly(Served(batches, workers), steps, t);
    assert !E.BrokeOff(steps);
    if t.consumer.outcome == S.Clean {
      CleanPulls(t);
    }
    hide *;
    if t.consumer.outcome == S.Clean {
      EachRowOnce(lib, |cols|, cols, chunkRows, per, workers, steps, t);
      OnlyRows(lib, cols, left);
    }
    var r := new Rows.Reader(lib, |cols|, StreamPulls(t));
    rows, last := ReadAll(r);
    if t.consumer.outcome == S.Clean {
      AllRead(rows, left);
    } else {
      NotAllRead(lib, |cols|, StreamPulls(t), rows);
    }
  }

  lemma CleanPulls(t: S.State)
    requires t.consumer.Ended? && t.consumer.outcome == S.Clean
    ensures StreamPulls(t) == Pulls(t.delivered) && t.consumer == S.Ended(S.Clean)
  {
  }

  lemma FailedPulls(lib: Library, width: nat, t: S.State)
    requires t.consumer.Ended?
    ensures t.consumer.outcome == S.Failed ==> StreamError in ToCome(lib, width, StreamPulls(t))
  {
    FailureShows(lib, width, StreamPulls(t));
  }

  /** With an error to come, the rows read are not all there is, and what
      stopped the loop is no EOF. */
  lemma NotAllRead(lib: Library, width: nat, pulls: seq<Pull>, rows: seq<seq<Driver>>)
    requires StreamError in ToCome(lib, width, pulls)
    requires |rows| <= |ToCome(lib, width, pulls)| && forall i :: 0 <= i < |rows| ==> ToCome(lib, width, pulls)[i] == Row(rows[i])
    ensures |rows| < |ToCome(lib, width, pulls)| && ToCome(lib, width, pulls)[|rows|] != Eof
  {
    NoEof(lib, width, pulls);
    var i :| 0 <= i < |ToCome(lib, width, pulls)| && ToCome(lib, width, pulls)[i] == StreamError;
  }

  lemma {:induction false} NoEof(lib: Library, width: nat, pulls: seq<Pull>)
    ensures Eof !in ToCome(lib, width, pulls)
    decreases |pulls|
  {
    hide RowAt;
    if pulls != [] {
      NoEof(lib, width, pulls[1..]);
    }
  }

  lemma AllRead(rows: seq<seq<Driver>>, left: seq<Fetched>)
    requires |rows| <= |left| && (forall i :: 0 <= i < |rows| ==> left[i] == Row(rows[i]))
    requires forall i :: 0 <= i < |left| ==> left[i].Row?
    requires |rows| < |left| ==> !left[|rows|].Row?
    ensures AsFetched(rows) == left
  {
  }

  // ---- a result that comes up short ------------------------------------------------------------

  /** A batch of one null chunk decodes to what "drained" decodes to, so a
      table behind it can be missing from a run that ends without an error. */
  lemma NullBatchLoses(cols: seq<Col>, workers: nat, i: nat)
    requires Encodable(cols) && workers > 0 && i + 1 < P64
    ensures DecodeFetch(FetchBytes([None], i)) == Success(FetchResult([], i))
    ensures WellFormedColumns(ChunkOf(cols).cols)
    ensures DecodeFetch(FetchBytes([Some(ChunkOf(cols))], i + 1)) == Success(FetchResult([Decoded(cols)], i + 1))
    ensures !R.NeverShort(S.Setup(workers, [], true, [[None], [Some(Decoded(cols))]]))
  {
    hide DecodeFetch, FetchBytes, Encodable, ChunkOf, Decoded, R.NeverShort;
    FetchBack([None], i);
    assert AllEncodable([cols]);
    FetchRoundTrip([cols], i + 1);
    ChunkOfMeans(cols);
    assert WiresOf([cols]) == [Some(ChunkOf(cols))] && AllDecoded([cols]) == [Decoded(cols)];
    var c := S.Setup(workers, [], true, [[None], [Some(Decoded(cols))]]);
    R.NeverShortExactly(c);
    assert S.Present(c.batches[0]) == [] && S.Present(c.batches[1]) == [Decoded(cols)];
    assert !R.Whole(c);
  }
}
