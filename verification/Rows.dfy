/** driver.Rows over the chunk stream. */
module Rows {
  import opened Basics
  import opened Vectors
  import opened Chunks
  import opened Json

  /** What pulling the chunk iterator gives, once more each time. */
  datatype Pull = Got(chunk: Chunk) | Broke

  datatype Fetched = Row(cells: seq<Driver>) | CellError | StreamError | Eof

  /** Chunk.Value and toDriverValue; None is either's error. */
  function DriverCell(lib: Library, col: Column, row: nat): Option<Driver>
  {
    if !col.content.Vals? || row >= |col.content.vals| then None else DriverOf(lib, col.typ, col.content.vals[row])
  }

  function DriverCells(lib: Library, cols: seq<Column>, row: nat): (cells: Option<seq<Driver>>)
    ensures cells.Some? ==> |cells.value| == |cols|
  {
    if cols == [] then Some([])
    else
      var before := DriverCells(lib, cols[..|cols| - 1], row);
      var cell := DriverCell(lib, cols[|cols| - 1], row);
      if before.None? || cell.None? then None else Some(before.value + [cell.value])
  }

  /** A row of the schema's width: further columns are not read, missing ones
      are an error. */
  function RowAt(lib: Library, width: nat, chunk: Chunk, row: nat): (f: Fetched)
    ensures f.Row? || f.CellError?
    ensures f.Row? ==> |f.cells| == width
  {
    if width > |chunk.cols| then CellError
    else
      match DriverCells(lib, chunk.cols[..width], row)
      case Some(cells) => Row(cells)
      case None => CellError
  }

  /** The rows of a chunk from `from` on. */
  function RowsFrom(lib: Library, width: nat, chunk: Chunk, from: nat): (fs: seq<Fetched>)
    requires from <= chunk.rows
    ensures |fs| == chunk.rows - from
  {
    seq(chunk.rows - from, i requires 0 <= i < chunk.rows - from => RowAt(lib, width, chunk, from + i))
  }

  function ChunkRows(lib: Library, width: nat, chunk: Chunk): seq<Fetched>
  {
    RowsFrom(lib, width, chunk, 0)
  }

  /** Everything the pulls have to give. */
  function ToCome(lib: Library, width: nat, pulls: seq<Pull>): seq<Fetched>
  {
    if pulls == [] then []
    else (if pulls[0].Got? then ChunkRows(lib, width, pulls[0].chunk) else [StreamError]) + ToCome(lib, width, pulls[1..])
  }

  class Reader {
    const lib: Library
    const width: nat
    var pulls: seq<Pull>
    var chunk: Option<Chunk>
    var row: nat

    constructor (lib: Library, width: nat, pulls: seq<Pull>)
      ensures this.lib == lib && this.width == width && Valid() && Left() == ToCome(lib, width, pulls)
    {
      this.lib := lib;
      this.width := width;
      this.pulls := pulls;
      chunk := None;
      row := 0;
      new;
      assert [] + ToCome(lib, width, pulls) == ToCome(lib, width, pulls);
    }

    ghost predicate Valid()
      reads this
    {
      chunk.Some? ==> row <= chunk.value.rows
    }

    /** What repeated calls of Next will return before EOF. */
    ghost function Left(): seq<Fetched>
      reads this
      requires Valid()
    {
      (if chunk.Some? then RowsFrom(lib, width, chunk.value, row) else []) + ToCome(lib, width, pulls)
    }

    /** rows.Next: the next row to come. A failing cell keeps failing; a
        failed stream ends. */
    method Next() returns (r: Fetched)
      requires Valid()
      modifies this
      ensures Valid()
      ensures old(Left()) == [] ==> r == Eof && Left() == []
      ensures old(Left()) != [] ==>
                r == old(Left())[0] && Left() == if r.CellError? then old(Left()) else old(Left())[1..]
    {
      hide DriverCells;
      while chunk.None? || row >= chunk.value.rows
        invariant Valid() && Left() == old(Left())
        decreases |pulls|
      {
        if pulls == [] {
          return Eof;
        }
        var p := pulls[0];
        ghost var before := Left();
        assert before == ToCome(lib, width, pulls);
        pulls := pulls[1..];
        if p.Broke? {
          assert before[0] == StreamError && before[1..] == ToCome(lib, width, pulls) == Left();
          return StreamError;
        }
        chunk, row := Some(p.chunk), 0;
      }
      var c := chunk.value;
      RowsSplit(lib, width, c, row, pulls);
      hide RowsFrom, ToCome;
      var cells := ReadCells(c, row);
      if cells.None? {
        return CellError;
      }
      row := row + 1;
      r := Row(cells.value);
    }

    /** The loop over dest: one cell per schema column. */
    method ReadCells(c: Chunk, row: nat) returns (cells: Option<seq<Driver>>)
      ensures RowAt(lib, width, c, row) == if cells.Some? then Row(cells.value) else CellError
    {
      hide DriverCell;
      var dest: seq<Driver> := [];
      for i := 0 to width
        invariant i <= |c.cols| && DriverCells(lib, c.cols[..i], row) == Some(dest)
      {
        if i >= |c.cols| {
          return None;
        }
        assert c.cols[..i + 1][..i] == c.cols[..i];
        var cell := DriverCell(lib, c.cols[i], row);
        if cell.None? {
          if width <= |c.cols| {
            assert c.cols[..width][i] == c.cols[i];
            NoCells(lib, c.cols[..width], row, i);
          }
          return None;
        }
        dest := dest + [cell.value];
      }
      cells := Some(dest);
    }
  }

  /** database/sql's loop: Next until it gives no row. */
  method ReadAll(r: Reader) returns (rows: seq<seq<Driver>>, last: Fetched)
    requires r.Valid()
    modifies r
    ensures var left := old(r.Left());
            && |rows| <= |left| && (forall i :: 0 <= i < |rows| ==> left[i] == Row(rows[i]))
            && !last.Row? && last == if |rows| < |left| then left[|rows|] else Eof
  {
    hide RowsFrom, ToCome, RowAt, Reader.Left;
    ghost var left := r.Left();
    rows := [];
    assert left[0..] == left;
    while true
      invariant r.Valid() && |rows| <= |left| && r.Left() == left[|rows|..]
      invariant forall i :: 0 <= i < |rows| ==> left[i] == Row(rows[i])
      decreases |left| - |rows|
    {
      ghost var n := |rows|;
      assert n < |left| ==> left[n..][0] == left[n] && left[n..][1..] == left[n + 1..];
      last := r.Next();
      if !last.Row? {
        return;
      }
      rows := rows + [last.cells];
    }
  }

  /** The row at hand, and those behind it. */
  lemma RowsSplit(lib: Library, width: nat, c: Chunk, row: nat, pulls: seq<Pull>)
    requires row < c.rows
    ensures var left := RowsFrom(lib, width, c, row) + ToCome(lib, width, pulls);
            left != [] && left[0] == RowAt(lib, width, c, row) && left[1..] == RowsFrom(lib, width, c, row + 1) + ToCome(lib, width, pulls)
  {
    hide ToCome, DriverCells;
    assert RowsFrom(lib, width, c, row)[1..] == RowsFrom(lib, width, c, row + 1);
  }

  /** One failing cell fails the row. */
  lemma {:induction false} NoCells(lib: Library, cols: seq<Column>, row: nat, i: nat)
    requires i < |cols| && DriverCell(lib, cols[i], row).None?
    ensures DriverCells(lib, cols, row).None?
    decreases |cols|
  {
    hide DriverCell;
    if i < |cols| - 1 {
      NoCells(lib, cols[..|cols| - 1], row, i);
    }
  }

  lemma {:induction false} ToComeAppend(lib: Library, width: nat, a: seq<Pull>, b: seq<Pull>)
    ensures ToCome(lib, width, a + b) == ToCome(lib, width, a) + ToCome(lib, width, b)
    decreases |a|
  {
    hide RowsFrom;
    if a != [] {
      ToComeAppend(lib, width, a[1..], b);
      assert (a + b)[1..] == a[1..] + b;
    } else {
      assert a + b == b && [] + ToCome(lib, width, b) == ToCome(lib, width, b);
    }
  }

  /** A stream that failed is never read as one that ended: reading everything
      meets the error exactly when a pull gave one. */
  lemma {:induction false} FailureShows(lib: Library, width: nat, pulls: seq<Pull>)
    ensures StreamError in ToCome(lib, width, pulls) <==> Broke in pulls
    decreases |pulls|
  {
    hide RowAt;
    if pulls != [] {
      FailureShows(lib, width, pulls[1..]);
      assert Broke in pulls <==> pulls[0].Broke? || Broke in pulls[1..];
      if pulls[0].Got? {
        assert forall f <- ChunkRows(lib, width, pulls[0].chunk) :: f.Row? || f.CellError?;
      }
    }
  }

  /** As many rows are to come as the chunks have. */
  lemma {:induction false} RowsCount(lib: Library, width: nat, chunks: seq<Chunk>)
    ensures var pulls := seq(|chunks|, i requires 0 <= i < |chunks| => Got(chunks[i]));
            |ToCome(lib, width, pulls)| == TotalRows(chunks)
    decreases |chunks|
  {
    hide RowsFrom;
    var pulls := seq(|chunks|, i requires 0 <= i < |chunks| => Got(chunks[i]));
    if chunks != [] {
      RowsCount(lib, width, chunks[1..]);
      assert pulls[1..] == seq(|chunks[1..]|, i requires 0 <= i < |chunks[1..]| => Got(chunks[1..][i]));
    }
  }

  function TotalRows(chunks: seq<Chunk>): nat
  {
    if chunks == [] then 0 else chunks[0].rows + TotalRows(chunks[1..])
  }

  /** A row fails exactly when the chunk is too narrow, one of its columns
      carries an error or is too short, or one of its values does not convert;
      otherwise it has every column's value in order. */
  lemma RowExactly(lib: Library, width: nat, chunk: Chunk, row: nat)
    ensures var f := RowAt(lib, width, chunk, row);
            && (f.Row? <==> width <= |chunk.cols| && forall j :: 0 <= j < width ==> CellFine(lib, chunk.cols[j], row))
            && (f.Row? ==>
                  |f.cells| == width
                  && forall j :: 0 <= j < width ==>
                       && CellFine(lib, chunk.cols[j], row)
                       && Some(f.cells[j]) == DriverOf(lib, chunk.cols[j].typ, chunk.cols[j].content.vals[row]))
  {
    hide DriverOf;
    if width <= |chunk.cols| {
      var cols := chunk.cols[..width];
      CellsExactly(lib, cols, row);
      assert forall j :: 0 <= j < width ==> cols[j] == chunk.cols[j];
    }
  }

  /** The column has a value for the row, and it converts. */
  predicate CellFine(lib: Library, col: Column, row: nat)
  {
    col.content.Vals? && row < |col.content.vals| && DriverOf(lib, col.typ, col.content.vals[row]).Some?
  }

  lemma {:induction false} CellsExactly(lib: Library, cols: seq<Column>, row: nat)
    ensures var cells := DriverCells(lib, cols, row);
            && (cells.Some? <==> forall j :: 0 <= j < |cols| ==> CellFine(lib, cols[j], row))
            && (cells.Some? ==>
                  forall j :: 0 <= j < |cols| ==>
                    CellFine(lib, cols[j], row) && Some(cells.value[j]) == DriverOf(lib, cols[j].typ, cols[j].content.vals[row]))
    decreases |cols|
  {
    hide DriverOf;
    if cols != [] {
      var n := |cols| - 1;
      CellsExactly(lib, cols[..n], row);
      assert forall j :: 0 <= j < n ==> cols[..n][j] == cols[j];
      assert cols[n] == cols[|cols| - 1];
    }
  }
}
