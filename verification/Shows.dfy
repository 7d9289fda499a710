/** SHOW, printed seat by seat or through one bounded buffer. */
module Shows {
  import opened Buffers
  import opened Decimal
  import opened Options
  import opened Seating
  import opened EventObjects
  import opened GridBuffer
  import opened Grids
  import opened Printing

  // ----- Seat by seat -----

  /** The grid's rows fill its data, and texts are its seats as they are shown. */
  ghost predicate Shows(event: Event, texts: seq<string>)
    reads event.data
  {
    RowBase(event.cols, event.rows) == event.data.Length && texts == Texts(event.data[..])
  }

  lemma ValidShows(event: Event)
    requires event.Valid()
    ensures Shows(event, Texts(event.Value().data))
  {
    RowBaseIsProduct(event.cols, event.rows);
  }

  lemma RowOfData(cols: nat, rows: nat, i: nat)
    requires i < rows
    ensures RowBase(cols, i) + cols == RowBase(cols, i + 1) <= RowBase(cols, rows)
    ensures RowBase(cols, i) == i * cols
  {
    RowBaseGrows(cols, i + 1, rows);
    RowBaseIsProduct(cols, i);
  }

  /** Seat j of row i, both counted from 0. */
  method SeatOfRow(event: Event, i: nat, j: nat, ghost texts: seq<string>) returns (v: nat)
    requires Shows(event, texts) && i < event.rows && j < event.cols
    ensures RowBase(event.cols, i) + event.cols <= event.data.Length
    ensures v == event.data[RowBase(event.cols, i) + j] && Dec(v) == texts[RowBase(event.cols, i) + j]
  {
    RowOfData(event.cols, event.rows, i);
    TextAt(event.data[..], RowBase(event.cols, i) + j);
    return event.data[i * event.cols + j];
  }

  function SpaceUnless(last: bool): string {
    if last then "" else " "
  }

  /** What has been printed of a row after j seats: all but the last are followed by a space. */
  function RowSoFar(texts: seq<string>, base: nat, cols: nat, j: nat): string
    requires j <= cols && base + cols <= |texts|
  {
    if j == 0 then "" else RowSoFar(texts, base, cols, j - 1) + (texts[base + j - 1] + SpaceUnless(j == cols))
  }

  /** The space between two seats, counted with the one or with the other. */
  lemma SpaceMoves(row: string, space: string, text: string, after: string, piece: string)
    requires piece == space + text
    ensures row + space + (text + after) == row + piece + after
  {
  }

  lemma SpaceInPiece(first: bool, text: string)
    ensures Piece(first, text, false) == SpaceUnless(first) + text
  {
  }

  lemma {:induction false} RowSoFarIsRow(texts: seq<string>, base: nat, cols: nat, j: nat)
    requires j <= cols && base + cols <= |texts|
    ensures RowSoFar(texts, base, cols, j) == RowText(texts, base, j) + SpaceUnless(j == 0 || j == cols)
    decreases j
  {
    if j > 0 {
      RowSoFarIsRow(texts, base, cols, j - 1);
      SpaceInPiece(j == 1, texts[base + j - 1]);
      SpaceMoves(RowText(texts, base, j - 1), SpaceUnless(j == 1), texts[base + j - 1], SpaceUnless(j == cols),
                 Piece(j == 1, texts[base + j - 1], false));
    }
  }

  lemma RowDone(texts: seq<string>, base: nat, cols: nat)
    requires base + cols <= |texts|
    ensures RowSoFar(texts, base, cols, cols) == RowText(texts, base, cols)
  {
    RowSoFarIsRow(texts, base, cols, cols);
    assert RowText(texts, base, cols) + "" == RowText(texts, base, cols);
  }

  lemma {:induction false} RowPrefix(texts: seq<string>, base: nat, cols: nat, j: nat, n: nat)
    requires j <= n <= cols && base + cols <= |texts|
    ensures RowSoFar(texts, base, cols, j) <= RowSoFar(texts, base, cols, n)
    decreases n
  {
    if j < n {
      RowPrefix(texts, base, cols, j, n - 1);
    }
  }

  /** Printing one thing after another prints both, and a failure leaves a part of the whole. */
  lemma AppendedThen(a: string, b: string, c: string, first: string, second: string, result: nat)
    requires Appended(a, b, first, 0) && Appended(b, c, second, result)
    ensures Appended(a, c, first + second, result)
  {
    assert a + (first + second) == b + second;
  }

  lemma AppendedPart(a: string, b: string, part: string, whole: string)
    requires Appended(a, b, part, 1) && part <= whole
    ensures Appended(a, b, whole, 1)
  {
    assert a + whole == a + part + whole[|part|..];
  }

  /** A part, and the reason it is all there is. */
  lemma AppendedMore(a: string, b: string, c: string, first: string, second: string, whole: string, result: nat)
    requires Appended(a, b, first, 0) && Appended(b, c, second, result) && first + second <= whole
    ensures result == 0 ==> Appended(a, c, first + second, 0)
    ensures result != 0 ==> Appended(a, c, whole, 1)
  {
    AppendedThen(a, b, c, first, second, result);
    if result != 0 {
      AppendedPart(a, c, first + second, whole);
    }
  }

  /** "%u" of one seat, and a space unless it ends the row. */
  method PrintSeat(out: OutputFile, v: nat, last: bool) returns (result: nat)
    modifies out
    ensures Appended(old(out.text), out.text, Dec(v) + SpaceUnless(last), result)
  {
    ghost var start := out.text;
    result := out.PrintStr(Dec(v));
    if result != 0 {
      AppendedPart(start, out.text, Dec(v), Dec(v) + SpaceUnless(last));
      return 1;
    }
    if last {
      assert Dec(v) + "" == Dec(v);
      return 0;
    }
    ghost var middle := out.text;
    result := out.PrintStr(" ");
    AppendedThen(start, middle, out.text, Dec(v), " ", result);
  }

  /** Seat j of the row that begins at cell base; on failure a part of the row has gone out. */
  method PrintNextSeat(event: Event, i: nat, j: nat, out: OutputFile, ghost texts: seq<string>, ghost base: nat,
                       ghost start: string)
      returns (result: nat)
    requires Shows(event, texts) && i < event.rows && j < event.cols
    requires base == RowBase(event.cols, i) && base + event.cols <= |texts|
    requires Appended(start, out.text, RowSoFar(texts, base, event.cols, j), 0)
    modifies out
    ensures result == 0 ==> Appended(start, out.text, RowSoFar(texts, base, event.cols, j + 1), 0)
    ensures result != 0 ==> Appended(start, out.text, RowSoFar(texts, base, event.cols, event.cols), 1)
  {
    var v := SeatOfRow(event, i, j, texts);
    ghost var before := out.text;
    ghost var done := RowSoFar(texts, base, event.cols, j);
    result := PrintSeat(out, v, j + 1 == event.cols);
    RowPrefix(texts, base, event.cols, j + 1, event.cols);
    AppendedMore(start, before, out.text, done, texts[base + j] + SpaceUnless(j + 1 == event.cols),
                 RowSoFar(texts, base, event.cols, event.cols), result);
  }

  lemma NothingPrinted(text: string, none: string)
    requires none == ""
    ensures Appended(text, text, none, 0)
  {
  }

  /** The seats of a row. */
  method PrintSeats(event: Event, i: nat, out: OutputFile, ghost texts: seq<string>, ghost base: nat)
      returns (result: nat)
    requires Shows(event, texts) && i < event.rows
    requires base == RowBase(event.cols, i) && base + event.cols <= |texts|
    modifies out
    ensures Appended(old(out.text), out.text, RowSoFar(texts, base, event.cols, event.cols), result)
  {
    ghost var start := out.text;
    NothingPrinted(start, RowSoFar(texts, base, event.cols, 0));
    for j := 0 to event.cols
      invariant Appended(start, out.text, RowSoFar(texts, base, event.cols, j), 0)
    {
      result := PrintNextSeat(event, i, j, out, texts, base, start);
      if result != 0 {
        return 1;
      }
    }
    return 0;
  }

  method PrintRow(event: Event, i: nat, out: OutputFile, ghost texts: seq<string>) returns (result: nat)
    requires Shows(event, texts) && i < event.rows
    modifies out
    ensures Appended(old(out.text), out.text, Lines(texts, event.cols, event.rows)[i], result)
  {
    ghost var start := out.text;
    ghost var base := RowBase(event.cols, i);
    RowOfData(event.cols, event.rows, i);
    LineAt(texts, event.cols, event.rows, i);
    ghost var row := RowText(texts, base, event.cols);
    result := PrintSeats(event, i, out, texts, base);
    RowDone(texts, base, event.cols);
    if result != 0 {
      AppendedPart(start, out.text, row, row + "\n");
      return 1;
    }
    ghost var before := out.text;
    result := out.PrintStr("\n");
    AppendedThen(start, before, out.text, row, "\n", result);
  }

  /** Line i, behind the lines before it. */
  method PrintNextRow(event: Event, i: nat, out: OutputFile, ghost texts: seq<string>, ghost start: string)
      returns (result: nat)
    requires Shows(event, texts) && i < event.rows
    requires Appended(start, out.text, Joined(Lines(texts, event.cols, event.rows), 0, i), 0)
    modifies out
    ensures var lines := Lines(texts, event.cols, event.rows);
            if result == 0 then Appended(start, out.text, Joined(lines, 0, i + 1), 0)
            else Appended(start, out.text, Joined(lines, 0, event.rows), 1)
  {
    ghost var before := out.text;
    ghost var lines := Lines(texts, event.cols, event.rows);
    JoinedPrefix(lines, i + 1, event.rows);
    result := PrintRow(event, i, out, texts);
    AppendedMore(start, before, out.text, Joined(lines, 0, i), lines[i], Joined(lines, 0, event.rows), result);
  }

  method PrintRows(event: Event, out: OutputFile, ghost texts: seq<string>) returns (result: nat)
    requires Shows(event, texts)
    modifies out
    ensures Appended(old(out.text), out.text, Joined(Lines(texts, event.cols, event.rows), 0, event.rows), result)
  {
    ghost var start := out.text;
    NothingPrinted(start, Joined(Lines(texts, event.cols, event.rows), 0, 0));
    for i := 0 to event.rows
      invariant Appended(start, out.text, Joined(Lines(texts, event.cols, event.rows), 0, i), 0)
    {
      result := PrintNextRow(event, i, out, texts, start);
      if result != 0 {
        return 1;
      }
    }
    return 0;
  }

  /** The server's report on a signal: the whole grid, or a part of it and a failure. */
  method PrintGrid(event: Event, out: OutputFile) returns (result: nat)
    requires event.Valid()
    modifies out
    ensures Appended(old(out.text), out.text, GridText(event.Value()), result)
  {
    ValidShows(event);
    result := PrintRows(event, out, Texts(event.Value().data));
  }

  // ----- Through one bounded buffer -----

  /** One seat into the buffer; fails when the guard fires. */
  method AppendSeat(buffer: array<char>, length: nat, startsRow: bool, text: string) returns (ok: bool, longer: nat)
    requires length <= buffer.Length
    modifies buffer
    ensures longer <= buffer.Length
    ensures PutSeat(old(buffer[..length]), buffer.Length, startsRow, text) ==
      if ok then Some(buffer[..longer]) else None
  {
    longer := length;
    if !(length + |text| + 1 < buffer.Length) {
      return false, length;
    }
    ghost var before := buffer[..length];
    if length > 0 && !startsRow {
      CopyAt(buffer, longer, " ");
      longer := longer + 1;
    }
    CopyAt(buffer, longer, text);
    longer := longer + |text|;
    ok := true;
    SpaceAndSeat(before, text, length > 0 && !startsRow);
  }

  lemma SpaceAndSeat(before: string, text: string, space: bool)
    ensures before + Piece(!space, text, false) == if space then before + " " + text else before + text
  {
    assert before + " " + text == before + (" " + text);
  }

  method AppendNewline(buffer: array<char>, length: nat) returns (ok: bool, longer: nat)
    requires length <= buffer.Length
    modifies buffer
    ensures longer <= buffer.Length
    ensures PutNewline(old(buffer[..length]), buffer.Length) == if ok then Some(buffer[..longer]) else None
  {
    if !(length + 1 < buffer.Length) {
      return false, length;
    }
    CopyAt(buffer, length, "\n");
    return true, length + 1;
  }

  /** Seat j of row i, which starts at cell base, into the buffer. */
  method BufferSeat(event: Event, i: nat, j: nat, buffer: array<char>, length: nat,
                    ghost texts: seq<string>, ghost base: nat, ghost put: Putter)
      returns (ok: bool, longer: nat)
    requires Shows(event, texts) && i < event.rows && j < event.cols && length <= buffer.Length
    requires base == RowBase(event.cols, i) && base + event.cols <= |texts|
    requires PutsSeats(put, texts, buffer.Length)
    modifies buffer
    ensures longer <= buffer.Length
    ensures put(old(buffer[..length]), j == 0, base + j) == if ok then Some(buffer[..longer]) else None
  {
    var v := SeatOfRow(event, i, j, texts);
    assert PutsSeat(put, texts, buffer.Length, base + j);
    ok, longer := AppendSeat(buffer, length, j == 0, Dec(v));
  }

  /** The seats of row i, which starts at cell base, into the buffer. */
  method BufferSeats(event: Event, i: nat, buffer: array<char>, length: nat,
                     ghost texts: seq<string>, ghost base: nat, ghost put: Putter)
      returns (ok: bool, longer: nat)
    requires Shows(event, texts) && i < event.rows && length <= buffer.Length
    requires base == RowBase(event.cols, i) && base + event.cols <= |texts|
    requires PutsSeats(put, texts, buffer.Length)
    modifies buffer
    ensures longer <= buffer.Length
    ensures FillSeats(put, base, event.cols, old(buffer[..length])) == if ok then Some(buffer[..longer]) else None
  {
    ghost var before := buffer[..length];
    ok, longer := true, length;
    for j := 0 to event.cols
      invariant longer <= buffer.Length
      invariant FillSeats(put, base, j, before) == Some(buffer[..longer])
    {
      ok, longer := BufferSeat(event, i, j, buffer, longer, texts, base, put);
      if !ok {
        FillSeatsStops(put, base, j + 1, event.cols, before);
        return false, longer;
      }
    }
    ok := true;
  }

  /** A row and its newline. */
  method BufferRow(event: Event, i: nat, buffer: array<char>, length: nat,
                   ghost texts: seq<string>, ghost base: nat, ghost put: Putter, ghost close: Closer)
      returns (ok: bool, longer: nat)
    requires Shows(event, texts) && i < event.rows && length <= buffer.Length
    requires base == RowBase(event.cols, i) && base + event.cols <= |texts|
    requires PutsSeats(put, texts, buffer.Length) && ClosesLines(close, buffer.Length)
    modifies buffer
    ensures longer <= buffer.Length
    ensures Close(FillSeats(put, base, event.cols, old(buffer[..length])), close) ==
      if ok then Some(buffer[..longer]) else None
  {
    ok, longer := BufferSeats(event, i, buffer, length, texts, base, put);
    if ok {
      ok, longer := AppendNewline(buffer, longer);
    }
  }

  /** All rows, or failure. */
  method BufferGrid(event: Event, buffer: array<char>, ghost texts: seq<string>, ghost put: Putter, ghost close: Closer)
      returns (ok: bool, length: nat)
    requires Shows(event, texts)
    requires PutsSeats(put, texts, buffer.Length) && ClosesLines(close, buffer.Length)
    modifies buffer
    ensures length <= buffer.Length
    ensures FillRows(put, close, event.cols, event.rows) == if ok then Some(buffer[..length]) else None
  {
    ok, length := true, 0;
    for i := 0 to event.rows
      invariant length <= buffer.Length
      invariant FillRows(put, close, event.cols, i) == Some(buffer[..length])
    {
      RowOfData(event.cols, event.rows, i);
      ok, length := BufferRow(event, i, buffer, length, texts, RowBase(event.cols, i), put, close);
      if !ok {
        FillRowsStops(put, close, event.cols, i + 1, event.rows);
        return false, length;
      }
    }
    ok := true;
  }

  /** The whole grid, against what SHOW's buffer is meant to hold. */
  method BufferEvent(event: Event, buffer: array<char>) returns (ok: bool, length: nat)
    requires event.Valid() && event.cols > 0 && buffer.Length == Capacity(event.Value())
    modifies buffer
    ensures length <= buffer.Length
    ensures ShownText(event.Value()) == if ok then Some(buffer[..length]) else None
  {
    ghost var e := event.Value();
    ghost var put, close := SeatPutter(Texts(e.data), Capacity(e)), LineCloser(Capacity(e));
    ValidShows(event);
    ShowPutsSeats(Texts(e.data), Capacity(e));
    FillsAgree(put, close, event.cols, event.rows);
    ok, length := BufferGrid(event, buffer, Texts(e.data), put, close);
  }

  /**
   * The threaded SHOW: nothing is written when a guard fires; otherwise the whole text goes into one
   * write, whose count is not looked at.
   */
  method ShowThroughBuffer(event: Event, out: OutputFile) returns (result: nat, ghost written: int)
    requires event.Valid() && event.rows > 0 && event.cols > 0 && ShortIds(event.Value())
    modifies out
    ensures match ShownText(event.Value())
            case None => result == 1 && out.text == old(out.text)
            case Some(text) =>
              && (result == 0 <==> written != -1)
              && -1 <= written <= |text|
              && out.text == old(out.text) + if written == -1 then "" else text[..written]
  {
    var buffer := new char[5 * event.cols * event.rows];
    var ok, length := BufferEvent(event, buffer);
    if !ok {
      return 1, -1;
    }
    TextNotEmpty(event.Value());
    var count := out.Write(buffer[..length]);
    if count < 0 {
      return 1, count;
    }
    return 0, count;
  }

  lemma TextNotEmpty(e: EventValue)
    requires WellFormed(e) && e.rows > 0 && e.cols > 0
    ensures ShownText(e).Some? ==> ShownText(e).value != ""
  {
    RowInGrid(e, 0);
    ShowFitsExactly(e);
    CellsLength(Texts(e.data), e.cols, |e.data|);
    CellsAreLines(Texts(e.data), e.cols, e.rows);
  }
}
