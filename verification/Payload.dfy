/** Fixed-width little-endian integers. */
module Bytes {
  type Byte = b: nat | b < 256

  function LittleEndian(v: nat, width: nat): (bytes: seq<Byte>)
    ensures |bytes| == width
  {
    if width == 0 then [] else [v % 256] + LittleEndian(v / 256, width - 1)
  }

  function FromBytes(bytes: seq<Byte>): nat {
    if bytes == [] then 0 else bytes[0] + 256 * FromBytes(bytes[1..])
  }

  function Pow256(width: nat): nat {
    if width == 0 then 1 else 256 * Pow256(width - 1)
  }

  /** The low byte comes first. */
  lemma LowByteFirst()
    ensures LittleEndian(0x04030201, 4) == [1, 2, 3, 4]
  {
    assert LittleEndian(0x04030201, 4) == [1] + LittleEndian(0x040302, 3);
    assert LittleEndian(0x040302, 3) == [2] + LittleEndian(0x0403, 2);
    assert LittleEndian(0x0403, 2) == [3] + LittleEndian(4, 1) && LittleEndian(4, 1) == [4] + LittleEndian(0, 0);
  }

  lemma {:induction false} BytesBack(v: nat, width: nat)
    requires v < Pow256(width)
    ensures FromBytes(LittleEndian(v, width)) == v
  {
    if width > 0 {
      BytesBack(v / 256, width - 1);
      assert LittleEndian(v, width)[1..] == LittleEndian(v / 256, width - 1);
    }
  }
}

/** The binary SHOW reply: packed by the server, unpacked and formatted by the client. */
module Payload {
  import opened Buffers
  import opened Bytes
  import opened Decimal
  import opened Options
  import opened Sequences
  import opened Seating
  import opened EventObjects
  import opened GridBuffer
  import opened Grids
  import opened Shows
  import opened Commands
  import opened CommandSyntax
  import opened EventStore
  import opened ServerStore

  const INT_SIZE: nat := 4
  const SIZE_SIZE: nat := 8
  const HEADER_SIZE: nat := 20
  const SHOW_BUFFER: nat := 500

  // ----- The server -----

  /** The ids of the cells, four bytes each. */
  function CellBytes(data: seq<nat>): (bytes: seq<Byte>)
    ensures |bytes| == 4 * |data|
  {
    if data == [] then [] else CellBytes(data[..|data| - 1]) + LittleEndian(data[|data| - 1], INT_SIZE)
  }

  function ShowPayload(e: EventValue): (bytes: seq<Byte>)
    ensures |bytes| == HEADER_SIZE + 4 * |e.data|
  {
    LittleEndian(0, INT_SIZE) + LittleEndian(e.rows, SIZE_SIZE) + LittleEndian(e.cols, SIZE_SIZE) + CellBytes(e.data)
  }

  /** The seats in row order, copied one by one. */
  method CollectSeats(event: Event) returns (seats: array<nat>)
    requires event.Valid()
    ensures fresh(seats) && seats[..] == event.data[..]
  {
    var rows, cols := event.rows, event.cols;
    ValidShows(event);
    seats := new nat[rows * cols];
    for i := 0 to rows
      invariant RowBase(cols, i) <= seats.Length && seats[..RowBase(cols, i)] == event.data[..RowBase(cols, i)]
    {
      RowOfData(cols, rows, i);
      CollectRow(event, i, seats, RowBase(cols, i));
    }
  }

  method CollectRow(event: Event, i: nat, seats: array<nat>, ghost base: nat)
    requires RowBase(event.cols, event.rows) == event.data.Length == seats.Length
    requires seats != event.data && i < event.rows
    requires base == RowBase(event.cols, i) && base + event.cols <= seats.Length
    requires seats[..base] == event.data[..base]
    modifies seats
    ensures seats[..base + event.cols] == event.data[..base + event.cols]
  {
    ghost var texts := Texts(event.data[..]);
    for j := 0 to event.cols
      invariant seats[..base + j] == event.data[..base + j]
    {
      var v := SeatOfRow(event, i, j, texts);
      RowBaseIsProduct(event.cols, i);
      seats[i * event.cols + j] := v;
    }
  }

  method FillHeader(buffer: array<Byte>, rows: nat, cols: nat)
    requires HEADER_SIZE <= buffer.Length
    modifies buffer
    ensures buffer[..HEADER_SIZE] ==
      LittleEndian(0, INT_SIZE) + LittleEndian(rows, SIZE_SIZE) + LittleEndian(cols, SIZE_SIZE)
  {
    CopyAt(buffer, 0, LittleEndian(0, INT_SIZE));
    CopyAt(buffer, INT_SIZE, LittleEndian(rows, SIZE_SIZE));
    CopyAt(buffer, INT_SIZE + SIZE_SIZE, LittleEndian(cols, SIZE_SIZE));
  }

  method FillCells(buffer: array<Byte>, seats: seq<nat>)
    requires buffer.Length == HEADER_SIZE + 4 * |seats|
    modifies buffer
    ensures buffer[..] == old(buffer[..HEADER_SIZE]) + CellBytes(seats)
  {
    CopyAt(buffer, HEADER_SIZE, CellBytes(seats));
    assert buffer[..] == buffer[..HEADER_SIZE + |CellBytes(seats)|];
  }

  method BuildShow(event: Event) returns (buffer: array<Byte>)
    requires event.Valid()
    ensures fresh(buffer) && buffer[..] == ShowPayload(event.Value())
  {
    var count := event.cols * event.rows;
    assert count == event.data.Length;
    buffer := new Byte[INT_SIZE + 2 * SIZE_SIZE + count * 4];
    FillHeader(buffer, event.rows, event.cols);
    var seats := CollectSeats(event);
    FillCells(buffer, seats[..]);
  }

  // ----- What the client reads out of its buffer -----

  function NumberAt(bytes: seq<Byte>, at: nat, width: nat): nat
    requires at + width <= |bytes|
  {
    FromBytes(bytes[at..at + width])
  }

  function RowsIn(bytes: seq<Byte>): nat
    requires HEADER_SIZE <= |bytes|
  {
    NumberAt(bytes, INT_SIZE, SIZE_SIZE)
  }

  function ColsIn(bytes: seq<Byte>): nat
    requires HEADER_SIZE <= |bytes|
  {
    NumberAt(bytes, INT_SIZE + SIZE_SIZE, SIZE_SIZE)
  }

  function CellsIn(bytes: seq<Byte>, count: nat): (cells: seq<nat>)
    requires HEADER_SIZE + 4 * count <= |bytes|
    ensures |cells| == count
  {
    seq(count, i requires 0 <= i < count => NumberAt(bytes, HEADER_SIZE + 4 * i, INT_SIZE))
  }

  /** Values that fit their fields. */
  predicate FitsFields(e: EventValue) {
    e.rows < Pow256(SIZE_SIZE) && e.cols < Pow256(SIZE_SIZE) &&
    forall x :: 0 <= x < |e.data| ==> e.data[x] < Pow256(INT_SIZE)
  }

  lemma {:induction false} CellBytesAt(data: seq<nat>, i: nat)
    requires i < |data|
    ensures CellBytes(data)[4 * i..4 * i + 4] == LittleEndian(data[i], INT_SIZE)
  {
    var front := data[..|data| - 1];
    if i < |front| {
      CellBytesAt(front, i);
      assert CellBytes(data)[4 * i..4 * i + 4] == CellBytes(front)[4 * i..4 * i + 4];
    }
  }

  /** An id is read back at its place behind whatever header and in front of whatever follows. */
  lemma CellBack(header: seq<Byte>, data: seq<nat>, tail: seq<Byte>, i: nat)
    requires i < |data| && data[i] < Pow256(INT_SIZE)
    ensures |header| + 4 * i + 4 <= |header + CellBytes(data) + tail|
    ensures NumberAt(header + CellBytes(data) + tail, |header| + 4 * i, INT_SIZE) == data[i]
  {
    var bytes := header + CellBytes(data) + tail;
    CellBytesAt(data, i);
    assert bytes[|header| + 4 * i..|header| + 4 * i + 4] == CellBytes(data)[4 * i..4 * i + 4];
    BytesBack(data[i], INT_SIZE);
  }

  /** Whatever follows it in the client's buffer, the reply is read back as it was packed. */
  lemma PayloadBack(e: EventValue, tail: seq<Byte>)
    requires FitsFields(e)
    ensures var bytes := ShowPayload(e) + tail;
            && NumberAt(bytes, 0, INT_SIZE) == 0
            && RowsIn(bytes) == FromBytes(bytes[4..12]) == e.rows
            && ColsIn(bytes) == FromBytes(bytes[12..20]) == e.cols
            && CellsIn(bytes, |e.data|) == e.data
  {
    var bytes := ShowPayload(e) + tail;
    assert bytes[0..4] == LittleEndian(0, INT_SIZE);
    assert bytes[4..12] == LittleEndian(e.rows, SIZE_SIZE);
    assert bytes[12..20] == LittleEndian(e.cols, SIZE_SIZE);
    BytesBack(0, INT_SIZE);
    BytesBack(e.rows, SIZE_SIZE);
    BytesBack(e.cols, SIZE_SIZE);
    forall i | 0 <= i < |e.data| ensures CellsIn(bytes, |e.data|)[i] == e.data[i] {
      CellBack(ShowPayload(e)[..HEADER_SIZE], e.data, tail, i);
      assert ShowPayload(e)[..HEADER_SIZE] + CellBytes(e.data) == ShowPayload(e);
    }
  }

  // ----- The client's text -----

  /** The client's text buffer: four bytes a seat, the separators of every row, and the newlines. */
  function ClientCapacity(rows: nat, cols: nat): nat
    requires cols > 0
  {
    rows * cols * 4 + rows * (cols - 1) + rows
  }

  /** What the client writes behind a seat: a space, or the newline of its row. */
  function Separator(endsRow: bool): string {
    if endsRow then "\n" else " "
  }

  /** The client's text after p cells. */
  function ClientText(texts: seq<string>, cols: nat, p: nat): string
    requires p <= |texts|
  {
    if p == 0 then "" else
      ClientText(texts, cols, p - 1) + (texts[p - 1] + Separator(Column(cols, p) == 0))
  }

  lemma {:induction false} ClientTextLength(texts: seq<string>, cols: nat, p: nat)
    requires p <= |texts|
    ensures |ClientText(texts, cols, p)| == DigitsOf(texts, p) + p
    decreases p
  {
    if p > 0 {
      ClientTextLength(texts, cols, p - 1);
    }
  }

  /** The client writes the space behind a seat that the others write in front of the next. */
  lemma {:induction false} ClientTextIsCells(texts: seq<string>, cols: nat, p: nat)
    requires p <= |texts|
    ensures ClientText(texts, cols, p) == CellsText(texts, cols, p) + SpaceUnless(Column(cols, p) == 0)
    decreases p
  {
    if p > 0 {
      ClientTextIsCells(texts, cols, p - 1);
      MoveSpace(CellsText(texts, cols, p - 1), Column(cols, p - 1) == 0, texts[p - 1], Column(cols, p) == 0);
    }
  }

  lemma MoveSpace(before: string, startsRow: bool, text: string, endsRow: bool)
    ensures before + SpaceUnless(startsRow) + (text + Separator(endsRow)) ==
      before + Piece(startsRow, text, endsRow) + SpaceUnless(endsRow)
  {
    assert startsRow ==> before + "" == before;
    assert endsRow ==> before + Piece(startsRow, text, true) + "" == before + Piece(startsRow, text, true);
    assert before + " " + (text + "\n") == before + (" " + text + "\n");
    assert before + " " + (text + " ") == before + (" " + text) + " ";
  }

  /** After the last cell the client has the grid's text. */
  lemma ClientTextIsGrid(e: EventValue)
    requires WellFormed(e) && e.cols > 0
    ensures ClientText(Texts(e.data), e.cols, |e.data|) == GridText(e)
  {
    RowBaseIsProduct(e.cols, e.rows);
    ClientTextIsCells(Texts(e.data), e.cols, |e.data|);
    CellsAreLines(Texts(e.data), e.cols, e.rows);
    RowStarts(e.cols, e.rows);
    assert GridText(e) + "" == GridText(e);
  }

  lemma CapacityIsFivePerSeat(rows: nat, cols: nat)
    requires cols > 0
    ensures ClientCapacity(rows, cols) == 5 * (rows * cols)
  {
    assert rows * (cols - 1) + rows == rows * cols;
  }

  /** The text fits with its terminator exactly when the threaded SHOW's guards would not fire either. */
  lemma ClientBufferFitsExactly(e: EventValue)
    requires WellFormed(e) && e.rows > 0 && e.cols > 0
    ensures |GridText(e)| + 1 <= ClientCapacity(e.rows, e.cols) <==> ShownText(e) == Some(GridText(e))
  {
    ClientTextLength(Texts(e.data), e.cols, |e.data|);
    ClientTextIsGrid(e);
    CapacityIsFivePerSeat(e.rows, e.cols);
    ShowFitsExactly(e);
  }

  lemma {:induction false} DigitsGrow(texts: seq<string>, p: nat, q: nat)
    requires p <= q <= |texts| && forall x :: 0 <= x < |texts| ==> texts[x] != ""
    ensures DigitsOf(texts, p) + q - p <= DigitsOf(texts, q)
    decreases q
  {
    if p < q {
      DigitsGrow(texts, p, q - 1);
    }
  }

  /** sprintf(buffer + at, ...) */
  method Sprintf(buffer: array<char>, at: nat, text: string)
    requires at + |text| < buffer.Length
    modifies buffer
    ensures buffer[..at + |text|] == old(buffer[..at]) + text && buffer[at + |text|] == NUL
  {
    CopyAt(buffer, at, text);
    buffer[at + |text|] := NUL;
  }

  /** strcat(buffer + at, text): goes on from the first terminator, which is at nul. */
  method StrCat(buffer: array<char>, at: nat, text: string, ghost nul: nat)
    requires at <= nul && nul + |text| < buffer.Length && buffer[nul] == NUL
    requires forall x :: at <= x < nul ==> buffer[x] != NUL
    modifies buffer
    ensures buffer[..nul + |text|] == old(buffer[..nul]) + text && buffer[nul + |text|] == NUL
  {
    var end := at;
    while buffer[end] != NUL
      invariant at <= end <= nul
      decreases nul - end
    {
      end := end + 1;
    }
    Sprintf(buffer, end, text);
  }

  /** Cell p and what follows it. */
  method FormatCell(buffer: array<char>, offset: nat, text: string, endsRow: bool,
                    ghost texts: seq<string>, ghost cols: nat, ghost p: nat)
      returns (longer: nat)
    requires p < |texts| && text == texts[p] && endsRow == (Column(cols, p + 1) == 0)
    requires offset + |text| + 1 < buffer.Length && buffer[..offset] == ClientText(texts, cols, p)
    modifies buffer
    ensures longer == offset + |text| + 1 && buffer[..longer] == ClientText(texts, cols, p + 1)
  {
    Sprintf(buffer, offset, text);
    longer := offset + |text|;
    StrCat(buffer, longer, if endsRow then "\n" else " ", longer);
    longer := longer + 1;
    Associate(ClientText(texts, cols, p), text, Separator(endsRow));
  }

  lemma RoomForCell(texts: seq<string>, cols: nat, p: nat)
    requires p < |texts| && DigitsOf(texts, |texts|) < 4 * |texts| && forall x :: 0 <= x < |texts| ==> texts[x] != ""
    ensures |ClientText(texts, cols, p)| + |texts[p]| + 1 < 5 * |texts|
    ensures |ClientText(texts, cols, p + 1)| == |ClientText(texts, cols, p)| + |texts[p]| + 1
  {
    ClientTextLength(texts, cols, p);
    DigitsGrow(texts, p + 1, |texts|);
  }

  /** The client's buffer and texts for a grid that fits. */
  ghost predicate Formats(texts: seq<string>, seats: seq<nat>, buffer: array<char>) {
    && texts == Texts(seats) && buffer.Length == 5 * |texts| && DigitsOf(texts, |texts|) < 4 * |texts|
  }

  /** offset bytes of the buffer are the text of p cells. */
  ghost predicate FormattedTo(buffer: array<char>, offset: nat, texts: seq<string>, cols: nat, p: nat)
    reads buffer
  {
    && p <= |texts| && offset == |ClientText(texts, cols, p)|
    && offset < buffer.Length && buffer[..offset] == ClientText(texts, cols, p)
  }

  method FormatSeat(i: nat, j: nat, cols: nat, seats: seq<nat>, buffer: array<char>, offset: nat,
                    ghost texts: seq<string>, ghost base: nat)
      returns (longer: nat)
    requires Formats(texts, seats, buffer) && j < cols && base == RowBase(cols, i) && base + cols <= |texts|
    requires Column(cols, base) == 0 && FormattedTo(buffer, offset, texts, cols, base + j)
    modifies buffer
    ensures FormattedTo(buffer, longer, texts, cols, base + j + 1)
  {
    RowBaseIsProduct(cols, i);
    TextsNotEmpty(seats);
    TextAt(seats, base + j);
    RoomForCell(texts, cols, base + j);
    ColumnAfter(cols, base, j + 1);
    longer := FormatCell(buffer, offset, Dec(seats[i * cols + j]), j + 1 == cols, texts, cols, base + j);
  }

  method FormatRow(i: nat, cols: nat, seats: seq<nat>, buffer: array<char>, offset: nat,
                   ghost texts: seq<string>, ghost base: nat)
      returns (longer: nat)
    requires Formats(texts, seats, buffer) && base == RowBase(cols, i) && base + cols <= |texts|
    requires cols > 0 && Column(cols, base) == 0 && FormattedTo(buffer, offset, texts, cols, base)
    modifies buffer
    ensures FormattedTo(buffer, longer, texts, cols, base + cols)
  {
    longer := offset;
    for j := 0 to cols
      invariant FormattedTo(buffer, longer, texts, cols, base + j)
    {
      longer := FormatSeat(i, j, cols, seats, buffer, longer, texts, base);
    }
  }

  method FormatRows(rows: nat, cols: nat, seats: seq<nat>, buffer: array<char>, ghost texts: seq<string>)
      returns (offset: nat)
    requires Formats(texts, seats, buffer) && cols > 0 && RowBase(cols, rows) == |texts|
    modifies buffer
    ensures FormattedTo(buffer, offset, texts, cols, |texts|)
  {
    offset := 0;
    for i := 0 to rows
      invariant FormattedTo(buffer, offset, texts, cols, RowBase(cols, i))
    {
      RowOfData(cols, rows, i);
      RowStarts(cols, i);
      offset := FormatRow(i, cols, seats, buffer, offset, texts, RowBase(cols, i));
    }
  }

  /** The nested loops over the unpacked seats. */
  method FormatGrid(rows: nat, cols: nat, seats: seq<nat>, ghost e: EventValue) returns (text: string)
    requires WellFormed(e) && e.rows == rows > 0 && e.cols == cols > 0 && e.data == seats
    requires DigitsOf(Texts(e.data), |e.data|) < 4 * |e.data|
    ensures text == GridText(e)
  {
    CapacityIsFivePerSeat(rows, cols);
    RowBaseIsProduct(cols, rows);
    var buffer := new char[rows * cols * 4 + rows * (cols - 1) + rows](_ => NUL);
    var offset := FormatRows(rows, cols, seats, buffer, Texts(seats));
    ClientTextIsGrid(e);
    text := buffer[..offset];
  }

  // ----- Over the pipe -----

  /** The client's 500-byte buffer, cleared and then filled with one reply. */
  function Received(frame: seq<Byte>): (bytes: seq<Byte>)
    requires |frame| <= SHOW_BUFFER
    ensures |bytes| == SHOW_BUFFER
  {
    frame + seq(SHOW_BUFFER - |frame|, _ => 0)
  }

  /** The grid a reply describes; ids and counters are not part of it. */
  function GridIn(bytes: seq<Byte>): EventValue
    requires HEADER_SIZE <= |bytes| && HEADER_SIZE + 4 * (RowsIn(bytes) * ColsIn(bytes)) <= |bytes|
  {
    EventValue(0, RowsIn(bytes), ColsIn(bytes), 0, CellsIn(bytes, RowsIn(bytes) * ColsIn(bytes)))
  }

  /** A reply the client's buffers are large enough for. */
  predicate Readable(bytes: seq<Byte>)
    requires HEADER_SIZE <= |bytes|
  {
    && 0 < RowsIn(bytes) && 0 < ColsIn(bytes)
    && HEADER_SIZE + 4 * (RowsIn(bytes) * ColsIn(bytes)) <= |bytes|
    && var data := GridIn(bytes).data; DigitsOf(Texts(data), |data|) < 4 * |data|
  }

  method UnpackSeats(bytes: seq<Byte>, count: nat) returns (seats: array<nat>)
    requires HEADER_SIZE + 4 * count <= |bytes|
    ensures fresh(seats) && seats[..] == CellsIn(bytes, count)
  {
    seats := new nat[count];
    for i := 0 to count
      invariant seats[..i] == CellsIn(bytes, count)[..i]
    {
      seats[i] := NumberAt(bytes, HEADER_SIZE + 4 * i, INT_SIZE);
    }
  }

  /** The client's side of SHOW: an answer of 1 is an error, anything else a grid. */
  method ReceiveShow(frame: seq<Byte>) returns (result: nat, text: string)
    requires |frame| <= SHOW_BUFFER
    requires NumberAt(Received(frame), 0, INT_SIZE) == 1 || Readable(Received(frame))
    ensures result == 1 <==> NumberAt(Received(frame), 0, INT_SIZE) == 1
    ensures result != 1 ==> result == 0 && text == GridText(GridIn(Received(frame)))
  {
    var bytes := Received(frame);
    if NumberAt(bytes, 0, INT_SIZE) == 1 {
      return 1, "";
    }
    var rows, cols := RowsIn(bytes), ColsIn(bytes);
    var seats := UnpackSeats(bytes, rows * cols);
    text := FormatGrid(rows, cols, seats[..], GridIn(bytes));
    return 0, text;
  }

  /** Density keeps the ids of a small event short, so both buffers of the client suffice. */
  lemma SmallDenseEventFits(e: EventValue)
    requires Dense(e) && e.rows > 0 && e.cols > 0 && |ShowPayload(e)| <= SHOW_BUFFER
    ensures FitsFields(e) && DigitsOf(Texts(e.data), |e.data|) < 4 * |e.data|
  {
    ReservationsBounded(e);
    SmallSides(e);
    assert Pow256(INT_SIZE) == UINT_MOD;
    assert e.data[0] < 1000;
    FourDigitsEach(e.data);
  }

  lemma SmallSides(e: EventValue)
    requires WellFormed(e) && e.rows > 0 && e.cols > 0 && |e.data| <= 120
    ensures e.rows <= 120 && e.cols <= 120 && 120 < Pow256(SIZE_SIZE)
  {
    assert e.rows * e.cols >= e.rows && e.rows * e.cols >= e.cols;
    assert Pow256(SIZE_SIZE) == 0x1_0000_0000_0000_0000;
  }

  /** What arrives is readable, is no error, and describes the event's own grid. */
  lemma ReplyUnderstood(e: EventValue)
    requires Dense(e) && e.rows > 0 && e.cols > 0 && |ShowPayload(e)| <= SHOW_BUFFER
    ensures var bytes := Received(ShowPayload(e));
            && NumberAt(bytes, 0, INT_SIZE) == 0 && Readable(bytes)
            && GridText(GridIn(bytes)) == GridText(e)
  {
    SmallDenseEventFits(e);
    PayloadBack(e, seq(SHOW_BUFFER - |ShowPayload(e)|, _ => 0));
  }

  /** SHOW from the server's event to the client's text: the text the server itself would print. */
  method ShowThroughPipe(event: Event) returns (result: nat, text: string)
    requires event.Valid() && Dense(event.Value()) && event.rows > 0 && event.cols > 0
    requires |ShowPayload(event.Value())| <= SHOW_BUFFER
    ensures result == 0 && text == GridText(event.Value())
  {
    ReplyUnderstood(event.Value());
    var reply := BuildShow(event);
    result, text := ReceiveShow(reply[..]);
  }

  /** For events as the server's runs leave them, size is all that is needed. */
  lemma ServedEventsUnderstood(cmds: seq<Command>, k: nat)
    requires NonEmptyRequests(cmds) && k < |ServerReplay(cmds)|
    requires var e := ServerReplay(cmds)[k]; 0 < e.rows && 0 < e.cols && |ShowPayload(e)| <= SHOW_BUFFER
    ensures var e := ServerReplay(cmds)[k];
            var bytes := Received(ShowPayload(e));
            && WellFormed(e) && NumberAt(bytes, 0, INT_SIZE) == 0 && Readable(bytes)
            && GridText(GridIn(bytes)) == GridText(e)
            && |GridText(e)| + 1 <= ClientCapacity(e.rows, e.cols)
  {
    var e := ServerReplay(cmds)[k];
    ServerReplayWellFormed(cmds);
    ServerReplayDense(cmds, k);
    ReplyUnderstood(e);
    SmallDenseEventFits(e);
    ShowFitsExactly(e);
    ClientBufferFitsExactly(e);
  }
}
