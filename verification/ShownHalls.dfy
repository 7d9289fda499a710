/**
 * Halls as a reader of SHOW's text sees them: rows of numbers. What CREATE and RESERVE do is stated here in
 * terms of that text alone.
 */
module ShownHalls {
  import opened Decimal
  import opened Options
  import opened Seating
  import opened Grids
  import opened GridBuffer
  import opened Commands
  import opened EventStore

  // ----- Reading a grid -----

  datatype LineRead = LineRead(numbers: seq<nat>, rest: string)

  /** The numbers of one line, one space between two of them, and what follows the line. */
  function ReadLine(text: string): (r: LineRead)
    ensures |r.rest| <= |text| && (text != "" ==> |r.rest| < |text|)
    decreases |text|
  {
    var d := DigitCount(text);
    if d == 0 then LineRead([], if text == "" then "" else text[1..])
    else if d == |text| then LineRead([Value(text)], "")
    else if text[d] == ' ' then
      var more := ReadLine(text[d + 1..]);
      LineRead([Value(text[..d])] + more.numbers, more.rest)
    else LineRead([Value(text[..d])], text[d + 1..])
  }

  function ReadGrid(text: string): seq<seq<nat>>
    decreases |text|
  {
    if text == "" then [] else [ReadLine(text).numbers] + ReadGrid(ReadLine(text).rest)
  }

  /** A way to look at an event's hall, row by row. */
  type View = EventValue -> seq<seq<nat>>

  /** What SHOW's text says: place (r, c) of the hall is Shown(e)[r - 1][c - 1]. */
  function Shown(e: EventValue): seq<seq<nat>> {
    if WellFormed(e) then ReadGrid(GridText(e)) else []
  }

  /** The rest of a row from seat j on, without the space in front of that seat. */
  function RowFrom(texts: seq<string>, base: nat, j: nat, cols: nat, tail: string): string
    requires j < cols && base + cols <= |texts|
    decreases cols - j
  {
    if j + 1 == cols then texts[base + j] + (['\n'] + tail)
    else texts[base + j] + ([' '] + RowFrom(texts, base, j + 1, cols, tail))
  }

  function Separator(first: bool): string {
    if first then "" else " "
  }

  lemma SeparatorInPiece(first: bool, text: string)
    ensures Piece(first, text, false) == Separator(first) + text
  {
  }

  /** What stands in front of seat j in its row. */
  predicate InFront(texts: seq<string>, base: nat, j: nat, front: string)
    requires base + j <= |texts|
  {
    front == if j == 0 then "" else RowText(texts, base, j) + " "
  }

  /** One seat further: the seat and the space behind it move from the back to the front. */
  lemma SeatMoves(front: string, text: string, more: string, longer: string, back: string)
    requires longer == front + text && back == text + ([' '] + more)
    ensures longer + " " + more == front + back
  {
  }

  lemma LastSeatMoves(front: string, text: string, longer: string, tail: string, back: string)
    requires longer == front + text && back == text + (['\n'] + tail)
    ensures longer + "\n" + tail == front + back
  {
  }

  lemma FrontGrows(texts: seq<string>, base: nat, j: nat, front: string)
    requires base + j < |texts| && InFront(texts, base, j, front)
    ensures RowText(texts, base, j + 1) == front + texts[base + j]
  {
    RowGrows(texts, base, j, j == 0, RowText(texts, base, j));
  }

  lemma {:induction false} RowInParts(texts: seq<string>, base: nat, j: nat, cols: nat, tail: string, front: string,
                                      line: string)
    requires j < cols && base + cols <= |texts| && InFront(texts, base, j, front)
    requires line == RowText(texts, base, cols) + "\n" + tail
    ensures line == front + RowFrom(texts, base, j, cols, tail)
    decreases cols - j
  {
    var longer, back := RowText(texts, base, j + 1), RowFrom(texts, base, j, cols, tail);
    FrontGrows(texts, base, j, front);
    if j + 1 == cols {
      LastSeatMoves(front, texts[base + j], longer, tail, back);
    } else {
      RowInParts(texts, base, j + 1, cols, tail, longer + " ", line);
      SeatMoves(front, texts[base + j], RowFrom(texts, base, j + 1, cols, tail), longer, back);
    }
  }

  lemma RowGrows(texts: seq<string>, base: nat, j: nat, first: bool, row: string)
    requires base + j < |texts| && first == (j == 0) && row == RowText(texts, base, j)
    ensures RowText(texts, base, j + 1) == row + (Separator(first) + texts[base + j])
  {
    SeparatorInPiece(first, texts[base + j]);
  }

  /** A number and the byte behind it. */
  lemma NumberRead(n: nat, c: char, tail: string)
    requires !IsDigit(c)
    ensures var text := Dec(n) + ([c] + tail);
            ReadLine(text) == if c == ' ' then LineRead([n] + ReadLine(tail).numbers, ReadLine(tail).rest)
                              else LineRead([n], tail)
  {
    ValueOfDec(n);
    DigitCountOfNumeral(Dec(n), [c] + tail);
    assert (Dec(n) + ([c] + tail))[|Dec(n)| + 1..] == tail;
  }

  /** The same of any way to read a line that does this with a number. */
  ghost predicate ReadsNumber(read: string -> LineRead, n: nat, c: char, tail: string) {
    read(Dec(n) + ([c] + tail)) ==
      if c == ' ' then LineRead([n] + read(tail).numbers, read(tail).rest) else LineRead([n], tail)
  }

  ghost predicate ReadsNumbers(read: string -> LineRead) {
    forall n: nat, c: char, tail: string {:trigger ReadsNumber(read, n, c, tail)} ::
      !IsDigit(c) ==> ReadsNumber(read, n, c, tail)
  }

  lemma NumberReads(n: nat, c: char, tail: string)
    requires !IsDigit(c)
    ensures ReadsNumber(ReadLine, n, c, tail)
  {
    NumberRead(n, c, tail);
  }

  lemma ReadLineReadsNumbers()
    ensures ReadsNumbers(ReadLine)
  {
    forall n: nat, c: char, tail: string | !IsDigit(c) ensures ReadsNumber(ReadLine, n, c, tail) {
      NumberReads(n, c, tail);
    }
  }

  lemma {:induction false} RowReadFrom(read: string -> LineRead, data: seq<nat>, base: nat, j: nat, cols: nat,
                                       tail: string)
    requires ReadsNumbers(read) && j < cols && base + cols <= |data|
    ensures read(RowFrom(Texts(data), base, j, cols, tail)) == LineRead(data[base + j..base + cols], tail)
    decreases cols - j
  {
    TextAt(data, base + j);
    if j + 1 == cols {
      assert ReadsNumber(read, data[base + j], '\n', tail);
      assert data[base + j..base + cols] == [data[base + j]];
    } else {
      RowReadFrom(read, data, base, j + 1, cols, tail);
      assert ReadsNumber(read, data[base + j], ' ', RowFrom(Texts(data), base, j + 1, cols, tail));
      assert data[base + j..base + cols] == [data[base + j]] + data[base + j + 1..base + cols];
    }
  }

  lemma RowRead(data: seq<nat>, base: nat, cols: nat, tail: string)
    requires base + cols <= |data|
    ensures ReadLine(RowText(Texts(data), base, cols) + "\n" + tail) == LineRead(data[base..base + cols], tail)
  {
    if cols == 0 {
      assert RowText(Texts(data), base, cols) + "\n" + tail == ['\n'] + tail;
      assert (['\n'] + tail)[1..] == tail;
    } else {
      var line := RowText(Texts(data), base, cols) + "\n" + tail;
      RowInParts(Texts(data), base, 0, cols, tail, "", line);
      assert "" + RowFrom(Texts(data), base, 0, cols, tail) == RowFrom(Texts(data), base, 0, cols, tail);
      ReadLineReadsNumbers();
      RowReadFrom(ReadLine, data, base, 0, cols, tail);
    }
  }

  function LinesFrom(lines: seq<string>, i: nat): string
    decreases |lines| - i
  {
    if i < |lines| then lines[i] + LinesFrom(lines, i + 1) else ""
  }

  lemma {:induction false} JoinedIsLinesFrom(lines: seq<string>, i: nat)
    requires i <= |lines|
    ensures Joined(lines, 0, |lines|) == Joined(lines, 0, i) + LinesFrom(lines, i)
    decreases |lines| - i
  {
    if i < |lines| {
      JoinedIsLinesFrom(lines, i + 1);
      Join(Joined(lines, 0, i), lines[i], LinesFrom(lines, i + 1));
    } else {
      assert Joined(lines, 0, i) + "" == Joined(lines, 0, i);
    }
  }

  /** Row i of the hall, counting from 0. */
  function Row(e: EventValue, i: nat): (row: seq<nat>)
    requires WellFormed(e) && i < e.rows
    ensures |row| == e.cols
  {
    RowInGrid(e, i);
    e.data[RowBase(e.cols, i)..RowBase(e.cols, i) + e.cols]
  }

  function RowsFrom(e: EventValue, i: nat): (rows: seq<seq<nat>>)
    requires WellFormed(e) && i <= e.rows
    ensures |rows| == e.rows - i
    decreases e.rows - i
  {
    if i == e.rows then [] else [Row(e, i)] + RowsFrom(e, i + 1)
  }

  lemma {:induction false} RowsFromAt(e: EventValue, i: nat, r: nat)
    requires WellFormed(e) && i + r < e.rows
    ensures RowsFrom(e, i)[r] == Row(e, i + r)
    decreases r
  {
    if r > 0 {
      RowsFromAt(e, i + 1, r - 1);
    }
  }

  lemma LineOfRow(e: EventValue, i: nat, tail: string)
    requires WellFormed(e) && i < e.rows
    ensures ReadLine(GridLines(e)[i] + tail) == LineRead(Row(e, i), tail)
  {
    RowInGrid(e, i);
    RowBaseIsProduct(e.cols, e.rows);
    LineAt(Texts(e.data), e.cols, e.rows, i);
    RowRead(e.data, RowBase(e.cols, i), e.cols, tail);
  }

  lemma GridReadOn(line: string, tail: string, numbers: seq<nat>)
    requires line != "" && ReadLine(line + tail) == LineRead(numbers, tail)
    ensures ReadGrid(line + tail) == [numbers] + ReadGrid(tail)
  {
  }

  lemma {:induction false} LinesRead(e: EventValue, lines: seq<string>, i: nat)
    requires WellFormed(e) && lines == GridLines(e) && i <= e.rows
    ensures ReadGrid(LinesFrom(lines, i)) == RowsFrom(e, i)
    decreases e.rows - i
  {
    if i < e.rows {
      LinesRead(e, lines, i + 1);
      LineOfRow(e, i, LinesFrom(lines, i + 1));
      GridReadOn(lines[i], LinesFrom(lines, i + 1), Row(e, i));
    }
  }

  /** SHOW's text gives the whole grid back, row by row. */
  lemma ShownIsRows(e: EventValue)
    requires WellFormed(e)
    ensures Shown(e) == RowsFrom(e, 0)
  {
    JoinedIsLinesFrom(GridLines(e), 0);
    assert "" + LinesFrom(GridLines(e), 0) == LinesFrom(GridLines(e), 0);
    LinesRead(e, GridLines(e), 0);
  }

  /** The numbers shown, without the text they come from. */
  ghost predicate IsHall(e: EventValue, hall: seq<seq<nat>>)
    requires WellFormed(e)
  {
    hall == RowsFrom(e, 0)
  }

  lemma HallShape(e: EventValue, hall: seq<seq<nat>>)
    requires WellFormed(e) && IsHall(e, hall)
    ensures |hall| == e.rows && forall r :: 0 <= r < e.rows ==> |hall[r]| == e.cols
  {
    forall r | 0 <= r < e.rows ensures |hall[r]| == e.cols {
      RowsFromAt(e, 0, r);
    }
  }

  lemma CellOfPlace(e: EventValue, s: Seat)
    requires WellFormed(e) && InBounds(e, s)
    ensures SeatIndex(e.cols, s) == RowBase(e.cols, s.row - 1) + s.col - 1
    ensures 0 <= SeatIndex(e.cols, s) < |e.data|
  {
    SeatIndexInRange(e, s);
    RowBaseIsProduct(e.cols, s.row - 1);
  }

  lemma RowPlace(e: EventValue, i: nat, j: nat)
    requires WellFormed(e) && i < e.rows && j < e.cols
    ensures RowBase(e.cols, i) + j < |e.data| && Row(e, i)[j] == e.data[RowBase(e.cols, i) + j]
  {
    RowInGrid(e, i);
  }

  /** The cell behind a place of the text. */
  lemma HallPlace(e: EventValue, hall: seq<seq<nat>>, s: Seat)
    requires WellFormed(e) && IsHall(e, hall) && InBounds(e, s)
    ensures |hall| == e.rows && |hall[s.row - 1]| == e.cols
    ensures 0 <= SeatIndex(e.cols, s) < |e.data|
    ensures hall[s.row - 1][s.col - 1] == e.data[SeatIndex(e.cols, s)]
  {
    RowsFromAt(e, 0, s.row - 1);
    CellOfPlace(e, s);
    RowPlace(e, s.row - 1, s.col - 1);
  }

  // ----- Reserving -----

  predicate Shows(hall: seq<seq<nat>>, s: Seat, v: nat) {
    1 <= s.row <= |hall| && 1 <= s.col <= |hall[s.row - 1]| && hall[s.row - 1][s.col - 1] == v
  }

  /** Every seat is a place of the hall, and shown as free. */
  predicate FreePlaces(hall: seq<seq<nat>>, seats: seq<Seat>) {
    forall i :: 0 <= i < |seats| ==> Shows(hall, seats[i], 0)
  }

  /** The places of these seats show rid now, all others what they showed before. */
  predicate TakenBy(before: seq<seq<nat>>, after: seq<seq<nat>>, seats: seq<Seat>, rid: nat) {
    && |after| == |before|
    && (forall r :: 0 <= r < |before| ==> |after[r]| == |before[r]|)
    && (forall r, c {:trigger after[r][c]} :: 0 <= r < |before| && 0 <= c < |before[r]| ==>
          after[r][c] == if Seat(r + 1, c + 1) in seats then rid else before[r][c])
  }

  /** strict: a request that names a seat twice is refused, but for the moment the counter wraps to 0. */
  predicate Grants(view: View, e: EventValue, seats: seq<Seat>, strict: bool) {
    FreePlaces(view(e), seats) && (strict ==> Distinct(seats) || e.reservations == UINT_MOD - 1)
  }

  /** All or nothing: each seat of a granted request shows the next number, and nothing else changes. */
  predicate Reserves(view: View, e: EventValue, seats: seq<Seat>, strict: bool, after: EventValue) {
    if Grants(view, e, seats, strict) then
      var rid := if e.reservations == UINT_MOD - 1 then 0 else e.reservations + 1;
      WellFormed(after) && after.id == e.id && after.reservations == rid && TakenBy(view(e), view(after), seats, rid)
    else after == e
  }

  /** A view that shows every hall as it is. */
  ghost predicate TrueView(view: View) {
    forall e {:trigger view(e)} :: WellFormed(e) ==> IsHall(e, view(e))
  }

  lemma FreePlace(e: EventValue, hall: seq<seq<nat>>, s: Seat)
    requires WellFormed(e) && IsHall(e, hall)
    ensures InBounds(e, s) && CellFree(e, s) <==> Shows(hall, s, 0)
  {
    HallShape(e, hall);
    if InBounds(e, s) {
      HallPlace(e, hall, s);
    }
  }

  lemma FreeAsShown(e: EventValue, hall: seq<seq<nat>>, seats: seq<Seat>)
    requires WellFormed(e) && IsHall(e, hall)
    ensures LenientAccepts(e, seats) <==> FreePlaces(hall, seats)
  {
    forall i | 0 <= i < |seats|
      ensures InBounds(e, seats[i]) && CellFree(e, seats[i]) <==> Shows(hall, seats[i], 0)
    {
      FreePlace(e, hall, seats[i]);
    }
  }

  /** Which cells a request marks: those of its own seats. */
  lemma MarkedPlace(e: EventValue, seats: seq<Seat>, s: Seat)
    requires AllInBounds(e, seats) && InBounds(e, s)
    ensures SeatIndex(e.cols, s) in Indices(e.cols, seats) <==> s in seats
  {
    var cells := Indices(e.cols, seats);
    forall i | 0 <= i < |seats| ensures cells[i] == SeatIndex(e.cols, s) <==> seats[i] == s {
      SeatIndexInjective(e, seats[i], s);
    }
    assert s in seats ==> exists i :: 0 <= i < |seats| && seats[i] == s && cells[i] == SeatIndex(e.cols, s);
  }

  lemma PlaceAfterwards(e: EventValue, after: EventValue, hall: seq<seq<nat>>, later: seq<seq<nat>>,
                        seats: seq<Seat>, s: Seat)
    requires WellFormed(e) && WellFormed(after) && IsHall(e, hall) && IsHall(after, later)
    requires LenientAccepts(e, seats) && after == Commit(e, seats) && InBounds(e, s)
    ensures |hall| == |later| == e.rows && |hall[s.row - 1]| == |later[s.row - 1]| == e.cols
    ensures later[s.row - 1][s.col - 1] == if s in seats then NextId(e) else hall[s.row - 1][s.col - 1]
  {
    HallPlace(e, hall, s);
    HallPlace(after, later, s);
    MarkedPlace(e, seats, s);
  }

  lemma CommitAsShown(e: EventValue, after: EventValue, hall: seq<seq<nat>>, later: seq<seq<nat>>, seats: seq<Seat>)
    requires WellFormed(e) && WellFormed(after) && IsHall(e, hall) && IsHall(after, later)
    requires LenientAccepts(e, seats) && after == Commit(e, seats)
    ensures TakenBy(hall, later, seats, NextId(e))
  {
    HallShape(e, hall);
    HallShape(after, later);
    forall r, c | 0 <= r < e.rows && 0 <= c < e.cols
      ensures later[r][c] == if Seat(r + 1, c + 1) in seats then NextId(e) else hall[r][c]
    {
      PlaceAfterwards(e, after, hall, later, seats, Seat(r + 1, c + 1));
    }
  }

  lemma NextIdPlain(e: EventValue)
    requires WellFormed(e)
    ensures NextId(e) == if e.reservations == UINT_MOD - 1 then 0 else e.reservations + 1
  {
  }

  lemma StrictInView(view: View, e: EventValue, seats: seq<Seat>)
    requires TrueView(view) && WellFormed(e)
    ensures StrictAccepts(e, seats) <==> Grants(view, e, seats, true)
    ensures Reserves(view, e, seats, true, Strict(e, seats))
  {
    NextIdPlain(e);
    FreeAsShown(e, view(e), seats);
    if StrictAccepts(e, seats) {
      CommitAsShown(e, Commit(e, seats), view(e), view(Commit(e, seats)), seats);
    }
  }

  lemma LenientInView(view: View, e: EventValue, seats: seq<Seat>)
    requires TrueView(view) && WellFormed(e)
    ensures LenientAccepts(e, seats) <==> Grants(view, e, seats, false)
    ensures Reserves(view, e, seats, false, Lenient(e, seats))
  {
    NextIdPlain(e);
    FreeAsShown(e, view(e), seats);
    if LenientAccepts(e, seats) {
      CommitAsShown(e, Commit(e, seats), view(e), view(Commit(e, seats)), seats);
    }
  }

  lemma ShownIsTrue()
    ensures TrueView(Shown)
  {
    forall e | WellFormed(e) ensures IsHall(e, Shown(e)) {
      ShownIsRows(e);
    }
  }

  lemma StrictAsShown(e: EventValue, seats: seq<Seat>)
    requires WellFormed(e)
    ensures StrictAccepts(e, seats) <==> Grants(Shown, e, seats, true)
    ensures Reserves(Shown, e, seats, true, Strict(e, seats))
  {
    ShownIsTrue();
    StrictInView(Shown, e, seats);
  }

  lemma LenientAsShown(e: EventValue, seats: seq<Seat>)
    requires WellFormed(e)
    ensures LenientAccepts(e, seats) <==> Grants(Shown, e, seats, false)
    ensures Reserves(Shown, e, seats, false, Lenient(e, seats))
  {
    ShownIsTrue();
    LenientInView(Shown, e, seats);
  }

  // ----- Creating -----

  function Repeated(text: string, n: nat): string {
    if n == 0 then "" else Repeated(text, n - 1) + text
  }

  /** A row of free seats. */
  function FreeRow(cols: nat): string {
    (if cols == 0 then "" else "0" + Repeated(" 0", cols - 1)) + "\n"
  }

  lemma {:induction false} ZerosShown(texts: seq<string>, base: nat, j: nat)
    requires base + j <= |texts| && forall x :: 0 <= x < |texts| ==> texts[x] == "0"
    ensures RowText(texts, base, j) == if j == 0 then "" else "0" + Repeated(" 0", j - 1)
    decreases j
  {
    if j > 0 {
      ZerosShown(texts, base, j - 1);
      RowGrows(texts, base, j - 1, j == 1, RowText(texts, base, j - 1));
      ZeroMoves(RowText(texts, base, j - 1), j, j == 1);
    }
  }

  lemma ZeroMoves(row: string, j: nat, first: bool)
    requires j > 0 && first == (j == 1) && row == if first then "" else "0" + Repeated(" 0", j - 2)
    ensures row + (Separator(first) + "0") == "0" + Repeated(" 0", j - 1)
  {
    if !first {
      Join("0", Repeated(" 0", j - 2), " 0");
    }
  }

  lemma ZeroTexts(n: nat)
    ensures forall x :: 0 <= x < n ==> Texts(Zeros(n))[x] == "0"
  {
    forall x | 0 <= x < n ensures Texts(Zeros(n))[x] == "0" {
      TextAt(Zeros(n), x);
    }
  }

  lemma {:induction false} FreeRowsShown(lines: seq<string>, line: string, n: nat)
    requires n <= |lines| && forall i :: 0 <= i < n ==> lines[i] == line
    ensures Joined(lines, 0, n) == Repeated(line, n)
    decreases n
  {
    if n > 0 {
      FreeRowsShown(lines, line, n - 1);
    }
  }

  lemma NewRowShown(texts: seq<string>, rows: nat, cols: nat, i: nat)
    requires RowBase(cols, rows) <= |texts| && i < rows && forall x :: 0 <= x < |texts| ==> texts[x] == "0"
    ensures Lines(texts, cols, rows)[i] == FreeRow(cols)
  {
    LineAt(texts, cols, rows, i);
    ZerosShown(texts, RowBase(cols, i), cols);
  }

  lemma NewHallShown(e: EventValue, rows: nat, cols: nat)
    requires WellFormed(e) && e.rows == rows && e.cols == cols && e.data == Zeros(rows * cols)
    ensures GridText(e) == Repeated(FreeRow(cols), rows)
  {
    RowBaseIsProduct(cols, rows);
    ZeroTexts(|e.data|);
    forall i | 0 <= i < rows ensures GridLines(e)[i] == FreeRow(cols) {
      NewRowShown(Texts(e.data), rows, cols, i);
    }
    FreeRowsShown(GridLines(e), FreeRow(cols), rows);
  }

  /** A request for one seat of a new hall. */
  lemma NewHallBounds(id: nat, rows: nat, cols: nat, s: Seat)
    ensures var e := NewEvent(id, rows, cols);
            && (StrictAccepts(e, [s]) <==> 1 <= s.row <= rows && 1 <= s.col <= cols)
            && (LenientAccepts(e, [s]) <==> 1 <= s.row <= rows && 1 <= s.col <= cols)
  {
    var e := NewEvent(id, rows, cols);
    if InBounds(e, s) {
      SeatIndexInRange(e, s);
    }
    assert AllInBounds(e, [s]) ==> InBounds(e, [s][0]);
  }

  /** CREATE is granted exactly when no event has the id. */
  lemma CreateGrantedExactly(store: Store, id: nat, rows: nat, cols: nat)
    ensures Report(store, Create(id, rows, cols)) ==
      if exists k :: 0 <= k < |store| && store[k].id == id then Failed else Created
    ensures Report(store, Create(id, rows, cols)) == Failed ==> Apply(store, Create(id, rows, cols)) == store
  {
  }

  /** It then adds a hall that SHOW shows as rows lines of cols zeros. */
  lemma CreatesHall(store: Store, id: nat, rows: nat, cols: nat)
    requires Report(store, Create(id, rows, cols)) == Created
    ensures var after := Apply(store, Create(id, rows, cols));
      && |after| == |store| + 1 && after[..|store|] == store && after[|store|].id == id
      && WellFormed(after[|store|]) && GridText(after[|store|]) == Repeated(FreeRow(cols), rows)
  {
    NewHallShown(NewEvent(id, rows, cols), rows, cols);
  }

  /** ... and whose seats are (1, 1) to (rows, cols): under both rules a request for one other is refused. */
  lemma CreatedHallBounds(store: Store, id: nat, rows: nat, cols: nat, s: Seat)
    requires Report(store, Create(id, rows, cols)) == Created
    ensures var after := Apply(store, Create(id, rows, cols));
            var seatExists := 1 <= s.row <= rows && 1 <= s.col <= cols;
      && Report(after, Reserve(id, [s])) == (if seatExists then Reserved(1) else Failed)
      && (LenientReserveGranted(after, id, [s]) <==> seatExists)
  {
    NewHallBounds(id, rows, cols, s);
    LastFound(Apply(store, Create(id, rows, cols)), id);
  }

  lemma LastFound(store: Store, id: nat)
    requires store != [] && store[|store| - 1].id == id && forall k :: 0 <= k < |store| - 1 ==> store[k].id != id
    ensures Find(store, id) == Some(|store| - 1)
  {
  }

  /** RESERVE in a list of events with different ids is granted or refused on its event, and changes no other. */
  lemma ReservesInHall(store: Store, id: nat, seats: seq<Seat>, k: nat)
    requires UniqueIds(store) && k < |store| && WellFormed(store[k]) && store[k].id == id
    ensures var after := Apply(store, Reserve(id, seats));
            && |after| == |store| && (forall m :: 0 <= m < |store| && m != k ==> after[m] == store[m])
            && Reserves(Shown, store[k], seats, true, after[k])
            && Report(store, Reserve(id, seats)) ==
                 if Grants(Shown, store[k], seats, true) then Reserved(after[k].reservations) else Failed
  {
    FindUnique(store, k);
    StrictAsShown(store[k], seats);
  }

  /** The same on the server, where a request may name a seat twice. */
  lemma ServerReservesInHall(store: Store, id: nat, seats: seq<Seat>, k: nat)
    requires UniqueIds(store) && k < |store| && WellFormed(store[k]) && store[k].id == id
    ensures var after := ApplyLenient(store, id, seats);
            && |after| == |store| && (forall m :: 0 <= m < |store| && m != k ==> after[m] == store[m])
            && Reserves(Shown, store[k], seats, false, after[k])
            && (LenientReserveGranted(store, id, seats) <==> Grants(Shown, store[k], seats, false))
  {
    FindUnique(store, k);
    LenientAsShown(store[k], seats);
  }

  /** Without an event of the id nothing is reserved. */
  lemma ReservesNowhere(store: Store, id: nat, seats: seq<Seat>)
    requires forall k :: 0 <= k < |store| ==> store[k].id != id
    ensures Apply(store, Reserve(id, seats)) == store && Report(store, Reserve(id, seats)) == Failed
    ensures ApplyLenient(store, id, seats) == store && !LenientReserveGranted(store, id, seats)
  {
  }
}
