/** The text of a grid, and when the bounded buffer of the threaded SHOW holds it. */
module Grids {
  import opened Decimal
  import opened Options
  import opened Seating
  import opened GridBuffer

  /** The seats as they are shown. */
  function Texts(data: seq<nat>): (texts: seq<string>)
    ensures |texts| == |data|
  {
    if data == [] then [] else Texts(data[..|data| - 1]) + [Dec(data[|data| - 1])]
  }

  lemma {:induction false} TextAt(data: seq<nat>, x: nat)
    requires x < |data|
    ensures Texts(data)[x] == Dec(data[x])
    decreases |data|
  {
    if x < |data| - 1 {
      TextAt(data[..|data| - 1], x);
    }
  }

  lemma TextsNotEmpty(data: seq<nat>)
    ensures forall x :: 0 <= x < |data| ==> Texts(data)[x] != ""
  {
    forall x | 0 <= x < |data| ensures Texts(data)[x] != "" {
      TextAt(data, x);
    }
  }

  /** The first j seats of the row that starts at cell base, separated by spaces. */
  function RowText(texts: seq<string>, base: nat, j: nat): string
    requires base + j <= |texts|
  {
    if j == 0 then "" else RowText(texts, base, j - 1) + Piece(j == 1, texts[base + j - 1], false)
  }

  /** The cell row i starts at. */
  function RowBase(cols: nat, i: nat): nat {
    if i == 0 then 0 else RowBase(cols, i - 1) + cols
  }

  lemma {:induction false} RowBaseIsProduct(cols: nat, i: nat)
    ensures RowBase(cols, i) == i * cols
  {
    if i > 0 {
      RowBaseIsProduct(cols, i - 1);
    }
  }

  lemma {:induction false} RowBaseGrows(cols: nat, i: nat, j: nat)
    requires i <= j
    ensures RowBase(cols, i) <= RowBase(cols, j)
    decreases j
  {
    if i < j {
      RowBaseGrows(cols, i, j - 1);
    }
  }

  /** Every row lies inside the grid, and the rows fill it. */
  lemma RowInGrid(e: EventValue, i: nat)
    requires WellFormed(e) && i < e.rows
    ensures RowBase(e.cols, i) + e.cols == RowBase(e.cols, i + 1) <= |e.data| == RowBase(e.cols, e.rows)
  {
    RowBaseGrows(e.cols, i + 1, e.rows);
    RowBaseIsProduct(e.cols, e.rows);
  }

  /** The first n rows, a line each. */
  function Lines(texts: seq<string>, cols: nat, n: nat): (lines: seq<string>)
    requires RowBase(cols, n) <= |texts|
    ensures |lines| == n
  {
    if n == 0 then [] else Lines(texts, cols, n - 1) + [RowText(texts, RowBase(cols, n - 1), cols) + "\n"]
  }

  /** n parts from the one at base on, one behind the other. */
  function Joined(parts: seq<string>, base: nat, n: nat): string
    requires base + n <= |parts|
  {
    if n == 0 then "" else Joined(parts, base, n - 1) + parts[base + n - 1]
  }

  function GridLines(e: EventValue): (lines: seq<string>)
    requires WellFormed(e)
    ensures |lines| == e.rows
  {
    RowBaseIsProduct(e.cols, e.rows);
    Lines(Texts(e.data), e.cols, e.rows)
  }

  function GridText(e: EventValue): string
    requires WellFormed(e)
  {
    Joined(GridLines(e), 0, e.rows)
  }

  lemma {:induction false} LineAt(texts: seq<string>, cols: nat, n: nat, i: nat)
    requires i < n && RowBase(cols, n) <= |texts|
    ensures RowBase(cols, i) + cols <= |texts|
    ensures Lines(texts, cols, n)[i] == RowText(texts, RowBase(cols, i), cols) + "\n"
    decreases n
  {
    if i < n - 1 {
      LineAt(texts, cols, n - 1, i);
    }
  }

  lemma {:induction false} JoinedPrefix(parts: seq<string>, i: nat, j: nat)
    requires i <= j <= |parts|
    ensures Joined(parts, 0, i) <= Joined(parts, 0, j)
    decreases j
  {
    if i < j {
      JoinedPrefix(parts, i, j - 1);
    }
  }

  /** Columns count up from a place where a row starts. */
  lemma {:induction false} ColumnAfter(cols: nat, base: nat, j: nat)
    requires j <= cols && cols > 0 && Column(cols, base) == 0
    ensures Column(cols, base + j) == if j == cols then 0 else j
  {
    if j > 0 {
      ColumnAfter(cols, base, j - 1);
    }
  }

  lemma {:induction false} RowStarts(cols: nat, i: nat)
    requires cols > 0
    ensures Column(cols, RowBase(cols, i)) == 0
  {
    if i > 0 {
      RowStarts(cols, i - 1);
      ColumnAfter(cols, RowBase(cols, i - 1), cols);
    }
  }

  // ----- The bounded buffer -----

  /** How one seat goes into the buffer, given whether it starts its row; nothing when a guard fires. */
  type Putter = (string, bool, nat) -> Option<string>

  /** How a row is closed; nothing when a guard fires. */
  type Closer = string -> Option<string>

  function Close(filled: Option<string>, close: Closer): Option<string> {
    match filled
    case None => None
    case Some(text) => close(text)
  }

  /** What the buffer holds after the first p cells, or nothing when a guard fired before. */
  function Fill(put: Putter, close: Closer, cols: nat, p: nat): Option<string> {
    if p == 0 then Some("") else
      match Fill(put, close, cols, p - 1)
      case None => None
      case Some(buffer) =>
        var longer := put(buffer, Column(cols, p - 1) == 0, p - 1);
        if Column(cols, p) == 0 then Close(longer, close) else longer
  }

  /** Nothing once a guard has fired. */
  lemma {:induction false} FillStops(put: Putter, close: Closer, cols: nat, p: nat, q: nat)
    requires p <= q && Fill(put, close, cols, p).None?
    ensures Fill(put, close, cols, q).None?
    decreases q
  {
    if p < q {
      FillStops(put, close, cols, p, q - 1);
    }
  }

  /** j seats of the row that starts at cell base, behind what is in the buffer; no newline yet. */
  function FillSeats(put: Putter, base: nat, j: nat, buffer: string): Option<string> {
    if j == 0 then Some(buffer) else
      match FillSeats(put, base, j - 1, buffer)
      case None => None
      case Some(longer) => put(longer, j == 1, base + j - 1)
  }

  /** The first i rows, row by row. */
  function FillRows(put: Putter, close: Closer, cols: nat, i: nat): Option<string> {
    if i == 0 then Some("") else
      match FillRows(put, close, cols, i - 1)
      case None => None
      case Some(buffer) => Close(FillSeats(put, RowBase(cols, i - 1), cols, buffer), close)
  }

  lemma {:induction false} FillSeatsStops(put: Putter, base: nat, j: nat, n: nat, buffer: string)
    requires j <= n && FillSeats(put, base, j, buffer).None?
    ensures FillSeats(put, base, n, buffer).None?
    decreases n
  {
    if j < n {
      FillSeatsStops(put, base, j, n - 1, buffer);
    }
  }

  lemma {:induction false} FillRowsStops(put: Putter, close: Closer, cols: nat, i: nat, n: nat)
    requires i <= n && FillRows(put, close, cols, i).None?
    ensures FillRows(put, close, cols, n).None?
    decreases n
  {
    if i < n {
      FillRowsStops(put, close, cols, i, n - 1);
    }
  }

  lemma {:induction false} FillInsideRow(put: Putter, close: Closer, cols: nat, base: nat, j: nat, buffer: string)
    requires j < cols && Column(cols, base) == 0 && Fill(put, close, cols, base) == Some(buffer)
    ensures Fill(put, close, cols, base + j) == FillSeats(put, base, j, buffer)
    decreases j
  {
    if j > 0 {
      FillInsideRow(put, close, cols, base, j - 1, buffer);
      ColumnAfter(cols, base, j - 1);
      ColumnAfter(cols, base, j);
    }
  }

  lemma FillWholeRow(put: Putter, close: Closer, cols: nat, base: nat, buffer: string)
    requires 0 < cols && Column(cols, base) == 0 && Fill(put, close, cols, base) == Some(buffer)
    ensures Fill(put, close, cols, base + cols) == Close(FillSeats(put, base, cols, buffer), close)
  {
    FillInsideRow(put, close, cols, base, cols - 1, buffer);
    ColumnAfter(cols, base, cols - 1);
    ColumnAfter(cols, base, cols);
  }

  /** One more row, cell by cell. */
  lemma RowFills(put: Putter, close: Closer, cols: nat, base: nat, next: nat, before: Option<string>)
    requires 0 < cols && Column(cols, base) == 0 && next == base + cols
    requires Fill(put, close, cols, base) == before
    ensures Fill(put, close, cols, next) ==
      match before
      case None => None
      case Some(buffer) => Close(FillSeats(put, base, cols, buffer), close)
  {
    if before.None? {
      FillStops(put, close, cols, base, next);
    } else {
      FillWholeRow(put, close, cols, base, before.value);
    }
  }

  /** Filling the buffer row by row and cell by cell comes to the same. */
  lemma {:induction false} FillsAgree(put: Putter, close: Closer, cols: nat, i: nat)
    requires 0 < cols
    ensures Fill(put, close, cols, RowBase(cols, i)) == FillRows(put, close, cols, i)
    decreases i
  {
    if i > 0 {
      FillsAgree(put, close, cols, i - 1);
      RowStarts(cols, i - 1);
      RowFills(put, close, cols, RowBase(cols, i - 1), RowBase(cols, i), FillRows(put, close, cols, i - 1));
    }
  }

  // ----- The buffer of SHOW -----

  function SeatPutter(texts: seq<string>, capacity: nat): Putter {
    (buffer: string, startsRow: bool, p: nat) =>
      if p < |texts| then PutSeat(buffer, capacity, startsRow, texts[p]) else None
  }

  function LineCloser(capacity: nat): Closer {
    (buffer: string) => PutNewline(buffer, capacity)
  }

  /** What SHOW's buffer holds after the first p cells of an event. */
  function FillOf(e: EventValue, p: nat): Option<string> {
    Fill(SeatPutter(Texts(e.data), Capacity(e)), LineCloser(Capacity(e)), e.cols, p)
  }

  /** What it ends up with. */
  function ShownText(e: EventValue): Option<string> {
    FillOf(e, |e.data|)
  }

  /** put and close are the ones of a buffer of the given capacity, for cell p of texts. */
  ghost predicate PutsSeat(put: Putter, texts: seq<string>, capacity: nat, p: nat)
    requires p < |texts|
  {
    forall buffer: string, startsRow: bool {:trigger put(buffer, startsRow, p)} ::
      put(buffer, startsRow, p) == PutSeat(buffer, capacity, startsRow, texts[p])
  }

  ghost predicate PutsSeats(put: Putter, texts: seq<string>, capacity: nat) {
    forall p: nat {:trigger PutsSeat(put, texts, capacity, p)} :: p < |texts| ==> PutsSeat(put, texts, capacity, p)
  }

  ghost predicate ClosesLines(close: Closer, capacity: nat) {
    forall buffer: string {:trigger close(buffer)} :: close(buffer) == PutNewline(buffer, capacity)
  }

  lemma ShowPutsSeats(texts: seq<string>, capacity: nat)
    ensures PutsSeats(SeatPutter(texts, capacity), texts, capacity) && ClosesLines(LineCloser(capacity), capacity)
  {
  }

  /** One cell of the threaded SHOW is one step of Fill. */
  lemma PutCellFills(e: EventValue, p: nat, buffer: string)
    requires p < |e.data| && FillOf(e, p) == Some(buffer)
    ensures FillOf(e, p + 1) == PutCell(buffer, e.cols, Capacity(e), Dec(e.data[p]), p)
  {
    TextAt(e.data, p);
  }

  /** How many characters the first p seats take by themselves. */
  function DigitsOf(texts: seq<string>, p: nat): nat
    requires p <= |texts|
  {
    if p == 0 then 0 else DigitsOf(texts, p - 1) + |texts[p - 1]|
  }

  /** The text of the first p cells, row after row. */
  function CellsText(texts: seq<string>, cols: nat, p: nat): string
    requires p <= |texts|
  {
    if p == 0 then "" else
      CellsText(texts, cols, p - 1) + Piece(Column(cols, p - 1) == 0, texts[p - 1], Column(cols, p) == 0)
  }

  /** The guards let p cells through. A row's first cell and its newline are the ones counted strictly. */
  predicate Fits(texts: seq<string>, cols: nat, capacity: nat, p: nat)
    requires p <= |texts|
  {
    p == 0 ||
    DigitsOf(texts, p) + p < capacity + if Column(cols, p) == 0 || Column(cols, p - 1) == 0 then 0 else 1
  }

  lemma PieceLength(first: bool, text: string, last: bool)
    ensures |Piece(first, text, last)| == |text| + (if first then 0 else 1) + if last then 1 else 0
  {
  }

  lemma {:induction false} CellsLength(texts: seq<string>, cols: nat, p: nat)
    requires p <= |texts| && cols > 0
    ensures |CellsText(texts, cols, p)| == DigitsOf(texts, p) + p - if Column(cols, p) == 0 then 0 else 1
  {
    if p > 0 {
      CellsLength(texts, cols, p - 1);
      PieceLength(Column(cols, p - 1) == 0, texts[p - 1], Column(cols, p) == 0);
    }
  }

  /** One cell, in terms of lengths alone. */
  lemma CellExactly(buffer: string, capacity: nat, text: string, startsRow: bool, endsRow: bool)
    requires buffer == "" ==> startsRow
    ensures var length := |buffer| + |text| + 1;
            var longer := PutSeat(buffer, capacity, startsRow, text);
            (if endsRow && longer.Some? then PutNewline(longer.value, capacity) else longer) ==
              if length < capacity && (endsRow && !startsRow ==> length + 1 < capacity)
              then Some(buffer + Piece(startsRow, text, endsRow)) else None
  {
    PieceLength(startsRow, text, false);
    Join(buffer, Piece(startsRow, text, false), "\n");
  }

  /** How the buffer is filled, in terms of the text and the lengths of its seats. */
  lemma {:induction false} FillExactly(put: Putter, close: Closer, texts: seq<string>, cols: nat, capacity: nat, p: nat)
    requires PutsSeats(put, texts, capacity) && ClosesLines(close, capacity)
    requires p <= |texts| && cols > 0 && forall x :: 0 <= x < |texts| ==> texts[x] != ""
    ensures Fill(put, close, cols, p) ==
      if Fits(texts, cols, capacity, p) then Some(CellsText(texts, cols, p)) else None
    decreases p
  {
    if p > 0 {
      FillExactly(put, close, texts, cols, capacity, p - 1);
      FitsEarlier(texts, cols, capacity, p);
      if Fits(texts, cols, capacity, p - 1) {
        assert PutsSeat(put, texts, capacity, p - 1);
        FillOne(texts, cols, capacity, p - 1, CellsText(texts, cols, p - 1));
      }
    }
  }

  lemma FillOne(texts: seq<string>, cols: nat, capacity: nat, p: nat, buffer: string)
    requires p < |texts| && cols > 0 && buffer == CellsText(texts, cols, p) && (p > 0 ==> texts[p - 1] != "")
    ensures var longer := PutSeat(buffer, capacity, Column(cols, p) == 0, texts[p]);
            (if Column(cols, p + 1) == 0 && longer.Some? then PutNewline(longer.value, capacity) else longer) ==
              if Fits(texts, cols, capacity, p + 1) then Some(CellsText(texts, cols, p + 1)) else None
  {
    CellsLength(texts, cols, p);
    CellExactly(buffer, capacity, texts[p], Column(cols, p) == 0, Column(cols, p + 1) == 0);
  }

  lemma FitsEarlier(texts: seq<string>, cols: nat, capacity: nat, p: nat)
    requires 0 < p <= |texts| && cols > 0 && forall x :: 0 <= x < |texts| ==> texts[x] != ""
    ensures Fits(texts, cols, capacity, p) ==> Fits(texts, cols, capacity, p - 1)
  {
  }

  // ----- Cell by cell is row by row -----

  lemma {:induction false} JoinedSplit(parts: seq<string>, base: nat, n: nat)
    requires base + n <= |parts|
    ensures Joined(parts, 0, base + n) == Joined(parts, 0, base) + Joined(parts, base, n)
    decreases n
  {
    if n == 0 {
      assert Joined(parts, 0, base) + "" == Joined(parts, 0, base);
    } else {
      JoinedSplit(parts, base, n - 1);
      Join(Joined(parts, 0, base), Joined(parts, base, n - 1), parts[base + n - 1]);
    }
  }

  lemma Join(a: string, b: string, c: string)
    ensures a + b + c == a + (b + c)
  {
  }

  /** parts[p] is what the text of cell p comes to, with its space and newline. */
  ghost predicate PartAt(texts: seq<string>, cols: nat, parts: seq<string>, p: nat)
    requires p < |texts| == |parts|
  {
    parts[p] == Piece(Column(cols, p) == 0, texts[p], Column(cols, p + 1) == 0)
  }

  ghost predicate PartsOf(texts: seq<string>, cols: nat, parts: seq<string>) {
    |parts| == |texts| &&
    forall p {:trigger PartAt(texts, cols, parts, p)} :: 0 <= p < |texts| ==> PartAt(texts, cols, parts, p)
  }

  lemma {:induction false} PartsExist(texts: seq<string>, cols: nat, n: nat) returns (parts: seq<string>)
    requires n <= |texts|
    ensures PartsOf(texts[..n], cols, parts)
    decreases n
  {
    if n == 0 {
      return [];
    }
    var front := PartsExist(texts, cols, n - 1);
    parts := front + [Piece(Column(cols, n - 1) == 0, texts[n - 1], Column(cols, n) == 0)];
    forall p | 0 <= p < n ensures PartAt(texts[..n], cols, parts, p) {
      assert p < n - 1 ==> PartAt(texts[..n - 1], cols, front, p);
    }
  }

  lemma {:induction false} CellsAreParts(texts: seq<string>, cols: nat, parts: seq<string>, p: nat)
    requires PartsOf(texts, cols, parts) && p <= |texts|
    ensures CellsText(texts, cols, p) == Joined(parts, 0, p)
    decreases p
  {
    if p > 0 {
      CellsAreParts(texts, cols, parts, p - 1);
      assert PartAt(texts, cols, parts, p - 1);
    }
  }

  lemma PartOfRow(texts: seq<string>, cols: nat, parts: seq<string>, base: nat, j: nat, first: bool, last: bool)
    requires PartsOf(texts, cols, parts)
    requires j < cols && base + cols <= |texts| && Column(cols, base) == 0
    requires first == (j == 0) && last == (j + 1 == cols)
    ensures parts[base + j] == Piece(first, texts[base + j], last)
  {
    assert PartAt(texts, cols, parts, base + j);
    ColumnAfter(cols, base, j);
    ColumnAfter(cols, base, j + 1);
  }

  lemma {:induction false} InsideRow(texts: seq<string>, cols: nat, parts: seq<string>, base: nat, j: nat)
    requires PartsOf(texts, cols, parts)
    requires j < cols && base + cols <= |texts| && Column(cols, base) == 0
    ensures Joined(parts, base, j) == RowText(texts, base, j)
    decreases j
  {
    if j > 0 {
      InsideRow(texts, cols, parts, base, j - 1);
      PartOfRow(texts, cols, parts, base, j - 1, j == 1, false);
    }
  }

  lemma LastPiece(first: bool, text: string)
    ensures Piece(first, text, true) == Piece(first, text, false) + "\n"
  {
  }

  lemma WholeRow(texts: seq<string>, cols: nat, parts: seq<string>, base: nat)
    requires PartsOf(texts, cols, parts)
    requires 0 < cols && base + cols <= |texts| && Column(cols, base) == 0
    ensures Joined(parts, base, cols) == RowText(texts, base, cols) + "\n"
  {
    InsideRow(texts, cols, parts, base, cols - 1);
    var first, j := cols == 1, cols - 1;
    PartOfRow(texts, cols, parts, base, j, first, true);
    LastPiece(first, texts[base + j]);
    RowClosed(texts, parts, base, j, first, RowText(texts, base, j), Piece(first, texts[base + j], false));
  }

  lemma RowClosed(texts: seq<string>, parts: seq<string>, base: nat, j: nat, first: bool, row: string,
                  piece: string)
    requires base + j < |texts| && base + j < |parts| && first == (j == 0)
    requires Joined(parts, base, j) == row && RowText(texts, base, j) == row
    requires piece == Piece(first, texts[base + j], false) && parts[base + j] == piece + "\n"
    ensures Joined(parts, base, j + 1) == RowText(texts, base, j + 1) + "\n"
  {
    assert RowText(texts, base, j + 1) == row + piece;
    Join(row, piece, "\n");
  }

  /** Each line is the parts of its row. */
  ghost predicate LineIsRow(parts: seq<string>, lines: seq<string>, cols: nat, i: nat)
    requires i < |lines|
  {
    RowBase(cols, i) + cols <= |parts| && lines[i] == Joined(parts, RowBase(cols, i), cols)
  }

  lemma {:induction false} RowsJoin(parts: seq<string>, lines: seq<string>, cols: nat, n: nat)
    requires n <= |lines| && RowBase(cols, n) <= |parts|
    requires forall i {:trigger LineIsRow(parts, lines, cols, i)} :: 0 <= i < n ==> LineIsRow(parts, lines, cols, i)
    ensures Joined(parts, 0, RowBase(cols, n)) == Joined(lines, 0, n)
    decreases n
  {
    if n > 0 {
      RowsJoin(parts, lines, cols, n - 1);
      assert LineIsRow(parts, lines, cols, n - 1);
      JoinedSplit(parts, RowBase(cols, n - 1), cols);
    }
  }

  lemma LinesAreRows(texts: seq<string>, cols: nat, parts: seq<string>, n: nat, i: nat)
    requires PartsOf(texts, cols, parts) && 0 < cols && i < n && RowBase(cols, n) <= |texts|
    ensures LineIsRow(parts, Lines(texts, cols, n), cols, i)
  {
    LineAt(texts, cols, n, i);
    RowStarts(cols, i);
    WholeRow(texts, cols, parts, RowBase(cols, i));
  }

  /** Printing cell by cell gives the lines one behind the other. */
  lemma CellsAreLines(texts: seq<string>, cols: nat, n: nat)
    requires 0 < cols && RowBase(cols, n) <= |texts|
    ensures CellsText(texts, cols, RowBase(cols, n)) == Joined(Lines(texts, cols, n), 0, n)
  {
    var parts := PartsExist(texts, cols, |texts|);
    assert texts[..|texts|] == texts;
    CellsAreParts(texts, cols, parts, RowBase(cols, n));
    forall i | 0 <= i < n ensures LineIsRow(parts, Lines(texts, cols, n), cols, i) {
      LinesAreRows(texts, cols, parts, n, i);
    }
    RowsJoin(parts, Lines(texts, cols, n), cols, n);
  }

  // ----- When SHOW prints the grid -----

  /** The guards never fire, and the text is the grid's, exactly when the seats average below four digits. */
  lemma ShowFitsExactly(e: EventValue)
    requires WellFormed(e) && e.rows > 0 && e.cols > 0
    ensures ShownText(e) ==
      if DigitsOf(Texts(e.data), |e.data|) < 4 * |e.data| then Some(GridText(e)) else None
  {
    RowInGrid(e, 0);
    CapacityIsFive(e);
    TextsNotEmpty(e.data);
    ShowPutsSeats(Texts(e.data), Capacity(e));
    FillExactly(SeatPutter(Texts(e.data), Capacity(e)), LineCloser(Capacity(e)), Texts(e.data), e.cols, Capacity(e),
                |e.data|);
    CellsAreLines(Texts(e.data), e.cols, e.rows);
    RowStarts(e.cols, e.rows);
  }

  lemma CapacityIsFive(e: EventValue)
    requires WellFormed(e)
    ensures Capacity(e) == 5 * |e.data|
  {
  }

  lemma FourDigits(v: nat)
    ensures |Dec(v)| <= 4 <==> v < 10000
    ensures |Dec(v)| < 4 <==> v < 1000
  {
    assert Pow10(4) == 10000 && Pow10(3) == 1000;
    DecLength(v, 4);
    DecLength(v, 3);
  }

  lemma {:induction false} FourEach(texts: seq<string>, p: nat)
    requires p <= |texts| && forall x :: 0 <= x < p ==> |texts[x]| <= 4
    ensures DigitsOf(texts, p) <= 4 * p
    ensures DigitsOf(texts, p) < 4 * p <==> exists x :: 0 <= x < p && |texts[x]| < 4
  {
    if p > 0 {
      FourEach(texts, p - 1);
    }
  }

  lemma FourDigitsEach(data: seq<nat>)
    requires forall x :: 0 <= x < |data| ==> data[x] < 10000
    ensures DigitsOf(Texts(data), |data|) < 4 * |data| <==> exists x :: 0 <= x < |data| && data[x] < 1000
  {
    forall x | 0 <= x < |data| ensures |Texts(data)[x]| <= 4 && (|Texts(data)[x]| < 4 <==> data[x] < 1000) {
      TextAt(data, x);
      FourDigits(data[x]);
    }
    FourEach(Texts(data), |data|);
  }

  /** With ids of at most four digits one shorter id on the grid decides. */
  lemma ShowFitsShortIds(e: EventValue)
    requires WellFormed(e) && e.rows > 0 && e.cols > 0 && ShortIds(e)
    ensures ShownText(e) == Some(GridText(e)) <==> exists x :: 0 <= x < |e.data| && e.data[x] < 1000
  {
    ShowFitsExactly(e);
    FourDigitsEach(e.data);
  }

  /** Density puts such an id, or a free seat, on every grid with fewer than 10000 reservations. */
  lemma ShowPrintsDenseGrid(e: EventValue)
    requires Dense(e) && e.rows > 0 && e.cols > 0 && e.reservations < 10000
    ensures ShownText(e) == Some(GridText(e))
  {
    RowInGrid(e, 0);
    if e.data[0] >= 1000 {
      assert 1 in e.data;
      var x :| 0 <= x < |e.data| && e.data[x] == 1;
    }
    ShowFitsShortIds(e);
  }
}
