/** How the threaded SHOW collects a grid in its bounded buffer. */
module GridBuffer {
  import opened Options
  import opened Seating

  /** The buffer SHOW declares for an event. */
  function Capacity(e: EventValue): nat {
    5 * e.cols * e.rows
  }

  /** Every id fits, with its terminator, the five bytes SHOW formats one seat in. */
  predicate ShortIds(e: EventValue) {
    forall x :: 0 <= x < |e.data| ==> e.data[x] < 10000
  }

  /** The column of cell p, counting along rows of cols cells. */
  function Column(cols: nat, p: nat): (j: nat)
    ensures cols > 0 ==> j < cols
  {
    if p == 0 then 0
    else
      var j := Column(cols, p - 1) + 1;
      if j < cols then j else 0
  }

  /** A seat's part of the text: a space in front unless it is first in its row, a newline behind if last. */
  function Piece(first: bool, text: string, last: bool): string
    decreases last
  {
    if last then Piece(first, text, false) + "\n"
    else if first then text
    else " " + text
  }

  /** Appends one seat, after a space unless it is the first of its row; fails when the guard fires. */
  function PutSeat(buffer: string, capacity: nat, startsRow: bool, text: string): Option<string> {
    if |buffer| + |text| + 1 < capacity then
      Some(buffer + Piece(buffer == "" || startsRow, text, false))
    else None
  }

  function PutNewline(buffer: string, capacity: nat): Option<string> {
    if |buffer| + 1 < capacity then Some(buffer + "\n") else None
  }

  /** Appends the text of cell p, and the newline when the cell ends its row. */
  function PutCell(buffer: string, cols: nat, capacity: nat, text: string, p: nat): Option<string> {
    match PutSeat(buffer, capacity, Column(cols, p) == 0, text)
    case None => None
    case Some(longer) => if Column(cols, p + 1) == 0 then PutNewline(longer, capacity) else Some(longer)
  }
}
