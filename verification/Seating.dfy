/** One event's seats, and the two reservation rules of the system as single atomic operations. */
module Seating {
  import opened Decimal

  datatype Seat = Seat(row: nat, col: nat)

  /** The fields of a struct Event as one value; data is the rows * cols grid in row order. */
  datatype EventValue = EventValue(id: nat, rows: nat, cols: nat, reservations: nat, data: seq<nat>)

  predicate WellFormed(e: EventValue) {
    |e.data| == e.rows * e.cols && e.reservations < UINT_MOD
  }

  function SeatIndex(cols: nat, s: Seat): int {
    (s.row - 1) * cols + s.col - 1
  }

  predicate InBounds(e: EventValue, s: Seat) {
    1 <= s.row <= e.rows && 1 <= s.col <= e.cols
  }

  /** Seats of the hall land inside the grid, different seats on different cells. */
  lemma SeatIndexInRange(e: EventValue, s: Seat)
    requires InBounds(e, s)
    ensures 0 <= SeatIndex(e.cols, s) < e.rows * e.cols
  {
    assert 0 <= (s.row - 1) * e.cols;
    assert (s.row - 1) * e.cols + e.cols == s.row * e.cols;
    assert (e.rows - s.row) * e.cols >= 0;
    assert s.row * e.cols <= e.rows * e.cols;
  }

  lemma SeatIndexInjective(e: EventValue, s: Seat, t: Seat)
    requires InBounds(e, s) && InBounds(e, t)
    ensures SeatIndex(e.cols, s) == SeatIndex(e.cols, t) <==> s == t
  {
    if s.row < t.row {
      RowGap(e.cols, s, t);
    } else if t.row < s.row {
      RowGap(e.cols, t, s);
    }
  }

  lemma RowGap(cols: nat, s: Seat, t: Seat)
    requires 1 <= s.row < t.row && 1 <= s.col <= cols && 1 <= t.col
    ensures SeatIndex(cols, s) < SeatIndex(cols, t)
  {
    MultiplesGrow(s.row - 1, t.row - 1, cols);
  }

  lemma {:induction false} MultiplesGrow(a: nat, b: nat, cols: nat)
    requires a < b
    ensures a * cols + cols <= b * cols
  {
    if a + 1 < b {
      MultiplesGrow(a, b - 1, cols);
    }
  }

  // ----- Requests -----

  ghost function Indices(cols: nat, seats: seq<Seat>): (idxs: seq<int>)
    ensures |idxs| == |seats|
  {
    seq(|seats|, i requires 0 <= i < |seats| => SeatIndex(cols, seats[i]))
  }

  predicate AllInBounds(e: EventValue, seats: seq<Seat>) {
    forall i :: 0 <= i < |seats| ==> InBounds(e, seats[i])
  }

  predicate CellFree(e: EventValue, s: Seat) {
    var x := SeatIndex(e.cols, s);
    0 <= x < |e.data| && e.data[x] == 0
  }

  predicate AllFree(e: EventValue, seats: seq<Seat>) {
    forall i :: 0 <= i < |seats| ==> CellFree(e, seats[i])
  }

  predicate Distinct(seats: seq<Seat>) {
    forall i, j :: 0 <= i < j < |seats| ==> seats[i] != seats[j]
  }

  /** The id the next reservation gets; the counter is a 32-bit unsigned int. */
  function NextId(e: EventValue): nat {
    (e.reservations + 1) % UINT_MOD
  }

  /** cur is base with exactly the listed cells set to v. */
  ghost predicate Marked(base: seq<nat>, cur: seq<nat>, cells: seq<int>, v: nat) {
    |cur| == |base| &&
    forall x :: 0 <= x < |base| ==> cur[x] == if x in cells then v else base[x]
  }

  ghost function Mark(base: seq<nat>, cells: seq<int>, v: nat): (cur: seq<nat>)
    ensures Marked(base, cur, cells, v)
  {
    seq(|base|, x requires 0 <= x < |base| => if x in cells then v else base[x])
  }

  lemma MarkedIsMark(base: seq<nat>, cur: seq<nat>, cells: seq<int>, v: nat)
    requires Marked(base, cur, cells, v)
    ensures cur == Mark(base, cells, v)
  {
  }

  /** The event after a granted request. */
  ghost function Commit(e: EventValue, seats: seq<Seat>): EventValue {
    e.(reservations := NextId(e), data := Mark(e.data, Indices(e.cols, seats), NextId(e)))
  }

  /** What the rule with rollback grants. A repeated seat finds its own mark, unless the mark is 0. */
  predicate StrictAccepts(e: EventValue, seats: seq<Seat>) {
    AllInBounds(e, seats) && AllFree(e, seats) && (Distinct(seats) || NextId(e) == 0)
  }

  /** What the two-pass rule of the server grants: it never looks for repeated seats. */
  predicate LenientAccepts(e: EventValue, seats: seq<Seat>) {
    AllInBounds(e, seats) && AllFree(e, seats)
  }

  ghost function Strict(e: EventValue, seats: seq<Seat>): EventValue {
    if StrictAccepts(e, seats) then Commit(e, seats) else e
  }

  ghost function Lenient(e: EventValue, seats: seq<Seat>): EventValue {
    if LenientAccepts(e, seats) then Commit(e, seats) else e
  }

  /**
   * The two rules differ, in verdict or in resulting event, exactly on a request that is in bounds
   * and all free but names a seat twice (the counter not being about to wrap to 0).
   */
  lemma RulesAgreeExactly(e: EventValue, seats: seq<Seat>)
    requires WellFormed(e)
    ensures Strict(e, seats) == Lenient(e, seats) && StrictAccepts(e, seats) == LenientAccepts(e, seats)
       <==> !(AllInBounds(e, seats) && AllFree(e, seats) && !Distinct(seats) && NextId(e) != 0)
    ensures AllInBounds(e, seats) && AllFree(e, seats) && !Distinct(seats) && NextId(e) != 0 ==>
      Strict(e, seats) == e && LenientAccepts(e, seats) && Lenient(e, seats) == Commit(e, seats)
  {
  }

  // ----- Density of reservation ids -----

  /** The ids on the grid are exactly 1..reservations, each on some seat; 0 is a free seat. */
  predicate Dense(e: EventValue) {
    WellFormed(e) &&
    (forall x :: 0 <= x < |e.data| ==> e.data[x] <= e.reservations) &&
    (forall r :: 1 <= r <= e.reservations ==> r in e.data)
  }

  /** Few enough seats for a 32-bit counter. */
  predicate CountableSeats(e: EventValue) {
    e.rows * e.cols < UINT_MOD
  }

  function HeldCells(data: seq<nat>): set<nat> {
    set x | 0 <= x < |data| && data[x] != 0
  }

  function IdsUpTo(r: nat): (ids: set<nat>)
    ensures forall i :: i in ids <==> 1 <= i <= r
    ensures |ids| == r
  {
    if r == 0 then {} else
      assert r !in IdsUpTo(r - 1);
      IdsUpTo(r - 1) + {r}
  }

  /** n cells carry at most n different values. */
  lemma {:induction false} ValuesOfCells(data: seq<nat>, cells: set<nat>)
    requires forall x :: x in cells ==> x < |data|
    ensures |set x | x in cells :: data[x]| <= |cells|
  {
    if cells != {} {
      var c :| c in cells;
      ValuesOfCells(data, cells - {c});
      assert (set x | x in cells :: data[x]) == (set x | x in cells - {c} :: data[x]) + {data[c]};
    }
  }

  lemma CellsUpTo(n: nat, cells: set<nat>)
    requires forall x :: x in cells ==> x < n
    ensures |cells| <= n
    decreases n
  {
    if n > 0 {
      CellsUpTo(n - 1, cells - {n - 1});
    } else {
      assert cells == {};
    }
  }

  /** There are no more reservations than held seats, and no more held seats than seats. */
  lemma ReservationsBounded(e: EventValue)
    requires Dense(e)
    ensures e.reservations <= |HeldCells(e.data)| <= e.rows * e.cols
    ensures (exists x :: 0 <= x < |e.data| && e.data[x] == 0) ==> e.reservations < e.rows * e.cols
  {
    var held := HeldCells(e.data);
    var values := set x | x in held :: e.data[x];
    ValuesOfCells(e.data, held);
    forall r | r in IdsUpTo(e.reservations) ensures r in values {
      assert r in e.data;
      var x :| 0 <= x < |e.data| && e.data[x] == r;
      assert x in held;
    }
    SubsetSize(IdsUpTo(e.reservations), values);
    CellsUpTo(|e.data|, held);
    if x :| 0 <= x < |e.data| && e.data[x] == 0 {
      assert x !in held;
      CellsUpTo(|e.data|, held + {x});
    }
  }

  lemma SubsetSize<T>(small: set<T>, big: set<T>)
    requires small <= big
    ensures |small| <= |big|
  {
    assert big == small + (big - small);
  }

  /** A granted non-empty request leaves the counter below its width. */
  lemma NoWrap(e: EventValue, seats: seq<Seat>)
    requires Dense(e) && CountableSeats(e) && LenientAccepts(e, seats) && seats != []
    ensures NextId(e) == e.reservations + 1
  {
    assert CellFree(e, seats[0]);
    ReservationsBounded(e);
  }

  /** Granting keeps density exactly when the request names at least one seat. */
  lemma CommitKeepsDensity(e: EventValue, seats: seq<Seat>)
    requires Dense(e) && CountableSeats(e) && LenientAccepts(e, seats)
    ensures Dense(Commit(e, seats)) <==> seats != []
  {
    var after := Commit(e, seats);
    var cells := Indices(e.cols, seats);
    if seats == [] {
      ReservationsBounded(e);
      assert after.data == e.data;
      assert Dense(after) ==> after.reservations in after.data;
    } else {
      NoWrap(e, seats);
      assert CellFree(e, seats[0]) && cells[0] == SeatIndex(e.cols, seats[0]);
      assert cells[0] in cells && after.data[cells[0]] == after.reservations;
      forall r | 1 <= r <= after.reservations ensures r in after.data {
        if r <= e.reservations {
          assert r in e.data;
          var x :| 0 <= x < |e.data| && e.data[x] == r;
          HeldCellsStay(e, seats, x);
          assert after.data[x] == r;
        }
      }
    }
  }

  /** No granted request touches a seat somebody holds. */
  lemma HeldCellsStay(e: EventValue, seats: seq<Seat>, x: nat)
    requires LenientAccepts(e, seats) && x < |e.data| && e.data[x] != 0
    ensures Commit(e, seats).data[x] == e.data[x]
  {
    var cells := Indices(e.cols, seats);
    forall i | 0 <= i < |cells| ensures cells[i] != x {
      assert CellFree(e, seats[i]);
    }
  }
}
