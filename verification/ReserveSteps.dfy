/** The reserve loop seat by seat: marking, and taking the marks back. */
module ReserveSteps {
  import opened Decimal
  import opened Seating

  function SetSeat(e: EventValue, s: Seat, v: nat): EventValue
    requires WellFormed(e) && InBounds(e, s)
  {
    SeatIndexInRange(e, s);
    e.(data := e.data[SeatIndex(e.cols, s) := v])
  }

  /** --counter, on 32 bits. */
  function CountDown(r: nat): nat {
    (r + UINT_MOD - 1) % UINT_MOD
  }

  /** The seats could all be marked with rid, one after the other. */
  ghost predicate Takeable(base: EventValue, seats: seq<Seat>, rid: nat) {
    AllInBounds(base, seats) && AllFree(base, seats) && (rid != 0 ==> Distinct(seats))
  }

  /** cur is base with the counter raised and the first i seats marked. */
  ghost predicate Partway(base: EventValue, cur: EventValue, seats: seq<Seat>, rid: nat, i: nat) {
    && i <= |seats| && WellFormed(base) && rid == NextId(base)
    && cur == base.(reservations := rid, data := cur.data)
    && Takeable(base, seats[..i], rid)
    && Marked(base.data, cur.data, Indices(base.cols, seats[..i]), rid)
  }

  /** cur is base with seats j..i still marked. */
  ghost predicate Undoing(base: EventValue, cur: EventValue, seats: seq<Seat>, rid: nat, i: nat, j: nat) {
    && j <= i <= |seats| && WellFormed(base)
    && cur == base.(data := cur.data)
    && Takeable(base, seats[..i], rid)
    && Marked(base.data, cur.data, Indices(base.cols, seats[j..i]), rid)
  }

  lemma StartMarking(base: EventValue, seats: seq<Seat>)
    requires WellFormed(base)
    ensures Partway(base, base.(reservations := NextId(base)), seats, NextId(base), 0)
  {
  }

  lemma CellOfCurrent(base: EventValue, cur: EventValue, seats: seq<Seat>, rid: nat, i: nat)
    requires Partway(base, cur, seats, rid, i) && i < |seats| && InBounds(base, seats[i])
    ensures CellFree(cur, seats[i]) <==> CellFree(base, seats[i]) && (rid == 0 || seats[i] !in seats[..i])
  {
    var x := SeatIndex(base.cols, seats[i]);
    var cells := Indices(base.cols, seats[..i]);
    SeatIndexInRange(base, seats[i]);
    forall m | 0 <= m < i ensures cells[m] == x <==> seats[m] == seats[i] {
      assert seats[..i][m] == seats[m];
      SeatIndexInjective(base, seats[m], seats[i]);
    }
    if x in cells {
      var m :| 0 <= m < i && cells[m] == x;
      assert seats[..i][m] == seats[i];
      assert CellFree(base, seats[..i][m]);
    }
  }

  lemma MarkOne(base: EventValue, cur: EventValue, seats: seq<Seat>, rid: nat, i: nat)
    requires Partway(base, cur, seats, rid, i) && i < |seats|
    requires InBounds(base, seats[i]) && CellFree(cur, seats[i])
    ensures Partway(base, SetSeat(cur, seats[i], rid), seats, rid, i + 1)
  {
    CellOfCurrent(base, cur, seats, rid, i);
    assert seats[..i + 1] == seats[..i] + [seats[i]];
    var cells := Indices(base.cols, seats[..i]);
    assert Indices(base.cols, seats[..i + 1]) == cells + [SeatIndex(base.cols, seats[i])];
  }

  /** All seats marked: exactly the granted request. */
  lemma MarkingDone(base: EventValue, cur: EventValue, seats: seq<Seat>, rid: nat)
    requires Partway(base, cur, seats, rid, |seats|)
    ensures StrictAccepts(base, seats) && cur == Commit(base, seats)
  {
    assert seats[..|seats|] == seats;
    MarkedIsMark(base.data, cur.data, Indices(base.cols, seats), rid);
  }

  /** A seat that stops the loop refuses the whole request. */
  lemma BadSeatRefuses(base: EventValue, cur: EventValue, seats: seq<Seat>, rid: nat, i: nat)
    requires Partway(base, cur, seats, rid, i) && i < |seats|
    requires !InBounds(base, seats[i]) || !CellFree(cur, seats[i])
    ensures !StrictAccepts(base, seats)
  {
    if InBounds(base, seats[i]) {
      CellOfCurrent(base, cur, seats, rid, i);
      if rid != 0 && seats[i] in seats[..i] {
        var m :| 0 <= m < i && seats[..i][m] == seats[i];
        assert seats[m] == seats[i];
      }
    }
  }

  lemma StartUndoing(base: EventValue, cur: EventValue, seats: seq<Seat>, rid: nat, i: nat)
    requires Partway(base, cur, seats, rid, i)
    ensures Undoing(base, cur.(reservations := CountDown(cur.reservations)), seats, rid, i, 0)
  {
    assert seats[0..i] == seats[..i];
  }

  lemma UndoOne(base: EventValue, cur: EventValue, seats: seq<Seat>, rid: nat, i: nat, j: nat)
    requires Undoing(base, cur, seats, rid, i, j) && j < i && InBounds(base, seats[j])
    ensures Undoing(base, SetSeat(cur, seats[j], 0), seats, rid, i, j + 1)
  {
    var x := SeatIndex(base.cols, seats[j]);
    var left := Indices(base.cols, seats[j + 1..i]);
    assert seats[j..i] == [seats[j]] + seats[j + 1..i];
    assert Indices(base.cols, seats[j..i]) == [x] + left;
    assert seats[..i][j] == seats[j] && CellFree(base, seats[..i][j]);
    if rid != 0 {
      forall m | 0 <= m < |left| ensures left[m] != x {
        assert seats[..i][j + 1 + m] == seats[j + 1 + m];
        SeatIndexInjective(base, seats[j + 1 + m], seats[j]);
      }
    }
  }

  lemma UndoingDone(base: EventValue, cur: EventValue, seats: seq<Seat>, rid: nat, i: nat)
    requires Undoing(base, cur, seats, rid, i, i)
    ensures cur == base
  {
    assert cur.data == base.data;
  }
}
