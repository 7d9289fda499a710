/**
 * The language of the command reader: for every text, which command it reads from it, if any, stated without
 * the reader. Numerals are digit strings below 2^32, possibly with leading zeros, possibly empty.
 */
module CommandTexts {
  import opened Decimal
  import opened Options
  import opened Seating
  import opened Commands
  import opened CommandSyntax
  import opened JobFiles

  // ----- Pieces of a command -----

  predicate Numeral(d: string) {
    AllDigits(d) && Value(d) < 0x1_0000_0000
  }

  /** What closes the arguments: a newline, a NUL byte or the end of the file. */
  predicate EndsWith(end: string, rest: string) {
    end == ['\n'] + rest || end == ['\0'] + rest || (end == "" && rest == "")
  }

  /** rest is what follows the first line of s. */
  ghost predicate FollowsLine(s: string, rest: string) {
    exists line: string :: LineThen(s, line, rest)
  }

  predicate LineThen(s: string, line: string, rest: string) {
    '\n' !in line && (s == line + (['\n'] + rest) || (s == line && rest == ""))
  }

  lemma NumeralRead(d: string, c: char, tail: string)
    requires Numeral(d) && !IsDigit(c)
    ensures ReadUint(d + ([c] + tail)) == UintRead(true, Value(d), c, tail)
  {
    DigitCountOfNumeral(d, [c] + tail);
    assert (d + ([c] + tail))[|d| + 1..] == tail;
  }

  lemma NumeralEnds(d: string, end: string, rest: string)
    requires Numeral(d) && EndsWith(end, rest)
    ensures var r := ReadUint(d + end); r.ok && r.value == Value(d) && EndsLine(r.next) && r.rest == rest
  {
    if end == "" {
      DigitCountOfNumeral(d, "");
      assert d + end == d && d[..|d|] == d;
    } else {
      NumeralRead(d, end[0], rest);
    }
  }

  /** The other way round: the digits a number was read from. */
  lemma NumeralFound(s: string) returns (d: string)
    ensures AllDigits(d) && ReadUint(s).value == Value(d) && (ReadUint(s).ok <==> Numeral(d))
    ensures !IsDigit(ReadUint(s).next)
    ensures s == d + ([ReadUint(s).next] + ReadUint(s).rest) ||
            (s == d && ReadUint(s).next == NUL && ReadUint(s).rest == "")
  {
    var k := DigitCount(s);
    d := s[..k];
    if k < |s| {
      assert s == s[..k] + ([s[k]] + s[k + 1..]);
    } else {
      assert s == s[..k];
    }
  }

  lemma NumeralFoundBefore(s: string, c: char) returns (d: string)
    requires ReadUint(s).ok && ReadUint(s).next == c && c != NUL
    ensures Numeral(d) && !IsDigit(c) && ReadUint(s).value == Value(d) && s == d + ([c] + ReadUint(s).rest)
  {
    d := NumeralFound(s);
  }

  lemma NumeralFoundLast(s: string) returns (d: string, end: string)
    requires ReadUint(s).ok && EndsLine(ReadUint(s).next)
    ensures Numeral(d) && ReadUint(s).value == Value(d) && s == d + end && EndsWith(end, ReadUint(s).rest)
  {
    d := NumeralFound(s);
    end := if s == d then "" else [ReadUint(s).next] + ReadUint(s).rest;
    assert s == d ==> s == d + "";
  }

  lemma {:induction false} CleanupExactly(s: string, rest: string)
    ensures Cleanup(s) == rest <==> FollowsLine(s, rest)
    decreases |s|
  {
    var line := CleanupLine(s);
    assert LineThen(s, line, Cleanup(s));
    forall other: string | LineThen(s, other, rest) ensures Cleanup(s) == rest {
      if s == other {
        NoNewlineLeft(s);
      } else {
        CleanupSkipsLine(other, rest);
      }
    }
  }

  lemma {:induction false} CleanupLine(s: string) returns (line: string)
    ensures LineThen(s, line, Cleanup(s))
    decreases |s|
  {
    if s == "" {
      line := "";
    } else if s[0] == '\n' {
      line := "";
      assert s == "" + (['\n'] + s[1..]);
    } else {
      var more := CleanupLine(s[1..]);
      line := [s[0]] + more;
      assert s == [s[0]] + s[1..];
      assert [s[0]] + (more + (['\n'] + Cleanup(s))) == line + (['\n'] + Cleanup(s));
    }
  }

  lemma {:induction false} NoNewlineLeft(s: string)
    requires '\n' !in s
    ensures Cleanup(s) == ""
    decreases |s|
  {
    if s != "" {
      assert s[0] in s && forall c :: c in s[1..] ==> c in s;
      NoNewlineLeft(s[1..]);
    }
  }

  // ----- CREATE, SHOW, WAIT -----

  predicate CreateSpelled(s: string, a: string, b: string, c: string, end: string) {
    Numeral(a) && Numeral(b) && Numeral(c) && s == a + ([' '] + (b + ([' '] + (c + end))))
  }

  ghost predicate CreateText(s: string, id: nat, rows: nat, cols: nat, rest: string) {
    exists a: string, b: string, c: string, end: string ::
      CreateSpelled(s, a, b, c, end) && EndsWith(end, rest) && Value(a) == id && Value(b) == rows && Value(c) == cols
  }

  lemma CreateRead(s: string, a: string, b: string, c: string, end: string, rest: string)
    requires CreateSpelled(s, a, b, c, end) && EndsWith(end, rest)
    ensures ParseCreate(s) == Parsed(Some(Create(Value(a), Value(b), Value(c))), rest)
  {
    NumeralRead(a, ' ', b + ([' '] + (c + end)));
    NumeralRead(b, ' ', c + end);
    NumeralEnds(c, end, rest);
  }

  lemma CreateFound(s: string)
    requires ParseCreate(s).value.Some?
    ensures var cmd := ParseCreate(s).value.value; CreateText(s, cmd.id, cmd.rows, cmd.cols, ParseCreate(s).rest)
  {
    var a := NumeralFoundBefore(s, ' ');
    var b := NumeralFoundBefore(ReadUint(s).rest, ' ');
    var c, end := NumeralFoundLast(ReadUint(ReadUint(s).rest).rest);
    assert CreateSpelled(s, a, b, c, end);
  }

  lemma CreateExactly(s: string, id: nat, rows: nat, cols: nat, rest: string)
    ensures ParseCreate(s) == Parsed(Some(Create(id, rows, cols)), rest) <==> CreateText(s, id, rows, cols, rest)
  {
    if ParseCreate(s).value.Some? {
      CreateFound(s);
    }
    if CreateText(s, id, rows, cols, rest) {
      var a, b, c, end :|
        CreateSpelled(s, a, b, c, end) && EndsWith(end, rest) && Value(a) == id && Value(b) == rows && Value(c) == cols;
      CreateRead(s, a, b, c, end, rest);
    }
  }

  predicate NumeralSpelled(s: string, d: string, end: string) {
    Numeral(d) && s == d + end
  }

  ghost predicate ShowText(s: string, id: nat, rest: string) {
    exists d: string, end: string :: NumeralSpelled(s, d, end) && EndsWith(end, rest) && Value(d) == id
  }

  lemma ShowExactly(s: string, id: nat, rest: string)
    ensures ParseShow(s) == Parsed(Some(Show(id)), rest) <==> ShowText(s, id, rest)
  {
    if ParseShow(s).value.Some? {
      var d, end := NumeralFoundLast(s);
      assert NumeralSpelled(s, d, end);
    }
    if ShowText(s, id, rest) {
      var d, end :| NumeralSpelled(s, d, end) && EndsWith(end, rest) && Value(d) == id;
      NumeralEnds(d, end, rest);
    }
  }

  predicate PairSpelled(s: string, d: string, t: string, end: string) {
    Numeral(d) && Numeral(t) && s == d + ([' '] + (t + end))
  }

  /** WAIT with a delay and a thread, in the threaded dialect. */
  ghost predicate WaitThreadText(s: string, delay: nat, thread: nat, rest: string) {
    exists d: string, t: string, end: string ::
      PairSpelled(s, d, t, end) && EndsWith(end, rest) && Value(d) == delay && Value(t) == thread
  }

  /** WAIT with a delay and anything behind a space, in the client's dialect. */
  ghost predicate WaitAnythingText(s: string, delay: nat, rest: string) {
    exists d: string, more: string ::
      NumeralSpelled(s, d, [' '] + more) && Value(d) == delay && FollowsLine(more, rest)
  }

  ghost predicate WaitText(threaded: bool, s: string, delay: nat, thread: nat, rest: string) {
    || (thread == 0 && ShowText(s, delay, rest))
    || (threaded && WaitThreadText(s, delay, thread, rest))
    || (!threaded && thread == 0 && WaitAnythingText(s, delay, rest))
  }

  lemma WaitFound(threaded: bool, s: string)
    requires ParseWait(threaded, s).value.Some?
    ensures var cmd := ParseWait(threaded, s).value.value;
            WaitText(threaded, s, cmd.delay, cmd.thread, ParseWait(threaded, s).rest)
  {
    var delay := ReadUint(s);
    if delay.next == ' ' {
      var d := NumeralFoundBefore(s, ' ');
      if threaded {
        var t, end := NumeralFoundLast(delay.rest);
        assert PairSpelled(s, d, t, end);
      } else {
        assert NumeralSpelled(s, d, [' '] + delay.rest);
        CleanupExactly(delay.rest, Cleanup(delay.rest));
      }
    } else {
      var d, end := NumeralFoundLast(s);
      assert NumeralSpelled(s, d, end);
    }
  }

  lemma WaitRead(threaded: bool, s: string, delay: nat, thread: nat, rest: string)
    requires WaitText(threaded, s, delay, thread, rest)
    ensures ParseWait(threaded, s) == Parsed(Some(Wait(delay, thread)), rest)
  {
    if thread == 0 && ShowText(s, delay, rest) {
      var d, end :| NumeralSpelled(s, d, end) && EndsWith(end, rest) && Value(d) == delay;
      NumeralEnds(d, end, rest);
    } else if threaded {
      var d, t, end :| PairSpelled(s, d, t, end) && EndsWith(end, rest) && Value(d) == delay && Value(t) == thread;
      NumeralRead(d, ' ', t + end);
      NumeralEnds(t, end, rest);
    } else {
      var d, more :| NumeralSpelled(s, d, [' '] + more) && Value(d) == delay && FollowsLine(more, rest);
      NumeralRead(d, ' ', more);
      CleanupExactly(more, rest);
    }
  }

  lemma WaitExactly(threaded: bool, s: string, delay: nat, thread: nat, rest: string)
    ensures ParseWait(threaded, s) == Parsed(Some(Wait(delay, thread)), rest) <==>
            WaitText(threaded, s, delay, thread, rest)
  {
    if ParseWait(threaded, s).value.Some? {
      WaitFound(threaded, s);
    }
    if WaitText(threaded, s, delay, thread, rest) {
      WaitRead(threaded, s, delay, thread, rest);
    }
  }

  // ----- RESERVE -----

  /** A seat as it is written: "(row,col)". */
  datatype SpelledSeat = SpelledSeat(row: string, col: string)

  predicate SeatNumerals(seat: SpelledSeat) {
    Numeral(seat.row) && Numeral(seat.col)
  }

  predicate SeatsNumerals(seats: seq<SpelledSeat>) {
    seats == [] || (SeatNumerals(seats[0]) && SeatsNumerals(seats[1..]))
  }

  function SeatMeant(seat: SpelledSeat): Seat
    requires SeatNumerals(seat)
  {
    Seat(Value(seat.row), Value(seat.col))
  }

  function SeatsMeant(seats: seq<SpelledSeat>): (meant: seq<Seat>)
    requires SeatsNumerals(seats)
    ensures |meant| == |seats|
  {
    if seats == [] then [] else [SeatMeant(seats[0])] + SeatsMeant(seats[1..])
  }

  function SpellSeat(seat: SpelledSeat, tail: string): string {
    ['('] + (seat.row + ([','] + (seat.col + ([')'] + tail))))
  }

  /** "(1,1) (1,2)]" and what follows. */
  function SpellSeats(seats: seq<SpelledSeat>, tail: string): string
    requires seats != []
  {
    if |seats| == 1 then SpellSeat(seats[0], [']'] + tail)
    else SpellSeat(seats[0], [' '] + SpellSeats(seats[1..], tail))
  }

  lemma SeatRead(seat: SpelledSeat, c: char, tail: string)
    requires SeatNumerals(seat) && (c == ' ' || c == ']')
    ensures ParseSeat(SpellSeat(seat, [c] + tail)) == Parsed(Some(CommandSyntax.SeatRead(SeatMeant(seat), c)), tail)
  {
    var inside := seat.row + ([','] + (seat.col + ([')'] + ([c] + tail))));
    NumeralRead(seat.row, ',', seat.col + ([')'] + ([c] + tail)));
    NumeralRead(seat.col, ')', [c] + tail);
    assert SpellSeat(seat, [c] + tail)[1..] == inside;
    assert ([c] + tail)[1..] == tail;
  }

  lemma PairFound(s: string) returns (seat: SpelledSeat)
    requires ParsePair(s).value.Some?
    ensures SeatNumerals(seat) && ParsePair(s).value.value == SeatMeant(seat)
    ensures s == seat.row + ([','] + (seat.col + ([')'] + ParsePair(s).rest)))
  {
    var row := NumeralFoundBefore(s, ',');
    var col := NumeralFoundBefore(ReadUint(s).rest, ')');
    seat := SpelledSeat(row, col);
  }

  /** What a seat that was read consists of. */
  lemma SeatParts(s: string)
    requires ParseSeat(s).value.Some?
    ensures s != "" && s[0] == '('
    ensures var pair := ParsePair(s[1..]);
            pair.value.Some? && pair.rest != "" &&
            ParseSeat(s) == Parsed(Some(CommandSyntax.SeatRead(pair.value.value, pair.rest[0])), pair.rest[1..])
  {
  }

  predicate SeatIsSpelled(seat: SpelledSeat, s: string, read: CommandSyntax.SeatRead, rest: string) {
    SeatNumerals(seat) && read.seat == SeatMeant(seat) && s == SpellSeat(seat, [read.next] + rest)
  }

  lemma SeatJoined(s: string, inside: string, seat: SpelledSeat, behind: string)
    requires s != "" && s[0] == '(' && inside == s[1..] && behind != "" && SeatNumerals(seat)
    requires inside == seat.row + ([','] + (seat.col + ([')'] + behind)))
    ensures SeatIsSpelled(seat, s, CommandSyntax.SeatRead(SeatMeant(seat), behind[0]), behind[1..])
  {
    assert s == ['('] + inside;
    assert behind == [behind[0]] + behind[1..];
  }

  lemma SeatFound(s: string) returns (seat: SpelledSeat)
    requires ParseSeat(s).value.Some?
    ensures SeatIsSpelled(seat, s, ParseSeat(s).value.value, ParseSeat(s).rest)
  {
    SeatParts(s);
    seat := PairFound(s[1..]);
    SeatJoined(s, s[1..], seat, ParsePair(s[1..]).rest);
  }

  /** A way to read one seat that reads what is spelled there. */
  ghost predicate FindsSeats(parse: string -> Parsed<CommandSyntax.SeatRead>) {
    forall s: string {:trigger parse(s)} :: parse(s).value.Some? ==>
      exists seat :: SeatIsSpelled(seat, s, parse(s).value.value, parse(s).rest)
  }

  lemma ParseSeatFindsSeats()
    ensures FindsSeats(ParseSeat)
  {
    forall s: string | ParseSeat(s).value.Some?
      ensures exists seat :: SeatIsSpelled(seat, s, ParseSeat(s).value.value, ParseSeat(s).rest)
    {
      var seat := SeatFound(s);
    }
  }

  /** The seats behind a list that was read, for any way to read one seat. */
  lemma {:induction false} SeatListFound(parse: string -> Parsed<CommandSyntax.SeatRead>, s: string, seen: seq<Seat>)
    returns (seats: seq<Seat>)
    requires |seen| < MAX_RESERVATION_SIZE
    requires forall t :: parse(t).value.Some? ==> parse(t).value.value.next in {' ', ']'}
    requires SeatList(parse, s, seen).value.Some? && |SeatList(parse, s, seen).value.value| < MAX_RESERVATION_SIZE
    ensures SeatList(parse, s, seen).value.value == seen + seats
    ensures ReadsSeats(parse, s, seats, SeatList(parse, s, seen).rest)
    decreases MAX_RESERVATION_SIZE - |seen|
  {
    var read := parse(s).value.value;
    if read.next == ']' {
      seats := [read.seat];
    } else {
      var more := SeatListFound(parse, parse(s).rest, seen + [read.seat]);
      seats := [read.seat] + more;
      assert seats[1..] == more;
      assert seen + [read.seat] + more == seen + seats;
    }
  }

  lemma {:induction false} SpelledSeatsFound(parse: string -> Parsed<CommandSyntax.SeatRead>, s: string,
                                             seats: seq<Seat>, tail: string) returns (spelled: seq<SpelledSeat>)
    requires FindsSeats(parse) && ReadsSeats(parse, s, seats, tail)
    ensures SeatsNumerals(spelled) && SeatsMeant(spelled) == seats && spelled != [] && s == SpellSeats(spelled, tail)
    decreases |seats|
  {
    var first :| SeatIsSpelled(first, s, parse(s).value.value, parse(s).rest);
    if |seats| == 1 {
      spelled := [first];
      assert seats == [seats[0]];
    } else {
      var more := SpelledSeatsFound(parse, parse(s).rest, seats[1..], tail);
      spelled := [first] + more;
      assert spelled[1..] == more;
    }
  }

  lemma {:induction false} SpelledSeatsRead(spelled: seq<SpelledSeat>, tail: string)
    requires spelled != [] && SeatsNumerals(spelled)
    ensures ReadsSeats(ParseSeat, SpellSeats(spelled, tail), SeatsMeant(spelled), tail)
    decreases |spelled|
  {
    if |spelled| == 1 {
      SeatRead(spelled[0], ']', tail);
    } else {
      SpelledSeatsRead(spelled[1..], tail);
      SeatRead(spelled[0], ' ', SpellSeats(spelled[1..], tail));
    }
  }

  predicate ReserveSpelled(s: string, d: string, spelled: seq<SpelledSeat>, close: char, rest: string) {
    && Numeral(d) && 1 <= |spelled| <= 255 && SeatsNumerals(spelled) && (close == '\n' || close == '\0')
    && s == d + ([' '] + (['['] + SpellSeats(spelled, [close] + rest)))
  }

  ghost predicate ReserveText(s: string, id: nat, seats: seq<Seat>, rest: string) {
    exists d: string, spelled: seq<SpelledSeat>, close: char ::
      ReserveSpelled(s, d, spelled, close, rest) && Value(d) == id && SeatsMeant(spelled) == seats
  }

  lemma RequestRead(id: nat, s: string, spelled: seq<SpelledSeat>, close: char, rest: string)
    requires 1 <= |spelled| < MAX_RESERVATION_SIZE && SeatsNumerals(spelled) && EndsLine(close)
    requires s == SpellSeats(spelled, [close] + rest)
    ensures ParseRequest(id, s) == Parsed(Some(Reserve(id, SeatsMeant(spelled))), rest)
  {
    var seats := SeatsMeant(spelled);
    SpelledSeatsRead(spelled, [close] + rest);
    SeatListBack(ParseSeat, s, seats, [close] + rest, []);
    assert [] + seats == seats && ([close] + rest)[1..] == rest;
  }

  lemma ReserveRead(s: string, d: string, spelled: seq<SpelledSeat>, close: char, rest: string)
    requires ReserveSpelled(s, d, spelled, close, rest)
    ensures ParseReserve(s) == Parsed(Some(Reserve(Value(d), SeatsMeant(spelled))), rest)
  {
    var list := SpellSeats(spelled, [close] + rest);
    NumeralRead(d, ' ', ['['] + list);
    assert (['['] + list)[1..] == list;
    RequestRead(Value(d), list, spelled, close, rest);
  }

  /** What a list of seats that was read consists of. */
  lemma SeatsFound(s: string) returns (spelled: seq<SpelledSeat>)
    requires ParseSeats(s).value.Some? && |ParseSeats(s).value.value| < MAX_RESERVATION_SIZE
    ensures SeatsNumerals(spelled) && SeatsMeant(spelled) == ParseSeats(s).value.value
    ensures spelled != [] && s == SpellSeats(spelled, ParseSeats(s).rest)
  {
    var seats := SeatListFound(ParseSeat, s, []);
    assert [] + seats == seats;
    ParseSeatFindsSeats();
    spelled := SpelledSeatsFound(ParseSeat, s, seats, ParseSeats(s).rest);
  }

  lemma RequestParts(id: nat, s: string)
    requires ParseRequest(id, s).value.Some?
    ensures var list := ParseSeats(s);
            && list.value.Some? && |list.value.value| < MAX_RESERVATION_SIZE
            && list.rest != "" && EndsLine(list.rest[0])
            && ParseRequest(id, s) == Parsed(Some(Reserve(id, list.value.value)), list.rest[1..])
  {
  }

  lemma ReserveParts(s: string)
    requires ParseReserve(s).value.Some?
    ensures var id := ReadUint(s);
            id.ok && id.next == ' ' && id.rest != "" && id.rest[0] == '[' &&
            ParseReserve(s) == ParseRequest(id.value, id.rest[1..])
  {
  }

  lemma ReserveJoined(s: string, d: string, bracket: string, list: string, spelled: seq<SpelledSeat>,
                      behind: string, rest: string)
    requires s == d + ([' '] + bracket) && bracket == ['['] + list
    requires spelled != [] && list == SpellSeats(spelled, behind) && behind != "" && rest == behind[1..]
    ensures s == d + ([' '] + (['['] + SpellSeats(spelled, [behind[0]] + rest)))
  {
    assert behind == [behind[0]] + behind[1..];
  }

  lemma ReserveFound(s: string)
    requires ParseReserve(s).value.Some?
    ensures var cmd := ParseReserve(s).value.value; ReserveText(s, cmd.id, cmd.seats, ParseReserve(s).rest)
  {
    ReserveParts(s);
    var d := NumeralFoundBefore(s, ' ');
    var bracket := ReadUint(s).rest;
    var list := bracket[1..];
    assert bracket == ['['] + list;
    RequestParts(ReadUint(s).value, list);
    var spelled := SeatsFound(list);
    var behind := ParseSeats(list).rest;
    ReserveJoined(s, d, bracket, list, spelled, behind, behind[1..]);
    assert ReserveSpelled(s, d, spelled, behind[0], behind[1..]);
  }

  lemma ReserveExactly(s: string, id: nat, seats: seq<Seat>, rest: string)
    ensures ParseReserve(s) == Parsed(Some(Reserve(id, seats)), rest) <==> ReserveText(s, id, seats, rest)
  {
    if ParseReserve(s).value.Some? {
      ReserveFound(s);
    }
    if ReserveText(s, id, seats, rest) {
      var d, spelled, close :|
        ReserveSpelled(s, d, spelled, close, rest) && Value(d) == id && SeatsMeant(spelled) == seats;
      ReserveRead(s, d, spelled, close, rest);
    }
  }

  // ----- Words -----

  /** s is the word and then rest. */
  predicate Leads(word: string, s: string, rest: string) {
    s == word + rest
  }

  /** s starts with a line that is the word and nothing else. */
  predicate IsWholeLine(word: string, s: string, rest: string) {
    Leads(word, s, ['\n'] + rest) || (s == word && rest == "")
  }

  lemma ExpectExactly(s: string, word: string, rest: string)
    ensures Expect(s, word) == Parsed(Some(()), rest) <==> s == word + rest
  {
    if |word| <= |s| && s[..|word|] == word {
      assert s == s[..|word|] + s[|word|..];
    }
    if s == word + rest {
      ExpectBack(word, rest);
    }
  }

  /** The first byte and the rest of a word, compared separately. */
  lemma WordSplit(s: string, first: char, word: string, whole: string, rest: string)
    requires s != "" && whole == [first] + word
    ensures s[0] == first && s[1..] == word + rest <==> Leads(whole, s, rest)
  {
    assert s == [s[0]] + s[1..];
    if s == whole + rest {
      assert s[1..] == word + rest;
    }
    if s[0] == first && s[1..] == word + rest {
      assert s == [first] + (word + rest) == whole + rest;
    }
  }

  lemma WordExactly(s: string, first: char, word: string, whole: string, token: Token, rest: string)
    requires s != "" && whole == [first] + word && token != TInvalid
    ensures s[0] == first && WordWithArguments(s[1..], word, token) == (token, rest) <==> Leads(whole, s, rest)
  {
    ExpectExactly(s[1..], word, rest);
    WordSplit(s, first, word, whole, rest);
  }

  lemma BareWordExactly(s: string, first: char, word: string, whole: string, token: Token, rest: string)
    requires s != "" && whole == [first] + word && token != TInvalid
    ensures s[0] == first && BareWord(s[1..], word, token) == (token, rest) <==> IsWholeLine(whole, s, rest)
  {
    ExpectExactly(s[1..], word, ['\n'] + rest);
    ExpectExactly(s[1..], word, "");
    WordSplit(s, first, word, whole, ['\n'] + rest);
    WordSplit(s, first, word, whole, "");
    assert word + "" == word && whole + "" == whole;
    assert (['\n'] + rest)[1..] == rest;
    var w := Expect(s[1..], word);
    if w.value.Some? && w.rest != "" && w.rest[0] == '\n' {
      assert w.rest == ['\n'] + w.rest[1..];
    }
  }

  /** Which word a text starts with; anything else is TInvalid. */
  lemma WordsExactly(threaded: bool, s: string, rest: string)
    requires s != ""
    ensures GetNext(threaded, s) == (TCreate, rest) <==> Leads("CREATE ", s, rest)
    ensures GetNext(threaded, s) == (TReserve, rest) <==> Leads("RESERVE ", s, rest)
    ensures GetNext(threaded, s) == (TShow, rest) <==> Leads("SHOW ", s, rest)
    ensures GetNext(threaded, s) == (TWait, rest) <==> Leads("WAIT ", s, rest)
  {
    WordExactly(s, 'C', "REATE ", "CREATE ", TCreate, rest);
    WordExactly(s, 'R', "ESERVE ", "RESERVE ", TReserve, rest);
    WordExactly(s, 'S', "HOW ", "SHOW ", TShow, rest);
    WordExactly(s, 'W', "AIT ", "WAIT ", TWait, rest);
  }

  lemma ListExactly(threaded: bool, s: string, rest: string)
    requires s != ""
    ensures GetNext(threaded, s) == (TList, rest) <==> IsWholeLine("LIST", s, rest)
  {
    BareWordExactly(s, 'L', "IST", "LIST", TList, rest);
  }

  lemma HelpExactly(threaded: bool, s: string, rest: string)
    requires s != ""
    ensures GetNext(threaded, s) == (THelp, rest) <==> IsWholeLine("HELP", s, rest)
  {
    BareWordExactly(s, 'H', "ELP", "HELP", THelp, rest);
  }

  lemma BarrierExactly(threaded: bool, s: string, rest: string)
    requires s != ""
    ensures GetNext(threaded, s) == (TBarrier, rest) <==> threaded && IsWholeLine("BARRIER", s, rest)
  {
    BareWordExactly(s, 'B', "ARRIER", "BARRIER", TBarrier, rest);
  }

  lemma EmptyWords(threaded: bool, s: string)
    requires s != ""
    ensures GetNext(threaded, s).0 == TEmpty <==> s[0] == '\n' || s[0] == '#'
    ensures s[0] == '\n' ==> GetNext(threaded, s).1 == s[1..]
    ensures s[0] == '#' ==> GetNext(threaded, s).1 == Cleanup(s)
  {
  }

  lemma FirstByte(s: string, c: char, rest: string)
    requires s != ""
    ensures Leads([c], s, rest) <==> s[0] == c && s[1..] == rest
  {
    assert s == [s[0]] + s[1..];
  }

  lemma EmptyExactly(threaded: bool, s: string, rest: string)
    requires s != ""
    ensures GetNext(threaded, s) == (TEmpty, rest) <==>
            Leads(['\n'], s, rest) || (s[0] == '#' && FollowsLine(s, rest))
  {
    EmptyWords(threaded, s);
    FirstByte(s, '\n', rest);
    CleanupExactly(s, rest);
  }

  // ----- Commands -----

  /** The text s is this command and then rest. */
  ghost predicate IsCommand(threaded: bool, s: string, cmd: Command, rest: string) {
    match cmd
    case Create(id, rows, cols) => "CREATE " <= s && CreateText(s[7..], id, rows, cols, rest)
    case Reserve(id, seats) => "RESERVE " <= s && ReserveText(s[8..], id, seats, rest)
    case Show(id) => "SHOW " <= s && ShowText(s[5..], id, rest)
    case Wait(delay, thread) => "WAIT " <= s && WaitText(threaded, s[5..], delay, thread, rest)
    case ListEvents => IsWholeLine("LIST", s, rest)
    case Barrier => threaded && IsWholeLine("BARRIER", s, rest)
    case Help => IsWholeLine("HELP", s, rest)
    case Empty => Leads(['\n'], s, rest) || (s != "" && s[0] == '#' && FollowsLine(s, rest))
    case Invalid => false
    case BadWait => false
  }

  /** Arguments are those of their word. */
  lemma LeadsSplit(word: string, s: string, rest: string)
    ensures Leads(word, s, rest) <==> word <= s && rest == s[|word|..]
  {
    if word <= s {
      assert s == s[..|word|] + s[|word|..];
    }
  }

  /** The arguments behind a word, where the word is there. */
  lemma ArgumentsBehind(threaded: bool, s: string, word: string, token: Token)
    requires s != "" && forall rest :: GetNext(threaded, s) == (token, rest) <==> Leads(word, s, rest)
    ensures if GetNext(threaded, s).0 == token then word <= s && GetNext(threaded, s).1 == s[|word|..] else !(word <= s)
  {
    var (found, rest) := GetNext(threaded, s);
    LeadsSplit(word, s, rest);
    if word <= s {
      LeadsSplit(word, s, s[|word|..]);
    }
  }

  lemma GetNextWords(threaded: bool, s: string)
    requires s != ""
    ensures var (token, rest) := GetNext(threaded, s);
            && (if token == TCreate then "CREATE " <= s && rest == s[7..] else !("CREATE " <= s))
            && (if token == TReserve then "RESERVE " <= s && rest == s[8..] else !("RESERVE " <= s))
            && (if token == TShow then "SHOW " <= s && rest == s[5..] else !("SHOW " <= s))
            && (if token == TWait then "WAIT " <= s && rest == s[5..] else !("WAIT " <= s))
  {
    forall rest: string
      ensures GetNext(threaded, s) == (TCreate, rest) <==> Leads("CREATE ", s, rest)
      ensures GetNext(threaded, s) == (TReserve, rest) <==> Leads("RESERVE ", s, rest)
      ensures GetNext(threaded, s) == (TShow, rest) <==> Leads("SHOW ", s, rest)
      ensures GetNext(threaded, s) == (TWait, rest) <==> Leads("WAIT ", s, rest)
    {
      WordsExactly(threaded, s, rest);
    }
    ArgumentsBehind(threaded, s, "CREATE ", TCreate);
    ArgumentsBehind(threaded, s, "RESERVE ", TReserve);
    ArgumentsBehind(threaded, s, "SHOW ", TShow);
    ArgumentsBehind(threaded, s, "WAIT ", TWait);
  }

  /** Arguments come to a command of their own word, or are refused. */
  lemma ArgumentsExactly(threaded: bool, token: Token, args: string, cmd: Command, rest: string)
    requires !cmd.Invalid? && !cmd.BadWait?
    ensures Arguments(threaded, token, args) == (cmd, rest) <==>
      match cmd
      case Create(_, _, _) => token == TCreate && ParseCreate(args) == Parsed(Some(cmd), rest)
      case Reserve(_, _) => token == TReserve && ParseReserve(args) == Parsed(Some(cmd), rest)
      case Show(_) => token == TShow && ParseShow(args) == Parsed(Some(cmd), rest)
      case Wait(_, _) => token == TWait && ParseWait(threaded, args) == Parsed(Some(cmd), rest)
      case ListEvents => token == TList && args == rest
      case Barrier => token == TBarrier && args == rest
      case Help => token == THelp && args == rest
      case Empty => token == TEmpty && args == rest
  {
  }

  lemma WordCommandsExactly(threaded: bool, s: string, cmd: Command, rest: string)
    requires s != "" && (cmd.Create? || cmd.Reserve? || cmd.Show? || cmd.Wait?)
    ensures NextCommand(threaded, s) == (cmd, rest) <==> IsCommand(threaded, s, cmd, rest)
  {
    GetNextWords(threaded, s);
    var (token, args) := GetNext(threaded, s);
    ArgumentsExactly(threaded, token, args, cmd, rest);
    match cmd
    case Create(id, rows, cols) => CreateExactly(args, id, rows, cols, rest);
    case Reserve(id, seats) => ReserveExactly(args, id, seats, rest);
    case Show(id) => ShowExactly(args, id, rest);
    case Wait(delay, thread) => WaitExactly(threaded, args, delay, thread, rest);
  }

  lemma LineCommandsExactly(threaded: bool, s: string, cmd: Command, rest: string)
    requires s != "" && (cmd.ListEvents? || cmd.Barrier? || cmd.Help? || cmd.Empty?)
    ensures NextCommand(threaded, s) == (cmd, rest) <==> IsCommand(threaded, s, cmd, rest)
  {
    var (token, args) := GetNext(threaded, s);
    ArgumentsExactly(threaded, token, args, cmd, rest);
    ListExactly(threaded, s, rest);
    HelpExactly(threaded, s, rest);
    BarrierExactly(threaded, s, rest);
    EmptyExactly(threaded, s, rest);
  }

  /** The reader finds a command exactly where the text is that command; all else it reports as malformed. */
  lemma CommandsExactly(threaded: bool, s: string, cmd: Command, rest: string)
    requires s != "" && !cmd.Invalid? && !cmd.BadWait?
    ensures NextCommand(threaded, s) == (cmd, rest) <==> IsCommand(threaded, s, cmd, rest)
  {
    if cmd.Create? || cmd.Reserve? || cmd.Show? || cmd.Wait? {
      WordCommandsExactly(threaded, s, cmd, rest);
    } else {
      LineCommandsExactly(threaded, s, cmd, rest);
    }
  }
}
