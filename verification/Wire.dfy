/** The RESERVE request as text: built by the client, taken apart by the server with running offsets. */
module Wire {
  import opened Buffers
  import opened Decimal
  import opened Options
  import opened Sequences
  import opened Seating
  import opened CommandSyntax
  import opened CommandReader
  import opened EventStore
  import opened EventObjects
  import opened ShownHalls

  const PIPE_BUFFER: nat := 100
  const RESERVE_CODE: char := '4'

  datatype Request = Request(id: nat, seats: seq<Seat>)

  // ----- The client -----

  function SeatText(s: Seat): string {
    " " + Dec(s.row) + " " + Dec(s.col)
  }

  function SeatsText(seats: seq<Seat>): string {
    if seats == [] then "" else SeatText(seats[0]) + SeatsText(seats[1..])
  }

  function HeadText(id: nat, count: nat): string {
    " 4 " + Dec(id) + " " + Dec(count)
  }

  function RequestText(r: Request): string {
    HeadText(r.id, |r.seats|) + SeatsText(r.seats)
  }

  lemma {:induction false} SeatsTextAppend(seats: seq<Seat>, s: Seat)
    ensures SeatsText(seats + [s]) == SeatsText(seats) + SeatText(s)
  {
    if seats == [] {
      assert seats + [s] == [s] && SeatsText([s]) == SeatText(s) + "";
    } else {
      SeatsTextAppend(seats[1..], s);
      assert (seats + [s])[1..] == seats[1..] + [s];
      assert SeatText(seats[0]) + (SeatsText(seats[1..]) + SeatText(s)) ==
             SeatText(seats[0]) + SeatsText(seats[1..]) + SeatText(s);
    }
  }

  lemma {:induction false} SeatsTextPrefix(seats: seq<Seat>, i: nat)
    requires i <= |seats|
    ensures |SeatsText(seats[..i])| <= |SeatsText(seats)|
  {
    if i > 0 {
      assert seats[..i][0] == seats[0] && seats[..i][1..] == seats[1..][..i - 1];
      SeatsTextPrefix(seats[1..], i - 1);
    }
  }

  /** The request with its first i seats. */
  function RequestSoFar(r: Request, i: nat): string
    requires i <= |r.seats|
  {
    HeadText(r.id, |r.seats|) + SeatsText(r.seats[..i])
  }

  lemma RequestGrows(r: Request, i: nat)
    requires i < |r.seats|
    ensures RequestSoFar(r, i + 1) == RequestSoFar(r, i) + SeatText(r.seats[i])
    ensures |RequestSoFar(r, i + 1)| <= |RequestText(r)|
  {
    assert r.seats[..i + 1] == r.seats[..i] + [r.seats[i]];
    SeatsTextAppend(r.seats[..i], r.seats[i]);
    SeatsTextPrefix(r.seats, i + 1);
    Associate(HeadText(r.id, |r.seats|), SeatsText(r.seats[..i]), SeatText(r.seats[i]));
  }

  lemma RequestEnds(r: Request)
    ensures RequestSoFar(r, |r.seats|) == RequestText(r)
    ensures RequestSoFar(r, 0) == HeadText(r.id, |r.seats|) && |HeadText(r.id, |r.seats|)| <= |RequestText(r)|
  {
    assert r.seats[..|r.seats|] == r.seats;
    assert HeadText(r.id, |r.seats|) + "" == HeadText(r.id, |r.seats|);
  }

  /** snprintf at the end of what the buffer holds. */
  method Append(buffer: array<char>, offset: nat, text: string) returns (longer: nat)
    requires offset + |text| < buffer.Length
    modifies buffer
    ensures longer < buffer.Length && buffer[..longer] == old(buffer[..offset]) + text
  {
    CopyAt(buffer, offset, text);
    longer := offset + |text|;
  }

  /** The buffer the request is collected in; what is sent is the text before offset. */
  method BuildRequest(id: nat, xs: seq<nat>, ys: seq<nat>) returns (request: array<char>, offset: nat)
    requires |xs| == |ys| && |RequestText(Request(id, SeatsIn(xs, ys)))| < PIPE_BUFFER
    ensures fresh(request) && offset < request.Length == PIPE_BUFFER
    ensures request[..offset] == RequestText(Request(id, SeatsIn(xs, ys)))
  {
    ghost var r := Request(id, SeatsIn(xs, ys));
    RequestEnds(r);
    request := new char[PIPE_BUFFER];
    offset := Append(request, 0, HeadText(id, |xs|));
    for i := 0 to |xs|
      invariant offset < request.Length && request[..offset] == RequestSoFar(r, i)
    {
      RequestGrows(r, i);
      offset := Append(request, offset, SeatText(Seat(xs[i], ys[i])));
    }
  }

  // ----- sscanf -----

  predicate IsSpace(c: char) {
    c == ' ' || '\t' <= c <= '\r'
  }

  function SkipSpaces(s: string): (rest: string)
    ensures |rest| <= |s|
  {
    if s != "" && IsSpace(s[0]) then SkipSpaces(s[1..]) else s
  }

  datatype Scanned = Scanned(value: nat, rest: string)

  /** "%u" and "%zu": leading white space, then at least one digit. */
  function ScanUint(s: string): Option<Scanned> {
    var t := SkipSpaces(s);
    var d := DigitCount(t);
    if d == 0 then None else Some(Scanned(Value(t[..d]), t[d..]))
  }

  /** " %zu %zu" */
  function ScanSeat(s: string): Option<Seat> {
    match ScanUint(s)
    case None => None
    case Some(x) =>
      match ScanUint(x.rest)
      case None => None
      case Some(y) => Some(Seat(x.value, y.value))
  }

  datatype Head = Head(command: char, id: nat, count: nat)

  /** " %c %u %zu" */
  function ScanHead(s: string): Option<Head> {
    var t := SkipSpaces(s);
    if t == "" then None else
      match ScanUint(t[1..])
      case None => None
      case Some(id) =>
        match ScanUint(id.rest)
        case None => None
        case Some(count) => Some(Head(t[0], id.value, count.value))
  }

  // ----- The server -----

  /** How far a seat moves the offset: its numbers as they would print, and two separators. */
  function SeatWidth(s: Seat): nat {
    |Dec(s.row)| + 1 + |Dec(s.col)| + 1
  }

  /** Where the first seat starts: behind the head as it would print, and the space in front of it. */
  function SeatsStart(h: Head): nat {
    1 + 1 + |Dec(h.id)| + 1 + |Dec(h.count)| + 1
  }

  /** count seats from offset at on; None as soon as one does not parse. */
  function DecodeSeats(scan: string -> Option<Seat>, text: string, at: nat, count: nat): Option<seq<Seat>>
    decreases count
  {
    if count == 0 then Some([])
    else if |text| < at then None
    else
      match scan(text[at..])
      case None => None
      case Some(seat) =>
        match DecodeSeats(scan, text, at + SeatWidth(seat), count - 1)
        case None => None
        case Some(seats) => Some([seat] + seats)
  }

  function DecodeRequest(text: string): Option<Request> {
    match ScanHead(text)
    case None => None
    case Some(h) =>
      match DecodeSeats(ScanSeat, text, SeatsStart(h), h.count)
      case None => None
      case Some(seats) => Some(Request(h.id, seats))
  }

  // ----- Round trip -----

  lemma GroupRight(a: string, b: string, c: string, d: string, tail: string)
    ensures a + b + c + d + tail == a + (b + (c + (d + tail)))
  {
  }

  lemma ScanUintBack(n: nat, tail: string)
    requires tail == "" || !IsDigit(tail[0])
    ensures ScanUint(" " + (Dec(n) + tail)) == Some(Scanned(n, tail))
  {
    var t := Dec(n) + tail;
    assert (" " + t)[1..] == t;
    assert SkipSpaces(t) == t;
    DigitCountOfNumeral(Dec(n), tail);
    ValueOfDec(n);
  }

  lemma ScanSeatBack(s: Seat, tail: string)
    requires tail == "" || !IsDigit(tail[0])
    ensures ScanSeat(SeatText(s) + tail) == Some(s)
  {
    var second := " " + (Dec(s.col) + tail);
    ScanUintBack(s.col, tail);
    ScanUintBack(s.row, second);
    GroupRight(" ", Dec(s.row), " ", Dec(s.col), tail);
  }

  lemma {:induction false} SeatsTextStart(seats: seq<Seat>)
    ensures SeatsText(seats) == "" || !IsDigit(SeatsText(seats)[0])
  {
  }

  /** Behind the first seat stand the others. */
  lemma SeatBehind(text: string, at: nat, seat: Seat, others: string)
    requires at <= |text| && text[at..] == SeatText(seat) + others
    ensures at + SeatWidth(seat) <= |text| && text[at + SeatWidth(seat)..] == others
  {
    assert |SeatText(seat)| == SeatWidth(seat);
    assert text[at + SeatWidth(seat)..] == text[at..][SeatWidth(seat)..];
  }

  /** scan reads a seat's text back, whatever text of seats follows. */
  ghost predicate ReadsBack(scan: string -> Option<Seat>) {
    forall seat, others :: ReadsSeatBack(scan, seat, others)
  }

  ghost predicate ReadsSeatBack(scan: string -> Option<Seat>, seat: Seat, others: seq<Seat>) {
    scan(SeatText(seat) + SeatsText(others)) == Some(seat)
  }

  lemma ScanReadsBack()
    ensures ReadsBack(ScanSeat)
  {
    forall seat, others ensures ReadsSeatBack(ScanSeat, seat, others) {
      SeatsTextStart(others);
      ScanSeatBack(seat, SeatsText(others));
    }
  }

  /** The running offset always stands in front of the next seat. */
  lemma {:induction false} SeatsDecoded(scan: string -> Option<Seat>, text: string, at: nat, seats: seq<Seat>)
    requires ReadsBack(scan) && at <= |text| && text[at..] == SeatsText(seats)
    ensures DecodeSeats(scan, text, at, |seats|) == Some(seats)
    decreases seats
  {
    if seats != [] {
      var seat, others := seats[0], seats[1..];
      assert ReadsSeatBack(scan, seat, others);
      SeatBehind(text, at, seat, SeatsText(others));
      SeatsDecoded(scan, text, at + SeatWidth(seat), others);
      assert [seat] + others == seats;
    }
  }

  lemma HeadScanned(id: nat, count: nat, tail: string)
    requires tail == "" || !IsDigit(tail[0])
    ensures ScanHead(HeadText(id, count) + tail) == Some(Head(RESERVE_CODE, id, count))
  {
    var second := " " + (Dec(count) + tail);
    ScanUintBack(count, tail);
    ScanUintBack(id, second);
    HeadBegins(id, count, tail);
  }

  lemma SpaceSkipped(text: string)
    requires text != "" && !IsSpace(text[0])
    ensures SkipSpaces([' '] + text) == text
  {
    assert ([' '] + text)[1..] == text;
    assert SkipSpaces(text) == text;
  }

  lemma HeadInParts(id: string, count: string, tail: string)
    ensures " 4 " + id + " " + count + tail == [' '] + ([RESERVE_CODE] + (" " + (id + (" " + (count + tail)))))
  {
  }

  lemma HeadBegins(id: nat, count: nat, tail: string)
    ensures SkipSpaces(HeadText(id, count) + tail) == [RESERVE_CODE] + (" " + (Dec(id) + (" " + (Dec(count) + tail))))
  {
    HeadInParts(Dec(id), Dec(count), tail);
    SpaceSkipped([RESERVE_CODE] + (" " + (Dec(id) + (" " + (Dec(count) + tail)))));
  }

  lemma HeadWidth(id: nat, count: nat)
    ensures |HeadText(id, count)| == SeatsStart(Head(RESERVE_CODE, id, count))
  {
  }

  /** Whatever the client asks for, the server takes out of its request. */
  lemma RequestRoundTrip(r: Request)
    ensures DecodeRequest(RequestText(r)) == Some(r)
  {
    var text, seats := RequestText(r), SeatsText(r.seats);
    SeatsTextStart(r.seats);
    HeadScanned(r.id, |r.seats|, seats);
    var h := Head(RESERVE_CODE, r.id, |r.seats|);
    HeadWidth(r.id, |r.seats|);
    assert text[SeatsStart(h)..] == seats;
    ScanReadsBack();
    SeatsDecoded(ScanSeat, text, SeatsStart(h), r.seats);
  }

  // ----- What a request says -----

  /** Row and column of each seat, in this order. */
  function Coordinates(seats: seq<Seat>): seq<nat> {
    if seats == [] then [] else [seats[0].row, seats[0].col] + Coordinates(seats[1..])
  }

  lemma LastNumberRead(n: nat)
    ensures ReadLine(Dec(n)) == LineRead([n], "")
  {
    ValueOfDec(n);
    DigitCountOfNumeral(Dec(n), "");
    assert Dec(n) + "" == Dec(n) && Dec(n)[..|Dec(n)|] == Dec(n);
  }

  ghost predicate ReadsLast(read: string -> LineRead) {
    forall n: nat {:trigger Dec(n)} :: read(Dec(n)) == LineRead([n], "")
  }

  lemma SeatBehindNumber(number: string, seats: seq<Seat>)
    requires seats != []
    ensures number + SeatsText(seats) ==
      number + ([' '] + (Dec(seats[0].row) + ([' '] + (Dec(seats[0].col) + SeatsText(seats[1..])))))
  {
    GroupRight(" ", Dec(seats[0].row), " ", Dec(seats[0].col), SeatsText(seats[1..]));
  }

  lemma TwoMoreRead(read: string -> LineRead, n: nat, row: nat, second: string, more: seq<nat>)
    requires ReadsNumbers(read) && read(second) == LineRead(more, "")
    ensures read(Dec(n) + ([' '] + (Dec(row) + ([' '] + second)))) == LineRead([n, row] + more, "")
  {
    assert ReadsNumber(read, row, ' ', second);
    assert ReadsNumber(read, n, ' ', Dec(row) + ([' '] + second));
    assert [n] + ([row] + more) == [n, row] + more;
  }

  lemma CoordinatesFirst(n: nat, seats: seq<Seat>)
    requires seats != []
    ensures [n, seats[0].row] + ([seats[0].col] + Coordinates(seats[1..])) == [n] + Coordinates(seats)
  {
  }

  lemma {:induction false} NumbersRead(read: string -> LineRead, n: nat, seats: seq<Seat>)
    requires ReadsNumbers(read) && ReadsLast(read)
    ensures read(Dec(n) + SeatsText(seats)) == LineRead([n] + Coordinates(seats), "")
    decreases |seats|
  {
    if seats == [] {
      assert Dec(n) + SeatsText(seats) == Dec(n);
    } else {
      NumbersRead(read, seats[0].col, seats[1..]);
      TwoMoreRead(read, n, seats[0].row, Dec(seats[0].col) + SeatsText(seats[1..]),
                  [seats[0].col] + Coordinates(seats[1..]));
      SeatBehindNumber(Dec(n), seats);
      CoordinatesFirst(n, seats);
    }
  }

  /** What follows the space in front of a request. */
  function NumbersOf(r: Request): string {
    Dec(4) + ([' '] + (Dec(r.id) + ([' '] + (Dec(|r.seats|) + SeatsText(r.seats)))))
  }

  lemma RequestIsNumbers(r: Request)
    ensures RequestText(r) == [' '] + NumbersOf(r)
  {
    GroupRight(" 4 ", Dec(r.id), " ", Dec(|r.seats|), SeatsText(r.seats));
    assert Dec(4) == "4";
  }

  lemma NumbersOfRead(read: string -> LineRead, r: Request)
    requires ReadsNumbers(read) && ReadsLast(read)
    ensures read(NumbersOf(r)) == LineRead([4, r.id, |r.seats|] + Coordinates(r.seats), "")
  {
    NumbersRead(read, |r.seats|, r.seats);
    TwoMoreRead(read, 4, r.id, Dec(|r.seats|) + SeatsText(r.seats), [|r.seats|] + Coordinates(r.seats));
    assert [4, r.id] + ([|r.seats|] + Coordinates(r.seats)) == [4, r.id, |r.seats|] + Coordinates(r.seats);
  }

  lemma ReadLineReadsLast()
    ensures ReadsLast(ReadLine)
  {
    forall n: nat ensures ReadLine(Dec(n)) == LineRead([n], "") {
      LastNumberRead(n);
    }
  }

  /** A request is a line of numbers behind a space: 4, the event, how many seats, and row and column of each. */
  lemma RequestNumbers(r: Request)
    ensures RequestText(r) == [' '] + NumbersOf(r)
    ensures ReadLine(NumbersOf(r)) == LineRead([4, r.id, |r.seats|] + Coordinates(r.seats), "")
  {
    RequestIsNumbers(r);
    ReadLineReadsNumbers();
    ReadLineReadsLast();
    NumbersOfRead(ReadLine, r);
  }

  // ----- Server and client as they run -----

  /** The whole decoding is what has been taken out already and what is still to come. */
  ghost predicate Decodes(scan: string -> Option<Seat>, whole: Option<seq<Seat>>, seen: seq<Seat>,
                          text: string, at: nat, left: nat) {
    whole == match DecodeSeats(scan, text, at, left)
             case None => None
             case Some(more) => Some(seen + more)
  }

  lemma DecodesOneMore(scan: string -> Option<Seat>, whole: Option<seq<Seat>>, seen: seq<Seat>,
                       text: string, at: nat, left: nat)
    requires Decodes(scan, whole, seen, text, at, left) && left > 0
    ensures |text| < at ==> whole == None
    ensures at <= |text| ==>
      match scan(text[at..])
      case None => whole == None
      case Some(seat) => Decodes(scan, whole, seen + [seat], text, at + SeatWidth(seat), left - 1)
  {
    if at <= |text| && scan(text[at..]).Some? {
      var seat := scan(text[at..]).value;
      match DecodeSeats(scan, text, at + SeatWidth(seat), left - 1)
      case None =>
      case Some(more) => Regroup(seen, seat, more);
    }
  }

  lemma DecodesNothingYet(scan: string -> Option<Seat>, none: seq<Seat>, text: string, at: nat, count: nat)
    requires none == []
    ensures Decodes(scan, DecodeSeats(scan, text, at, count), none, text, at, count)
  {
    match DecodeSeats(scan, text, at, count)
    case None =>
    case Some(more) => assert none + more == more;
  }

  lemma DecodesAll(scan: string -> Option<Seat>, whole: Option<seq<Seat>>, seen: seq<Seat>, text: string, at: nat)
    requires Decodes(scan, whole, seen, text, at, 0)
    ensures whole == Some(seen)
  {
    assert seen + [] == seen;
  }

  /** A request shorter than the pipe buffer has far fewer seats than the arrays have room for. */
  lemma {:induction false} SeatsTextLong(seats: seq<Seat>)
    ensures 4 * |seats| <= |SeatsText(seats)|
  {
    if seats != [] {
      SeatsTextLong(seats[1..]);
    }
  }

  /** One seat of a request into place i of the arrays; the width it has there, or 0 if there is none. */
  method TakeSeat(scan: string -> Option<Seat>, text: string, at: nat, xs: array<nat>, ys: array<nat>, i: nat,
                  ghost left: nat, ghost whole: Option<seq<Seat>>) returns (width: nat)
    requires i < xs.Length == ys.Length && xs != ys && left > 0
    requires Decodes(scan, whole, SeatsIn(xs[..i], ys[..i]), text, at, left)
    modifies xs, ys
    ensures width == 0 ==> whole == None
    ensures width > 0 ==> Decodes(scan, whole, SeatsIn(xs[..i + 1], ys[..i + 1]), text, at + width, left - 1)
  {
    ghost var seen := SeatsIn(xs[..i], ys[..i]);
    DecodesOneMore(scan, whole, seen, text, at, left);
    if |text| < at {
      return 0;
    }
    var read := scan(text[at..]);
    if read.None? {
      return 0;
    }
    xs[i], ys[i] := read.value.row, read.value.col;
    SeatStored(xs[..i + 1], ys[..i + 1], seen, read.value);
    return SeatWidth(read.value);
  }

  /**
   * The server's loop over the seats of a request. Where it fails the program goes on with whatever
   * the arrays held; the model stops.
   */
  method TakeSeats(scan: string -> Option<Seat>, text: string, h: Head, xs: array<nat>, ys: array<nat>)
      returns (ok: bool)
    requires h.count <= xs.Length == ys.Length && xs != ys
    modifies xs, ys
    ensures DecodeSeats(scan, text, SeatsStart(h), h.count) ==
      if ok then Some(SeatsIn(xs[..h.count], ys[..h.count])) else None
  {
    ghost var whole := DecodeSeats(scan, text, SeatsStart(h), h.count);
    var upgrade: nat := 0;
    DecodesNothingYet(scan, SeatsIn(xs[..0], ys[..0]), text, SeatsStart(h), h.count);
    for i := 0 to h.count
      invariant Decodes(scan, whole, SeatsIn(xs[..i], ys[..i]), text, SeatsStart(h) + upgrade, h.count - i)
    {
      var width := TakeSeat(scan, text, SeatsStart(h) + upgrade, xs, ys, i, h.count - i, whole);
      if width == 0 {
        return false;
      }
      upgrade := upgrade + width;
    }
    DecodesAll(scan, whole, SeatsIn(xs[..h.count], ys[..h.count]), text, SeatsStart(h) + upgrade);
    return true;
  }

  /** The numbers in front, then the seats into two arrays. */
  method TakeRequest(text: string) returns (request: Option<Request>)
    requires ScanHead(text).Some? ==> ScanHead(text).value.count <= MAX_RESERVATION_SIZE
    ensures request == DecodeRequest(text)
  {
    var head := ScanHead(text);
    if head.None? {
      return None;
    }
    var h := head.value;
    var xs, ys := new nat[MAX_RESERVATION_SIZE], new nat[MAX_RESERVATION_SIZE];
    var ok := TakeSeats(ScanSeat, text, h, xs, ys);
    return if ok then Some(Request(h.id, SeatsIn(xs[..h.count], ys[..h.count]))) else None;
  }

  lemma RequestFitsServer(r: Request)
    requires |RequestText(r)| < PIPE_BUFFER
    ensures DecodeRequest(RequestText(r)) == Some(r)
    ensures ScanHead(RequestText(r)).Some? && ScanHead(RequestText(r)).value.count <= MAX_RESERVATION_SIZE
  {
    RequestRoundTrip(r);
    SeatsTextLong(r.seats);
    SeatsTextStart(r.seats);
    HeadScanned(r.id, |r.seats|, SeatsText(r.seats));
  }

  /** What the client puts into the pipe is what the server takes out of it. */
  method Carry(id: nat, xs: seq<nat>, ys: seq<nat>) returns (taken: Request)
    requires |xs| == |ys| && |RequestText(Request(id, SeatsIn(xs, ys)))| < PIPE_BUFFER
    ensures taken == Request(id, SeatsIn(xs, ys))
  {
    var request, offset := BuildRequest(id, xs, ys);
    RequestFitsServer(Request(id, SeatsIn(xs, ys)));
    var found := TakeRequest(request[..offset]);
    return found.value;
  }

  /** From the client's arrays through the pipe to the server's list: one atomic reservation. */
  method ReserveThroughPipe(ems: Ems, id: nat, xs: seq<nat>, ys: seq<nat>) returns (answer: nat)
    requires ems.Valid() && |xs| == |ys|
    requires |RequestText(Request(id, SeatsIn(xs, ys)))| < PIPE_BUFFER
    modifies set n | n in ems.list.spine :: n.event, set n | n in ems.list.spine :: n.event.data
    ensures ems.Valid() && ems.Contents() == ApplyLenient(old(ems.Contents()), id, SeatsIn(xs, ys))
    ensures answer == if LenientReserveGranted(old(ems.Contents()), id, SeatsIn(xs, ys)) then 0 else 1
  {
    var taken := Carry(id, xs, ys);
    answer := ems.ReserveOnServer(taken.id, taken.seats);
  }
}
