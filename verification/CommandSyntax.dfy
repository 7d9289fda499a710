/**
 * What the command reader makes of a job file, as functions on the part of the file not read yet.
 * The threaded runner's dialect has BARRIER and a thread argument for WAIT; the client's has neither.
 */
module CommandSyntax {
  import opened Decimal
  import opened Options
  import opened Seating
  import opened Commands

  const MAX_RESERVATION_SIZE: nat := 256

  /** A NUL stands for "no byte", as in the source. */
  const NUL: char := '\0'

  /** Skips to just after the next newline, or to the end of the file. */
  function Cleanup(s: string): (rest: string)
    ensures |rest| <= |s| && (s != "" ==> |rest| < |s|)
  {
    if s == "" then "" else if s[0] == '\n' then s[1..] else Cleanup(s[1..])
  }

  datatype UintRead = UintRead(ok: bool, value: nat, next: char, rest: string)

  /** Reads a digit run and the byte after it; no digits read as 0. */
  function ReadUint(s: string): (r: UintRead)
    ensures |r.rest| <= |s|
  {
    var d := DigitCount(s);
    var v := Value(s[..d]);
    if d == |s| then UintRead(v < UINT_MOD, v, NUL, "")
    else UintRead(v < UINT_MOD, v, s[d], s[d + 1..])
  }

  predicate EndsLine(c: char) {
    c == '\n' || c == NUL
  }

  /** An attempt to read something: on failure the rest of the line has been skipped. */
  datatype Parsed<+T> = Parsed(value: Option<T>, rest: string)

  function Fail<T>(s: string): Parsed<T> {
    Parsed(None, Cleanup(s))
  }

  /** One multi-byte read compared with the literal; a short read takes what is left. */
  function Expect(s: string, word: string): (r: Parsed<()>)
    ensures |r.rest| <= |s|
  {
    if |s| < |word| then Fail("")
    else if s[..|word|] == word then Parsed(Some(()), s[|word|..])
    else Fail(s[|word|..])
  }

  /** One byte, which has to satisfy the caller. */
  function ReadByte(s: string): (r: Parsed<char>)
    ensures r.value.Some? ==> |r.rest| < |s|
    ensures |r.rest| <= |s|
  {
    if s == "" then Parsed(None, "") else Parsed(Some(s[0]), s[1..])
  }

  /** The rows and columns of CREATE. */
  function ParseSizes(id: nat, s: string): (r: Parsed<Command>)
    ensures |r.rest| <= |s| && (r.value.Some? ==> r.value.value.Create?)
  {
    var rows := ReadUint(s);
    if !rows.ok || rows.next != ' ' then Fail(rows.rest) else
    var cols := ReadUint(rows.rest);
    if !cols.ok || !EndsLine(cols.next) then Fail(cols.rest) else
    Parsed(Some(Create(id, rows.value, cols.value)), cols.rest)
  }

  function ParseCreate(s: string): (r: Parsed<Command>)
    ensures |r.rest| <= |s| && (r.value.Some? ==> r.value.value.Create?)
  {
    var id := ReadUint(s);
    if !id.ok || id.next != ' ' then Fail(id.rest) else ParseSizes(id.value, id.rest)
  }

  function ParseShow(s: string): (r: Parsed<Command>)
    ensures |r.rest| <= |s| && (r.value.Some? ==> r.value.value.Show?)
  {
    var id := ReadUint(s);
    if !id.ok || !EndsLine(id.next) then Fail(id.rest) else Parsed(Some(Show(id.value)), id.rest)
  }

  function ParseWait(threaded: bool, s: string): (r: Parsed<Command>)
    ensures |r.rest| <= |s| && (r.value.Some? ==> r.value.value.Wait?)
  {
    var delay := ReadUint(s);
    if !delay.ok then Fail(delay.rest)
    else if delay.next == ' ' then
      if !threaded then Parsed(Some(Wait(delay.value, 0)), Cleanup(delay.rest)) else
      var thread := ReadUint(delay.rest);
      if !thread.ok || !EndsLine(thread.next) then Fail(thread.rest)
      else Parsed(Some(Wait(delay.value, thread.value)), thread.rest)
    else if EndsLine(delay.next) then Parsed(Some(Wait(delay.value, 0)), delay.rest)
    else Fail(delay.rest)
  }

  /** "x,y)" */
  function ParsePair(s: string): (r: Parsed<Seat>)
    ensures |r.rest| <= |s|
  {
    var x := ReadUint(s);
    if !x.ok || x.next != ',' then Fail(x.rest) else
    var y := ReadUint(x.rest);
    if !y.ok || y.next != ')' then Fail(y.rest) else
    Parsed(Some(Seat(x.value, y.value)), y.rest)
  }

  /** "(x,y)" and the byte after it. */
  datatype SeatRead = SeatRead(seat: Seat, next: char)

  function ParseSeat(s: string): (r: Parsed<SeatRead>)
    ensures |r.rest| <= |s|
    ensures r.value.Some? ==> |r.rest| < |s| && r.value.value.next in {' ', ']'}
  {
    var open := ReadByte(s);
    if open.value != Some('(') then Fail(open.rest) else
    var pair := ParsePair(open.rest);
    match pair.value
    case None => Parsed(None, pair.rest)
    case Some(seat) =>
      var after := ReadByte(pair.rest);
      if after.value != Some(' ') && after.value != Some(']') then Fail(after.rest) else
      Parsed(Some(SeatRead(seat, after.value.value)), after.rest)
  }

  /**
   * The seats up to "]", after those already seen; a full list leaves the loop without looking for "]".
   * Stated for any way to read one seat, so that its laws need not look inside ParseSeat.
   */
  function SeatList(parse: string -> Parsed<SeatRead>, s: string, seen: seq<Seat>): (r: Parsed<seq<Seat>>)
    requires |seen| <= MAX_RESERVATION_SIZE
    ensures r.value.Some? ==> |r.value.value| <= MAX_RESERVATION_SIZE && seen <= r.value.value
    ensures r.value.Some? && |seen| < MAX_RESERVATION_SIZE ==> |seen| < |r.value.value|
    decreases MAX_RESERVATION_SIZE - |seen|
  {
    if |seen| == MAX_RESERVATION_SIZE then Parsed(Some(seen), s) else
    var first := parse(s);
    match first.value
    case None => Parsed(None, first.rest)
    case Some(read) =>
      if read.next == ']' then Parsed(Some(seen + [read.seat]), first.rest)
      else SeatList(parse, first.rest, seen + [read.seat])
  }

  lemma {:induction false} SeatListShrinks(parse: string -> Parsed<SeatRead>, s: string, seen: seq<Seat>)
    requires |seen| <= MAX_RESERVATION_SIZE && forall t :: |parse(t).rest| <= |t|
    ensures |SeatList(parse, s, seen).rest| <= |s|
    decreases MAX_RESERVATION_SIZE - |seen|
  {
    if |seen| < MAX_RESERVATION_SIZE && parse(s).value.Some? {
      SeatListShrinks(parse, parse(s).rest, seen + [parse(s).value.value.seat]);
    }
  }

  function ParseSeats(s: string): (r: Parsed<seq<Seat>>)
    ensures |r.rest| <= |s|
    ensures r.value.Some? ==> 1 <= |r.value.value| <= MAX_RESERVATION_SIZE
  {
    assert forall t :: |ParseSeat(t).rest| <= |t|;
    SeatListShrinks(ParseSeat, s, []);
    SeatList(ParseSeat, s, [])
  }

  /** The list of seats and the end of the line. */
  function ParseRequest(id: nat, s: string): (r: Parsed<Command>)
    ensures |r.rest| <= |s|
    ensures r.value.Some? ==> r.value.value.Reserve? && 1 <= |r.value.value.seats| < MAX_RESERVATION_SIZE
  {
    var list := ParseSeats(s);
    match list.value
    case None => Parsed(None, list.rest)
    case Some(seats) =>
      if |seats| == MAX_RESERVATION_SIZE then Fail(list.rest) else
      var end := ReadByte(list.rest);
      if end.value.None? || !EndsLine(end.value.value) then Fail(end.rest) else
      Parsed(Some(Reserve(id, seats)), end.rest)
  }

  function ParseReserve(s: string): (r: Parsed<Command>)
    ensures |r.rest| <= |s|
    ensures r.value.Some? ==> r.value.value.Reserve? && 1 <= |r.value.value.seats| < MAX_RESERVATION_SIZE
  {
    var id := ReadUint(s);
    if !id.ok || id.next != ' ' then Fail(id.rest) else
    var open := ReadByte(id.rest);
    if open.value != Some('[') then Fail(open.rest) else
    ParseRequest(id.value, open.rest)
  }

  /** What get_next recognises. */
  datatype Token = TCreate | TReserve | TShow | TList | TBarrier | TWait | THelp | TEmpty | TInvalid

  /** A word that fills its line. */
  function BareWord(s: string, word: string, token: Token): (r: (Token, string))
    ensures |r.1| <= |s|
  {
    var w := Expect(s, word);
    if w.value.None? then (TInvalid, w.rest) else
    var end := ReadByte(w.rest);
    if end.value.None? || end.value.value == '\n' then (token, end.rest)
    else (TInvalid, Cleanup(end.rest))
  }

  function WordWithArguments(s: string, word: string, token: Token): (r: (Token, string))
    ensures |r.1| <= |s|
  {
    var w := Expect(s, word);
    if w.value.None? then (TInvalid, w.rest) else (token, w.rest)
  }

  function GetNext(threaded: bool, s: string): (r: (Token, string))
    requires s != ""
    ensures |r.1| < |s|
  {
    var rest := s[1..];
    match s[0]
    case 'C' => WordWithArguments(rest, "REATE ", TCreate)
    case 'R' => WordWithArguments(rest, "ESERVE ", TReserve)
    case 'S' => WordWithArguments(rest, "HOW ", TShow)
    case 'L' => BareWord(rest, "IST", TList)
    case 'B' => if threaded then BareWord(rest, "ARRIER", TBarrier) else (TInvalid, Cleanup(rest))
    case 'W' => WordWithArguments(rest, "AIT ", TWait)
    case 'H' => BareWord(rest, "ELP", THelp)
    case '#' => (TEmpty, Cleanup(rest))
    case '\n' => (TEmpty, rest)
    case _ => (TInvalid, Cleanup(rest))
  }

  /** The arguments that belong to a word. */
  function Arguments(threaded: bool, token: Token, rest: string): (r: (Command, string))
    ensures |r.1| <= |rest|
    ensures r.0.Reserve? ==> 1 <= |r.0.seats| < MAX_RESERVATION_SIZE
  {
    match token
    case TCreate => OrElse(ParseCreate(rest), Invalid)
    case TReserve => OrElse(ParseReserve(rest), Invalid)
    case TShow => OrElse(ParseShow(rest), Invalid)
    case TWait => OrElse(ParseWait(threaded, rest), BadWait)
    case TList => (ListEvents, rest)
    case TBarrier => (Barrier, rest)
    case THelp => (Help, rest)
    case TEmpty => (Empty, rest)
    case TInvalid => (Invalid, rest)
  }

  /** One command and its arguments. */
  function NextCommand(threaded: bool, s: string): (r: (Command, string))
    requires s != ""
    ensures |r.1| < |s|
    ensures r.0.Reserve? ==> 1 <= |r.0.seats| < MAX_RESERVATION_SIZE
  {
    var (token, rest) := GetNext(threaded, s);
    Arguments(threaded, token, rest)
  }

  function OrElse(p: Parsed<Command>, otherwise: Command): (Command, string) {
    if p.value.Some? then (p.value.value, p.rest) else (otherwise, p.rest)
  }

  /** All commands of a file, in reading order. */
  function AllCommands(threaded: bool, s: string): (cmds: seq<Command>)
    decreases |s|
  {
    if s == "" then [] else
    var (cmd, rest) := NextCommand(threaded, s);
    [cmd] + AllCommands(threaded, rest)
  }

  predicate RequestInRange(cmd: Command) {
    cmd.Reserve? ==> 1 <= |cmd.seats| <= 255
  }

  /** The reader never hands out a reservation without seats. */
  lemma {:induction false} RequestsNonEmpty(threaded: bool, s: string)
    ensures forall i :: 0 <= i < |AllCommands(threaded, s)| ==> RequestInRange(AllCommands(threaded, s)[i])
    decreases |s|
  {
    if s != "" {
      var (cmd, rest) := NextCommand(threaded, s);
      RequestsNonEmpty(threaded, rest);
      FirstAndOthers(cmd, AllCommands(threaded, rest));
    }
  }

  lemma FirstAndOthers(first: Command, others: seq<Command>)
    requires RequestInRange(first) && forall i :: 0 <= i < |others| ==> RequestInRange(others[i])
    ensures forall i :: 0 <= i < |[first] + others| ==> RequestInRange(([first] + others)[i])
  {
  }
}
