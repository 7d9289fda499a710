/** Job files as text: every well-formed file reads back. */
module JobFiles {
  import opened Decimal
  import opened Options
  import opened Seating
  import opened Commands
  import opened CommandSyntax

  // ----- Writing commands -----

  /** Which word, and which arguments, a command with arguments is written with. */
  function Word(cmd: Command): (w: (char, string, Token))
    requires cmd.Create? || cmd.Reserve? || cmd.Show? || cmd.Wait?
  {
    match cmd
    case Create(_, _, _) => ('C', "REATE ", TCreate)
    case Reserve(_, _) => ('R', "ESERVE ", TReserve)
    case Show(_) => ('S', "HOW ", TShow)
    case Wait(_, _) => ('W', "AIT ", TWait)
  }

  function ArgumentText(cmd: Command, tail: string): string
    requires Writable(cmd) && (cmd.Create? || cmd.Reserve? || cmd.Show? || cmd.Wait?)
  {
    match cmd
    case Create(id, rows, cols) => Dec(id) + ([' '] + (Dec(rows) + ([' '] + (Dec(cols) + (['\n'] + tail)))))
    case Reserve(id, seats) => Dec(id) + ([' '] + (['['] + RenderSeats(seats, ['\n'] + tail)))
    case Show(id) => Dec(id) + (['\n'] + tail)
    case Wait(delay, thread) =>
      if thread == 0 then Dec(delay) + (['\n'] + tail)
      else Dec(delay) + ([' '] + (Dec(thread) + (['\n'] + tail)))
  }

  /** The text of a command's line, followed by tail. */
  function Render(cmd: Command, tail: string): string
    requires Writable(cmd)
  {
    match cmd
    case ListEvents => "LIST\n" + tail
    case Barrier => "BARRIER\n" + tail
    case Help => "HELP\n" + tail
    case Empty => "\n" + tail
    case _ => [Word(cmd).0] + Word(cmd).1 + ArgumentText(cmd, tail)
  }

  function RenderSeat(s: Seat, tail: string): string {
    ['('] + (Dec(s.row) + ([','] + (Dec(s.col) + ([')'] + tail))))
  }

  /** "(x,y) (x,y) ...]" and tail. */
  function RenderSeats(seats: seq<Seat>, tail: string): string
    requires seats != []
  {
    if |seats| == 1 then RenderSeat(seats[0], [']'] + tail)
    else RenderSeat(seats[0], [' '] + RenderSeats(seats[1..], tail))
  }

  predicate SeatsFit(seats: seq<Seat>) {
    seats == [] || (seats[0].row < UINT_MOD && seats[0].col < UINT_MOD && SeatsFit(seats[1..]))
  }

  /** Commands that have a text: 32-bit arguments, 1 to 255 seats. */
  predicate Writable(cmd: Command) {
    match cmd
    case Create(id, rows, cols) => id < UINT_MOD && rows < UINT_MOD && cols < UINT_MOD
    case Reserve(id, seats) => id < UINT_MOD && 1 <= |seats| < MAX_RESERVATION_SIZE && SeatsFit(seats)
    case Show(id) => id < UINT_MOD
    case Wait(delay, thread) => delay < UINT_MOD && thread < UINT_MOD
    case BadWait => false
    case Invalid => false
    case _ => true
  }

  /** The client's dialect has no BARRIER and no WAIT for another thread. */
  predicate Known(threaded: bool, cmd: Command) {
    threaded || (!cmd.Barrier? && (cmd.Wait? ==> cmd.thread == 0))
  }

  /** A line of a file: a command, or a comment, which reads as an empty command. */
  datatype Line = CommandLine(cmd: Command) | Comment(text: string)

  predicate WritableLine(line: Line) {
    match line
    case CommandLine(cmd) => Writable(cmd)
    case Comment(text) => '\n' !in text
  }

  function RenderLine(line: Line, tail: string): string
    requires WritableLine(line)
  {
    match line
    case CommandLine(cmd) => Render(cmd, tail)
    case Comment(text) => ['#'] + (text + (['\n'] + tail))
  }

  function Meaning(line: Line): Command {
    if line.CommandLine? then line.cmd else Empty
  }

  function RenderFile(lines: seq<Line>): string
    requires forall i :: 0 <= i < |lines| ==> WritableLine(lines[i])
  {
    if lines == [] then "" else RenderLine(lines[0], RenderFile(lines[1..]))
  }

  // ----- Reading them back -----

  lemma ReadUintBack(n: nat, c: char, tail: string)
    requires n < UINT_MOD && !IsDigit(c)
    ensures ReadUint(Dec(n) + ([c] + tail)) == UintRead(true, n, c, tail)
  {
    ValueOfDec(n);
    DigitCountOfNumeral(Dec(n), [c] + tail);
    assert (Dec(n) + ([c] + tail))[|Dec(n)| + 1..] == tail;
  }

  lemma ExpectBack(word: string, tail: string)
    ensures Expect(word + tail, word) == Parsed(Some(()), tail)
  {
    assert (word + tail)[..|word|] == word && (word + tail)[|word|..] == tail;
  }

  lemma ParseCreateBack(id: nat, rows: nat, cols: nat, tail: string)
    requires id < UINT_MOD && rows < UINT_MOD && cols < UINT_MOD
    ensures ParseCreate(Dec(id) + ([' '] + (Dec(rows) + ([' '] + (Dec(cols) + (['\n'] + tail))))))
         == Parsed(Some(Create(id, rows, cols)), tail)
  {
    ReadUintBack(id, ' ', Dec(rows) + ([' '] + (Dec(cols) + (['\n'] + tail))));
    ReadUintBack(rows, ' ', Dec(cols) + (['\n'] + tail));
    ReadUintBack(cols, '\n', tail);
  }

  lemma ParsePairBack(s: Seat, tail: string)
    requires s.row < UINT_MOD && s.col < UINT_MOD
    ensures ParsePair(Dec(s.row) + ([','] + (Dec(s.col) + ([')'] + tail)))) == Parsed(Some(s), tail)
  {
    ReadUintBack(s.row, ',', Dec(s.col) + ([')'] + tail));
    ReadUintBack(s.col, ')', tail);
  }

  lemma ParseSeatBack(s: Seat, c: char, tail: string)
    requires s.row < UINT_MOD && s.col < UINT_MOD && (c == ' ' || c == ']')
    ensures ParseSeat(RenderSeat(s, [c] + tail)) == Parsed(Some(SeatRead(s, c)), tail)
  {
    ParsePairBack(s, [c] + tail);
    assert RenderSeat(s, [c] + tail)[1..] == Dec(s.row) + ([','] + (Dec(s.col) + ([')'] + ([c] + tail))));
    assert ([c] + tail)[1..] == tail;
  }

  /** text starts with these seats, the last one closed by "]", and goes on with tail. */
  ghost predicate ReadsSeats(parse: string -> Parsed<SeatRead>, text: string, seats: seq<Seat>, tail: string)
    decreases |seats|
  {
    seats != [] &&
    if |seats| == 1 then parse(text) == Parsed(Some(SeatRead(seats[0], ']')), tail)
    else parse(text).value == Some(SeatRead(seats[0], ' ')) && ReadsSeats(parse, parse(text).rest, seats[1..], tail)
  }

  lemma {:induction false} RenderedSeatsRead(seats: seq<Seat>, tail: string)
    requires seats != [] && SeatsFit(seats)
    ensures ReadsSeats(ParseSeat, RenderSeats(seats, tail), seats, tail)
  {
    if |seats| == 1 {
      ParseSeatBack(seats[0], ']', tail);
    } else {
      RenderedSeatsRead(seats[1..], tail);
      ParseSeatBack(seats[0], ' ', RenderSeats(seats[1..], tail));
    }
  }

  lemma {:induction false} SeatListBack(parse: string -> Parsed<SeatRead>, text: string, seats: seq<Seat>,
                                        tail: string, seen: seq<Seat>)
    requires |seen| + |seats| <= MAX_RESERVATION_SIZE && ReadsSeats(parse, text, seats, tail)
    ensures SeatList(parse, text, seen) == Parsed(Some(seen + seats), tail)
    decreases |seats|
  {
    if |seats| == 1 {
      assert seats == [seats[0]];
    } else {
      SeatListBack(parse, parse(text).rest, seats[1..], tail, seen + [seats[0]]);
      assert seen + seats == (seen + [seats[0]]) + seats[1..];
    }
  }

  lemma ParseReserveParts(s: string, id: nat, bracket: string, seats: seq<Seat>, end: string)
    requires ReadUint(s) == UintRead(true, id, ' ', bracket) && bracket != "" && bracket[0] == '['
    requires ParseSeats(bracket[1..]) == Parsed(Some(seats), end)
    requires |seats| < MAX_RESERVATION_SIZE && end != "" && end[0] == '\n'
    ensures ParseReserve(s) == Parsed(Some(Reserve(id, seats)), end[1..])
  {
  }

  lemma ParseReserveBack(id: nat, seats: seq<Seat>, tail: string)
    requires id < UINT_MOD && 1 <= |seats| < MAX_RESERVATION_SIZE && SeatsFit(seats)
    ensures ParseReserve(Dec(id) + ([' '] + (['['] + RenderSeats(seats, ['\n'] + tail))))
         == Parsed(Some(Reserve(id, seats)), tail)
  {
    var end := ['\n'] + tail;
    var list := RenderSeats(seats, end);
    var bracket := ['['] + list;
    ReadUintBack(id, ' ', bracket);
    assert bracket[1..] == list && end[1..] == tail;
    RenderedSeatsRead(seats, end);
    SeatListBack(ParseSeat, list, seats, end, []);
    assert [] + seats == seats;
    ParseReserveParts(Dec(id) + ([' '] + bracket), id, bracket, seats, end);
  }

  lemma ParseShowBack(id: nat, tail: string)
    requires id < UINT_MOD
    ensures ParseShow(Dec(id) + (['\n'] + tail)) == Parsed(Some(Show(id)), tail)
  {
    ReadUintBack(id, '\n', tail);
  }

  lemma ParseWaitBack(threaded: bool, delay: nat, thread: nat, tail: string)
    requires delay < UINT_MOD && thread < UINT_MOD && (threaded || thread == 0)
    ensures ParseWait(threaded, Dec(delay) + (['\n'] + tail)) == Parsed(Some(Wait(delay, 0)), tail)
    ensures threaded ==>
      ParseWait(threaded, Dec(delay) + ([' '] + (Dec(thread) + (['\n'] + tail))))
      == Parsed(Some(Wait(delay, thread)), tail)
  {
    ReadUintBack(delay, '\n', tail);
    ReadUintBack(delay, ' ', Dec(thread) + (['\n'] + tail));
    ReadUintBack(thread, '\n', tail);
  }

  /** The word of a command with arguments. */
  lemma WordBack(threaded: bool, first: char, word: string, token: Token, tail: string)
    requires (first, word, token) in {('C', "REATE ", TCreate), ('R', "ESERVE ", TReserve),
                                      ('S', "HOW ", TShow), ('W', "AIT ", TWait)}
    ensures GetNext(threaded, [first] + word + tail) == (token, tail)
  {
    assert ([first] + word + tail)[1..] == word + tail;
    ExpectBack(word, tail);
  }

  /** A word that is a whole line. */
  lemma BareWordBack(threaded: bool, first: char, word: string, token: Token, tail: string)
    requires (first, word, token) in {('L', "IST", TList), ('H', "ELP", THelp)}
          || (threaded && (first, word, token) == ('B', "ARRIER", TBarrier))
    ensures GetNext(threaded, [first] + word + "\n" + tail) == (token, tail)
  {
    assert ([first] + word + "\n" + tail)[1..] == word + ("\n" + tail);
    ExpectBack(word, "\n" + tail);
    assert ("\n" + tail)[1..] == tail;
  }

  lemma {:induction false} CleanupSkipsLine(text: string, tail: string)
    requires '\n' !in text
    ensures Cleanup(text + (['\n'] + tail)) == tail
  {
    if text == "" {
      assert text + (['\n'] + tail) == ['\n'] + tail;
      assert (['\n'] + tail)[1..] == tail;
    } else {
      CleanupSkipsLine(text[1..], tail);
      assert (text + (['\n'] + tail))[1..] == text[1..] + (['\n'] + tail);
      assert text[0] in text;
    }
  }

  /** A word with arguments that parse. */
  lemma WithArguments(threaded: bool, text: string, first: char, word: string, token: Token, args: string,
                      cmd: Command, tail: string)
    requires (first, word, token) in {('C', "REATE ", TCreate), ('R', "ESERVE ", TReserve),
                                      ('S', "HOW ", TShow), ('W', "AIT ", TWait)}
    requires text == [first] + word + args && Arguments(threaded, token, args) == (cmd, tail)
    ensures text != "" && NextCommand(threaded, text) == (cmd, tail)
  {
    WordBack(threaded, first, word, token, args);
  }

  lemma ArgumentsBack(threaded: bool, cmd: Command, tail: string)
    requires Writable(cmd) && Known(threaded, cmd) && (cmd.Create? || cmd.Reserve? || cmd.Show? || cmd.Wait?)
    ensures Arguments(threaded, Word(cmd).2, ArgumentText(cmd, tail)) == (cmd, tail)
  {
    match cmd
    case Create(id, rows, cols) => ParseCreateBack(id, rows, cols, tail);
    case Reserve(id, seats) => ParseReserveBack(id, seats, tail);
    case Show(id) => ParseShowBack(id, tail);
    case Wait(delay, thread) => ParseWaitBack(threaded, delay, thread, tail);
  }

  lemma BareCommandRead(threaded: bool, text: string, first: char, word: string, token: Token, cmd: Command,
                        tail: string)
    requires (first, word, token) in {('L', "IST", TList), ('H', "ELP", THelp)}
          || (threaded && (first, word, token) == ('B', "ARRIER", TBarrier))
    requires text == [first] + word + "\n" + tail && Arguments(threaded, token, tail) == (cmd, tail)
    ensures text != "" && NextCommand(threaded, text) == (cmd, tail)
  {
    BareWordBack(threaded, first, word, token, tail);
  }

  lemma BareText(tail: string)
    ensures Render(ListEvents, tail) == ['L'] + "IST" + "\n" + tail
    ensures Render(Barrier, tail) == ['B'] + "ARRIER" + "\n" + tail
    ensures Render(Help, tail) == ['H'] + "ELP" + "\n" + tail
    ensures Render(Empty, tail)[0] == '\n' && Render(Empty, tail)[1..] == tail
  {
  }

  lemma BareCommandBack(threaded: bool, cmd: Command, tail: string)
    requires Known(threaded, cmd) && (cmd.ListEvents? || cmd.Barrier? || cmd.Help? || cmd.Empty?)
    ensures Render(cmd, tail) != "" && NextCommand(threaded, Render(cmd, tail)) == (cmd, tail)
  {
    BareText(tail);
    if cmd.ListEvents? {
      BareCommandRead(threaded, Render(cmd, tail), 'L', "IST", TList, cmd, tail);
    } else if cmd.Barrier? {
      BareCommandRead(threaded, Render(cmd, tail), 'B', "ARRIER", TBarrier, cmd, tail);
    } else if cmd.Help? {
      BareCommandRead(threaded, Render(cmd, tail), 'H', "ELP", THelp, cmd, tail);
    }
  }

  lemma CommandBack(threaded: bool, cmd: Command, tail: string)
    requires Writable(cmd) && Known(threaded, cmd)
    ensures Render(cmd, tail) != "" && NextCommand(threaded, Render(cmd, tail)) == (cmd, tail)
  {
    if cmd.Create? || cmd.Reserve? || cmd.Show? || cmd.Wait? {
      ArgumentsBack(threaded, cmd, tail);
      var (first, word, token) := Word(cmd);
      WithArguments(threaded, Render(cmd, tail), first, word, token, ArgumentText(cmd, tail), cmd, tail);
    } else {
      BareCommandBack(threaded, cmd, tail);
    }
  }

  lemma LineBack(threaded: bool, line: Line, tail: string)
    requires WritableLine(line) && Known(threaded, Meaning(line))
    ensures RenderLine(line, tail) != "" && NextCommand(threaded, RenderLine(line, tail)) == (Meaning(line), tail)
  {
    match line
    case CommandLine(cmd) => CommandBack(threaded, cmd, tail);
    case Comment(text) =>
      CleanupSkipsLine(text, tail);
      assert RenderLine(line, tail)[1..] == text + (['\n'] + tail);
  }

  /** Whole-file round trip: any file of writable commands, comments and blank lines reads back. */
  lemma {:induction false} FileRoundTrip(threaded: bool, lines: seq<Line>)
    requires forall i :: 0 <= i < |lines| ==> WritableLine(lines[i]) && Known(threaded, Meaning(lines[i]))
    ensures AllCommands(threaded, RenderFile(lines)) == Meanings(lines)
  {
    if lines != [] {
      LineBack(threaded, lines[0], RenderFile(lines[1..]));
      FileRoundTrip(threaded, lines[1..]);
      MeaningsFirst(lines);
    }
  }

  function Meanings(lines: seq<Line>): seq<Command> {
    seq(|lines|, i requires 0 <= i < |lines| => Meaning(lines[i]))
  }

  lemma MeaningsFirst(lines: seq<Line>)
    requires lines != []
    ensures Meanings(lines) == [Meaning(lines[0])] + Meanings(lines[1..])
  {
  }
}
