/**
 * The byte-level command reader: a file position that every read moves on, a 16-byte digit buffer,
 * and coordinate arrays filled as the request is read. Each method is proved against CommandSyntax.
 */
module CommandReader {
  import opened Decimal
  import opened Options
  import opened Sequences
  import opened Seating
  import opened Commands
  import opened CommandSyntax

  const UINT_BUFFER: nat := 16

  // ----- What the reader is written for -----

  /** A number fits the digit buffer with its terminator, and is not cut off by the end of the file. */
  predicate NumberSafe(s: string) {
    DigitCount(s) < |s| && DigitCount(s) < UINT_BUFFER
  }

  predicate CreateSafe(s: string) {
    NumberSafe(s) &&
    var id := ReadUint(s);
    (id.ok && id.next == ' ' ==> SizesSafe(id.rest))
  }

  predicate SizesSafe(s: string) {
    NumberSafe(s) &&
    var rows := ReadUint(s);
    (rows.ok && rows.next == ' ' ==> NumberSafe(rows.rest))
  }

  predicate WaitSafe(threaded: bool, s: string) {
    NumberSafe(s) &&
    var delay := ReadUint(s);
    (delay.ok && delay.next == ' ' && threaded ==> NumberSafe(delay.rest))
  }

  predicate PairSafe(s: string) {
    NumberSafe(s) &&
    var x := ReadUint(s);
    (x.ok && x.next == ',' ==> NumberSafe(x.rest))
  }

  predicate SeatSafe(s: string) {
    ReadByte(s).value == Some('(') ==> PairSafe(ReadByte(s).rest)
  }

  /** Every seat that is read. */
  predicate ListSafe(parse: string -> Parsed<SeatRead>, safe: string -> bool, s: string, seen: nat)
    requires seen <= MAX_RESERVATION_SIZE
    decreases MAX_RESERVATION_SIZE - seen
  {
    seen < MAX_RESERVATION_SIZE ==>
      safe(s) &&
      match parse(s).value
      case None => true
      case Some(read) => read.next == ' ' ==> ListSafe(parse, safe, parse(s).rest, seen + 1)
  }

  predicate ReserveSafe(s: string) {
    NumberSafe(s) &&
    var id := ReadUint(s);
    (id.ok && id.next == ' ' && ReadByte(id.rest).value == Some('[') ==>
       ListSafe(ParseSeat, SeatSafe, ReadByte(id.rest).rest, 0))
  }

  predicate ArgumentsSafe(threaded: bool, token: Token, s: string) {
    match token
    case TCreate => CreateSafe(s)
    case TReserve => ReserveSafe(s)
    case TShow => NumberSafe(s)
    case TWait => WaitSafe(threaded, s)
    case _ => true
  }

  /** Every number the reader starts on is safe; nothing is asked of the rest of the file. */
  predicate FileSafe(threaded: bool, s: string)
    decreases |s|
  {
    s == "" ||
    var (token, args) := GetNext(threaded, s);
    ArgumentsSafe(threaded, token, args) && FileSafe(threaded, NextCommand(threaded, s).1)
  }

  /** strtoul on the buffer: stops at the first byte that is not a digit. */
  method ParseBuffer(buffer: array<char>, ghost digits: nat) returns (value: nat)
    requires digits < buffer.Length && AllDigits(buffer[..digits]) && !IsDigit(buffer[digits])
    ensures value == Value(buffer[..digits])
  {
    value := 0;
    var i := 0;
    while IsDigit(buffer[i])
      invariant 0 <= i <= digits && value == Value(buffer[..i])
      decreases digits - i
    {
      assert buffer[..i + 1][..i] == buffer[..i];
      value := 10 * value + DigitValue(buffer[i]);
      i := i + 1;
    }
  }

  class Reader {
    const input: string
    const threaded: bool
    var pos: nat

    ghost predicate Valid()
      reads this
    {
      pos <= |input|
    }

    /** The part of the file not read yet. */
    ghost function Remaining(): string
      reads this
      requires Valid()
    {
      input[pos..]
    }

    constructor (input: string, threaded: bool)
      ensures Valid() && this.input == input && this.threaded == threaded && pos == 0
    {
      this.input := input;
      this.threaded := threaded;
      this.pos := 0;
    }

    /** read(fd, &ch, 1) */
    method Read() returns (byte: Option<char>)
      requires Valid()
      modifies this
      ensures Valid()
      ensures byte == ReadByte(old(Remaining())).value && Remaining() == ReadByte(old(Remaining())).rest
      ensures byte.Some? ==> pos == old(pos) + 1
    {
      if pos == |input| {
        return None;
      }
      byte := Some(input[pos]);
      pos := pos + 1;
    }

    /** read(fd, buf, n): as many bytes as there are, at most n. */
    method ReadMany(n: nat) returns (bytes: string)
      requires Valid()
      modifies this
      ensures Valid()
      ensures |bytes| == if n <= |old(Remaining())| then n else |old(Remaining())|
      ensures bytes == old(Remaining())[..|bytes|] && Remaining() == old(Remaining())[|bytes|..]
      ensures pos == old(pos) + |bytes|
    {
      var end := if pos + n <= |input| then pos + n else |input|;
      bytes := input[pos..end];
      pos := end;
    }

    method SkipLine()
      requires Valid()
      modifies this
      ensures Valid() && Remaining() == Cleanup(old(Remaining()))
    {
      var going := true;
      while going
        invariant Valid()
        invariant if going then Cleanup(Remaining()) == Cleanup(old(Remaining()))
                  else Remaining() == Cleanup(old(Remaining()))
        decreases going, |input| - pos
      {
        var byte := Read();
        going := byte.Some? && byte.value != '\n';
      }
    }

    /** Reads a digit run into the buffer and puts a terminator where its end was found. */
    method CollectDigits(buffer: array<char>, ghost run: nat) returns (i: nat, next: char)
      requires Valid() && buffer.Length == UINT_BUFFER
      requires run < UINT_BUFFER && pos + run < |input| && !IsDigit(input[pos + run])
      requires forall y :: pos <= y < pos + run ==> IsDigit(input[y])
      modifies this, buffer
      ensures Valid() && i == run && pos == old(pos) + run + 1 && next == input[pos - 1]
      ensures forall x :: 0 <= x < run ==> buffer[x] == input[old(pos) + x]
      ensures buffer[run] == '\0'
    {
      i := 0;
      next := NUL;
      while true
        invariant i <= run && Valid() && pos == old(pos) + i
        invariant forall x :: 0 <= x < i ==> buffer[x] == input[old(pos) + x]
        decreases run - i
      {
        var byte := Read();
        buffer[i] := byte.value;
        next := buffer[i];
        if buffer[i] > '9' || buffer[i] < '0' {
          buffer[i] := '\0';
          break;
        }
        i := i + 1;
      }
    }

    /** A 16-byte buffer and strtoul; fail is the "value too large" result. */
    method ReadNumber() returns (fail: bool, value: nat, next: char)
      requires Valid() && NumberSafe(Remaining())
      modifies this
      ensures Valid()
      ensures var r := ReadUint(old(Remaining()));
              fail == !r.ok && value == r.value && next == r.next && Remaining() == r.rest
      ensures old(pos) < pos && next == input[pos - 1]
    {
      var buffer := new char[UINT_BUFFER];
      ghost var start := Remaining();
      ghost var run := DigitRun(input, pos);
      var i;
      i, next := CollectDigits(buffer, run);
      assert start[i + 1..] == input[pos..] && start[i] == next;
      assert buffer[..i] == start[..i];
      value := ParseBuffer(buffer, i);
      fail := value >= UINT_MOD;
    }

    // ----- Arguments -----

    method ReadSizes(ghost id: nat) returns (result: nat, rows: nat, cols: nat)
      requires Valid() && SizesSafe(Remaining())
      modifies this
      ensures Valid() && Remaining() == ParseSizes(id, old(Remaining())).rest
      ensures if result == 0 then ParseSizes(id, old(Remaining())).value == Some(Create(id, rows, cols))
              else ParseSizes(id, old(Remaining())).value == None
    {
      var fail, next;
      cols := 0;
      fail, rows, next := ReadNumber();
      if fail || next != ' ' {
        SkipLine();
        return 1, rows, cols;
      }
      fail, cols, next := ReadNumber();
      if fail || (next != '\n' && next != '\0') {
        SkipLine();
        return 1, rows, cols;
      }
      result := 0;
    }

    method ParseCreateArguments() returns (result: nat, id: nat, rows: nat, cols: nat)
      requires Valid() && CreateSafe(Remaining())
      modifies this
      ensures Valid() && Remaining() == ParseCreate(old(Remaining())).rest
      ensures if result == 0 then ParseCreate(old(Remaining())).value == Some(Create(id, rows, cols))
              else ParseCreate(old(Remaining())).value == None
    {
      var fail, next;
      rows, cols := 0, 0;
      fail, id, next := ReadNumber();
      if fail || next != ' ' {
        SkipLine();
        return 1, id, rows, cols;
      }
      result, rows, cols := ReadSizes(id);
    }

    method ParseShowArguments() returns (result: nat, id: nat)
      requires Valid() && NumberSafe(Remaining())
      modifies this
      ensures Valid() && Remaining() == ParseShow(old(Remaining())).rest
      ensures if result == 0 then ParseShow(old(Remaining())).value == Some(Show(id))
              else ParseShow(old(Remaining())).value == None
    {
      var fail, next;
      fail, id, next := ReadNumber();
      if fail || (next != '\n' && next != '\0') {
        SkipLine();
        return 1, id;
      }
      result := 0;
    }

    /** The client passes no place for a thread id, which then stays 0 here. */
    method ParseWaitArguments() returns (result: int, delay: nat, thread: nat)
      requires Valid() && WaitSafe(threaded, Remaining())
      modifies this
      ensures Valid() && Remaining() == ParseWait(threaded, old(Remaining())).rest
      ensures if result != -1 then ParseWait(threaded, old(Remaining())).value == Some(Wait(delay, thread))
              else ParseWait(threaded, old(Remaining())).value == None
    {
      var fail, next;
      thread := 0;
      fail, delay, next := ReadNumber();
      if fail {
        SkipLine();
        return -1, delay, 0;
      }
      if next == ' ' {
        if !threaded {
          SkipLine();
          return 0, delay, 0;
        }
        fail, thread, next := ReadNumber();
        if fail || (next != '\n' && next != '\0') {
          SkipLine();
          return -1, delay, thread;
        }
        return 1, delay, thread;
      } else if next == '\n' || next == '\0' {
        return 0, delay, 0;
      } else {
        SkipLine();
        return -1, delay, 0;
      }
    }

    /** "x,y)" */
    method ReadPair() returns (seat: Option<Seat>)
      requires Valid() && PairSafe(Remaining())
      modifies this
      ensures Valid()
      ensures seat == ParsePair(old(Remaining())).value && Remaining() == ParsePair(old(Remaining())).rest
    {
      var x, y, fail, next;
      fail, x, next := ReadNumber();
      if fail || next != ',' {
        SkipLine();
        return None;
      }
      fail, y, next := ReadNumber();
      if fail || next != ')' {
        SkipLine();
        return None;
      }
      return Some(Seat(x, y));
    }

    /** The byte that has to follow a seat. */
    method ReadSeparator() returns (byte: Option<char>)
      requires Valid()
      modifies this
      ensures Valid()
      ensures var after := ReadByte(old(Remaining()));
              if after.value == Some(' ') || after.value == Some(']')
              then byte == after.value && Remaining() == after.rest
              else byte == None && Remaining() == Cleanup(after.rest)
    {
      byte := Read();
      if byte.None? || (byte.value != ' ' && byte.value != ']') {
        SkipLine();
        return None;
      }
    }

    /** "(x,y)" and the byte after it. */
    method ReadSeat() returns (read: Option<SeatRead>)
      requires Valid() && SeatSafe(Remaining())
      modifies this
      ensures Valid()
      ensures read == ParseSeat(old(Remaining())).value && Remaining() == ParseSeat(old(Remaining())).rest
    {
      var byte := Read();
      if byte != Some('(') {
        SkipLine();
        return None;
      }
      var seat := ReadPair();
      if seat.None? {
        return None;
      }
      byte := ReadSeparator();
      if byte.None? {
        return None;
      }
      return Some(SeatRead(seat.value, byte.value));
    }

    /** Reads one seat into place count of the arrays; None after a malformed one. */
    method StoreSeat(xs: array<nat>, ys: array<nat>, count: nat, ghost parse: string -> Parsed<SeatRead>,
                     ghost safe: string -> bool, ghost whole: Parsed<seq<Seat>>)
        returns (next: Option<char>)
      requires Valid() && count < MAX_RESERVATION_SIZE == xs.Length == ys.Length && xs != ys
      requires SeatReaders(parse, safe)
      requires Reads(parse, safe, whole, SeatsIn(xs[..count], ys[..count]), Remaining())
      modifies this, xs, ys
      ensures Valid()
      ensures match next
              case None => whole == Parsed(None, Remaining())
              case Some(c) =>
                if c == ']' then whole == Parsed(Some(SeatsIn(xs[..count + 1], ys[..count + 1])), Remaining())
                else Reads(parse, safe, whole, SeatsIn(xs[..count + 1], ys[..count + 1]), Remaining())
    {
      ghost var seen := SeatsIn(xs[..count], ys[..count]);
      ReadsOneMore(parse, safe, whole, seen, Remaining());
      assert ReadsSeat(parse, safe, Remaining());
      var read := ReadSeat();
      if read.None? {
        return None;
      }
      xs[count] := read.value.seat.row;
      ys[count] := read.value.seat.col;
      SeatStored(xs[..count + 1], ys[..count + 1], seen, read.value.seat);
      return Some(read.value.next);
    }

    /** The loop over the coordinates, which go into xs and ys; 0 after a malformed one. */
    method StoreSeats(xs: array<nat>, ys: array<nat>, ghost parse: string -> Parsed<SeatRead>,
                      ghost safe: string -> bool, ghost whole: Parsed<seq<Seat>>)
        returns (count: nat)
      requires Valid() && xs.Length == MAX_RESERVATION_SIZE == ys.Length && xs != ys
      requires SeatReaders(parse, safe) && Reads(parse, safe, whole, [], Remaining())
      modifies this, xs, ys
      ensures Valid() && count <= MAX_RESERVATION_SIZE
      ensures whole == Parsed(if count == 0 then None else Some(SeatsIn(xs[..count], ys[..count])), Remaining())
    {
      count := 0;
      assert SeatsIn(xs[..0], ys[..0]) == [];
      while count < MAX_RESERVATION_SIZE
        invariant Valid() && count <= MAX_RESERVATION_SIZE
        invariant Reads(parse, safe, whole, SeatsIn(xs[..count], ys[..count]), Remaining())
      {
        var next := StoreSeat(xs, ys, count, parse, safe, whole);
        if next.None? {
          return 0;
        }
        count := count + 1;
        if next == Some(']') {
          return;
        }
      }
      ReadsAll(parse, safe, whole, SeatsIn(xs[..count], ys[..count]), Remaining());
    }

    method ReadSeats(xs: array<nat>, ys: array<nat>) returns (count: nat)
      requires Valid() && ListSafe(ParseSeat, SeatSafe, Remaining(), 0)
      requires xs.Length == MAX_RESERVATION_SIZE == ys.Length && xs != ys
      modifies this, xs, ys
      ensures Valid() && count <= MAX_RESERVATION_SIZE
      ensures Remaining() == ParseSeats(old(Remaining())).rest
      ensures if count == 0 then ParseSeats(old(Remaining())).value == None
              else ParseSeats(old(Remaining())).value == Some(SeatsIn(xs[..count], ys[..count]))
    {
      ghost var whole := ParseSeats(Remaining());
      TheSeatReaders();
      count := StoreSeats(xs, ys, ParseSeat, SeatSafe, whole);
    }

    /** The rest of a RESERVE line, from behind "[". */
    method ReadRequest(ghost id: nat, xs: array<nat>, ys: array<nat>) returns (count: nat)
      requires Valid() && ListSafe(ParseSeat, SeatSafe, Remaining(), 0)
      requires xs.Length == MAX_RESERVATION_SIZE == ys.Length && xs != ys
      modifies this, xs, ys
      ensures Valid() && count < MAX_RESERVATION_SIZE && Remaining() == ParseRequest(id, old(Remaining())).rest
      ensures if count != 0
              then ParseRequest(id, old(Remaining())).value == Some(Reserve(id, SeatsIn(xs[..count], ys[..count])))
              else ParseRequest(id, old(Remaining())).value == None
    {
      count := ReadSeats(xs, ys);
      if count == 0 {
        return 0;
      }
      if count == MAX_RESERVATION_SIZE {
        SkipLine();
        return 0;
      }
      var byte := Read();
      if byte.None? || (byte.value != '\n' && byte.value != '\0') {
        SkipLine();
        return 0;
      }
    }

    method ParseReserveArguments(xs: array<nat>, ys: array<nat>) returns (count: nat, id: nat)
      requires Valid() && ReserveSafe(Remaining())
      requires xs.Length == MAX_RESERVATION_SIZE == ys.Length && xs != ys
      modifies this, xs, ys
      ensures Valid() && count < MAX_RESERVATION_SIZE && Remaining() == ParseReserve(old(Remaining())).rest
      ensures if count != 0
              then ParseReserve(old(Remaining())).value == Some(Reserve(id, SeatsIn(xs[..count], ys[..count])))
              else ParseReserve(old(Remaining())).value == None
    {
      var fail, next;
      fail, id, next := ReadNumber();
      if fail || next != ' ' {
        SkipLine();
        return 0, id;
      }
      var byte := Read();
      if byte != Some('[') {
        SkipLine();
        return 0, id;
      }
      count := ReadRequest(id, xs, ys);
    }

    // ----- Words -----

    /** Reads the rest of a word with one read and compares it. */
    method ExpectWord(word: string) returns (matches: bool)
      requires Valid()
      modifies this
      ensures Valid()
      ensures matches == Expect(old(Remaining()), word).value.Some?
      ensures Remaining() == Expect(old(Remaining()), word).rest
    {
      ghost var start := Remaining();
      var bytes := ReadMany(|word|);
      if |bytes| != |word| || bytes != word {
        SkipLine();
        return false;
      }
      return true;
    }

    method EndOfWord(ghost start: string, word: string, token: Token) returns (found: Token)
      requires Valid() && Expect(start, word) == Parsed(Some(()), Remaining())
      modifies this
      ensures Valid()
      ensures found == BareWord(start, word, token).0 && Remaining() == BareWord(start, word, token).1
    {
      var byte := Read();
      if byte.Some? && byte.value != '\n' {
        SkipLine();
        return TInvalid;
      }
      return token;
    }

    method ReadBareWord(word: string, token: Token) returns (found: Token)
      requires Valid()
      modifies this
      ensures Valid()
      ensures found == BareWord(old(Remaining()), word, token).0
      ensures Remaining() == BareWord(old(Remaining()), word, token).1
    {
      ghost var start := Remaining();
      var matches := ExpectWord(word);
      if !matches {
        return TInvalid;
      }
      found := EndOfWord(start, word, token);
    }

    method ReadWordWithArguments(word: string, token: Token) returns (found: Token)
      requires Valid()
      modifies this
      ensures Valid()
      ensures found == WordWithArguments(old(Remaining()), word, token).0
      ensures Remaining() == WordWithArguments(old(Remaining()), word, token).1
    {
      var matches := ExpectWord(word);
      if !matches {
        return TInvalid;
      }
      return token;
    }

    method ReadToken() returns (token: Token)
      requires Valid() && pos < |input|
      modifies this
      ensures Valid()
      ensures token == GetNext(threaded, old(Remaining())).0 && Remaining() == GetNext(threaded, old(Remaining())).1
    {
      var first := Read();
      match first.value
      case 'C' => token := ReadWordWithArguments("REATE ", TCreate);
      case 'R' => token := ReadWordWithArguments("ESERVE ", TReserve);
      case 'S' => token := ReadWordWithArguments("HOW ", TShow);
      case 'L' => token := ReadBareWord("IST", TList);
      case 'B' =>
        if threaded {
          token := ReadBareWord("ARRIER", TBarrier);
        } else {
          SkipLine();
          token := TInvalid;
        }
      case 'W' => token := ReadWordWithArguments("AIT ", TWait);
      case 'H' => token := ReadBareWord("ELP", THelp);
      case '#' =>
        SkipLine();
        token := TEmpty;
      case '\n' => token := TEmpty;
      case _ =>
        SkipLine();
        token := TInvalid;
    }

    // ----- The dispatch loop -----

    method ReadArguments(token: Token) returns (cmd: Command)
      requires Valid() && ArgumentsSafe(threaded, token, Remaining())
      modifies this
      ensures Valid()
      ensures cmd == Arguments(threaded, token, old(Remaining())).0
      ensures Remaining() == Arguments(threaded, token, old(Remaining())).1
    {
      match token
      case TCreate =>
        var result, id, rows, cols := ParseCreateArguments();
        cmd := if result == 0 then Create(id, rows, cols) else Invalid;
      case TReserve =>
        var xs, ys := new nat[MAX_RESERVATION_SIZE], new nat[MAX_RESERVATION_SIZE];
        var count, id := ParseReserveArguments(xs, ys);
        cmd := if count != 0 then Reserve(id, SeatsIn(xs[..count], ys[..count])) else Invalid;
      case TShow =>
        var result, id := ParseShowArguments();
        cmd := if result == 0 then Show(id) else Invalid;
      case TWait =>
        var result, delay, thread := ParseWaitArguments();
        cmd := if result != -1 then Wait(delay, thread) else BadWait;
      case TList => cmd := ListEvents;
      case TBarrier => cmd := Barrier;
      case THelp => cmd := Help;
      case TEmpty => cmd := Empty;
      case TInvalid => cmd := Invalid;
    }

    method ReadCommand() returns (cmd: Command)
      requires Valid() && pos < |input|
      requires ArgumentsSafe(threaded, GetNext(threaded, Remaining()).0, GetNext(threaded, Remaining()).1)
      modifies this
      ensures Valid()
      ensures (cmd, Remaining()) == NextCommand(threaded, old(Remaining()))
    {
      var token := ReadToken();
      cmd := ReadArguments(token);
    }

    /** Reads commands until the end of the file; every round consumes at least one byte. */
    method ReadAll() returns (cmds: seq<Command>)
      requires Valid() && FileSafe(threaded, Remaining())
      modifies this
      ensures Valid() && pos == |input|
      ensures cmds == AllCommands(threaded, old(Remaining()))
    {
      ghost var whole := AllCommands(threaded, Remaining());
      cmds := [];
      while pos < |input|
        invariant Valid()
        invariant ReadSoFar(threaded, whole, cmds, Remaining()) && FileSafe(threaded, Remaining())
        decreases |Remaining()|
      {
        CommandRead(threaded, whole, cmds, Remaining());
        var cmd := ReadCommand();
        cmds := cmds + [cmd];
      }
    }
  }

  /** The request held by the coordinate arrays. */
  function SeatsIn(xs: seq<nat>, ys: seq<nat>): (seats: seq<Seat>)
    requires |xs| == |ys|
    ensures |seats| == |xs|
  {
    seq(|xs|, i requires 0 <= i < |xs| => Seat(xs[i], ys[i]))
  }

  /** The whole list is what has been seen and what the rest of the file adds to it. */
  ghost predicate Reads(parse: string -> Parsed<SeatRead>, safe: string -> bool, whole: Parsed<seq<Seat>>,
                        seen: seq<Seat>, rest: string) {
    |seen| <= MAX_RESERVATION_SIZE && whole == SeatList(parse, rest, seen) && ListSafe(parse, safe, rest, |seen|)
  }

  lemma ReadsOneMore(parse: string -> Parsed<SeatRead>, safe: string -> bool, whole: Parsed<seq<Seat>>,
                     seen: seq<Seat>, rest: string)
    requires Reads(parse, safe, whole, seen, rest) && |seen| < MAX_RESERVATION_SIZE
    ensures safe(rest)
    ensures match parse(rest).value
            case None => whole == Parsed(None, parse(rest).rest)
            case Some(read) =>
              if read.next == ']' then whole == Parsed(Some(seen + [read.seat]), parse(rest).rest)
              else if read.next == ' ' then Reads(parse, safe, whole, seen + [read.seat], parse(rest).rest)
              else true
  {
  }

  lemma ReadsAll(parse: string -> Parsed<SeatRead>, safe: string -> bool, whole: Parsed<seq<Seat>>,
                 seen: seq<Seat>, rest: string)
    requires Reads(parse, safe, whole, seen, rest) && |seen| == MAX_RESERVATION_SIZE
    ensures whole == Parsed(Some(seen), rest)
  {
  }

  /** parse and safe are the reader's own at s. */
  ghost predicate ReadsSeat(parse: string -> Parsed<SeatRead>, safe: string -> bool, s: string) {
    parse(s) == ParseSeat(s) && safe(s) == SeatSafe(s)
  }

  ghost predicate SeatReaders(parse: string -> Parsed<SeatRead>, safe: string -> bool) {
    forall s {:trigger ReadsSeat(parse, safe, s)} :: ReadsSeat(parse, safe, s)
  }

  lemma TheSeatReaders()
    ensures SeatReaders(ParseSeat, SeatSafe)
  {
  }

  /** The arrays with one more coordinate pair hold one more seat. */
  lemma SeatStored(xs: seq<nat>, ys: seq<nat>, seen: seq<Seat>, seat: Seat)
    requires |xs| == |ys| == |seen| + 1 && seen == SeatsIn(xs[..|seen|], ys[..|seen|])
    requires seat == Seat(xs[|seen|], ys[|seen|])
    ensures SeatsIn(xs, ys) == seen + [seat]
  {
  }

  /** The commands read and those in the rest of the file make up the whole. */
  ghost predicate ReadSoFar(threaded: bool, whole: seq<Command>, cmds: seq<Command>, rest: string) {
    cmds + AllCommands(threaded, rest) == whole
  }

  lemma CommandRead(threaded: bool, whole: seq<Command>, cmds: seq<Command>, rest: string)
    requires rest != "" && ReadSoFar(threaded, whole, cmds, rest)
    ensures var (cmd, after) := NextCommand(threaded, rest);
            |after| < |rest| && ReadSoFar(threaded, whole, cmds + [cmd], after)
  {
    var (cmd, after) := NextCommand(threaded, rest);
    Regroup(cmds, cmd, AllCommands(threaded, after));
  }

  /** A safe number, in terms of the bytes of the file. */
  lemma DigitRun(input: string, pos: nat) returns (run: nat)
    requires pos <= |input| && NumberSafe(input[pos..])
    ensures run == DigitCount(input[pos..]) && run < UINT_BUFFER && pos + run < |input|
    ensures !IsDigit(input[pos + run]) && forall y :: pos <= y < pos + run ==> IsDigit(input[y])
  {
    var rest := input[pos..];
    run := DigitCount(rest);
    forall y | pos <= y < pos + run ensures IsDigit(input[y]) {
      assert rest[..run][y - pos] == rest[y - pos] == input[y];
    }
  }
}
