/**
 * Lines and commands, for every text: where each argument parser halts, how many lines a command takes,
 * and when the reader ends up inside a line.
 */
module JobLines {
  import opened Decimal
  import opened Options
  import opened Seating
  import opened Commands
  import opened CommandSyntax
  import opened JobFiles

  // ----- Lines -----

  function SkipLines(s: string, n: nat): string
    decreases n
  {
    if n == 0 then s else SkipLines(Cleanup(s), n - 1)
  }

  /** How many lines s has, a last one without its newline included. */
  function LineCount(s: string): nat
    decreases |s|
  {
    if s == "" then 0 else 1 + LineCount(Cleanup(s))
  }

  function Newlines(s: string): nat {
    if s == "" then 0 else Newlines(s[1..]) + if s[0] == '\n' then 1 else 0
  }

  /** Skipping the line from behind the first k bytes skips one line more than these bytes end. */
  lemma {:induction false} SkipFromInside(s: string, k: nat)
    requires k <= |s|
    ensures Cleanup(s[k..]) == SkipLines(s, 1 + Newlines(s[..k]))
    decreases k
  {
    if k == 0 {
      assert s[0..] == s;
      assert SkipLines(s, 1) == SkipLines(Cleanup(s), 0);
    } else {
      SkipFromInside(s[1..], k - 1);
      assert s[1..][k - 1..] == s[k..] && s[1..][..k - 1] == s[..k][1..] && s[0] == s[..k][0];
      if s[0] == '\n' {
        assert SkipLines(s, 1 + Newlines(s[..k])) == SkipLines(s[1..], Newlines(s[..k]));
      }
    }
  }

  // ----- Places inside a line -----

  /** mid is what is left of s at some place inside its first line. */
  predicate Within(s: string, mid: string) {
    |mid| <= |s| && mid == s[|s| - |mid|..] && Cleanup(mid) == Cleanup(s)
  }

  /** The byte a parser looked at last, NUL for none, and what is behind it. */
  datatype Halt = Halt(stop: char, behind: string)

  /**
   * The halt is inside the first line of s, or at its newline. A NUL with something behind it is a
   * byte of s.
   */
  predicate HaltsInLine(s: string, h: Halt) {
    && |h.behind| <= |s| && h.behind == s[|s| - |h.behind|..]
    && (if h.stop == '\n' then h.behind == Cleanup(s) else Cleanup(h.behind) == Cleanup(s))
    && (h.stop == NUL && h.behind != "" ==> |h.behind| < |s| && s[|s| - |h.behind| - 1] == NUL)
  }

  lemma Deeper(s: string, mid: string, h: Halt)
    requires Within(s, mid) && HaltsInLine(mid, h)
    ensures HaltsInLine(s, h) && (h.stop != '\n' ==> Within(s, h.behind))
  {
  }

  lemma {:induction false} LineEndStays(s: string, k: nat)
    requires k <= |s| && '\n' !in s[..k]
    ensures Cleanup(s) == Cleanup(s[k..])
    ensures k < |s| && s[k] == '\n' ==> Cleanup(s) == s[k + 1..]
    decreases k
  {
    if k == 0 {
      assert s[0..] == s;
    } else {
      assert s[0] == s[..k][0] && s[1..][..k - 1] == s[..k][1..];
      assert forall c :: c in s[..k][1..] ==> c in s[..k];
      LineEndStays(s[1..], k - 1);
      assert s[1..][k - 1..] == s[k..];
    }
  }

  function NumberHalt(s: string): Halt {
    var r := ReadUint(s);
    Halt(r.next, r.rest)
  }

  function ByteHalt(s: string): Halt {
    if s == "" then Halt(NUL, "") else Halt(s[0], s[1..])
  }

  lemma NumberHalts(s: string)
    ensures HaltsInLine(s, NumberHalt(s))
  {
    var d := DigitCount(s);
    assert forall c :: c in s[..d] ==> IsDigit(c);
    LineEndStays(s, d);
    if d == |s| {
      assert s[d..] == "";
    } else {
      assert s[d..][1..] == s[d + 1..];
    }
  }

  /** The next number, or the next byte, from some place inside the line. */
  lemma NextNumber(s: string, mid: string)
    requires Within(s, mid)
    ensures HaltsInLine(s, NumberHalt(mid)) && (NumberHalt(mid).stop != '\n' ==> Within(s, NumberHalt(mid).behind))
  {
    NumberHalts(mid);
    Deeper(s, mid, NumberHalt(mid));
  }

  lemma NextByte(s: string, mid: string)
    requires Within(s, mid)
    ensures HaltsInLine(s, ByteHalt(mid)) && (ByteHalt(mid).stop != '\n' ==> Within(s, ByteHalt(mid).behind))
  {
    Deeper(s, mid, ByteHalt(mid));
  }

  // ----- Where the argument parsers halt -----

  function CreateHalt(s: string): Halt {
    var id := ReadUint(s);
    if !id.ok || id.next != ' ' then NumberHalt(s) else
    var rows := ReadUint(id.rest);
    if !rows.ok || rows.next != ' ' then NumberHalt(id.rest) else NumberHalt(rows.rest)
  }

  function WaitHalt(threaded: bool, s: string): Halt {
    var delay := ReadUint(s);
    if delay.ok && delay.next == ' ' && threaded then NumberHalt(delay.rest) else NumberHalt(s)
  }

  function PairHalt(s: string): Halt {
    var x := ReadUint(s);
    if !x.ok || x.next != ',' then NumberHalt(s) else NumberHalt(x.rest)
  }

  function SeatHalt(s: string): Halt {
    var open := ReadByte(s);
    if open.value != Some('(') then ByteHalt(s)
    else if ParsePair(open.rest).value.None? then PairHalt(open.rest)
    else ByteHalt(ParsePair(open.rest).rest)
  }

  /** Behind the last seat looked at; a full list is left behind the space after its last seat. */
  function ListHalt(parse: string -> Parsed<SeatRead>, halt: string -> Halt, s: string, seen: nat): Halt
    requires seen <= MAX_RESERVATION_SIZE
    decreases MAX_RESERVATION_SIZE - seen
  {
    if seen == MAX_RESERVATION_SIZE then Halt(' ', s)
    else if parse(s).value.None? || parse(s).value.value.next == ']' then halt(s)
    else ListHalt(parse, halt, parse(s).rest, seen + 1)
  }

  function RequestHalt(s: string): Halt {
    var list := ParseSeats(s);
    if list.value.None? || |list.value.value| == MAX_RESERVATION_SIZE then ListHalt(ParseSeat, SeatHalt, s, 0)
    else ByteHalt(list.rest)
  }

  function ReserveHalt(s: string): Halt {
    var id := ReadUint(s);
    if !id.ok || id.next != ' ' then NumberHalt(s)
    else if ReadByte(id.rest).value != Some('[') then ByteHalt(id.rest)
    else RequestHalt(ReadByte(id.rest).rest)
  }

  /** What a parser leaves unread: accepted arguments end at their line's end or a NUL, anything else is skipped. */
  predicate LeavesBehind<T>(h: Halt, r: Parsed<T>) {
    r.rest == if r.value.Some? && EndsLine(h.stop) then h.behind else Cleanup(h.behind)
  }

  lemma WithinItself(s: string)
    ensures Within(s, s)
  {
  }

  lemma CreateHalts(s: string)
    ensures HaltsInLine(s, CreateHalt(s)) && LeavesBehind(CreateHalt(s), ParseCreate(s))
  {
    WithinItself(s);
    NextNumber(s, s);
    var id := ReadUint(s);
    if id.ok && id.next == ' ' {
      NextNumber(s, id.rest);
      SizesHalt(s, id.value, id.rest);
    }
  }

  lemma SizesHalt(s: string, id: nat, mid: string)
    requires Within(s, mid)
    ensures var rows := ReadUint(mid);
            var h := if !rows.ok || rows.next != ' ' then NumberHalt(mid) else NumberHalt(rows.rest);
            HaltsInLine(s, h) && LeavesBehind(h, ParseSizes(id, mid))
  {
    NextNumber(s, mid);
    var rows := ReadUint(mid);
    if rows.ok && rows.next == ' ' {
      NextNumber(s, rows.rest);
    }
  }

  lemma ShowHalts(s: string)
    ensures HaltsInLine(s, NumberHalt(s)) && LeavesBehind(NumberHalt(s), ParseShow(s))
  {
    NumberHalts(s);
  }

  lemma WaitHalts(threaded: bool, s: string)
    ensures HaltsInLine(s, WaitHalt(threaded, s)) && LeavesBehind(WaitHalt(threaded, s), ParseWait(threaded, s))
  {
    WithinItself(s);
    NextNumber(s, s);
    var delay := ReadUint(s);
    if delay.ok && delay.next == ' ' {
      NextNumber(s, delay.rest);
    }
  }

  /** A part of a request: read, it ends inside the line; refused, the line is skipped from where it halted. */
  predicate PartHalts<T>(s: string, h: Halt, r: Parsed<T>) {
    && HaltsInLine(s, h)
    && if r.value.Some? then r.rest == h.behind && h.stop != '\n' && h.stop != NUL else r.rest == Cleanup(h.behind)
  }

  lemma PairHalts(s: string, mid: string)
    requires Within(s, mid)
    ensures PartHalts(s, PairHalt(mid), ParsePair(mid))
  {
    NextNumber(s, mid);
    var x := ReadUint(mid);
    if x.ok && x.next == ',' {
      NextNumber(s, x.rest);
    }
  }

  lemma SeatHalts(s: string, mid: string)
    requires Within(s, mid)
    ensures PartHalts(s, SeatHalt(mid), ParseSeat(mid))
  {
    NextByte(s, mid);
    var open := ReadByte(mid);
    if open.value == Some('(') {
      PairHalts(s, open.rest);
      SeatFromPair(s, mid, open.rest, ParsePair(open.rest), PairHalt(open.rest));
    }
  }

  lemma SeatFromPair(s: string, mid: string, inside: string, pair: Parsed<Seat>, pairHalt: Halt)
    requires ReadByte(mid) == Parsed(Some('('), inside) && pair == ParsePair(inside) && pairHalt == PairHalt(inside)
    requires PartHalts(s, pairHalt, pair)
    ensures PartHalts(s, SeatHalt(mid), ParseSeat(mid))
  {
    if pair.value.Some? {
      NextByte(s, pair.rest);
      SeatFromByte(s, mid, pair, ByteHalt(pair.rest));
    }
  }

  lemma SeatFromByte(s: string, mid: string, pair: Parsed<Seat>, after: Halt)
    requires ReadByte(mid).value == Some('(') && pair == ParsePair(ReadByte(mid).rest) && pair.value.Some?
    requires after == ByteHalt(pair.rest) && HaltsInLine(s, after)
    ensures PartHalts(s, SeatHalt(mid), ParseSeat(mid))
  {
  }

  lemma {:induction false} ListHalts(parse: string -> Parsed<SeatRead>, halt: string -> Halt, s: string, mid: string,
                                     seen: seq<Seat>)
    requires Within(s, mid) && |seen| <= MAX_RESERVATION_SIZE
    requires forall m :: Within(s, m) ==> PartHalts(s, halt(m), parse(m))
    ensures PartHalts(s, ListHalt(parse, halt, mid, |seen|), SeatList(parse, mid, seen))
    decreases MAX_RESERVATION_SIZE - |seen|
  {
    if |seen| < MAX_RESERVATION_SIZE {
      assert PartHalts(s, halt(mid), parse(mid));
      if parse(mid).value.Some? {
        ListHalts(parse, halt, s, parse(mid).rest, seen + [parse(mid).value.value.seat]);
      }
    }
  }

  lemma SeatsHalt(s: string, mid: string)
    requires Within(s, mid)
    ensures PartHalts(s, ListHalt(ParseSeat, SeatHalt, mid, 0), ParseSeats(mid))
  {
    forall m | Within(s, m) ensures PartHalts(s, SeatHalt(m), ParseSeat(m)) {
      SeatHalts(s, m);
    }
    ListHalts(ParseSeat, SeatHalt, s, mid, []);
  }

  lemma RequestHalts(id: nat, s: string, mid: string)
    requires Within(s, mid)
    ensures HaltsInLine(s, RequestHalt(mid)) && LeavesBehind(RequestHalt(mid), ParseRequest(id, mid))
  {
    SeatsHalt(s, mid);
    RequestFromSeats(id, s, mid, ParseSeats(mid), ListHalt(ParseSeat, SeatHalt, mid, 0), RequestHalt(mid));
  }

  lemma RequestFromSeats(id: nat, s: string, mid: string, list: Parsed<seq<Seat>>, listHalt: Halt, h: Halt)
    requires list == ParseSeats(mid) && PartHalts(s, listHalt, list)
    requires h == if list.value.None? || |list.value.value| == MAX_RESERVATION_SIZE then listHalt
                  else ByteHalt(list.rest)
    ensures HaltsInLine(s, h) && LeavesBehind(h, ParseRequest(id, mid))
  {
    if list.value.Some? {
      NextByte(s, list.rest);
    }
  }

  lemma ReserveHalts(s: string)
    ensures HaltsInLine(s, ReserveHalt(s)) && LeavesBehind(ReserveHalt(s), ParseReserve(s))
  {
    WithinItself(s);
    NextNumber(s, s);
    var id := ReadUint(s);
    if id.ok && id.next == ' ' {
      NextByte(s, id.rest);
      if ReadByte(id.rest).value == Some('[') {
        RequestHalts(id.value, s, ReadByte(id.rest).rest);
      }
    }
  }

  // ----- Lines taken by arguments -----

  predicate TakesArguments(token: Token) {
    token.TCreate? || token.TReserve? || token.TShow? || token.TWait?
  }

  predicate Accepted(cmd: Command) {
    !cmd.Invalid? && !cmd.BadWait?
  }

  function ArgumentHalt(threaded: bool, token: Token, s: string): Halt
    requires TakesArguments(token)
  {
    match token
    case TCreate => CreateHalt(s)
    case TReserve => ReserveHalt(s)
    case TShow => NumberHalt(s)
    case TWait => WaitHalt(threaded, s)
  }

  /** A command read or refused at halt h leaves rest. */
  predicate Leaves(h: Halt, accepted: bool, rest: string) {
    rest == if accepted && EndsLine(h.stop) then h.behind else Cleanup(h.behind)
  }

  lemma OrElseLeaves(h: Halt, p: Parsed<Command>, otherwise: Command)
    requires LeavesBehind(h, p) && !Accepted(otherwise) && (p.value.Some? ==> Accepted(p.value.value))
    ensures var (cmd, rest) := OrElse(p, otherwise); Leaves(h, Accepted(cmd), rest)
  {
  }

  lemma ArgumentsHalt(threaded: bool, token: Token, s: string)
    requires TakesArguments(token)
    ensures var h := ArgumentHalt(threaded, token, s);
            var (cmd, rest) := Arguments(threaded, token, s);
            HaltsInLine(s, h) && Leaves(h, Accepted(cmd), rest)
  {
    match token
    case TCreate =>
      CreateHalts(s);
      OrElseLeaves(CreateHalt(s), ParseCreate(s), Invalid);
    case TReserve =>
      ReserveHalts(s);
      OrElseLeaves(ReserveHalt(s), ParseReserve(s), Invalid);
    case TShow =>
      ShowHalts(s);
      OrElseLeaves(NumberHalt(s), ParseShow(s), Invalid);
    case TWait =>
      WaitHalts(threaded, s);
      OrElseLeaves(WaitHalt(threaded, s), ParseWait(threaded, s), BadWait);
  }

  /** The parser gave up at the newline: what it skips then is the next line. */
  predicate RefusedAtNewline(threaded: bool, token: Token, s: string)
    requires TakesArguments(token)
  {
    !Accepted(Arguments(threaded, token, s).0) && ArgumentHalt(threaded, token, s).stop == '\n'
  }

  /** The arguments were accepted at a NUL byte that something follows. */
  predicate AcceptedAtNul(threaded: bool, token: Token, s: string)
    requires TakesArguments(token)
  {
    var h := ArgumentHalt(threaded, token, s);
    Accepted(Arguments(threaded, token, s).0) && h.stop == NUL && h.behind != ""
  }

  /** For three of the parsers the first condition spelled out, number by number. */
  lemma RefusedAtNewlineMeans(threaded: bool, s: string)
    ensures RefusedAtNewline(threaded, TCreate, s) <==>
      var id := ReadUint(s);
      id.next == '\n' ||
      (id.ok && id.next == ' ' &&
       var rows := ReadUint(id.rest);
       rows.next == '\n' ||
       (rows.ok && rows.next == ' ' && var cols := ReadUint(rows.rest); !cols.ok && cols.next == '\n'))
    ensures RefusedAtNewline(threaded, TShow, s) <==> !ReadUint(s).ok && ReadUint(s).next == '\n'
    ensures RefusedAtNewline(threaded, TWait, s) <==>
      var delay := ReadUint(s);
      (!delay.ok && delay.next == '\n') ||
      (delay.ok && delay.next == ' ' && threaded &&
       var thread := ReadUint(delay.rest); !thread.ok && thread.next == '\n')
  {
  }

  function ArgumentLines(threaded: bool, token: Token, s: string): (n: nat)
    requires TakesArguments(token)
    ensures 1 <= n <= 2
  {
    if RefusedAtNewline(threaded, token, s) then 2 else 1
  }

  /** rest is inside the first line of s, right behind a NUL byte. */
  predicate BehindNul(s: string, rest: string) {
    Within(s, rest) && rest != "" && |rest| < |s| && s[|s| - |rest| - 1] == NUL
  }

  lemma FirstLines(s: string)
    ensures SkipLines(s, 1) == Cleanup(s) && SkipLines(s, 2) == Cleanup(Cleanup(s))
  {
    assert SkipLines(s, 1) == SkipLines(Cleanup(s), 0);
    assert SkipLines(s, 2) == SkipLines(Cleanup(s), 1) == SkipLines(Cleanup(Cleanup(s)), 0);
  }

  lemma HaltTakes(s: string, h: Halt, accepted: bool, rest: string)
    requires HaltsInLine(s, h) && Leaves(h, accepted, rest)
    ensures if accepted && h.stop == NUL && h.behind != "" then BehindNul(s, rest)
            else rest == SkipLines(s, if !accepted && h.stop == '\n' then 2 else 1)
  {
    FirstLines(s);
  }

  /** Arguments take one line, or two exactly when refused at the newline; or they stop behind a NUL. */
  lemma ArgumentsTake(threaded: bool, token: Token, s: string)
    requires TakesArguments(token)
    ensures var rest := Arguments(threaded, token, s).1;
            if AcceptedAtNul(threaded, token, s) then BehindNul(s, rest)
            else rest == SkipLines(s, ArgumentLines(threaded, token, s))
  {
    ArgumentsHalt(threaded, token, s);
    var (cmd, rest) := Arguments(threaded, token, s);
    HaltTakes(s, ArgumentHalt(threaded, token, s), Accepted(cmd), rest);
  }

  // ----- Lines taken by commands -----

  /** What has to follow the first byte of a command. */
  function WordOf(threaded: bool, first: char): string {
    match first
    case 'C' => "REATE "
    case 'R' => "ESERVE "
    case 'S' => "HOW "
    case 'L' => "IST"
    case 'B' => if threaded then "ARRIER" else ""
    case 'W' => "AIT "
    case 'H' => "ELP"
    case _ => ""
  }

  /** The bytes read before the word was refused; none otherwise. */
  function Misread(word: string, s: string): (bytes: string)
    requires s != ""
    ensures |bytes| <= |s| && bytes == s[..|bytes|]
  {
    if Expect(s[1..], word).value.Some? then ""
    else if |s| <= |word| then s
    else s[..1 + |word|]
  }

  /** Lines taken by a command without arguments, or refused before them. */
  function WordLines(word: string, s: string): (n: nat)
    requires s != ""
    ensures n >= 1
  {
    1 + Newlines(Misread(word, s))
  }

  /** How many lines a command takes: more than one exactly when what was refused contained a newline. */
  function LinesTaken(threaded: bool, s: string): (n: nat)
    requires s != ""
    ensures n >= 1
  {
    var (token, args) := GetNext(threaded, s);
    if TakesArguments(token) then ArgumentLines(threaded, token, args) else WordLines(WordOf(threaded, s[0]), s)
  }

  predicate EndsAtNul(threaded: bool, s: string)
    requires s != ""
  {
    var (token, args) := GetNext(threaded, s);
    TakesArguments(token) && AcceptedAtNul(threaded, token, args)
  }

  lemma WordInLine(s: string, word: string)
    requires s != "" && s[0] != '\n' && '\n' !in word && Expect(s[1..], word).value.Some?
    ensures Within(s, Expect(s[1..], word).rest)
  {
    var k := 1 + |word|;
    assert s[1..k] == word && s[..k] == [s[0]] + word;
    LineEndStays(s, k);
    assert s[1..][|word|..] == s[k..];
  }

  /** A refused word: the line is skipped from behind the bytes that were compared. */
  lemma ExpectRefused(s: string, word: string, k: nat)
    requires s != "" && Expect(s[1..], word).value.None? && k == if |s| <= |word| then |s| else 1 + |word|
    ensures Expect(s[1..], word).rest == Cleanup(s[k..])
  {
    if |s| <= |word| {
      assert s[k..] == "";
    } else {
      assert s[1..][|word|..] == s[k..];
    }
  }

  lemma WordMisread(s: string, word: string)
    requires s != "" && Expect(s[1..], word).value.None?
    ensures Expect(s[1..], word).rest == SkipLines(s, WordLines(word, s))
  {
    var k := |Misread(word, s)|;
    ExpectRefused(s, word, k);
    SkipFromInside(s, k);
  }

  lemma WordTakesOne(s: string, word: string)
    requires s != "" && Expect(s[1..], word).value.Some?
    ensures WordLines(word, s) == 1 && SkipLines(s, WordLines(word, s)) == Cleanup(s)
  {
    FirstLines(s);
  }

  /** A word that has to fill its line. */
  lemma BareWordTakes(s: string, word: string, token: Token)
    requires s != "" && s[0] != '\n' && '\n' !in word
    ensures BareWord(s[1..], word, token).1 == SkipLines(s, WordLines(word, s))
  {
    if Expect(s[1..], word).value.None? {
      WordMisread(s, word);
    } else {
      WordInLine(s, word);
      NextByte(s, Expect(s[1..], word).rest);
      WordTakesOne(s, word);
    }
  }

  /** A word with arguments: read, it leads into the line. */
  lemma ArgumentWordTakes(s: string, word: string, token: Token)
    requires s != "" && s[0] != '\n' && '\n' !in word && TakesArguments(token)
    ensures var (found, rest) := WordWithArguments(s[1..], word, token);
            if TakesArguments(found) then Within(s, rest) else rest == SkipLines(s, WordLines(word, s))
  {
    if Expect(s[1..], word).value.None? {
      WordMisread(s, word);
    } else {
      WordInLine(s, word);
    }
  }

  predicate LeadsToArguments(first: char) {
    first in {'C', 'R', 'S', 'W'}
  }

  lemma GetNextArguments(threaded: bool, s: string)
    requires s != "" && LeadsToArguments(s[0])
    ensures var (token, rest) := GetNext(threaded, s);
            if TakesArguments(token) then Within(s, rest)
            else rest == SkipLines(s, WordLines(WordOf(threaded, s[0]), s))
  {
    match s[0]
    case 'C' => ArgumentWordTakes(s, "REATE ", TCreate);
    case 'R' => ArgumentWordTakes(s, "ESERVE ", TReserve);
    case 'S' => ArgumentWordTakes(s, "HOW ", TShow);
    case 'W' => ArgumentWordTakes(s, "AIT ", TWait);
  }

  lemma GetNextBare(threaded: bool, s: string)
    requires s != "" && !LeadsToArguments(s[0])
    ensures var (token, rest) := GetNext(threaded, s);
            !TakesArguments(token) && rest == SkipLines(s, WordLines(WordOf(threaded, s[0]), s))
  {
    match s[0]
    case 'L' => BareWordTakes(s, "IST", TList);
    case 'H' => BareWordTakes(s, "ELP", THelp);
    case _ =>
      if s[0] == 'B' && threaded {
        BareWordTakes(s, "ARRIER", TBarrier);
      } else {
        WordTakesOne(s, "");
      }
  }

  lemma GetNextTakes(threaded: bool, s: string)
    requires s != ""
    ensures var (token, rest) := GetNext(threaded, s);
            if TakesArguments(token) then Within(s, rest)
            else rest == SkipLines(s, WordLines(WordOf(threaded, s[0]), s))
  {
    if LeadsToArguments(s[0]) {
      GetNextArguments(threaded, s);
    } else {
      GetNextBare(threaded, s);
    }
  }

  /** What is taken from inside the first line is taken from its start. */
  lemma TakesWithin(s: string, args: string, rest: string, cut: bool, n: nat)
    requires Within(s, args) && n >= 1 && if cut then BehindNul(args, rest) else rest == SkipLines(args, n)
    ensures if cut then BehindNul(s, rest) else rest == SkipLines(s, n)
  {
    assert SkipLines(args, n) == SkipLines(Cleanup(args), n - 1);
    assert SkipLines(s, n) == SkipLines(Cleanup(s), n - 1);
  }

  /**
   * Every command, on every text: it takes LinesTaken lines, or it was accepted at a NUL byte and the
   * reader stands behind that.
   */
  lemma CommandTakes(threaded: bool, s: string)
    requires s != ""
    ensures var rest := NextCommand(threaded, s).1;
            if EndsAtNul(threaded, s) then BehindNul(s, rest) else rest == SkipLines(s, LinesTaken(threaded, s))
  {
    GetNextTakes(threaded, s);
    var (token, args) := GetNext(threaded, s);
    if TakesArguments(token) {
      ArgumentsTake(threaded, token, args);
      TakesWithin(s, args, Arguments(threaded, token, args).1, AcceptedAtNul(threaded, token, args),
                  ArgumentLines(threaded, token, args));
    }
  }

  // ----- One command, one line -----

  /** A command is exactly its line unless it ends at a NUL or swallows a line that is there. */
  lemma OneLineExactly(threaded: bool, s: string)
    requires s != ""
    ensures NextCommand(threaded, s).1 == Cleanup(s) <==>
      !EndsAtNul(threaded, s) && (LinesTaken(threaded, s) == 1 || Cleanup(s) == "")
  {
    CommandTakes(threaded, s);
    SkippedIsShorter(s, LinesTaken(threaded, s));
  }

  lemma {:induction false} NothingSkipped(n: nat)
    ensures SkipLines("", n) == ""
    decreases n
  {
    if n > 0 {
      NothingSkipped(n - 1);
    }
  }

  lemma {:induction false} SkippingShrinks(s: string, n: nat)
    ensures |SkipLines(s, n)| <= |s| && LineCount(SkipLines(s, n)) <= LineCount(s)
    decreases n
  {
    if n > 0 {
      SkippingShrinks(Cleanup(s), n - 1);
    }
  }

  lemma SkippedIsShorter(s: string, n: nat)
    requires s != "" && n >= 1
    ensures SkipLines(s, n) == Cleanup(s) <==> n == 1 || Cleanup(s) == ""
    ensures LineCount(SkipLines(s, n)) < LineCount(s)
    ensures LineCount(SkipLines(s, n)) == LineCount(s) - 1 <==> n == 1 || Cleanup(s) == ""
  {
    FirstLines(s);
    var next := Cleanup(s);
    assert SkipLines(s, n) == SkipLines(next, n - 1);
    if next == "" {
      NothingSkipped(n - 1);
    } else if n > 1 {
      assert SkipLines(next, n - 1) == SkipLines(Cleanup(next), n - 2);
      SkippingShrinks(Cleanup(next), n - 2);
    }
  }

  /** A word that was recognised was not misread. */
  lemma RecognisedIsRead(threaded: bool, s: string)
    requires s != "" && GetNext(threaded, s).0 != TInvalid
    ensures WordLines(WordOf(threaded, s[0]), s) == 1
  {
  }

  lemma AcceptedTakesOneLine(threaded: bool, s: string)
    requires s != "" && Accepted(NextCommand(threaded, s).0)
    ensures LinesTaken(threaded, s) == 1
  {
    var (token, args) := GetNext(threaded, s);
    if !TakesArguments(token) {
      assert token != TInvalid;
      RecognisedIsRead(threaded, s);
    }
  }

  /** An accepted command, however its arguments were written, is exactly the line it stands on. */
  lemma AcceptedIsOneLine(threaded: bool, s: string)
    requires s != "" && Accepted(NextCommand(threaded, s).0) && !EndsAtNul(threaded, s)
    ensures NextCommand(threaded, s).1 == Cleanup(s)
  {
    AcceptedTakesOneLine(threaded, s);
    OneLineExactly(threaded, s);
  }

  /** No command of the file ends at a NUL byte with more behind it. */
  predicate NoCommandCut(threaded: bool, s: string)
    decreases |s|
  {
    s == "" || (!EndsAtNul(threaded, s) && NoCommandCut(threaded, NextCommand(threaded, s).1))
  }

  /** No refused command reads a newline while another line is there to be skipped with it. */
  predicate NoLineSwallowed(threaded: bool, s: string)
    decreases |s|
  {
    s == "" ||
    ((LinesTaken(threaded, s) == 1 || Cleanup(s) == "") && NoLineSwallowed(threaded, NextCommand(threaded, s).1))
  }

  /** A file has at most one command a line, and exactly one exactly when no line is swallowed. */
  lemma {:induction false} OneCommandPerLine(threaded: bool, s: string)
    requires NoCommandCut(threaded, s)
    ensures |AllCommands(threaded, s)| <= LineCount(s)
    ensures |AllCommands(threaded, s)| == LineCount(s) <==> NoLineSwallowed(threaded, s)
    decreases |s|
  {
    if s != "" {
      CommandTakes(threaded, s);
      SkippedIsShorter(s, LinesTaken(threaded, s));
      OneCommandPerLine(threaded, NextCommand(threaded, s).1);
    }
  }

  // ----- Line alignment -----

  /** rest is the end of s, and starts a line or is empty. */
  predicate AtLineStart(s: string, rest: string) {
    && |rest| <= |s| && rest == s[|s| - |rest|..]
    && (rest == "" || (|rest| < |s| && s[|s| - |rest| - 1] == '\n'))
  }

  lemma {:induction false} CleanupAligns(s: string)
    ensures AtLineStart(s, Cleanup(s))
  {
    if s != "" && s[0] != '\n' {
      CleanupAligns(s[1..]);
    }
  }

  lemma {:induction false} SkippingAligns(s: string, n: nat)
    requires n >= 1
    ensures AtLineStart(s, SkipLines(s, n))
    decreases n
  {
    CleanupAligns(s);
    FirstLines(s);
    if n > 1 {
      SkippingAligns(Cleanup(s), n - 1);
    }
  }

  /** After a command the reader stands at a line start or at the end, unless exactly a NUL byte ended it. */
  lemma AlignedExactly(threaded: bool, s: string)
    requires s != ""
    ensures |NextCommand(threaded, s).1| < |s|
    ensures AtLineStart(s, NextCommand(threaded, s).1) <==> !EndsAtNul(threaded, s)
    ensures EndsAtNul(threaded, s) ==> BehindNul(s, NextCommand(threaded, s).1)
  {
    CommandTakes(threaded, s);
    SkippingAligns(s, LinesTaken(threaded, s));
  }

  predicate NulFree(s: string) {
    NUL !in s
  }

  /** Without NUL bytes every command, valid or not, ends at a line start. */
  lemma CommandsEndLines(threaded: bool, s: string)
    requires s != "" && NulFree(s)
    ensures AtLineStart(s, NextCommand(threaded, s).1) && |NextCommand(threaded, s).1| < |s|
  {
    AlignedExactly(threaded, s);
  }

  lemma {:induction false} NulFreeNeverCut(threaded: bool, s: string)
    requires NulFree(s)
    ensures NoCommandCut(threaded, s)
    decreases |s|
  {
    if s != "" {
      AlignedExactly(threaded, s);
      var rest := NextCommand(threaded, s).1;
      assert forall c :: c in rest ==> c in s;
      NulFreeNeverCut(threaded, rest);
    }
  }

  /** A NUL behind a number does end a command inside its line. */
  lemma NulBreaksAlignment()
    ensures var s := "SHOW " + (Dec(1) + ([NUL] + "LIST\n"));
            s != "" && NextCommand(true, s) == (Show(1), "LIST\n") && s[|s| - 6] != '\n'
  {
    var args := Dec(1) + ([NUL] + "LIST\n");
    ReadUintBack(1, NUL, "LIST\n");
    WithArguments(true, "SHOW " + args, 'S', "HOW ", TShow, args, Show(1), "LIST\n");
  }

  /** A CREATE whose first number ends its line takes the next line along. */
  lemma RefusedLineTakesTheNext(text: string, tail: string)
    requires '\n' !in text
    ensures var s := "CREATE " + (Dec(1) + (['\n'] + (text + (['\n'] + tail))));
            s != "" && NextCommand(true, s) == (Invalid, tail)
  {
    var args := Dec(1) + (['\n'] + (text + (['\n'] + tail)));
    ReadUintBack(1, '\n', text + (['\n'] + tail));
    CleanupSkipsLine(text, tail);
    WithArguments(true, "CREATE " + args, 'C', "REATE ", TCreate, args, Invalid, tail);
  }
}
