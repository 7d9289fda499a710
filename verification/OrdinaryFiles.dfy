/** Files that end with a newline and have no run of 16 digits are all safe to read. */
module OrdinaryFiles {
  import opened Decimal
  import opened Options
  import opened CommandSyntax
  import opened CommandReader
  import opened JobLines

  predicate ShortRunAt(s: string, p: nat)
    requires p <= |s|
  {
    DigitCount(s[p..]) < UINT_BUFFER
  }

  predicate Ordinary(s: string) {
    && (s != "" ==> s[|s| - 1] == '\n')
    && (forall p {:trigger ShortRunAt(s, p)} :: 0 <= p <= |s| ==> ShortRunAt(s, p))
  }

  lemma OrdinarySuffix(s: string, rest: string)
    requires Ordinary(s) && |rest| <= |s| && rest == s[|s| - |rest|..]
    ensures Ordinary(rest)
  {
    forall p | 0 <= p <= |rest| ensures ShortRunAt(rest, p) {
      assert ShortRunAt(s, |s| - |rest| + p);
      assert rest[p..] == s[|s| - |rest| + p..];
    }
  }

  /** A number is not the end of the file; nor is a byte behind it that does not end the line. */
  lemma OrdinaryNumber(s: string)
    requires Ordinary(s) && s != ""
    ensures NumberSafe(s) && Ordinary(ReadUint(s).rest)
    ensures ReadUint(s).next != '\n' ==> ReadUint(s).rest != ""
  {
    var d := DigitCount(s);
    assert ShortRunAt(s, 0) && s[0..] == s;
    assert s[..|s|][|s| - 1] == '\n';
    OrdinarySuffix(s, ReadUint(s).rest);
  }

  lemma OrdinaryByte(s: string)
    requires Ordinary(s)
    ensures Ordinary(ReadByte(s).rest)
    ensures ReadByte(s).value.Some? && ReadByte(s).value != Some('\n') ==> ReadByte(s).rest != ""
  {
    if s != "" {
      OrdinarySuffix(s, s[1..]);
    }
  }

  lemma OrdinaryCreate(s: string)
    requires Ordinary(s) && s != ""
    ensures CreateSafe(s)
  {
    OrdinaryNumber(s);
    var id := ReadUint(s);
    if id.ok && id.next == ' ' {
      OrdinaryNumber(id.rest);
      var rows := ReadUint(id.rest);
      if rows.ok && rows.next == ' ' {
        OrdinaryNumber(rows.rest);
      }
    }
  }

  lemma OrdinaryWait(threaded: bool, s: string)
    requires Ordinary(s) && s != ""
    ensures WaitSafe(threaded, s)
  {
    OrdinaryNumber(s);
    if ReadUint(s).next == ' ' {
      OrdinaryNumber(ReadUint(s).rest);
    }
  }

  lemma OrdinaryPair(s: string)
    requires Ordinary(s) && s != ""
    ensures PairSafe(s) && (ParsePair(s).value.Some? ==> Ordinary(ParsePair(s).rest))
  {
    OrdinaryNumber(s);
    if ReadUint(s).next == ',' {
      OrdinaryNumber(ReadUint(s).rest);
    }
  }

  lemma OrdinarySeat(s: string)
    requires Ordinary(s)
    ensures SeatSafe(s) && (ParseSeat(s).value.Some? ==> Ordinary(ParseSeat(s).rest))
  {
    OrdinaryByte(s);
    if ReadByte(s).value == Some('(') {
      OrdinaryPair(ReadByte(s).rest);
      if ParsePair(ReadByte(s).rest).value.Some? {
        OrdinaryByte(ParsePair(ReadByte(s).rest).rest);
      }
    }
  }

  lemma {:induction false} OrdinaryList(parse: string -> Parsed<SeatRead>, safe: string -> bool, s: string, seen: nat)
    requires seen <= MAX_RESERVATION_SIZE && Ordinary(s)
    requires forall m :: Ordinary(m) ==> safe(m) && (parse(m).value.Some? ==> Ordinary(parse(m).rest))
    ensures ListSafe(parse, safe, s, seen)
    decreases MAX_RESERVATION_SIZE - seen
  {
    if seen < MAX_RESERVATION_SIZE && parse(s).value.Some? {
      OrdinaryList(parse, safe, parse(s).rest, seen + 1);
    }
  }

  lemma OrdinaryReserve(s: string)
    requires Ordinary(s) && s != ""
    ensures ReserveSafe(s)
  {
    OrdinaryNumber(s);
    var id := ReadUint(s);
    OrdinaryByte(id.rest);
    forall m | Ordinary(m) ensures SeatSafe(m) && (ParseSeat(m).value.Some? ==> Ordinary(ParseSeat(m).rest)) {
      OrdinarySeat(m);
    }
    OrdinaryList(ParseSeat, SeatSafe, ReadByte(id.rest).rest, 0);
  }

  /** A word with arguments ends with a space, so its arguments begin inside the file. */
  lemma WordLeads(s: string, word: string)
    requires s != "" && Ordinary(s) && word != "" && word[|word| - 1] == ' ' && Expect(s[1..], word).value.Some?
    ensures Expect(s[1..], word).rest != "" && Ordinary(Expect(s[1..], word).rest)
  {
    var k := 1 + |word|;
    assert s[1..][..|word|][|word| - 1] == s[|word|];
    assert s[1..][|word|..] == s[k..];
    OrdinarySuffix(s, s[k..]);
  }

  lemma ArgumentsExist(threaded: bool, s: string)
    requires s != "" && Ordinary(s) && TakesArguments(GetNext(threaded, s).0)
    ensures GetNext(threaded, s).1 != "" && Ordinary(GetNext(threaded, s).1)
  {
    match s[0]
    case 'C' => WordLeads(s, "REATE ");
    case 'R' => WordLeads(s, "ESERVE ");
    case 'S' => WordLeads(s, "HOW ");
    case 'W' => WordLeads(s, "AIT ");
    case _ =>
  }

  lemma OrdinaryArguments(threaded: bool, token: Token, s: string)
    requires TakesArguments(token) && Ordinary(s) && s != ""
    ensures ArgumentsSafe(threaded, token, s)
  {
    match token
    case TCreate => OrdinaryCreate(s);
    case TReserve => OrdinaryReserve(s);
    case TShow => OrdinaryNumber(s);
    case TWait => OrdinaryWait(threaded, s);
  }

  lemma {:induction false} SkippingLeavesSuffix(s: string, n: nat)
    ensures |SkipLines(s, n)| <= |s| && SkipLines(s, n) == s[|s| - |SkipLines(s, n)|..]
    decreases n
  {
    if n == 0 {
      assert s[0..] == s;
    } else {
      CleanupAligns(s);
      SkippingLeavesSuffix(Cleanup(s), n - 1);
    }
  }

  /** Every number the reader starts on in an ordinary file is safe. */
  lemma {:induction false} OrdinaryFilesSafe(threaded: bool, s: string)
    requires Ordinary(s)
    ensures FileSafe(threaded, s)
    decreases |s|
  {
    if s != "" {
      var (token, args) := GetNext(threaded, s);
      if TakesArguments(token) {
        ArgumentsExist(threaded, s);
        OrdinaryArguments(threaded, token, args);
      }
      CommandTakes(threaded, s);
      SkippingLeavesSuffix(s, LinesTaken(threaded, s));
      OrdinarySuffix(s, NextCommand(threaded, s).1);
      OrdinaryFilesSafe(threaded, NextCommand(threaded, s).1);
    }
  }
}
