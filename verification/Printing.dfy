/** Output files written with write(2), which may take fewer bytes than it is given, or fail. */
module Printing {
  import opened Decimal

  const PRINT_BUFFER: nat := 16

  class OutputFile {
    var text: string

    constructor ()
      ensures text == ""
    {
      text := "";
    }

    /** write(fd, bytes, |bytes|): -1, or how many bytes from the front were taken (at least one). */
    method Write(bytes: string) returns (written: int)
      requires bytes != ""
      modifies this
      ensures written == -1 || 1 <= written <= |bytes|
      ensures text == old(text) + if written == -1 then "" else bytes[..written]
    {
      var failed: bool := *;
      if failed {
        return -1;
      }
      var more: nat := *;
      written := 1 + more % |bytes|;
      text := text + bytes[..written];
    }

    /** All of str goes out, or a proper prefix of it and the call reports failure. */
    method PrintStr(str: string) returns (result: nat)
      modifies this
      ensures Appended(old(text), text, str, result)
    {
      ghost var start := text;
      var at := 0;
      while at < |str|
        invariant at <= |str| && text == start + str[..at]
      {
        var written := Write(str[at..]);
        if written == -1 {
          return 1;
        }
        assert str[..at] + str[at..][..written] == str[..at + written];
        at := at + written;
      }
      assert str[..at] == str;
      return 0;
    }

    /** Fills a 16-byte buffer from the back with the digits and writes what is in use. */
    method PrintUint(value: nat) returns (result: nat)
      requires value < UINT_MOD
      modifies this
      ensures Appended(old(text), text, Dec(value), result)
    {
      var buffer := new char[PRINT_BUFFER];
      var i := FillDigits(buffer, value);
      ghost var start := text;
      ghost var digits := buffer[..];
      ghost var first := i;
      while i < PRINT_BUFFER
        invariant first <= i <= PRINT_BUFFER && buffer[..] == digits
        invariant text == start + digits[first..i]
      {
        var written := Write(buffer[i..]);
        if written == -1 {
          PartAppended(start, digits, first, i);
          return 1;
        }
        NextPart(digits, first, i, written);
        i := i + written;
      }
      assert digits[first..i] == digits[first..];
      return 0;
    }
  }

  lemma NextPart(digits: string, first: nat, i: nat, written: nat)
    requires first <= i && i + written <= |digits|
    ensures digits[first..i] + digits[i..][..written] == digits[first..i + written]
  {
  }

  lemma PartAppended(before: string, digits: string, first: nat, i: nat)
    requires first <= i < |digits|
    ensures Appended(before, before + digits[first..i], digits[first..], 1)
  {
  }

  /** What a print call has done to the file: everything on result 0, otherwise only a part. */
  ghost predicate Appended(before: string, after: string, str: string, result: nat) {
    && before <= after <= before + str
    && (result == 0 <==> after == before + str)
    && (result == 0 || result == 1)
  }

  /** Digits from the least significant one on, each in front of the last. */
  method FillDigits(buffer: array<char>, value: nat) returns (i: nat)
    requires buffer.Length == PRINT_BUFFER && value < UINT_MOD
    modifies buffer
    ensures i < PRINT_BUFFER && buffer[i..] == Dec(value)
  {
    UintHasTenDigits(value);
    i := PRINT_BUFFER;
    var rest := value;
    while rest > 0
      invariant i <= PRINT_BUFFER && (i == PRINT_BUFFER <==> rest == value)
      invariant rest > 0 ==> |Dec(rest)| <= i && Dec(value) == Dec(rest) + buffer[i..]
      invariant rest == 0 ==> value == 0 || Dec(value) == buffer[i..]
    {
      ghost var done := buffer[i..];
      i := i - 1;
      buffer[i] := Digit(rest % 10);
      assert buffer[i..] == [Digit(rest % 10)] + done;
      rest := rest / 10;
    }
    if i == PRINT_BUFFER {
      i := i - 1;
      buffer[i] := '0';
    }
  }

  lemma UintHasTenDigits(value: nat)
    requires value < UINT_MOD
    ensures |Dec(value)| <= 10
  {
    DecLength(value, 10);
    assert Pow10(10) == 10_000_000_000;
  }
}
