/** The text LIST produces through its 1024-byte buffer. */
module Listing {
  import opened Decimal

  const BUFFER_SIZE: nat := 1024

  function Line(id: nat): (s: string)
    ensures |s| >= 9
  {
    "Event: " + Dec(id) + "\n"
  }

  /** One line per event, in list order. */
  function ListText(ids: seq<nat>): string {
    if ids == [] then "" else ListText(ids[..|ids| - 1]) + Line(ids[|ids| - 1])
  }

  /** What has gone to the file, and what is still in the buffer. */
  datatype Walk = Walk(written: string, buffer: string)

  /** A line that does not fit makes the buffer go out, and is itself lost. */
  function AddLine(w: Walk, id: nat): Walk {
    if |w.buffer| + |Line(id)| < BUFFER_SIZE then w.(buffer := w.buffer + Line(id))
    else Walk(w.written + w.buffer, "")
  }

  function WalkOver(ids: seq<nat>): Walk {
    if ids == [] then Walk("", "") else AddLine(WalkOver(ids[..|ids| - 1]), ids[|ids| - 1])
  }

  /** Everything a LIST over these events writes. */
  function ListOutput(ids: seq<nat>): string {
    WalkOver(ids).written + WalkOver(ids).buffer
  }

  /** LIST prints every event exactly when the listing is shorter than the buffer. */
  lemma ListingCompleteExactly(ids: seq<nat>)
    ensures ListOutput(ids) == ListText(ids) <==> |ListText(ids)| < 1024
  {
    WalkLength(ids);
  }

  lemma {:induction false} WalkLength(ids: seq<nat>)
    ensures |ListText(ids)| < BUFFER_SIZE ==> WalkOver(ids) == Walk("", ListText(ids))
    ensures |ListText(ids)| >= BUFFER_SIZE ==> |ListOutput(ids)| < |ListText(ids)|
  {
    if ids != [] {
      WalkLength(ids[..|ids| - 1]);
    }
  }

  lemma {:induction false} LinesAddUp(ids: seq<nat>)
    ensures |ListText(ids)| >= 9 * |ids|
    decreases |ids|
  {
    if ids != [] {
      LinesAddUp(ids[..|ids| - 1]);
    }
  }

  /** With 114 events LIST always loses some, whatever their ids. */
  lemma LongListsLoseLines(ids: seq<nat>)
    requires |ids| >= 114
    ensures ListOutput(ids) != ListText(ids)
  {
    LinesAddUp(ids);
    ListingCompleteExactly(ids);
  }

  // ----- Which lines are lost -----

  /** The events whose lines LIST writes, and how many bytes have gathered since a line was last lost. */
  datatype Kept = Kept(ids: seq<nat>, gathered: nat)

  /** A line is lost exactly when it would bring the bytes gathered since the last loss to 1024. */
  function KeptOf(ids: seq<nat>): Kept {
    if ids == [] then Kept([], 0) else
    var before := KeptOf(ids[..|ids| - 1]);
    var line := |Line(ids[|ids| - 1])|;
    if before.gathered + line >= 1024 then Kept(before.ids, 0)
    else Kept(before.ids + [ids[|ids| - 1]], before.gathered + line)
  }

  lemma KeptOneMore(w: Walk, kept: seq<nat>, id: nat, longer: seq<nat>)
    requires w.written + w.buffer == ListText(kept) && longer == kept + [id]
    ensures w.written + (w.buffer + Line(id)) == ListText(longer)
  {
    assert longer[..|longer| - 1] == kept;
    assert w.written + (w.buffer + Line(id)) == w.written + w.buffer + Line(id);
  }

  lemma {:induction false} KeptIsWritten(ids: seq<nat>)
    ensures ListOutput(ids) == ListText(KeptOf(ids).ids) && |WalkOver(ids).buffer| == KeptOf(ids).gathered
  {
    if ids != [] {
      var front, last := ids[..|ids| - 1], ids[|ids| - 1];
      KeptIsWritten(front);
      KeptOneMore(WalkOver(front), KeptOf(front).ids, last, KeptOf(front).ids + [last]);
      assert ListOutput(front) + "" == ListOutput(front);
    }
  }

  // ----- What a listing says -----

  /** The ids a reader of a listing finds, up to the first line that is not an event's. */
  function ReadListing(text: string): seq<nat>
    decreases |text|
  {
    if |text| < 7 || text[..7] != "Event: " then [] else
    var d := DigitCount(text[7..]);
    if d == 0 || d == |text[7..]| || text[7..][d] != '\n' then []
    else [Value(text[7..][..d])] + ReadListing(text[7..][d + 1..])
  }

  lemma NumeralReadBack(id: nat, tail: string)
    ensures ReadListing("Event: " + (Dec(id) + (['\n'] + tail))) == [id] + ReadListing(tail)
  {
    var numeral := Dec(id) + (['\n'] + tail);
    var text := "Event: " + numeral;
    assert text[..7] == "Event: " && text[7..] == numeral;
    ValueOfDec(id);
    DigitCountOfNumeral(Dec(id), ['\n'] + tail);
    assert numeral[|Dec(id)| + 1..] == tail;
  }

  ghost predicate ReadsLine(read: string -> seq<nat>, id: nat, tail: string) {
    read(Line(id) + tail) == [id] + read(tail)
  }

  ghost predicate ReadsLines(read: string -> seq<nat>) {
    forall id: nat, tail: string {:trigger ReadsLine(read, id, tail)} :: ReadsLine(read, id, tail)
  }

  lemma LineInParts(id: nat, tail: string)
    ensures Line(id) + tail == "Event: " + (Dec(id) + (['\n'] + tail))
  {
  }

  lemma LineReadBack(id: nat, tail: string)
    ensures ReadsLine(ReadListing, id, tail)
  {
    NumeralReadBack(id, tail);
    LineInParts(id, tail);
  }

  lemma {:induction false} ListingReadFrom(read: string -> seq<nat>, ids: seq<nat>, tail: string)
    requires ReadsLines(read)
    ensures read(ListText(ids) + tail) == ids + read(tail)
    decreases |ids|
  {
    if ids == [] {
      assert ListText(ids) + tail == tail;
    } else {
      var front, last := ids[..|ids| - 1], ids[|ids| - 1];
      ListingReadFrom(read, front, Line(last) + tail);
      assert ReadsLine(read, last, tail);
      assert ListText(front) + Line(last) + tail == ListText(front) + (Line(last) + tail);
      assert ids + read(tail) == front + ([last] + read(tail));
    }
  }

  /** A listing names exactly the events it lists, in order. */
  lemma ListingReadBack(ids: seq<nat>)
    ensures ReadListing(ListText(ids)) == ids
  {
    forall id: nat, tail: string ensures ReadsLine(ReadListing, id, tail) {
      LineReadBack(id, tail);
    }
    ListingReadFrom(ReadListing, ids, "");
    assert ListText(ids) + "" == ListText(ids);
  }

  /** So LIST names the events whose lines are not lost, and no others. */
  lemma ListNamesKept(ids: seq<nat>)
    ensures ReadListing(ListOutput(ids)) == KeptOf(ids).ids
  {
    KeptIsWritten(ids);
    ListingReadBack(KeptOf(ids).ids);
  }
}
