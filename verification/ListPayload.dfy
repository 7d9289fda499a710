/** The binary LIST reply: packed from the list by the server, unpacked and formatted by the client. */
module ListPayload {
  import opened Buffers
  import opened Bytes
  import opened Decimal
  import opened Listing
  import opened EventStore
  import opened EventObjects
  import opened Grids
  import opened Payload
  import opened Wire

  const LIST_HEADER: nat := 12
  const LINE_FRAME: nat := 8   // strlen("Event: \n")

  function ListHeader(count: nat): (bytes: seq<Byte>)
    ensures |bytes| == LIST_HEADER
  {
    LittleEndian(0, INT_SIZE) + LittleEndian(count, SIZE_SIZE)
  }

  function ListBytes(ids: seq<nat>): (bytes: seq<Byte>)
    ensures |bytes| == LIST_HEADER + 4 * |ids|
  {
    ListHeader(|ids|) + CellBytes(ids)
  }

  // ----- The server -----

  /** First pass: how many nodes from head to tail. */
  method CountEvents(list: EventList) returns (count: nat)
    requires list.Valid() && list.head != null
    ensures count == |list.spine|
  {
    var to := list.tail;
    var current := list.head;
    count := 0;
    while true
      invariant 0 <= count < |list.spine| && current == list.spine[count]
      decreases |list.spine| - count
    {
      count := count + 1;
      if current == to {
        break;
      }
      current := current.next;
    }
  }

  /** Second pass: their ids. */
  method CollectIds(list: EventList, count: nat) returns (ids: array<nat>)
    requires list.Valid() && list.head != null && count == |list.spine|
    ensures fresh(ids) && ids[..] == Ids(list.Contents())
  {
    ghost var all := Ids(list.Contents());
    list.IdsOfNodes(all);
    ids := WalkIds(list, count, all);
  }

  method WalkIds(list: EventList, count: nat, ghost all: seq<nat>) returns (ids: array<nat>)
    requires list.Chained() && list.head != null && count == |list.spine| == |all|
    requires forall j :: 0 <= j < |all| ==> all[j] == list.spine[j].event.id
    ensures fresh(ids) && ids[..] == all
  {
    ids := new nat[count];
    var to := list.tail;
    var current := list.head;
    var i := 0;
    while true
      invariant fresh(ids) && list.Chained()
      invariant 0 <= i < count && current == list.spine[i]
      invariant ids[..i] == all[..i]
      decreases count - i
    {
      ids[i] := current.event.id;
      if current == to {
        break;
      }
      current := current.next;
      i := i + 1;
    }
  }

  method FillList(buffer: array<Byte>, ids: seq<nat>)
    requires buffer.Length == LIST_HEADER + 4 * |ids|
    modifies buffer
    ensures buffer[..] == ListBytes(ids)
  {
    CopyAt(buffer, 0, LittleEndian(0, INT_SIZE));
    CopyAt(buffer, INT_SIZE, LittleEndian(|ids|, SIZE_SIZE));
    CopyAt(buffer, LIST_HEADER, CellBytes(ids));
    assert buffer[..] == buffer[..LIST_HEADER + |CellBytes(ids)|];
  }

  /** The reply for a list that is not empty. */
  method BuildList(list: EventList) returns (buffer: array<Byte>)
    requires list.Valid() && list.head != null
    ensures buffer[..] == ListBytes(Ids(list.Contents()))
  {
    var count := CountEvents(list);
    buffer := new Byte[INT_SIZE + SIZE_SIZE + count * 4];
    var ids := CollectIds(list, count);
    FillList(buffer, ids[..]);
  }

  // ----- The client -----

  function CountIn(bytes: seq<Byte>): nat
    requires LIST_HEADER <= |bytes|
  {
    NumberAt(bytes, INT_SIZE, SIZE_SIZE)
  }

  function IdsIn(bytes: seq<Byte>, count: nat): (ids: seq<nat>)
    requires LIST_HEADER + 4 * count <= |bytes|
    ensures |ids| == count
  {
    if count == 0 then [] else
      IdsIn(bytes, count - 1) + [NumberAt(bytes, LIST_HEADER + 4 * (count - 1), INT_SIZE)]
  }

  predicate IdsFit(ids: seq<nat>) {
    forall i :: 0 <= i < |ids| ==> ids[i] < UINT_MOD
  }

  lemma HeaderBack(count: nat, rest: seq<Byte>)
    requires count <= PIPE_BUFFER
    ensures var bytes := ListHeader(count) + rest;
            NumberAt(bytes, 0, INT_SIZE) == 0 && CountIn(bytes) == FromBytes(bytes[4..12]) == count
  {
    var bytes := ListHeader(count) + rest;
    assert bytes[0..4] == LittleEndian(0, INT_SIZE);
    assert bytes[4..12] == LittleEndian(count, SIZE_SIZE);
    assert Pow256(SIZE_SIZE) == 0x1_0000_0000_0000_0000;
    BytesBack(0, INT_SIZE);
    BytesBack(count, SIZE_SIZE);
  }

  lemma {:induction false} IdsBack(header: seq<Byte>, ids: seq<nat>, tail: seq<Byte>, bytes: seq<Byte>, n: nat)
    requires IdsFit(ids) && |header| == LIST_HEADER && bytes == header + CellBytes(ids) + tail && n <= |ids|
    ensures IdsIn(bytes, n) == ids[..n]
    decreases n
  {
    if n > 0 {
      IdsBack(header, ids, tail, bytes, n - 1);
      assert Pow256(INT_SIZE) == UINT_MOD;
      CellBack(header, ids, tail, n - 1);
    }
  }

  lemma ReplyInParts(header: seq<Byte>, cells: seq<Byte>, tail: seq<Byte>)
    ensures header + cells + tail == header + (cells + tail)
  {
  }

  /** A reply that fits the pipe buffer is read back as it was packed, whatever stands behind it. */
  lemma ListBack(ids: seq<nat>, tail: seq<Byte>)
    requires IdsFit(ids) && |ListBytes(ids)| <= PIPE_BUFFER
    ensures var bytes := ListBytes(ids) + tail;
            && NumberAt(bytes, 0, INT_SIZE) == 0 && CountIn(bytes) == FromBytes(bytes[4..12]) == |ids|
            && IdsIn(bytes, |ids|) == ids
  {
    ReplyInParts(ListHeader(|ids|), CellBytes(ids), tail);
    HeaderBack(|ids|, CellBytes(ids) + tail);
    IdsBack(ListHeader(|ids|), ids, tail, ListBytes(ids) + tail, |ids|);
    assert ids[..|ids|] == ids;
  }

  /** The client's text buffer: four bytes an id, and the rest of every line. */
  function ListCapacity(count: nat): nat {
    count * 4 + count * LINE_FRAME
  }

  lemma {:induction false} ListTextLength(ids: seq<nat>, i: nat)
    requires i <= |ids|
    ensures |ListText(ids[..i])| == DigitsOf(Texts(ids), i) + i * LINE_FRAME
  {
    if i > 0 {
      ListTextLength(ids, i - 1);
      TextAt(ids, i - 1);
      assert ids[..i][..i - 1] == ids[..i - 1];
    }
  }

  /** The text and its terminator fit exactly when the ids average below four digits: from 1000 on they need not. */
  lemma ListFitsExactly(ids: seq<nat>)
    ensures |ListText(ids)| + 1 <= ListCapacity(|ids|) <==> DigitsOf(Texts(ids), |ids|) < 4 * |ids|
  {
    ListTextLength(ids, |ids|);
    assert ids[..|ids|] == ids;
  }

  /** One event with a four-digit id is already too much. */
  lemma FourDigitIdOverflows()
    ensures |ListText([1000])| + 1 > ListCapacity(1)
  {
    var ids := [1000];
    FourDigits(ids[0]);
    TextAt(ids, 0);
    assert DigitsOf(Texts(ids), 1) == DigitsOf(Texts(ids), 0) + |Texts(ids)[0]|;
    ListFitsExactly(ids);
  }

  /** "Event: ", the id, and the newline, each with a terminator behind it. */
  method FormatLine(buffer: array<char>, offset: nat, id: nat) returns (longer: nat)
    requires offset + |Line(id)| < buffer.Length
    modifies buffer
    ensures longer < buffer.Length && buffer[..longer] == old(buffer[..offset]) + Line(id)
  {
    ghost var before := buffer[..offset];
    Sprintf(buffer, offset, "Event: ");
    longer := offset + |"Event: "|;
    Sprintf(buffer, longer, Dec(id));
    longer := longer + |Dec(id)|;
    Sprintf(buffer, longer, "\n");
    longer := longer + 1;
    assert buffer[..longer] == before + "Event: " + Dec(id) + "\n";
  }

  lemma RoomForLine(ids: seq<nat>, i: nat)
    requires i < |ids| && DigitsOf(Texts(ids), |ids|) < 4 * |ids|
    ensures ListText(ids[..i + 1]) == ListText(ids[..i]) + Line(ids[i])
    ensures |ListText(ids[..i + 1])| < ListCapacity(|ids|)
  {
    assert ids[..i + 1][..i] == ids[..i];
    ListTextLength(ids, i + 1);
    TextsNotEmpty(ids);
    DigitsGrow(Texts(ids), i + 1, |ids|);
  }

  method FormatIds(ids: seq<nat>) returns (text: string)
    requires DigitsOf(Texts(ids), |ids|) < 4 * |ids|
    ensures text == ListText(ids)
  {
    var buffer := new char[|ids| * 4 + |ids| * LINE_FRAME];
    var offset: nat := 0;
    for i := 0 to |ids|
      invariant offset < buffer.Length && buffer[..offset] == ListText(ids[..i])
    {
      RoomForLine(ids, i);
      offset := FormatLine(buffer, offset, ids[i]);
    }
    assert ids[..|ids|] == ids;
    text := buffer[..offset];
  }

  /** The client's 100-byte buffer, cleared and then filled with one reply. */
  function ReceivedList(frame: seq<Byte>): (bytes: seq<Byte>)
    requires |frame| <= PIPE_BUFFER
    ensures |bytes| == PIPE_BUFFER
  {
    frame + seq(PIPE_BUFFER - |frame|, _ => 0)
  }

  /** The ids the client finds in a reply. */
  method ReceiveList(reply: seq<Byte>, ghost ids: seq<nat>) returns (found: seq<nat>)
    requires IdsFit(ids) && reply == ListBytes(ids) && |reply| <= PIPE_BUFFER
    ensures found == ids
  {
    var bytes := ReceivedList(reply);
    ListBack(ids, seq(PIPE_BUFFER - |reply|, _ => 0));
    return IdsIn(bytes, CountIn(bytes));
  }

  /** LIST from the server's list to the client's text: the listing the other versions write themselves. */
  method ListThroughPipe(list: EventList) returns (text: string)
    requires list.Valid() && list.head != null
    requires var ids := Ids(list.Contents());
             IdsFit(ids) && |ListBytes(ids)| <= PIPE_BUFFER && DigitsOf(Texts(ids), |ids|) < 4 * |ids|
    ensures text == ListText(Ids(list.Contents()))
  {
    ghost var packed := Ids(list.Contents());
    var reply := BuildList(list);
    var ids := ReceiveList(reply[..], packed);
    text := FormatIds(ids);
  }
}
