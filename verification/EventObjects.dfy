/** Events, the linked event list and the operations on them, as the objects the program updates in place. */
module EventObjects {
  import opened Buffers
  import opened Decimal
  import opened Options
  import opened Seating
  import opened ReserveSteps
  import opened Commands
  import opened Listing
  import opened EventStore
  import opened Grids
  import opened ShownHalls

  class Event {
    const id: nat
    const rows: nat
    const cols: nat
    var reservations: nat
    const data: array<nat>

    ghost predicate Valid()
      reads this, data
    {
      data.Length == rows * cols && reservations < UINT_MOD
    }

    ghost function Value(): EventValue
      reads this, data
    {
      EventValue(id, rows, cols, reservations, data[..])
    }

    /** malloc, then the loop that clears every seat. */
    constructor (id: nat, rows: nat, cols: nat)
      ensures Valid() && Value() == NewEvent(id, rows, cols) && fresh(data)
      ensures this.id == id && this.rows == rows && this.cols == cols && reservations == 0
      ensures WellFormed(Value()) && GridText(Value()) == Repeated(FreeRow(cols), rows)
    {
      this.id := id;
      this.rows := rows;
      this.cols := cols;
      this.reservations := 0;
      this.data := new nat[rows * cols];
      new;
      for i := 0 to rows * cols
        invariant reservations == 0 && forall x :: 0 <= x < i ==> data[x] == 0
      {
        data[i] := 0;
      }
      assert data[..] == Zeros(rows * cols);
      NewHallShown(Value(), rows, cols);
    }

    /** Cell of an in-bounds seat. */
    method CellOf(s: Seat) returns (x: nat)
      requires Valid() && InBounds(Value(), s)
      ensures x == SeatIndex(cols, s) && x < data.Length
    {
      SeatIndexInRange(Value(), s);
      x := (s.row - 1) * cols + s.col - 1;
    }

    /** Writes while it checks, and undoes its writes when a seat is refused. */
    method ReserveWithRollback(seats: seq<Seat>) returns (result: nat)
      requires Valid()
      modifies this`reservations, data
      ensures Valid()
      ensures Value() == Strict(old(Value()), seats)
      ensures result == if StrictAccepts(old(Value()), seats) then 0 else 1
      ensures Reserves(Shown, old(Value()), seats, true, Value())
      ensures result == 0 <==> Grants(Shown, old(Value()), seats, true)
    {
      ghost var base := Value();
      StrictAsShown(base, seats);
      StartMarking(base, seats);
      reservations := (reservations + 1) % UINT_MOD;
      var rid := reservations;
      var i := 0;
      while i < |seats|
        invariant Valid() && Partway(base, Value(), seats, rid, i)
        invariant i <= |seats|
      {
        if seats[i].row <= 0 || seats[i].row > rows || seats[i].col <= 0 || seats[i].col > cols {
          BadSeatRefuses(base, Value(), seats, rid, i);
          break;
        }
        var x := CellOf(seats[i]);
        if data[x] != 0 {
          BadSeatRefuses(base, Value(), seats, rid, i);
          break;
        }
        MarkOne(base, Value(), seats, rid, i);
        data[x] := rid;
        i := i + 1;
      }
      if i < |seats| {
        StartUndoing(base, Value(), seats, rid, i);
        reservations := CountDown(reservations);
        UndoMarks(base, seats, rid, i);
        return 1;
      }
      MarkingDone(base, Value(), seats, rid);
      return 0;
    }

    /** The loop that frees the seats marked so far. */
    method UndoMarks(ghost base: EventValue, seats: seq<Seat>, ghost rid: nat, i: nat)
      requires Valid() && Undoing(base, Value(), seats, rid, i, 0)
      modifies data
      ensures Valid() && Value() == base
    {
      for j := 0 to i
        invariant Valid() && Undoing(base, Value(), seats, rid, i, j)
      {
        assert seats[..i][j] == seats[j];
        var x := CellOf(seats[j]);
        UndoOne(base, Value(), seats, rid, i, j);
        data[x] := 0;
      }
      UndoingDone(base, Value(), seats, rid, i);
    }

    /** Checks bounds, scans every cell of the grid for a taken requested seat, and only then writes. */
    method ReserveTwoPass(seats: seq<Seat>) returns (result: nat)
      requires Valid()
      modifies this`reservations, data
      ensures Valid()
      ensures Value() == Lenient(old(Value()), seats)
      ensures result == if LenientAccepts(old(Value()), seats) then 0 else 1
      ensures Reserves(Shown, old(Value()), seats, false, Value())
      ensures result == 0 <==> Grants(Shown, old(Value()), seats, false)
    {
      LenientAsShown(Value(), seats);
      for i := 0 to |seats|
        invariant AllInBounds(Value(), seats[..i])
      {
        assert seats[..i + 1] == seats[..i] + [seats[i]];
        if seats[i].row <= 0 || seats[i].row > rows || seats[i].col <= 0 || seats[i].col > cols {
          assert !InBounds(Value(), seats[i]);
          return 1;
        }
      }
      assert seats[..|seats|] == seats;
      var taken := ScanForTaken(seats);
      if taken {
        return 1;
      }
      CommitMarks(seats);
      return 0;
    }

    method ScanForTaken(seats: seq<Seat>) returns (taken: bool)
      requires Valid() && AllInBounds(Value(), seats)
      ensures taken <==> !AllFree(Value(), seats)
    {
      for i := 0 to rows * cols
        invariant forall m :: 0 <= m < |seats| && SeatIndex(cols, seats[m]) < i ==> CellFree(Value(), seats[m])
      {
        for j := 0 to |seats|
          invariant forall m :: 0 <= m < j ==> SeatIndex(cols, seats[m]) != i
        {
          var x := CellOf(seats[j]);
          if x != i {
            continue;
          }
          if data[i] != 0 {
            assert !CellFree(Value(), seats[j]);
            return true;
          }
          break;
        }
      }
      forall m | 0 <= m < |seats| ensures CellFree(Value(), seats[m]) {
        SeatIndexInRange(Value(), seats[m]);
      }
      return false;
    }

    method CommitMarks(seats: seq<Seat>)
      requires Valid() && AllInBounds(Value(), seats)
      modifies this`reservations, data
      ensures Valid() && Value() == Commit(old(Value()), seats)
    {
      ghost var base := Value();
      reservations := (reservations + 1) % UINT_MOD;
      for i := 0 to |seats|
        invariant Valid() && reservations == NextId(base)
        invariant Marked(base.data, data[..], Indices(cols, seats[..i]), reservations)
      {
        assert seats[..i + 1] == seats[..i] + [seats[i]];
        assert Indices(cols, seats[..i + 1]) == Indices(cols, seats[..i]) + [SeatIndex(cols, seats[i])];
        var x := CellOf(seats[i]);
        data[x] := reservations;
      }
      assert seats[..|seats|] == seats;
      MarkedIsMark(base.data, data[..], Indices(cols, seats), reservations);
    }
  }

  class ListNode {
    const event: Event
    var next: ListNode?

    constructor (event: Event)
      ensures this.event == event && next == null
    {
      this.event := event;
      this.next := null;
    }
  }

  /** Each node points to the one after it. */
  ghost predicate Linked(nodes: seq<ListNode>)
    reads nodes
  {
    forall i {:trigger nodes[i].next} :: 0 <= i < |nodes| ==> nodes[i].next == NodeAt(nodes, i + 1)
  }

  ghost function NodeAt(nodes: seq<ListNode>, i: nat): ListNode? {
    if i < |nodes| then nodes[i] else null
  }

  class EventList {
    var head: ListNode?
    var tail: ListNode?
    ghost var spine: seq<ListNode>   // the nodes in list order

    /** The nodes are the chain from head to tail. */
    ghost predicate Chained()
      reads this, spine
    {
      && (spine == [] ==> head == null && tail == null)
      && (spine != [] ==> head == spine[0] && tail == spine[|spine| - 1])
      && Linked(spine)
      && (forall i, j :: 0 <= i < j < |spine| ==> spine[i] != spine[j])
    }

    /** ... and no event or grid occurs twice in it. */
    ghost predicate Valid()
      reads this, spine, set n | n in spine :: n.event, set n | n in spine :: n.event.data
    {
      && Chained()
      && (forall i :: 0 <= i < |spine| ==> spine[i].event.Valid())
      && (forall i, j :: 0 <= i < j < |spine| ==>
            spine[i].event != spine[j].event && spine[i].event.data != spine[j].event.data)
    }

    ghost function Contents(): (store: Store)
      reads this, spine, set n | n in spine :: n.event, set n | n in spine :: n.event.data
      ensures |store| == |spine|
    {
      var nodes := spine;
      seq(|nodes|, i requires 0 <= i < |nodes|
                     reads set n | n in nodes :: n.event, set n | n in nodes :: n.event.data
                   => nodes[i].event.Value())
    }

    constructor ()
      ensures Valid() && Contents() == [] && spine == []
    {
      head, tail, spine := null, null, [];
    }

    method Link(node: ListNode)
      requires Chained() && node !in spine && node.next == null
      modifies this, spine
      ensures Chained() && spine == old(spine) + [node]
    {
      if head == null {
        head := node;
        tail := node;
      } else {
        tail.next := node;
        tail := node;
      }
      spine := spine + [node];
    }

    method Append(event: Event)
      requires Valid() && event.Valid()
      requires forall n :: n in spine ==> n.event != event && n.event.data != event.data
      modifies this, spine
      ensures Valid() && Contents() == old(Contents()) + [event.Value()]
    {
      var node := new ListNode(event);
      Link(node);
    }

    method AppendNew(id: nat, rows: nat, cols: nat)
      requires Valid()
      modifies this, spine
      ensures Valid() && Contents() == old(Contents()) + [NewEvent(id, rows, cols)]
    {
      var event := new Event(id, rows, cols);
      Append(event);
    }

    /** A change inside one event is a change at its place in the contents. */
    twostate lemma OneEventChanged(k: nat)
      requires old(Valid()) && unchanged(this) && k < |spine|
      requires forall n :: n in spine ==> unchanged(n)
      requires forall j :: 0 <= j < |spine| && j != k ==> unchanged(spine[j].event) && unchanged(spine[j].event.data)
      requires spine[k].event.Valid()
      ensures Valid() && Contents() == old(Contents())[k := spine[k].event.Value()]
    {
      forall j | 0 <= j < |spine| && j != k ensures spine[j].event.Value() == old(spine[j].event.Value()) {
        assert spine[j] in spine;
      }
      assert forall j :: 0 <= j < |spine| ==> spine[j] in spine;
    }

    /** The search of the first versions: from head until the end of the chain. */
    method GetEvent(id: nat) returns (event: Event?)
      requires Valid()
      ensures event == null <==> Find(Contents(), id).None?
      ensures event != null ==> event == spine[Find(Contents(), id).value].event
    {
      var current := head;
      ghost var i := 0;
      while current != null
        invariant 0 <= i <= |spine| && current == NodeAt(spine, i)
        invariant forall j :: 0 <= j < i ==> Contents()[j].id != id
        decreases |spine| - i
      {
        if current.event.id == id {
          FirstWithId(Contents(), id, i);
          return current.event;
        }
        assert Contents()[i].id != id;
        current := current.next;
        i := i + 1;
      }
      assert forall j :: 0 <= j < |Contents()| ==> Contents()[j].id != id;
      return null;
    }

    /** The server's search over the stretch from one node to another, both included. */
    method GetEventBetween(id: nat, from: ListNode?, to: ListNode?, ghost a: nat, ghost b: nat)
        returns (event: Event?)
      requires Valid()
      requires from != null && to != null ==> a <= b < |spine| && from == spine[a] && to == spine[b]
      ensures from == null || to == null ==> event == null
      ensures from != null && to != null ==>
        (event == null <==> Find(Contents()[a..b + 1], id).None?)
      ensures from != null && to != null && event != null ==>
        event == spine[a + Find(Contents()[a..b + 1], id).value].event
    {
      if from == null || to == null {
        return null;
      }
      ghost var nodes := spine[a..b + 1];
      ghost var stretch := Contents()[a..b + 1];
      ghost var i := 0;
      var current := from;
      while true
        invariant 0 <= i < |nodes| == |stretch| && current == nodes[i]
        invariant forall j :: 0 <= j < i ==> stretch[j].id != id
        decreases |nodes| - i
      {
        assert stretch[i] == nodes[i].event.Value();
        if current.event.id == id {
          FirstWithId(stretch, id, i);
          return current.event;
        }
        if current == to {
          NoneWithId(stretch, id);
          return null;
        }
        current := current.next;
        i := i + 1;
      }
    }

    lemma IdsOfNodes(ids: seq<nat>)
      requires Valid() && ids == Ids(Contents())
      ensures |ids| == |spine| && forall j :: 0 <= j < |ids| ==> ids[j] == spine[j].event.id
    {
    }

    /** LIST: fills a buffer of fixed size line by line. */
    method ListEvents() returns (output: string)
      requires Valid()
      ensures output == ListOutput(Ids(Contents()))
    {
      ghost var ids := Ids(Contents());
      IdsOfNodes(ids);
      output := ListChain(ids);
    }

    method ListChain(ghost ids: seq<nat>) returns (output: string)
      requires Linked(spine) && head == NodeAt(spine, 0)
      requires |ids| == |spine| && forall j :: 0 <= j < |ids| ==> ids[j] == spine[j].event.id
      ensures output == ListOutput(ids)
    {
      output := "";
      var buffer := new char[BUFFER_SIZE];
      var offset: nat := 0;
      var current := head;
      ghost var i := 0;
      while current != null
        invariant 0 <= i <= |spine| && current == NodeAt(spine, i)
        invariant fresh(buffer)
        invariant Linked(spine)
        invariant offset <= buffer.Length == BUFFER_SIZE
        invariant WalkOver(ids[..i]) == Walk(output, buffer[..offset])
        decreases |spine| - i
      {
        offset, output := ListOne(buffer, offset, output, ids, i, current.event.id);
        current := current.next;
        i := i + 1;
      }
      assert ids[..i] == ids;
      if offset > 0 {
        output := output + buffer[..offset];
      }
    }
  }

  /** One node of LIST: its line goes into the buffer, or the buffer goes out. */
  method PutLine(buffer: array<char>, offset: nat, id: nat) returns (offset': nat, flushed: string)
    requires offset <= buffer.Length == BUFFER_SIZE
    modifies buffer
    ensures offset' <= buffer.Length
    ensures AddLine(Walk("", old(buffer[..offset])), id) == Walk(flushed, buffer[..offset'])
  {
    var line := Line(id);
    if offset + |line| < BUFFER_SIZE {
      CopyAt(buffer, offset, line);
      return offset + |line|, "";
    }
    return 0, buffer[..offset];
  }

  /** The same with everything written so far. */
  method ListOne(buffer: array<char>, offset: nat, output: string, ghost ids: seq<nat>, ghost i: nat, id: nat)
      returns (offset': nat, output': string)
    requires offset <= buffer.Length == BUFFER_SIZE && i < |ids| && id == ids[i]
    requires WalkOver(ids[..i]) == Walk(output, buffer[..offset])
    modifies buffer
    ensures offset' <= buffer.Length
    ensures WalkOver(ids[..i + 1]) == Walk(output', buffer[..offset'])
  {
    var flushed;
    offset', flushed := PutLine(buffer, offset, id);
    output' := output + flushed;
    WalkStep(ids, i);
  }

  lemma WalkStep(ids: seq<nat>, i: nat)
    requires i < |ids|
    ensures var w := AddLine(Walk("", WalkOver(ids[..i]).buffer), ids[i]);
            WalkOver(ids[..i + 1]) == Walk(WalkOver(ids[..i]).written + w.written, w.buffer)
  {
    assert ids[..i + 1][..i] == ids[..i];
  }

  /** The state behind ems_create, ems_reserve and ems_list_events. */
  class Ems {
    const list: EventList

    ghost predicate Valid()
      reads list, list.spine, set n | n in list.spine :: n.event, set n | n in list.spine :: n.event.data
    {
      list.Valid()
    }

    ghost function Contents(): Store
      reads list, list.spine, set n | n in list.spine :: n.event, set n | n in list.spine :: n.event.data
    {
      list.Contents()
    }

    constructor ()
      ensures Valid() && Contents() == Replay([])
    {
      list := new EventList();
    }

    /** First versions: look for the id, build the event, append it. */
    method Create(id: nat, rows: nat, cols: nat) returns (result: nat)
      requires Valid()
      modifies list, list.spine
      ensures Valid() && Contents() == Apply(old(Contents()), Command.Create(id, rows, cols))
      ensures result == if Report(old(Contents()), Command.Create(id, rows, cols)) == Created then 0 else 1
    {
      var present := list.GetEvent(id);
      if present != null {
        return 1;
      }
      list.AppendNew(id, rows, cols);
      return 0;
    }

    /** Server: the same over the stretch from head to tail. */
    method CreateOnServer(id: nat, rows: nat, cols: nat) returns (result: nat)
      requires Valid()
      modifies list, list.spine
      ensures Valid() && Contents() == Apply(old(Contents()), Command.Create(id, rows, cols))
      ensures result == if Report(old(Contents()), Command.Create(id, rows, cols)) == Created then 0 else 1
    {
      var present := Lookup(id);
      if present != null {
        return 1;
      }
      list.AppendNew(id, rows, cols);
      return 0;
    }

    /** Head to tail is the whole list. */
    method Lookup(id: nat) returns (event: Event?)
      requires Valid()
      ensures event == null <==> Find(Contents(), id).None?
      ensures event != null ==> event == list.spine[Find(Contents(), id).value].event
    {
      ghost var last := if list.spine == [] then 0 else |list.spine| - 1;
      assert list.spine != [] ==> Contents()[0..last + 1] == Contents();
      event := list.GetEventBetween(id, list.head, list.tail, 0, last);
    }

    /** First versions. */
    method Reserve(id: nat, seats: seq<Seat>) returns (result: nat)
      requires Valid()
      modifies set n | n in list.spine :: n.event, set n | n in list.spine :: n.event.data
      ensures Valid() && Contents() == Apply(old(Contents()), Command.Reserve(id, seats))
      ensures result == if Report(old(Contents()), Command.Reserve(id, seats)).Reserved? then 0 else 1
    {
      var event := list.GetEvent(id);
      if event == null {
        return 1;
      }
      ghost var k := Find(Contents(), id).value;
      result := event.ReserveWithRollback(seats);
      list.OneEventChanged(k);
    }

    /** Server. */
    method ReserveOnServer(id: nat, seats: seq<Seat>) returns (result: nat)
      requires Valid()
      modifies set n | n in list.spine :: n.event, set n | n in list.spine :: n.event.data
      ensures Valid() && Contents() == ApplyLenient(old(Contents()), id, seats)
      ensures result == if LenientReserveGranted(old(Contents()), id, seats) then 0 else 1
    {
      var event := Lookup(id);
      if event == null {
        return 1;
      }
      ghost var k := Find(Contents(), id).value;
      result := event.ReserveTwoPass(seats);
      list.OneEventChanged(k);
    }
  }

  lemma FirstWithId(store: Store, id: nat, k: nat)
    requires k < |store| && store[k].id == id && forall j :: 0 <= j < k ==> store[j].id != id
    ensures Find(store, id) == Some(k)
  {
  }

  lemma NoneWithId(store: Store, id: nat)
    requires forall j :: 0 <= j < |store| ==> store[j].id != id
    ensures Find(store, id).None?
  {
  }
}
