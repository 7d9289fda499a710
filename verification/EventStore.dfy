/** The event list as a value, and the commands that touch it as atomic operations. */
module EventStore {
  import opened Options
  import opened Seating
  import opened Commands
  import opened Listing

  type Store = seq<EventValue>

  datatype Outcome = Failed | Created | Reserved(rid: nat) | Listed(text: string) | Unobserved

  function Ids(store: Store): (ids: seq<nat>)
    ensures |ids| == |store| && forall k :: 0 <= k < |store| ==> ids[k] == store[k].id
  {
    seq(|store|, k requires 0 <= k < |store| => store[k].id)
  }

  /** Position of the first event with the id. */
  function Find(store: Store, id: nat): (r: Option<nat>)
    ensures r.Some? ==> r.value < |store| && store[r.value].id == id
    ensures r.Some? ==> forall j :: 0 <= j < r.value ==> store[j].id != id
    ensures r.None? ==> forall j :: 0 <= j < |store| ==> store[j].id != id
  {
    if store == [] then None
    else if store[0].id == id then Some(0)
    else match Find(store[1..], id)
      case None => None
      case Some(k) => Some(k + 1)
  }

  function Zeros(n: nat): seq<nat> {
    seq(n, _ => 0)
  }

  function NewEvent(id: nat, rows: nat, cols: nat): EventValue {
    EventValue(id, rows, cols, 0, Zeros(rows * cols))
  }

  /** Executes one command at one instant. */
  ghost function Apply(store: Store, cmd: Command): Store {
    match cmd
    case Create(id, rows, cols) =>
      if Find(store, id).None? then store + [NewEvent(id, rows, cols)] else store
    case Reserve(id, seats) =>
      (match Find(store, id)
       case None => store
       case Some(k) => store[k := Strict(store[k], seats)])
    case _ => store
  }

  /** What the command reports at that instant. */
  ghost function Report(store: Store, cmd: Command): Outcome {
    match cmd
    case Create(id, rows, cols) =>
      if Find(store, id).None? then Created else Failed
    case Reserve(id, seats) =>
      (match Find(store, id)
       case None => Failed
       case Some(k) => if StrictAccepts(store[k], seats) then Reserved(NextId(store[k])) else Failed)
    case ListEvents => Listed(ListOutput(Ids(store)))
    case _ => Unobserved
  }

  /** RESERVE by the server's rule. */
  ghost function ApplyLenient(store: Store, id: nat, seats: seq<Seat>): Store {
    match Find(store, id)
    case None => store
    case Some(k) => store[k := Lenient(store[k], seats)]
  }

  predicate LenientReserveGranted(store: Store, id: nat, seats: seq<Seat>) {
    match Find(store, id)
    case None => false
    case Some(k) => LenientAccepts(store[k], seats)
  }

  /** The store after running commands one by one from the empty store. */
  ghost function Replay(cmds: seq<Command>): Store {
    if cmds == [] then [] else Apply(Replay(cmds[..|cmds| - 1]), cmds[|cmds| - 1])
  }

  predicate UniqueIds(store: Store) {
    forall i, j :: 0 <= i < j < |store| ==> store[i].id != store[j].id
  }

  lemma FindUnique(store: Store, k: nat)
    requires UniqueIds(store) && k < |store|
    ensures Find(store, store[k].id) == Some(k)
  {
  }

  /** The list never holds two events with one id, and every grid has its proper size. */
  lemma {:induction false} ReplayWellFormed(cmds: seq<Command>)
    ensures UniqueIds(Replay(cmds))
    ensures forall k :: 0 <= k < |Replay(cmds)| ==> WellFormed(Replay(cmds)[k])
  {
    if cmds != [] {
      ReplayWellFormed(cmds[..|cmds| - 1]);
      ApplyWellFormed(Replay(cmds[..|cmds| - 1]), cmds[|cmds| - 1]);
    }
  }

  lemma ApplyWellFormed(store: Store, cmd: Command)
    requires UniqueIds(store) && forall k :: 0 <= k < |store| ==> WellFormed(store[k])
    ensures UniqueIds(Apply(store, cmd))
    ensures forall k :: 0 <= k < |Apply(store, cmd)| ==> WellFormed(Apply(store, cmd)[k])
  {
  }

  predicate NonEmptyRequests(cmds: seq<Command>) {
    forall i :: 0 <= i < |cmds| && cmds[i].Reserve? ==> cmds[i].seats != []
  }

  /** In any run of non-empty requests the ids on each countable grid are exactly 1..reservations. */
  lemma {:induction false} ReplayDense(cmds: seq<Command>, k: nat)
    requires NonEmptyRequests(cmds)
    requires k < |Replay(cmds)| && CountableSeats(Replay(cmds)[k])
    ensures Dense(Replay(cmds)[k])
  {
    ReplayWellFormed(cmds);
    if cmds != [] {
      var last := cmds[|cmds| - 1];
      var before := Replay(cmds[..|cmds| - 1]);
      if k < |before| {
        ReplayDense(cmds[..|cmds| - 1], k);
        if last.Reserve? && Find(before, last.id) == Some(k) && StrictAccepts(before[k], last.seats) {
          assert last.seats != [];
          CommitKeepsDensity(before[k], last.seats);
        }
      }
    }
  }

  /** How many requests for event id were granted. */
  ghost function Granted(cmds: seq<Command>, id: nat): nat {
    if cmds == [] then 0 else
      var before := cmds[..|cmds| - 1];
      var last := cmds[|cmds| - 1];
      Granted(before, id) +
      if last.Reserve? && last.id == id && Report(Replay(before), last).Reserved? then 1 else 0
  }

  /** The counter of a countable event is the number of requests granted on it. */
  lemma {:induction false} CounterCountsGrants(cmds: seq<Command>, k: nat)
    requires NonEmptyRequests(cmds)
    requires k < |Replay(cmds)| && CountableSeats(Replay(cmds)[k])
    ensures Replay(cmds)[k].reservations == Granted(cmds, Replay(cmds)[k].id)
  {
    if cmds != [] {
      var last := cmds[|cmds| - 1];
      var prefix := cmds[..|cmds| - 1];
      var before := Replay(prefix);
      ReplayWellFormed(prefix);
      if k < |before| {
        CounterCountsGrants(prefix, k);
        FindUnique(before, k);
        if last.Reserve? && last.id == before[k].id && StrictAccepts(before[k], last.seats) {
          assert last.seats != [];
          ReplayDense(prefix, k);
          NoWrap(before[k], last.seats);
        }
      } else {
        NoGrantWithoutEvent(prefix, last.id);
      }
    }
  }

  lemma {:induction false} NoGrantWithoutEvent(cmds: seq<Command>, id: nat)
    requires Find(Replay(cmds), id).None?
    ensures Granted(cmds, id) == 0
  {
    if cmds != [] {
      var before := Replay(cmds[..|cmds| - 1]);
      forall k | 0 <= k < |before| ensures before[k].id != id {
        assert Replay(cmds)[k].id == before[k].id;
      }
      NoGrantWithoutEvent(cmds[..|cmds| - 1], id);
    }
  }

  /** Granted requests on an event are numbered 1, 2, 3, ... in the order they run. */
  lemma ReservationsNumberedInOrder(cmds: seq<Command>, id: nat, seats: seq<Seat>)
    requires NonEmptyRequests(cmds) && seats != []
    requires Report(Replay(cmds), Reserve(id, seats)).Reserved?
    requires CountableSeats(Replay(cmds)[Find(Replay(cmds), id).value])
    ensures Report(Replay(cmds), Reserve(id, seats)) == Reserved(Granted(cmds, id) + 1)
  {
    var k := Find(Replay(cmds), id).value;
    CounterCountsGrants(cmds, k);
    ReplayDense(cmds, k);
    NoWrap(Replay(cmds)[k], seats);
  }

  /** Once a seat is held, no further command changes who holds it. */
  lemma {:induction false} HeldSeatsKept(cmds: seq<Command>, more: seq<Command>, k: nat, x: nat)
    requires k < |Replay(cmds)| && x < |Replay(cmds)[k].data| && Replay(cmds)[k].data[x] != 0
    ensures k < |Replay(cmds + more)| && Replay(cmds + more)[k].id == Replay(cmds)[k].id
    ensures x < |Replay(cmds + more)[k].data| && Replay(cmds + more)[k].data[x] == Replay(cmds)[k].data[x]
  {
    if more == [] {
      assert cmds + more == cmds;
    } else {
      var last := more[|more| - 1];
      HeldSeatsKept(cmds, more[..|more| - 1], k, x);
      assert (cmds + more)[..|cmds + more| - 1] == cmds + more[..|more| - 1];
      var before := Replay(cmds + more[..|more| - 1]);
      if last.Reserve? && Find(before, last.id) == Some(k) && StrictAccepts(before[k], last.seats) {
        HeldCellsStay(before[k], last.seats, x);
      }
    }
  }

  // ----- A list LIST does not print completely -----

  /** n CREATEs of one-seat events with ids 0 to n - 1. */
  function Creations(n: nat): seq<Command> {
    if n == 0 then [] else Creations(n - 1) + [Create(n - 1, 1, 1)]
  }

  /** n events, numbered from 0. */
  predicate Numbered(store: Store, n: nat) {
    |store| == n && forall k :: 0 <= k < n ==> store[k].id == k
  }

  lemma CreatesNext(store: Store, n: nat)
    requires Numbered(store, n)
    ensures Numbered(Apply(store, Create(n, 1, 1)), n + 1)
  {
  }

  lemma {:induction false} CreationsReplayed(n: nat)
    ensures Numbered(Replay(Creations(n)), n)
  {
    if n > 0 {
      CreationsReplayed(n - 1);
      CreatesNext(Replay(Creations(n - 1)), n - 1);
      var cmds := Creations(n);
      assert cmds[..|cmds| - 1] == Creations(n - 1) && cmds[|cmds| - 1] == Create(n - 1, 1, 1);
    }
  }

  /** After that many commands, each of them granted, LIST reports less than the list. */
  lemma CreatedEventsNotListed(n: nat)
    requires n >= 114
    ensures |Replay(Creations(n))| == n
    ensures Report(Replay(Creations(n)), ListEvents) != Listed(ListText(Ids(Replay(Creations(n)))))
  {
    CreationsReplayed(n);
    LongListsLoseLines(Ids(Replay(Creations(n))));
  }
}
