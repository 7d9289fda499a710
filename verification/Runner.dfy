/**
 * The multi-threaded job runner as a step machine.
 *
 * A step is one section that runs under the list lock or between two lock operations. The list lock
 * itself is therefore always free between steps (RunnerListLock puts it into the state); the fetch mutex,
 * the event mutexes and the output lock are held across steps and are part of the state. Threads are
 * numbered from 0 here, from 1 in threadArray, whose entry 0 is the barrier flag.
 */
module Runner {
  import opened Decimal
  import opened Options
  import opened Seating
  import opened ReserveSteps
  import opened Commands
  import opened CommandSyntax
  import opened Listing
  import opened EventStore
  import opened GridBuffer

  /** Where a thread is. An event pointer is the position of its event in the list. */
  datatype Pc =
    | Idle                                                      // not created yet in this round
    | Fetch                                                     // about to lock the fetch mutex
    | Done(result: nat)                                         // returned from processFile
    | CreateCheck(id: nat, rows: nat, cols: nat)
    | CreateAlloc(id: nat, rows: nat, cols: nat)
    | CreateZero(id: nat, rows: nat, cols: nat, block: seq<nat>, i: nat)
    | ReserveFind(id: nat, seats: seq<Seat>)
    | ReserveLock(k: nat, seats: seq<Seat>)
    | ReserveCount(k: nat, seats: seq<Seat>)
    | ReserveBounds(k: nat, seats: seq<Seat>, rid: nat, i: nat)
    | ReserveProbe(k: nat, seats: seq<Seat>, rid: nat, i: nat)
    | ReserveMark(k: nat, seats: seq<Seat>, rid: nat, i: nat)
    | ReserveUncount(k: nat, seats: seq<Seat>, rid: nat, i: nat)
    | ReserveUndo(k: nat, seats: seq<Seat>, rid: nat, i: nat, j: nat)
    | ReserveUnlock(k: nat, seats: seq<Seat>, outcome: Outcome)
    | ShowFind(id: nat)
    | ShowOpen(k: nat)
    | ShowCell(k: nat, p: nat, buffer: string)
    | ListCheck
    | ListOpen
    | ListHead
    | ListFormat(cur: nat, buffer: string, base: nat)           // base: length of the output file
    | ListNext(cur: nat, buffer: string, base: nat)             //       when this LIST began to write
    | ListWrite(buffer: string, base: nat, at: nat)             // at: place in the history

  datatype Thread = Thread(pc: Pc, job: nat)

  /** main: creating threads, joining them in order (results so far), or done. */
  datatype Main = Starting(next: nat) | Joining(results: seq<nat>) | Finished

  /** History: which thread fetched which command, and in which order commands took effect. */
  datatype Fetched = Fetched(cmd: Command, thread: nat)
  datatype Effect = Effect(job: nat, cmd: Command, outcome: Outcome)

  datatype State = State(
    rest: string,                       // the part of the job file not read yet
    flags: seq<nat>,                    // threadArray
    fetchLock: Option<nat>,
    events: Store,
    mutexes: seq<Option<nat>>,          // holder of each event's mutex
    outputLock: Option<nat>,
    output: string,
    threads: seq<Thread>,
    main: Main,
    log: seq<Fetched>,                  // history
    order: seq<Effect>                  // history
  )
  {
    /** Thread t moves on. */
    function Goto(t: nat, pc: Pc): State
      requires t < |threads|
    {
      this.(threads := threads[t := threads[t].(pc := pc)])
    }

    /** The command of thread t takes effect now. */
    function TakesEffect(t: nat, cmd: Command, outcome: Outcome): State
      requires t < |threads|
    {
      this.(order := order + [Effect(threads[t].job, cmd, outcome)])
    }
  }

  function Init(input: string, n: nat): State {
    State(input, seq(n + 1, _ => 0), None, [], [], None, "", seq(n, _ => Thread(Idle, 0)),
          Starting(0), [], [])
  }

  /** A step is chosen by the scheduler; garbage is what a freshly allocated block holds. */
  datatype Action = MainStep | ThreadStep(t: nat, garbage: seq<nat>)

  /** Positions held by a thread are positions of the list, and its seat numbers are in range. */
  predicate PcShape(events: Store, pc: Pc) {
    match pc
    case CreateZero(_, rows, cols, block, i) => |block| == rows * cols && i <= |block|
    case ReserveLock(k, _) => k < |events|
    case ReserveCount(k, _) => k < |events|
    case ReserveBounds(k, seats, _, i) =>
      k < |events| && i <= |seats| && AllInBounds(events[k], seats[..i])
    case ReserveProbe(k, seats, _, i) => k < |events| && i < |seats| && AllInBounds(events[k], seats[..i + 1])
    case ReserveMark(k, seats, _, i) => k < |events| && i < |seats| && AllInBounds(events[k], seats[..i + 1])
    case ReserveUncount(k, seats, _, i) =>
      k < |events| && i <= |seats| && AllInBounds(events[k], seats[..i])
    case ReserveUndo(k, seats, _, i, j) =>
      k < |events| && j <= i <= |seats| && AllInBounds(events[k], seats[..i])
    case ReserveUnlock(k, _, _) => k < |events|
    case ShowOpen(k) => k < |events|
    case ShowCell(k, p, _) => k < |events| && p <= |events[k].data|
    case ListFormat(cur, _, _) => cur < |events|
    case ListNext(cur, _, _) => cur < |events|
    case _ => true
  }

  predicate Shape(s: State) {
    && 0 < |s.threads| && |s.flags| == |s.threads| + 1 && |s.mutexes| == |s.events|
    && (forall k :: 0 <= k < |s.events| ==> WellFormed(s.events[k]))
    && (forall t :: 0 <= t < |s.threads| ==> PcShape(s.events, s.threads[t].pc))
    && (s.main.Starting? ==> s.main.next < |s.threads|)
    && (s.main.Joining? ==> |s.main.results| <= |s.threads|)
  }

  // ----- Fetching -----

  /** After these the reader goes back to the loop with the fetch mutex still locked. */
  predicate KeepsFetchLock(cmd: Command) {
    cmd.Help? || cmd.BadWait? || (cmd.Wait? && cmd.delay == 0)
  }

  /** WAIT with a delay writes to threadArray[thread]; outside the array the program has no defined behaviour. */
  predicate WaitInRange(cmd: Command, n: nat) {
    cmd.Wait? && 0 < cmd.delay ==> cmd.thread <= n
  }

  function EntryPoint(cmd: Command): Pc {
    match cmd
    case Create(id, rows, cols) => CreateCheck(id, rows, cols)
    case Reserve(id, seats) => ReserveFind(id, seats)
    case Show(id) => ShowFind(id)
    case ListEvents => ListCheck
    case Barrier => Done(2)
    case _ => Fetch
  }

  function SetFlags(flags: seq<nat>, cmd: Command): seq<nat>
    requires 1 < |flags|
  {
    if cmd.Barrier? then flags[0 := 1]
    else if cmd.Wait? && 0 < cmd.delay && 0 < cmd.thread < |flags| then flags[cmd.thread := cmd.delay]
    else flags
  }

  /** Thread t has read cmd and leaves rest unread. */
  function Dispatch(s: State, t: nat, cmd: Command, rest: string): State
    requires Shape(s) && t < |s.threads|
  {
    s.(rest := rest,
       flags := SetFlags(s.flags, cmd),
       fetchLock := if KeepsFetchLock(cmd) then Some(t) else None,
       threads := s.threads[t := Thread(EntryPoint(cmd), |s.log|)],
       log := s.log + [Fetched(cmd, t)])
  }

  /** Everything a thread does under the fetch mutex; a pending WAIT is slept off first. */
  function FetchStep(s: State, t: nat): State
    requires Shape(s) && t < |s.threads|
  {
    var s1 := s.(flags := s.flags[t + 1 := 0]);
    if s.flags[0] != 0 then s1.Goto(t, Done(2))
    else if s.rest == "" then s1.Goto(t, Done(0))
    else Dispatch(s1, t, NextCommand(true, s.rest).0, NextCommand(true, s.rest).1)
  }

  /** The mutex is free, and the command that would be read, if one would, writes inside threadArray. */
  predicate FetchEnabled(s: State)
    requires Shape(s)
  {
    s.fetchLock.None? &&
    (s.flags[0] == 0 && s.rest != "" ==> WaitInRange(NextCommand(true, s.rest).0, |s.threads|))
  }

  // ----- CREATE -----

  function CreateStep(s: State, t: nat, garbage: seq<nat>): State
    requires Shape(s) && t < |s.threads|
    requires s.threads[t].pc.CreateCheck? || s.threads[t].pc.CreateAlloc? || s.threads[t].pc.CreateZero?
  {
    match s.threads[t].pc
    case CreateCheck(id, rows, cols) =>
      if Find(s.events, id).Some? then s.TakesEffect(t, Create(id, rows, cols), Failed).Goto(t, Fetch)
      else s.Goto(t, CreateAlloc(id, rows, cols))
    case CreateAlloc(id, rows, cols) => s.Goto(t, CreateZero(id, rows, cols, garbage, 0))
    case CreateZero(id, rows, cols, block, i) =>
      if i < |block| then s.Goto(t, CreateZero(id, rows, cols, block[i := 0], i + 1))
      else if Find(s.events, id).Some? then
        s.TakesEffect(t, Create(id, rows, cols), Failed).Goto(t, Fetch)
      else
        s.(events := s.events + [EventValue(id, rows, cols, 0, block)], mutexes := s.mutexes + [None])
        .TakesEffect(t, Create(id, rows, cols), Created).Goto(t, Fetch)
  }

  // ----- RESERVE -----

  predicate InReserve(pc: Pc) {
    pc.ReserveFind? || pc.ReserveLock? || pc.ReserveCount? || pc.ReserveBounds? || pc.ReserveProbe? ||
    pc.ReserveMark? || pc.ReserveUncount? || pc.ReserveUndo? || pc.ReserveUnlock?
  }

  function ReserveStep(s: State, t: nat): State
    requires Shape(s) && t < |s.threads| && InReserve(s.threads[t].pc)
  {
    match s.threads[t].pc
    case ReserveFind(id, seats) =>
      (match Find(s.events, id)
       case None => s.TakesEffect(t, Reserve(id, seats), Failed).Goto(t, Fetch)
       case Some(k) => s.Goto(t, ReserveLock(k, seats)))
    case ReserveLock(k, seats) =>
      s.(mutexes := s.mutexes[k := Some(t)]).Goto(t, ReserveCount(k, seats))
    case ReserveCount(k, seats) =>
      var rid := NextId(s.events[k]);
      s.(events := s.events[k := s.events[k].(reservations := rid)])
      .Goto(t, ReserveBounds(k, seats, rid, 0))
    case ReserveBounds(k, seats, rid, i) =>
      if i == |seats| then s.Goto(t, ReserveUnlock(k, seats, Reserved(rid)))
      else if !InBounds(s.events[k], seats[i]) then s.Goto(t, ReserveUncount(k, seats, rid, i))
      else s.Goto(t, ReserveProbe(k, seats, rid, i))
    case ReserveProbe(k, seats, rid, i) =>
      if !CellFree(s.events[k], seats[i]) then s.Goto(t, ReserveUncount(k, seats, rid, i))
      else s.Goto(t, ReserveMark(k, seats, rid, i))
    case ReserveMark(k, seats, rid, i) =>
      assert seats[..i + 1][i] == seats[i];
      s.(events := s.events[k := SetSeat(s.events[k], seats[i], rid)])
      .Goto(t, ReserveBounds(k, seats, rid, i + 1))
    case ReserveUncount(k, seats, rid, i) =>
      var count := CountDown(s.events[k].reservations);
      s.(events := s.events[k := s.events[k].(reservations := count)])
      .Goto(t, ReserveUndo(k, seats, rid, i, 0))
    case ReserveUndo(k, seats, rid, i, j) =>
      if j == i then s.Goto(t, ReserveUnlock(k, seats, Failed))
      else
        assert seats[..i][j] == seats[j];
        s.(events := s.events[k := SetSeat(s.events[k], seats[j], 0)])
        .Goto(t, ReserveUndo(k, seats, rid, i, j + 1))
    case ReserveUnlock(k, seats, outcome) =>
      s.(mutexes := s.mutexes[k := None])
      .TakesEffect(t, Reserve(s.events[k].id, seats), outcome).Goto(t, Fetch)
  }

  // ----- SHOW -----

  function ShowStep(s: State, t: nat): State
    requires Shape(s) && t < |s.threads|
    requires s.threads[t].pc.ShowFind? || s.threads[t].pc.ShowOpen? || s.threads[t].pc.ShowCell?
  {
    match s.threads[t].pc
    case ShowFind(id) =>
      (match Find(s.events, id)
       case None => s.Goto(t, Fetch)
       case Some(k) => s.Goto(t, ShowOpen(k)))
    case ShowOpen(k) => s.(outputLock := Some(t)).Goto(t, ShowCell(k, 0, ""))
    case ShowCell(k, p, buffer) =>
      var e := s.events[k];
      if p == |e.data| then s.(output := s.output + buffer, outputLock := None).Goto(t, Fetch)
      else
        match PutCell(buffer, e.cols, Capacity(e), Dec(e.data[p]), p)
        case None => s.(outputLock := None).Goto(t, Fetch)
        case Some(longer) => s.Goto(t, ShowCell(k, p + 1, longer))
  }

  // ----- LIST -----

  predicate InList(pc: Pc) {
    pc.ListCheck? || pc.ListOpen? || pc.ListHead? || pc.ListFormat? || pc.ListNext? || pc.ListWrite?
  }

  /** The node pointer was NULL: the listing is complete and only its last part is left to write. */
  function EndOfList(s: State, t: nat, buffer: string, base: nat): State
    requires t < |s.threads|
  {
    var text := (if base <= |s.output| then s.output[base..] else "") + buffer;
    s.TakesEffect(t, ListEvents, Listed(text)).Goto(t, ListWrite(buffer, base, |s.order|))
  }

  function ListStep(s: State, t: nat): State
    requires Shape(s) && t < |s.threads| && InList(s.threads[t].pc)
  {
    match s.threads[t].pc
    case ListCheck =>
      if s.events == [] then s.TakesEffect(t, ListEvents, Listed("")).Goto(t, Fetch)
      else s.Goto(t, ListOpen)
    case ListOpen => s.(outputLock := Some(t)).Goto(t, ListHead)
    case ListHead =>
      if s.events == [] then EndOfList(s, t, "", |s.output|)
      else s.Goto(t, ListFormat(0, "", |s.output|))
    case ListFormat(cur, buffer, base) =>
      var w := AddLine(Walk("", buffer), s.events[cur].id);
      s.(output := s.output + w.written).Goto(t, ListNext(cur, w.buffer, base))
    case ListNext(cur, buffer, base) =>
      if cur + 1 < |s.events| then s.Goto(t, ListFormat(cur + 1, buffer, base))
      else EndOfList(s, t, buffer, base)
    case ListWrite(buffer, _, _) =>
      s.(output := s.output + buffer, outputLock := None).Goto(t, Fetch)
  }

  // ----- main -----

  /** Thread creation, joining, and the decision from the first thread's result alone. */
  function MainMove(s: State): State
    requires Shape(s) && MainEnabled(s)
  {
    var n := |s.threads|;
    match s.main
    case Starting(i) =>
      s.(main := if i + 1 < n then Starting(i + 1) else Joining([])).Goto(i, Fetch)
    case Joining(results) =>
      if |results| < n then s.(main := Joining(results + [s.threads[|results|].pc.result]))
      else if results[0] != 0 then
        s.(flags := s.flags[0 := 0], main := Starting(0), threads := seq(n, _ => Thread(Idle, 0)))
      else s.(main := Finished)
  }

  predicate MainEnabled(s: State)
    requires Shape(s)
  {
    match s.main
    case Starting(_) => true
    case Joining(results) => |results| < |s.threads| ==> s.threads[|results|].pc.Done?
    case Finished => false
  }

  // ----- The machine -----

  /** Steps wait only for the fetch mutex, an event mutex or the output lock. */
  predicate Enabled(s: State, a: Action)
    requires Shape(s)
  {
    match a
    case MainStep => MainEnabled(s)
    case ThreadStep(t, garbage) =>
      t < |s.threads| &&
      match s.threads[t].pc
      case Idle => false
      case Done(_) => false
      case Fetch => FetchEnabled(s)
      case CreateAlloc(_, rows, cols) => |garbage| == rows * cols
      case ReserveLock(k, _) => s.mutexes[k].None?
      case ShowOpen(_) => s.outputLock.None?
      case ListOpen => s.outputLock.None?
      case _ => true
  }

  function Next(s: State, a: Action): State
    requires Shape(s) && Enabled(s, a)
  {
    match a
    case MainStep => MainMove(s)
    case ThreadStep(t, garbage) =>
      var pc := s.threads[t].pc;
      if pc.Fetch? then FetchStep(s, t)
      else if pc.CreateCheck? || pc.CreateAlloc? || pc.CreateZero? then CreateStep(s, t, garbage)
      else if InReserve(pc) then ReserveStep(s, t)
      else if InList(pc) then ListStep(s, t)
      else ShowStep(s, t)
  }

  ghost predicate Step(s: State, s': State) {
    Shape(s) && exists a :: Enabled(s, a) && s' == Next(s, a)
  }

  ghost predicate StepAt(run: seq<State>, i: nat)
    requires i + 1 < |run|
  {
    Step(run[i], run[i + 1])
  }

  /** A schedule of the program on a job file with n threads, seen as the states it goes through. */
  ghost predicate IsRun(input: string, n: nat, run: seq<State>) {
    && n > 0 && run != [] && run[0] == Init(input, n)
    && forall i: nat {:trigger StepAt(run, i)} :: i + 1 < |run| ==> StepAt(run, i)
  }
}
