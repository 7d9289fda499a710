/**
 * The runner never gets stuck and always ends, on exactly the files without a command that leaves the
 * fetch mutex locked and without a WAIT for a thread that does not exist.
 */
module RunnerProgress {
  import opened Sequences
  import opened Streams
  import opened Commands
  import opened CommandSyntax
  import opened EventStore
  import opened Runner
  import opened RunnerInvariants
  import opened RunnerHistory
  import opened RunnerTheorems

  /** No WAIT with a delay for a thread that does not exist. */
  predicate WaitsInRange(cmds: seq<Command>, n: nat) {
    forall j :: 0 <= j < |cmds| ==> (cmds[j].Wait? && cmds[j].delay > 0 ==> cmds[j].thread <= n)
  }

  /** No HELP, no malformed WAIT, no WAIT without a delay: these leave the fetch mutex locked. */
  predicate NoneKeepsFetchLock(cmds: seq<Command>) {
    forall j :: 0 <= j < |cmds| ==> !cmds[j].Help? && !cmds[j].BadWait? && !(cmds[j].Wait? && cmds[j].delay == 0)
  }

  /** No command leaves the fetch mutex locked, and every WAIT names an existing thread. */
  predicate CleanCommands(cmds: seq<Command>, n: nat) {
    NoneKeepsFetchLock(cmds) && WaitsInRange(cmds, n)
  }

  predicate Clean(input: string, n: nat) {
    CleanCommands(AllCommands(true, input), n)
  }

  // ----- Deadlock freedom -----

  /** What a thread that is executing a command needs in order to take its next step. */
  function NextBlock(pc: Pc): seq<nat> {
    if pc.CreateAlloc? then Zeros(pc.rows * pc.cols) else []
  }

  /** A thread can only be blocked at the three lock operations. */
  lemma OnlyLocksBlock(s: State, t: nat)
    requires Shape(s) && t < |s.threads|
    requires !s.threads[t].pc.Idle? && !s.threads[t].pc.Done? && !s.threads[t].pc.Fetch?
    ensures Enabled(s, ThreadStep(t, NextBlock(s.threads[t].pc)))
         || (s.threads[t].pc.ReserveLock? && s.mutexes[s.threads[t].pc.k].Some?)
         || ((s.threads[t].pc.ShowOpen? || s.threads[t].pc.ListOpen?) && s.outputLock.Some?)
  {
  }

  /** The holder of an event mutex or of the output lock is never itself waiting for a lock. */
  lemma HolderRuns(s: State, t: nat)
    requires Shape(s) && t < |s.threads|
    requires (exists k :: 0 <= k < |s.mutexes| && HoldsEvent(s.threads[t].pc, k)) || HoldsOutput(s.threads[t].pc)
    ensures Enabled(s, ThreadStep(t, []))
  {
  }

  lemma EventHolderRuns(s: State, k: nat)
    requires Shape(s) && Locks(s) && k < |s.mutexes| && s.mutexes[k].Some?
    ensures Enabled(s, ThreadStep(s.mutexes[k].value, []))
  {
    assert OwnsItsLocks(s, s.mutexes[k].value);
    HolderRuns(s, s.mutexes[k].value);
  }

  lemma OutputHolderRuns(s: State)
    requires Shape(s) && Locks(s) && s.outputLock.Some?
    ensures Enabled(s, ThreadStep(s.outputLock.value, []))
  {
    assert OwnsItsLocks(s, s.outputLock.value);
    HolderRuns(s, s.outputLock.value);
  }

  /** In every unfinished state main, or the thread itself, or the thread it waits for, can step. */
  lemma SomeStepEnabled(s: State) returns (a: Action)
    requires Shape(s) && Locks(s) && Rounds(s) && !s.main.Finished? && FetchEnabled(s)
    ensures Enabled(s, a)
  {
    a := MainStep;
    if !MainEnabled(s) {
      var t := |s.main.results|;
      var pc := s.threads[t].pc;
      a := ThreadStep(t, NextBlock(pc));
      if !pc.Fetch? && !Enabled(s, a) {
        OnlyLocksBlock(s, t);
        if pc.ReserveLock? {
          EventHolderRuns(s, pc.k);
          a := ThreadStep(s.mutexes[pc.k].value, []);
        } else {
          OutputHolderRuns(s);
          a := ThreadStep(s.outputLock.value, []);
        }
      }
    }
  }

  /** On a clean file the fetch mutex is always free when a thread wants it. */
  lemma CleanFetches(input: string, n: nat, s: State)
    requires Shape(s) && |s.threads| == n && ReadInOrder(input, s) && FetchLockReason(s) && Clean(input, n)
    ensures FetchEnabled(s)
  {
    var cmds := AllCommands(true, input);
    forall j | 0 <= j < |s.log| ensures !KeepsFetchLock(s.log[j].cmd) {
      assert LogCommands(s.log)[j] == cmds[j];
    }
    if s.rest != "" {
      assert AllCommands(true, s.rest)[0] == cmds[|s.log|];
    }
  }

  lemma NeverStuck(input: string, n: nat, s: State) returns (a: Action)
    requires Inv(input, n, s) && Clean(input, n) && !s.main.Finished?
    ensures Enabled(s, a)
  {
    CleanFetches(input, n, s);
    a := SomeStepEnabled(s);
  }

  // ----- Termination -----

  /** Unread file and barrier flag. */
  function Unread(s: State): nat
    requires Shape(s)
  {
    2 * |s.rest| + s.flags[0]
  }

  /** Threads whose command may still make the work of others grow. */
  function Openings(threads: seq<Thread>): nat {
    if threads == [] then 0
    else Openings(threads[..|threads| - 1]) + Opening(threads[|threads| - 1].pc)
  }

  function Opening(pc: Pc): nat {
    if pc.CreateCheck? || pc.CreateAlloc? || pc.CreateZero? || pc.ShowFind? then 1 else 0
  }

  /** A bound on the steps left in the command at hand, over the events as they are. */
  function StepsLeft(events: Store, pc: Pc): nat {
    match pc
    case Idle => 2
    case Fetch => 1
    case Done(_) => 0
    case CreateCheck(_, rows, cols) => 4 + rows * cols
    case CreateAlloc(_, rows, cols) => 3 + rows * cols
    case CreateZero(_, _, _, block, i) => 2 + if i <= |block| then |block| - i else 0
    case ReserveFind(_, seats) => 13 + 4 * |seats|
    case ReserveLock(_, seats) => 12 + 4 * |seats|
    case ReserveCount(_, seats) => 11 + 4 * |seats|
    case ReserveBounds(_, seats, _, i) => 10 + |seats| + 3 * (if i <= |seats| then |seats| - i else 0)
    case ReserveProbe(_, seats, _, i) => 9 + |seats| + 3 * (if i <= |seats| then |seats| - i else 0)
    case ReserveMark(_, seats, _, i) => 8 + |seats| + 3 * (if i <= |seats| then |seats| - i else 0)
    case ReserveUncount(_, _, _, i) => 4 + i
    case ReserveUndo(_, _, _, i, j) => 3 + if j <= i then i - j else 0
    case ReserveUnlock(_, _, _) => 2
    case ShowFind(_) => 2
    case ShowOpen(k) => if k < |events| then 3 + |events[k].data| else 0
    case ShowCell(k, p, _) => if k < |events| && p <= |events[k].data| then 2 + |events[k].data| - p else 0
    case ListCheck => 8 + 2 * |events|
    case ListOpen => 7 + 2 * |events|
    case ListHead => 6 + 2 * |events|
    case ListFormat(cur, _, _) => 4 + if cur <= |events| then 2 * (|events| - cur) else 0
    case ListNext(cur, _, _) => 3 + if cur <= |events| then 2 * (|events| - cur) else 0
    case ListWrite(_, _, _) => 2
  }

  function AllStepsLeft(events: Store, threads: seq<Thread>): nat {
    if threads == [] then 0
    else AllStepsLeft(events, threads[..|threads| - 1]) + StepsLeft(events, threads[|threads| - 1].pc)
  }

  function MainLeft(s: State): nat
    requires Shape(s)
  {
    match s.main
    case Starting(_) => |s.threads| + 2
    case Joining(results) => |s.threads| + 1 - |results|
    case Finished => 0
  }

  function Work(s: State): nat
    requires Shape(s)
  {
    AllStepsLeft(s.events, s.threads) + MainLeft(s)
  }

  /** The lexicographic measure of a state goes down. */
  ghost predicate Falls(s: State, s': State)
    requires Shape(s) && Shape(s')
  {
    || Unread(s') < Unread(s)
    || (Unread(s') == Unread(s) && Openings(s'.threads) < Openings(s.threads))
    || (Unread(s') == Unread(s) && Openings(s'.threads) == Openings(s.threads) && Work(s') < Work(s))
  }

  lemma {:induction false} OpeningsUpdate(threads: seq<Thread>, t: nat, th: Thread)
    requires t < |threads|
    ensures Openings(threads[t := th]) == Openings(threads) - Opening(threads[t].pc) + Opening(th.pc)
  {
    var last := |threads| - 1;
    if t < last {
      assert threads[t := th][..last] == threads[..last][t := th];
      OpeningsUpdate(threads[..last], t, th);
    } else {
      assert threads[t := th][..last] == threads[..last];
    }
  }

  lemma {:induction false} StepsLeftUpdate(events: Store, threads: seq<Thread>, t: nat, th: Thread)
    requires t < |threads|
    ensures AllStepsLeft(events, threads[t := th])
         == AllStepsLeft(events, threads) - StepsLeft(events, threads[t].pc) + StepsLeft(events, th.pc)
  {
    var last := |threads| - 1;
    if t < last {
      assert threads[t := th][..last] == threads[..last][t := th];
      StepsLeftUpdate(events, threads[..last], t, th);
    } else {
      assert threads[t := th][..last] == threads[..last];
    }
  }

  /** The measure looks at the events' number and sizes only. */
  lemma {:induction false} StepsLeftFrame(before: Store, after: Store, threads: seq<Thread>)
    requires Grows(before, after) && |before| == |after|
    ensures AllStepsLeft(after, threads) == AllStepsLeft(before, threads)
  {
    if threads != [] {
      StepsLeftFrame(before, after, threads[..|threads| - 1]);
    }
  }

  /** One step of a command: it opens less, or leaves less to do with as many events. */
  ghost predicate PcFalls(s: State, s': State, t: nat)
    requires t < |s.threads| && |s'.threads| == |s.threads|
  {
    var pc, pc' := s.threads[t].pc, s'.threads[t].pc;
    || Opening(pc') < Opening(pc)
    || (|s'.events| == |s.events| && Opening(pc') == Opening(pc)
        && StepsLeft(s.events, pc') < StepsLeft(s.events, pc))
  }

  lemma CreateFalls(s: State, t: nat, garbage: seq<nat>)
    requires Shape(s) && t < |s.threads|
    requires s.threads[t].pc.CreateCheck? || s.threads[t].pc.CreateAlloc? || s.threads[t].pc.CreateZero?
    requires Enabled(s, ThreadStep(t, garbage))
    ensures PcFalls(s, CreateStep(s, t, garbage), t)
  {
  }

  lemma ReserveFalls(s: State, t: nat)
    requires Shape(s) && t < |s.threads| && InReserve(s.threads[t].pc)
    ensures PcFalls(s, ReserveStep(s, t), t)
  {
  }

  lemma ShowFalls(s: State, t: nat)
    requires Shape(s) && t < |s.threads|
    requires s.threads[t].pc.ShowFind? || s.threads[t].pc.ShowOpen? || s.threads[t].pc.ShowCell?
    ensures PcFalls(s, ShowStep(s, t), t)
  {
  }

  lemma ListFalls(s: State, t: nat)
    requires Shape(s) && t < |s.threads| && InList(s.threads[t].pc)
    ensures PcFalls(s, ListStep(s, t), t)
  {
  }

  lemma WorkFalls(s: State, t: nat, garbage: seq<nat>)
    requires Shape(s) && Enabled(s, ThreadStep(t, garbage)) && !s.threads[t].pc.Fetch?
    ensures PcFalls(s, Next(s, ThreadStep(t, garbage)), t)
  {
    var pc := s.threads[t].pc;
    if pc.CreateCheck? || pc.CreateAlloc? || pc.CreateZero? {
      CreateFalls(s, t, garbage);
    } else if InReserve(pc) {
      ReserveFalls(s, t);
    } else if InList(pc) {
      ListFalls(s, t);
    } else {
      ShowFalls(s, t);
    }
  }

  lemma PcFallsSuffices(s: State, s': State, t: nat)
    requires Shape(s) && Shape(s') && Frame(s, s', t) && PcFalls(s, s', t) && Unread(s') == Unread(s)
    ensures Falls(s, s')
  {
    OpeningsUpdate(s.threads, t, s'.threads[t]);
    if |s'.events| == |s.events| {
      StepsLeftUpdate(s.events, s.threads, t, s'.threads[t]);
      StepsLeftFrame(s.events, s'.events, s'.threads);
    }
  }

  lemma FetchFalls(s: State, t: nat)
    requires Shape(s) && Rounds(s) && t < |s.threads| && s.threads[t].pc.Fetch? && s.fetchLock.None?
    requires Shape(FetchStep(s, t))
    ensures Falls(s, FetchStep(s, t))
  {
    var s' := FetchStep(s, t);
    if s.flags[0] == 0 && s.rest != "" {
      DispatchFalls(s.(flags := s.flags[t + 1 := 0]), t, NextCommand(true, s.rest).0, NextCommand(true, s.rest).1);
    } else {
      FetchFrame(s, t);
      PcFallsSuffices(s, s', t);
    }
  }

  lemma DispatchFalls(s: State, t: nat, cmd: Command, rest: string)
    requires Shape(s) && t < |s.threads| && s.flags[0] == 0 && |rest| < |s.rest|
    requires Shape(Dispatch(s, t, cmd, rest))
    ensures Unread(Dispatch(s, t, cmd, rest)) < Unread(s)
  {
  }

  lemma MainFalls(s: State)
    requires Shape(s) && Rounds(s) && MainEnabled(s) && Shape(MainMove(s))
    ensures Falls(s, MainMove(s))
  {
    match s.main
    case Starting(i) =>
      OpeningsUpdate(s.threads, i, s.threads[i].(pc := Fetch));
      StepsLeftUpdate(s.events, s.threads, i, s.threads[i].(pc := Fetch));
    case Joining(results) =>
      if |results| == |s.threads| {
        assert ResultFits(s, s.threads[0].pc);
      }
  }

  /** The global measure falls on every step, of main and of every thread. */
  lemma EveryStepFalls(s: State, a: Action)
    requires Shape(s) && Rounds(s) && Enabled(s, a)
    ensures Shape(Next(s, a)) && Falls(s, Next(s, a))
  {
    ShapeKept(s, a);
    if a.MainStep? {
      MainFalls(s);
    } else if s.threads[a.t].pc.Fetch? {
      FetchFalls(s, a.t);
    } else {
      ThreadFrame(s, a.t, a.garbage);
      WorkHistory(s, a.t, a.garbage);
      WorkFalls(s, a.t, a.garbage);
      PcFallsSuffices(s, Next(s, a), a.t);
    }
  }

  ghost predicate IsInfiniteRun(input: string, n: nat, states: nat -> State) {
    n > 0 && states(0) == Init(input, n) && forall i: nat :: Step(states(i), states(i + 1))
  }

  /** One step of an infinite run. */
  lemma NextState(input: string, n: nat, s: State, s': State)
    requires Inv(input, n, s) && Step(s, s')
    ensures Inv(input, n, s') && Shape(s) && Shape(s') && Falls(s, s')
  {
    var a :| Enabled(s, a) && s' == Next(s, a);
    StepInv(input, n, s, a);
    EveryStepFalls(s, a);
  }

  lemma InvNextState(holds: State -> bool, next: (State, State) -> bool, input: string, n: nat, s: State, s': State)
    requires forall x {:trigger holds(x)} :: holds(x) <==> Inv(input, n, x)
    requires forall x, y {:trigger next(x, y)} :: next(x, y) <==> Step(x, y)
    ensures Kept(holds, next, s, s')
  {
    if holds(s) && next(s, s') {
      NextState(input, n, s, s');
    }
  }

  lemma StreamInv(input: string, n: nat, states: nat -> State, i: nat)
    requires IsInfiniteRun(input, n, states)
    ensures Inv(input, n, states(i))
  {
    var holds: State -> bool := s => Inv(input, n, s);
    var next: (State, State) -> bool := (s, s') => Step(s, s');
    InitInv(input, n);
    forall s, s' ensures Kept(holds, next, s, s') {
      InvNextState(holds, next, input, n, s, s');
    }
    assert forall j: nat {:trigger StepsOn(next, states, j)} :: StepsOn(next, states, j);
    HoldsInStream(holds, next, states, i);
  }

  function RankOf(s: State): Rank {
    if Shape(s) then Rank(Unread(s), Openings(s.threads), Work(s), 0) else Rank(0, 0, 0, 0)
  }

  lemma StreamFalls(input: string, n: nat, states: nat -> State, i: nat)
    requires IsInfiniteRun(input, n, states)
    ensures Below(RankOf(states(i + 1)), RankOf(states(i)))
  {
    StreamInv(input, n, states, i);
    NextState(input, n, states(i), states(i + 1));
  }

  /** No schedule of any file goes on for ever. */
  lemma NoInfiniteRun(input: string, n: nat, states: nat -> State)
    ensures !IsInfiniteRun(input, n, states)
  {
    if IsInfiniteRun(input, n, states) {
      var rank: nat -> Rank := (i: nat) => RankOf(states(i));
      forall i: nat ensures Drops(rank, i) {
        StreamFalls(input, n, states, i);
      }
      NoEndlessDescent(rank, 0);
    }
  }

  // ----- Finishing -----

  ghost predicate GoodRun(input: string, n: nat, run: seq<State>) {
    IsRun(input, n, run) && Inv(input, n, run[|run| - 1])
  }

  /** A clean unfinished run can be continued, and gets closer to its end. */
  lemma ContinueOneStep(input: string, n: nat, run: seq<State>) returns (next: State)
    requires GoodRun(input, n, run) && Clean(input, n) && !run[|run| - 1].main.Finished?
    ensures GoodRun(input, n, run + [next])
    ensures Shape(run[|run| - 1]) && Shape(next) && Falls(run[|run| - 1], next)
  {
    var s := run[|run| - 1];
    var a := NeverStuck(input, n, s);
    next := Next(s, a);
    StepInv(input, n, s, a);
    EveryStepFalls(s, a);
    ExtendRun(input, n, run, a);
  }

  ghost predicate FinishedRun(input: string, n: nat, run: seq<State>) {
    IsRun(input, n, run) && run[|run| - 1].main.Finished?
  }

  lemma ContinuedRun(input: string, n: nat, run: seq<State>, next: State, after: seq<State>)
    requires FinishedRun(input, n, run + [next] + after)
    ensures FinishedRun(input, n, run + ([next] + after))
  {
    Regroup(run, next, after);
  }

  /** From any state of a clean run, every way of continuing can be continued to the end. */
  lemma {:induction false} ContinueToEnd(input: string, n: nat, run: seq<State>, s: State) returns (more: seq<State>)
    requires GoodRun(input, n, run) && Clean(input, n) && s == run[|run| - 1] && Shape(s)
    ensures FinishedRun(input, n, run + more)
    decreases Unread(s), Openings(s.threads), Work(s)
  {
    if s.main.Finished? {
      more := [];
      assert run + more == run;
    } else {
      var next := ContinueOneStep(input, n, run);
      var after := ContinueToEnd(input, n, run + [next], next);
      more := [next] + after;
      ContinuedRun(input, n, run, next, after);
    }
  }

  lemma ExtendRun(input: string, n: nat, run: seq<State>, a: Action)
    requires IsRun(input, n, run) && Shape(run[|run| - 1]) && Enabled(run[|run| - 1], a)
    ensures IsRun(input, n, run + [Next(run[|run| - 1], a)])
  {
    var longer := run + [Next(run[|run| - 1], a)];
    forall i: nat | i + 1 < |longer| ensures StepAt(longer, i) {
      if i < |run| - 1 {
        assert StepAt(run, i);
      } else {
        assert Step(run[|run| - 1], Next(run[|run| - 1], a));
      }
    }
  }

  lemma CleanFinishes(input: string, n: nat) returns (run: seq<State>)
    requires n > 0 && Clean(input, n)
    ensures FinishedRun(input, n, run)
  {
    var start := [Init(input, n)];
    InitInv(input, n);
    assert IsRun(input, n, start);
    var more := ContinueToEnd(input, n, start, Init(input, n));
    run := start + more;
  }

  lemma FinishedIsClean(input: string, n: nat, run: seq<State>)
    requires IsRun(input, n, run) && run[|run| - 1].main.Finished?
    ensures Clean(input, n)
  {
    RunInv(input, n, run, |run| - 1);
    FinishedMeansClean(input, n, run[|run| - 1]);
  }

  /** A file can be processed to the end exactly when it is clean. */
  lemma FinishesExactlyWhenClean(input: string, n: nat)
    requires n > 0
    ensures (exists run: seq<State> :: FinishedRun(input, n, run)) <==> Clean(input, n)
  {
    if Clean(input, n) {
      var run := CleanFinishes(input, n);
      assert FinishedRun(input, n, run);
    }
    forall run: seq<State> | FinishedRun(input, n, run) ensures Clean(input, n) {
      FinishedIsClean(input, n, run);
    }
  }

  lemma FinishedMeansClean(input: string, n: nat, s: State)
    requires Inv(input, n, s) && s.main.Finished?
    ensures Clean(input, n)
  {
    FinishedReadsAll(input, n, s);
    assert s.fetchLock.None?;
    assert !SomeKeepsFetchLock(s.log);
    var cmds := AllCommands(true, input);
    forall j | 0 <= j < |cmds| ensures !KeepsFetchLock(cmds[j]) && WaitInRange(cmds[j], n) {
      assert s.log[j].cmd == LogCommands(s.log)[j];
    }
  }

  /**
   * Where every WAIT names an existing thread, a file can be processed to the end exactly when none of
   * its commands leaves the fetch mutex locked.
   */
  lemma FinishesUnlessLockKept(input: string, n: nat)
    requires n > 0 && WaitsInRange(AllCommands(true, input), n)
    ensures (exists run: seq<State> :: FinishedRun(input, n, run)) <==>
      NoneKeepsFetchLock(AllCommands(true, input))
  {
    FinishesExactlyWhenClean(input, n);
  }
}
