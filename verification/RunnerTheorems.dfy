/** The results about whole runs of the multi-threaded job runner, for every file and every schedule. */
module RunnerTheorems {
  import opened Options
  import opened Sequences
  import opened Seating
  import opened Commands
  import opened CommandSyntax
  import opened Listing
  import opened EventStore
  import opened Runner
  import opened RunnerInvariants
  import opened RunnerHistory
  import opened RunnerRefinement

  // ----- Reading -----

  function LogCommands(log: seq<Fetched>): (cmds: seq<Command>)
    ensures |cmds| == |log|
  {
    seq(|log|, j requires 0 <= j < |log| => log[j].cmd)
  }

  /** What has been handed out, in fetch order, and what is still in the file make up the file. */
  ghost predicate Reads(input: string, log: seq<Fetched>, rest: string) {
    AllCommands(true, input) == LogCommands(log) + AllCommands(true, rest)
  }

  ghost predicate ReadInOrder(input: string, s: State) {
    Reads(input, s.log, s.rest)
  }

  predicate SomeKeepsFetchLock(log: seq<Fetched>) {
    exists j :: 0 <= j < |log| && KeepsFetchLock(log[j].cmd)
  }

  /** The fetch mutex stays locked exactly because of a command that leaves it locked. */
  ghost predicate FetchLockReason(s: State) {
    && (s.fetchLock.Some? <==> SomeKeepsFetchLock(s.log))
    && (forall j :: 0 <= j < |s.log| ==> WaitInRange(s.log[j].cmd, |s.threads|))
  }

  lemma ReadingKept(input: string, s: State, a: Action)
    requires Shape(s) && ReadInOrder(input, s) && FetchLockReason(s) && Enabled(s, a)
    ensures ReadInOrder(input, Next(s, a)) && FetchLockReason(Next(s, a))
  {
    if a.ThreadStep? {
      if !s.threads[a.t].pc.Fetch? {
        WorkHistory(s, a.t, a.garbage);
      } else if s.flags[0] == 0 && s.rest != "" {
        var (cmd, rest) := NextCommand(true, s.rest);
        var s1 := s.(flags := s.flags[a.t + 1 := 0]);
        DispatchReading(input, s.log, Fetched(cmd, a.t), s.rest, rest);
        DispatchFetchLock(s1, a.t, cmd, rest);
      }
    }
  }

  lemma LogExtend(log: seq<Fetched>, f: Fetched)
    ensures LogCommands(log + [f]) == LogCommands(log) + [f.cmd]
  {
  }

  lemma DispatchReading(input: string, log: seq<Fetched>, f: Fetched, before: string, after: string)
    requires Reads(input, log, before)
    requires AllCommands(true, before) == [f.cmd] + AllCommands(true, after)
    ensures Reads(input, log + [f], after)
  {
    LogExtend(log, f);
    Regroup(LogCommands(log), f.cmd, AllCommands(true, after));
  }

  lemma DispatchFetchLock(s: State, t: nat, cmd: Command, rest: string)
    requires Shape(s) && FetchLockReason(s) && t < |s.threads| && s.fetchLock.None?
    requires WaitInRange(cmd, |s.threads|)
    ensures FetchLockReason(Dispatch(s, t, cmd, rest))
  {
    var s' := Dispatch(s, t, cmd, rest);
    assert s'.log[|s.log|].cmd == cmd;
    assert forall j :: 0 <= j < |s.log| ==> s'.log[j] == s.log[j];
  }

  // ----- The invariant of a run -----

  ghost predicate Inv(input: string, n: nat, s: State) {
    && |s.threads| == n
    && Shape(s) && Locks(s) && Rounds(s)
    && Jobs(s) && BarrierOrder(s)
    && Simulation(s) && Faithful(s.order) && Blocks(s) && Listings(s)
    && ReadInOrder(input, s) && FetchLockReason(s)
  }

  lemma InitInv(input: string, n: nat)
    requires n > 0
    ensures Inv(input, n, Init(input, n))
  {
    var s := Init(input, n);
    assert CommandsOf(s.order) == [];
    assert LogCommands(s.log) + AllCommands(true, s.rest) == AllCommands(true, input);
  }

  lemma StepInv(input: string, n: nat, s: State, a: Action)
    requires Inv(input, n, s) && Enabled(s, a)
    ensures Inv(input, n, Next(s, a))
  {
    LocksKept(s, a);
    RoundsKept(s, a);
    BarrierOrderKept(s, a);
    SimulationKept(s, a);
    BlocksKept(s, a);
    ListingsKept(s, a);
    ReadingKept(input, s, a);
    if a.ThreadStep? {
      ThreadFrame(s, a.t, a.garbage);
    }
  }

  lemma StepOfRun(input: string, n: nat, run: seq<State>, i: nat) returns (a: Action)
    requires IsRun(input, n, run) && i + 1 < |run|
    ensures Shape(run[i]) && Enabled(run[i], a) && run[i + 1] == Next(run[i], a)
  {
    assert StepAt(run, i);
    a :| Enabled(run[i], a) && run[i + 1] == Next(run[i], a);
  }

  ghost predicate KeptByStep(holds: State -> bool, s: State, a: Action) {
    Shape(s) && Enabled(s, a) && holds(s) ==> holds(Next(s, a))
  }

  ghost predicate KeptByAll(holds: State -> bool) {
    forall s, a {:trigger KeptByStep(holds, s, a)} :: KeptByStep(holds, s, a)
  }

  /** What holds at the start and is kept by every step holds in every state of every run. */
  lemma {:induction false} HoldsInRun(holds: State -> bool, input: string, n: nat, run: seq<State>, i: nat)
    requires IsRun(input, n, run) && i < |run| && holds(Init(input, n)) && KeptByAll(holds)
    ensures holds(run[i])
    decreases i
  {
    if i > 0 {
      HoldsInRun(holds, input, n, run, i - 1);
      var a := StepOfRun(input, n, run, i - 1);
      assert KeptByStep(holds, run[i - 1], a);
    }
  }

  lemma InvKept(holds: State -> bool, input: string, n: nat, s: State, a: Action)
    requires forall x {:trigger holds(x)} :: holds(x) <==> Inv(input, n, x)
    ensures KeptByStep(holds, s, a)
  {
    if Shape(s) && Enabled(s, a) && holds(s) {
      StepInv(input, n, s, a);
    }
  }

  /** Every state of every run satisfies the invariant; in particular shapes never restrict a step. */
  lemma RunInv(input: string, n: nat, run: seq<State>, i: nat)
    requires IsRun(input, n, run) && i < |run|
    ensures Inv(input, n, run[i])
  {
    var holds: State -> bool := s => Inv(input, n, s);
    InitInv(input, n);
    forall s, a ensures KeptByStep(holds, s, a) {
      InvKept(holds, input, n, s, a);
    }
    HoldsInRun(holds, input, n, run, i);
  }

  lemma StepTaken(input: string, n: nat, run: seq<State>, i: nat) returns (a: Action)
    requires IsRun(input, n, run) && i + 1 < |run|
    ensures Inv(input, n, run[i]) && Inv(input, n, run[i + 1])
    ensures Enabled(run[i], a) && run[i + 1] == Next(run[i], a)
  {
    RunInv(input, n, run, i);
    RunInv(input, n, run, i + 1);
    a := StepOfRun(input, n, run, i);
  }

  // ----- Sequential equivalence -----

  function BarriersIn(cmds: seq<Command>): nat {
    if cmds == [] then 0
    else BarriersIn(cmds[..|cmds| - 1]) + if cmds[|cmds| - 1].Barrier? then 1 else 0
  }

  lemma {:induction false} BarriersOfLog(log: seq<Fetched>)
    ensures Barriers(log) == BarriersIn(LogCommands(log))
  {
    if log != [] {
      BarriersOfLog(log[..|log| - 1]);
      assert LogCommands(log)[..|log| - 1] == LogCommands(log[..|log| - 1]);
    }
  }

  /** An order of the CREATE, RESERVE and LIST commands, each once, none moved across a BARRIER. */
  ghost predicate Serialization(cmds: seq<Command>, order: seq<nat>) {
    && (forall i :: 0 <= i < |order| ==> order[i] < |cmds| && Tracked(cmds[order[i]]))
    && (forall i, j :: 0 <= i < j < |order| ==> order[i] != order[j])
    && (forall j :: 0 <= j < |cmds| && Tracked(cmds[j]) ==> j in order)
    && (forall i, j :: 0 <= i < j < |order| ==>
          BarriersIn(cmds[..order[i]]) <= BarriersIn(cmds[..order[j]]))
  }

  function Pick(cmds: seq<Command>, order: seq<nat>): seq<Command>
    requires forall i :: 0 <= i < |order| ==> order[i] < |cmds|
  {
    seq(|order|, i requires 0 <= i < |order| => cmds[order[i]])
  }

  function JobsOf(order: seq<Effect>): (jobs: seq<nat>)
    ensures |jobs| == |order| && forall i :: 0 <= i < |order| ==> jobs[i] == order[i].job
  {
    seq(|order|, i requires 0 <= i < |order| => order[i].job)
  }

  lemma NothingInFlight(s: State)
    requires Shape(s) && Rounds(s) && Jobs(s) && s.main.Finished?
    ensures forall j :: 0 <= j < |s.log| && Tracked(s.log[j].cmd) ==> j in JobsOf(s.order)
  {
    forall j | 0 <= j < |s.log| && Tracked(s.log[j].cmd) ensures j in JobsOf(s.order) {
      assert s.log[j].thread < |s.threads| && s.threads[s.log[j].thread].pc.Done?;
      assert InOrder(s.order, j);
      var i :| 0 <= i < |s.order| && s.order[i].job == j;
      assert JobsOf(s.order)[i] == j;
    }
  }

  lemma SegmentsOfFile(log: seq<Fetched>, cmds: seq<Command>)
    requires cmds == LogCommands(log)
    ensures forall j :: 0 <= j <= |log| ==> Segment(log, j) == BarriersIn(cmds[..j])
  {
    forall j | 0 <= j <= |log| ensures Segment(log, j) == BarriersIn(cmds[..j]) {
      BarriersOfLog(log[..j]);
      assert LogCommands(log[..j]) == cmds[..j];
    }
  }

  /** At the end of a run the history is an order of the whole file's commands. */
  lemma HistoryIsSerialization(s: State, cmds: seq<Command>)
    requires Shape(s) && Rounds(s) && Jobs(s) && BarrierOrder(s) && s.main.Finished?
    requires cmds == LogCommands(s.log)
    ensures Serialization(cmds, JobsOf(s.order))
  {
    NothingInFlight(s);
    SegmentsOfFile(s.log, cmds);
  }

  lemma EffectsAreFileCommands(s: State, cmds: seq<Command>)
    requires Jobs(s) && LogCommands(s.log) <= cmds
    ensures forall i :: 0 <= i < |s.order| ==> s.order[i].job < |cmds|
    ensures Pick(cmds, JobsOf(s.order)) == CommandsOf(s.order)
  {
    forall i | 0 <= i < |s.order|
      ensures s.order[i].job < |cmds| && cmds[s.order[i].job] == CommandsOf(s.order)[i]
    {
      assert LogCommands(s.log)[s.order[i].job] == s.log[s.order[i].job].cmd;
    }
  }

  lemma FinishedReadsAll(input: string, n: nat, s: State)
    requires Inv(input, n, s) && s.main.Finished?
    ensures AllCommands(true, input) == LogCommands(s.log)
  {
    assert ResultFits(s, s.threads[0].pc);
  }

  /**
   * A finished run leaves the events as if the file's CREATE, RESERVE and LIST commands had run one at a
   * time, each once and none across a BARRIER; and each of them reported what it reports there.
   */
  lemma FinishedRunIsSequential(input: string, n: nat, run: seq<State>) returns (order: seq<nat>)
    requires IsRun(input, n, run) && run[|run| - 1].main.Finished?
    ensures Serialization(AllCommands(true, input), order)
    ensures run[|run| - 1].events == Replay(Pick(AllCommands(true, input), order))
    ensures var cmds := AllCommands(true, input);
            var effects := run[|run| - 1].order;
            && JobsOf(effects) == order
            && forall i :: 0 <= i < |order| ==>
                 effects[i].outcome == Report(Replay(Pick(cmds, order[..i])), cmds[order[i]])
  {
    var s := run[|run| - 1];
    var cmds := AllCommands(true, input);
    RunInv(input, n, run, |run| - 1);
    FinishedReadsAll(input, n, s);
    order := JobsOf(s.order);
    HistoryIsSerialization(s, cmds);
    EffectsAreFileCommands(s, cmds);
    UnlockedEventsAreSpec(s);
    ReportsAreReplayed(s.order, cmds);
  }

  /** Faithful outcomes, in terms of the file's commands. */
  lemma ReportsAreReplayed(effects: seq<Effect>, cmds: seq<Command>)
    requires Faithful(effects) && forall i :: 0 <= i < |effects| ==> effects[i].job < |cmds|
    requires Pick(cmds, JobsOf(effects)) == CommandsOf(effects)
    ensures forall i :: 0 <= i < |effects| ==>
      effects[i].outcome == Report(Replay(Pick(cmds, JobsOf(effects)[..i])), cmds[JobsOf(effects)[i]])
  {
    forall i | 0 <= i < |effects|
      ensures effects[i].outcome == Report(Replay(Pick(cmds, JobsOf(effects)[..i])), cmds[JobsOf(effects)[i]])
    {
      PickPrefix(effects, cmds, i);
    }
  }

  lemma PickPrefix(effects: seq<Effect>, cmds: seq<Command>, i: nat)
    requires i < |effects| && forall j :: 0 <= j < |effects| ==> effects[j].job < |cmds|
    requires Pick(cmds, JobsOf(effects)) == CommandsOf(effects)
    ensures Pick(cmds, JobsOf(effects)[..i]) == CommandsOf(effects[..i])
    ensures cmds[JobsOf(effects)[i]] == effects[i].cmd
  {
    forall j | 0 <= j <= i ensures cmds[JobsOf(effects)[j]] == effects[j].cmd {
      assert Pick(cmds, JobsOf(effects))[j] == CommandsOf(effects)[j];
    }
    assert forall j :: 0 <= j < i ==> JobsOf(effects)[..i][j] == JobsOf(effects)[j];
  }

  /** With every thread returned no mutex is held, so the list is the replayed store. */
  lemma UnlockedEventsAreSpec(s: State)
    requires Shape(s) && Locks(s) && Rounds(s) && Simulation(s) && s.main.Finished?
    ensures s.events == SpecStore(s.order)
  {
    forall k | 0 <= k < |s.events| ensures s.events[k] == SpecStore(s.order)[k] {
      assert Simulates(SpecStore(s.order)[k], s, k);
      forall t | 0 <= t < |s.threads| ensures s.mutexes[k] != Some(t) {
        assert OwnsItsLocks(s, t);
      }
    }
  }

  /** Hence ids stay unique and reservation ids dense, whatever the schedule. */
  lemma FinishedEventsDense(input: string, n: nat, run: seq<State>, k: nat)
    requires IsRun(input, n, run) && run[|run| - 1].main.Finished?
    requires k < |run[|run| - 1].events| && CountableSeats(run[|run| - 1].events[k])
    ensures Dense(run[|run| - 1].events[k])
  {
    var order := FinishedRunIsSequential(input, n, run);
    var cmds := AllCommands(true, input);
    RequestsNonEmpty(true, input);
    assert forall i :: 0 <= i < |order| ==> RequestInRange(cmds[order[i]]);
    ReplayDense(Pick(cmds, order), k);
  }

  /** At every moment of every run the list holds no two events with one id. */
  lemma IdsAlwaysUnique(input: string, n: nat, run: seq<State>, i: nat)
    requires IsRun(input, n, run) && i < |run|
    ensures UniqueIds(run[i].events)
  {
    RunInv(input, n, run, i);
    var s := run[i];
    ReplayWellFormed(CommandsOf(s.order));
    SimulationSameIds(s);
    assert forall k :: 0 <= k < |s.events| ==> Ids(s.events)[k] == s.events[k].id;
    assert forall k :: 0 <= k < |s.events| ==> Ids(SpecStore(s.order))[k] == SpecStore(s.order)[k].id;
  }

  /** The commands that have taken effect are commands of the file; none is a request without seats. */
  lemma EffectsNonEmpty(input: string, s: State)
    requires Jobs(s) && ReadInOrder(input, s)
    ensures NonEmptyRequests(CommandsOf(s.order))
  {
    var cmds := AllCommands(true, input);
    RequestsNonEmpty(true, input);
    EffectsAreFileCommands(s, cmds);
    assert forall x :: 0 <= x < |s.order| ==> CommandsOf(s.order)[x] == cmds[s.order[x].job];
  }

  /** What is reported first is numbered first, in any history that reports what the atomic commands do. */
  lemma FaithfulNumbers(order: seq<Effect>, x: nat)
    requires Faithful(order) && NonEmptyRequests(CommandsOf(order)) && x < |order|
    requires order[x].cmd.Reserve? && order[x].outcome.Reserved?
    requires var spec := SpecStore(order[..x]);
             var k := Find(spec, order[x].cmd.id);
             k.Some? && CountableSeats(spec[k.value])
    ensures order[x].outcome == Reserved(Granted(CommandsOf(order[..x]), order[x].cmd.id) + 1)
  {
    var before := CommandsOf(order[..x]);
    assert before == CommandsOf(order)[..x];
    assert CommandsOf(order)[x] == order[x].cmd;
    ReservationsNumberedInOrder(before, order[x].cmd.id, order[x].cmd.seats);
  }

  /**
   * Under any schedule, the successful reservations of an event are numbered 1, 2, 3, ... in the order
   * in which they take effect.
   */
  lemma ReservationsNumbered(input: string, n: nat, run: seq<State>, i: nat, x: nat)
    requires IsRun(input, n, run) && i < |run| && x < |run[i].order|
    requires run[i].order[x].cmd.Reserve? && run[i].order[x].outcome.Reserved?
    requires var spec := SpecStore(run[i].order[..x]);
             var k := Find(spec, run[i].order[x].cmd.id);
             k.Some? && CountableSeats(spec[k.value])
    ensures var e := run[i].order[x];
            e.outcome == Reserved(Granted(CommandsOf(run[i].order[..x]), e.cmd.id) + 1)
  {
    RunInv(input, n, run, i);
    EffectsNonEmpty(input, run[i]);
    FaithfulNumbers(run[i].order, x);
  }

  // ----- Real-time order -----

  lemma StepKeepsHistory(s: State, a: Action)
    requires Shape(s) && Enabled(s, a)
    ensures s.order <= Next(s, a).order && s.log <= Next(s, a).log
  {
    if a.ThreadStep? {
      OutputAndOrder(s, a.t, a.garbage);
      if !s.threads[a.t].pc.Fetch? {
        WorkHistory(s, a.t, a.garbage);
      }
    }
  }

  lemma HistoryStep(input: string, n: nat, run: seq<State>, i: nat)
    requires IsRun(input, n, run) && i + 1 < |run|
    ensures run[i].order <= run[i + 1].order && run[i].log <= run[i + 1].log
  {
    var a := StepTaken(input, n, run, i);
    StepKeepsHistory(run[i], a);
  }

  ghost predicate HistoryOnlyGrows(run: seq<State>) {
    forall i :: 0 <= i < |run| - 1 ==> run[i].order <= run[i + 1].order && run[i].log <= run[i + 1].log
  }

  lemma RunHistoryGrows(input: string, n: nat, run: seq<State>)
    requires IsRun(input, n, run)
    ensures HistoryOnlyGrows(run)
  {
    forall i | 0 <= i < |run| - 1
      ensures run[i].order <= run[i + 1].order && run[i].log <= run[i + 1].log
    {
      HistoryStep(input, n, run, i);
    }
  }

  lemma {:induction false} HistoryGrows(run: seq<State>, i: nat, j: nat)
    requires HistoryOnlyGrows(run) && i <= j < |run|
    ensures run[i].order <= run[j].order && run[i].log <= run[j].log
    decreases j
  {
    if i < j {
      HistoryGrows(run, i, j - 1);
      PrefixTransitive(run[i].order, run[j - 1].order, run[j - 1 + 1].order);
      PrefixTransitive(run[i].log, run[j - 1].log, run[j - 1 + 1].log);
    }
  }

  lemma PastEffectsComeFirst(s: State, last: State, x: nat, y: nat)
    requires Jobs(s) && Jobs(last) && s.order <= last.order && s.log <= last.log
    requires x < |last.order| && y < |last.order|
    requires last.order[x].job < |s.log| && !InFlight(s, last.order[x].job)
    requires last.order[y].job >= |s.log|
    ensures x < y
  {
    var early := last.order[x].job;
    assert last.log[early] == s.log[early];
    assert InOrder(s.order, early);
    var i :| 0 <= i < |s.order| && s.order[i].job == early;
    assert last.order[i] == s.order[i];
    assert forall z :: 0 <= z < |s.order| ==> last.order[z] == s.order[z];
  }

  /**
   * Effects respect real time: a command whose thread was already past it when another had not been
   * fetched comes before that other one. Together with FinishedRunIsSequential: linearizability.
   */
  lemma EffectsFollowRealTime(input: string, n: nat, run: seq<State>, now: nat, x: nat, y: nat)
    requires IsRun(input, n, run) && now < |run|
    requires x < |run[|run| - 1].order| && y < |run[|run| - 1].order|
    requires var early := run[|run| - 1].order[x].job;
             early < |run[now].log| && !InFlight(run[now], early)
    requires run[|run| - 1].order[y].job >= |run[now].log|
    ensures x < y
  {
    RunHistoryGrows(input, n, run);
    HistoryGrows(run, now, |run| - 1);
    RunJobs(input, n, run, now);
    RunJobs(input, n, run, |run| - 1);
    PastEffectsComeFirst(run[now], run[|run| - 1], x, y);
  }

  lemma RunJobs(input: string, n: nat, run: seq<State>, i: nat)
    requires IsRun(input, n, run) && i < |run|
    ensures Jobs(run[i])
  {
    RunInv(input, n, run, i);
  }

  // ----- Rounds and barriers -----

  /**
   * When all threads have been joined, either all returned 2 behind a barrier or all returned 0 at the
   * end of the file: the first result speaks for all.
   */
  lemma FirstResultSpeaksForAll(input: string, n: nat, run: seq<State>, i: nat)
    requires IsRun(input, n, run) && i < |run|
    requires run[i].main.Joining? && |run[i].main.results| == n
    ensures |run[i].threads| == n && Shape(run[i])
    ensures var results := run[i].main.results;
            forall t :: 0 <= t < n ==> results[t] == results[0]
    ensures || (run[i].main.results[0] == 2 && run[i].flags[0] == 1)
            || (run[i].main.results[0] == 0 && run[i].flags[0] == 0 && run[i].rest == "")
  {
    RunInv(input, n, run, i);
    var s := run[i];
    forall t | 0 <= t < n ensures ResultFits(s, Done(s.main.results[t])) {
      assert ResultFits(s, s.threads[t].pc);
    }
    assert ResultFits(s, Done(s.main.results[0]));
  }

  /** The commands are handed out in file order, each to one thread once. */
  lemma FetchedInFileOrder(input: string, n: nat, run: seq<State>, i: nat)
    requires IsRun(input, n, run) && i < |run|
    ensures LogCommands(run[i].log) <= AllCommands(true, input)
    ensures run[i].rest == "" ==> LogCommands(run[i].log) == AllCommands(true, input)
    ensures forall j :: 0 <= j < |run[i].log| ==> run[i].log[j].thread < n
  {
    RunInv(input, n, run, i);
  }

  /** While a command behind a BARRIER is fetched, no command from before the BARRIER is being executed. */
  lemma BarrierSafety(input: string, n: nat, run: seq<State>, i: nat, j: nat, t: nat)
    requires IsRun(input, n, run) && i + 1 < |run|
    requires |run[i].log| < |run[i + 1].log|
    requires j < |run[i].log| && t < |run[i + 1].threads|
    requires Busy(run[i + 1].threads[t].pc) && run[i + 1].threads[t].job == j
    ensures var cmds := AllCommands(true, input);
            |run[i].log| < |cmds| && BarriersIn(cmds[..j]) == BarriersIn(cmds[..|run[i].log|])
  {
    var s, s' := run[i], run[i + 1];
    var a := StepTaken(input, n, run, i);
    FetchIsOfTheRound(s, a);
    var cmds := AllCommands(true, input);
    SegmentsOfFile(s'.log, LogCommands(s'.log));
    assert LogCommands(s'.log)[..j] == cmds[..j];
    assert LogCommands(s'.log)[..|s.log|] == cmds[..|s.log|];
  }

  lemma FetchIsOfTheRound(s: State, a: Action)
    requires Shape(s) && Enabled(s, a) && Shape(Next(s, a)) && |s.log| < |Next(s, a).log|
    ensures |Next(s, a).log| == |s.log| + 1 && Segment(Next(s, a).log, |s.log|) == Round(Next(s, a))
  {
    if !s.threads[a.t].pc.Fetch? {
      WorkHistory(s, a.t, a.garbage);
    } else {
      var s1 := s.(flags := s.flags[a.t + 1 := 0]);
      DispatchRound(s1, a.t, NextCommand(true, s.rest).0, NextCommand(true, s.rest).1);
    }
  }

  lemma DispatchRound(s: State, t: nat, cmd: Command, rest: string)
    requires Shape(s) && t < |s.threads| && s.flags[0] == 0 && Shape(Dispatch(s, t, cmd, rest))
    ensures var s' := Dispatch(s, t, cmd, rest);
            |s'.log| == |s.log| + 1 && Segment(s'.log, |s.log|) == Round(s')
  {
    var s' := Dispatch(s, t, cmd, rest);
    assert s'.log[..|s.log|] == s.log == s'.log[..|s'.log| - 1];
  }

  // ----- LIST -----

  lemma WalkWritesItsReport(s: State, t: nat)
    requires Shape(s) && t < |s.threads| && s.threads[t].pc.ListWrite? && WalkFits(s, t) && Faithful(s.order)
    ensures var pc := s.threads[t].pc;
            && pc.base <= |s.output| && pc.at < |s.order| && s.order[pc.at].job == s.threads[t].job
            && ListStep(s, t).output[pc.base..] == ListOutput(Ids(SpecStore(s.order[..pc.at])))
  {
    var pc := s.threads[t].pc;
    assert ListStep(s, t).output[pc.base..] == s.output[pc.base..] + pc.buffer;
  }

  /**
   * A finished LIST has written what an atomic LIST would at the moment its last next pointer was read,
   * whatever was appended meanwhile; that is the whole list exactly when it is shorter than the buffer.
   */
  lemma ListWritesASnapshot(input: string, n: nat, run: seq<State>, i: nat, t: nat)
    requires IsRun(input, n, run) && i < |run| && t < |run[i].threads| && run[i].threads[t].pc.ListWrite?
    ensures var s := run[i];
            var pc := s.threads[t].pc;
            && Shape(s) && pc.base <= |s.output| && pc.at < |s.order|
            && var ids := Ids(SpecStore(s.order[..pc.at]));
               var written := ListStep(s, t).output[pc.base..];
               && s.order[pc.at].job == s.threads[t].job
               && written == ListOutput(ids)
               && (written == ListText(ids) <==> |ListText(ids)| < BUFFER_SIZE)
  {
    RunInv(input, n, run, i);
    WalkWritesItsReport(run[i], t);
    ListingCompleteExactly(Ids(SpecStore(run[i].order[..run[i].threads[t].pc.at])));
  }

  // ----- WAIT -----

  /** The command handed out in this step, if any, is a WAIT for thread number th. */
  predicate HandsOutWait(before: seq<Fetched>, after: seq<Fetched>, th: nat) {
    |before| < |after| && after[|before|].cmd.Wait? && after[|before|].cmd.delay > 0 && after[|before|].cmd.thread == th
  }

  /**
   * The delay of a WAIT for a thread is pending from the step that fetches it until that thread's next fetch, which
   * sleeps it off, or another such WAIT; nothing else touches it.
   */
  lemma WaitPending(s: State, a: Action, th: nat)
    requires Shape(s) && Rounds(s) && Enabled(s, a) && Shape(Next(s, a)) && 1 <= th <= |s.threads|
    ensures var s' := Next(s, a);
            |s'.flags| == |s.flags| &&
            s'.flags[th] ==
              if HandsOutWait(s.log, s'.log, th) then s'.log[|s.log|].cmd.delay
              else if a.ThreadStep? && a.t + 1 == th && s.threads[a.t].pc.Fetch? then 0
              else s.flags[th]
  {
    if a.ThreadStep? {
      if !s.threads[a.t].pc.Fetch? {
        WorkHistory(s, a.t, a.garbage);
      } else {
        FetchFlags(s, a.t, th);
      }
    }
  }

  lemma FetchFlags(s: State, t: nat, th: nat)
    requires Shape(s) && t < |s.threads| && 1 <= th <= |s.threads|
    ensures var s' := FetchStep(s, t);
            |s'.flags| == |s.flags| && s.log <= s'.log &&
            s'.flags[th] == if HandsOutWait(s.log, s'.log, th) then s'.log[|s.log|].cmd.delay
                            else if t + 1 == th then 0 else s.flags[th]
  {
  }
}
