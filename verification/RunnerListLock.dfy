/**
 * The runner with the lock on the event list in its state. A section under that lock is two steps, taking
 * the lock for reading or for writing and then everything up to its release; all other steps are as before.
 */
module RunnerListLock {
  import opened Options
  import opened Streams
  import opened Seating
  import opened EventStore
  import opened Runner
  import opened RunnerInvariants
  import opened RunnerTheorems
  import opened RunnerProgress

  datatype Mode = Unlocked | Shared | Exclusive

  /** How the next step of a thread uses the list lock. */
  function ModeOf(events: Store, pc: Pc): Mode
    requires PcShape(events, pc)
  {
    match pc
    case CreateCheck(_, _, _) => Shared
    case CreateAlloc(_, _, _) => Shared
    case CreateZero(_, _, _, _, _) => Exclusive
    case ReserveFind(_, _) => Exclusive
    case ReserveCount(_, _) => Exclusive
    case ReserveBounds(_, seats, _, i) => if i < |seats| then Shared else Unlocked
    case ReserveProbe(_, _, _, _) => Shared
    case ReserveMark(_, _, _, _) => Exclusive
    case ReserveUndo(_, _, _, i, j) => if j < i then Shared else Unlocked
    case ShowFind(_) => Shared
    case ShowCell(k, p, _) => if p < |events[k].data| then Shared else Unlocked
    case ListCheck => Shared
    case ListHead => Exclusive
    case ListFormat(_, _, _) => Shared
    case ListNext(_, _, _) => Exclusive
    case _ => Unlocked
  }

  function ModeAt(s: State, t: nat): Mode
    requires Shape(s) && t < |s.threads|
  {
    ModeOf(s.events, s.threads[t].pc)
  }

  /** readers and writer: the threads inside the list lock. */
  datatype LockState = LockState(s: State, readers: set<nat>, writer: Option<nat>)
  {
    predicate Inside(t: nat) {
      t in readers || writer == Some(t)
    }
  }

  datatype LockAction = Enter(t: nat) | Run(a: Action)

  /** The lock admits readers together, or one writer alone. */
  predicate Admits(f: LockState, mode: Mode) {
    match mode
    case Unlocked => false
    case Shared => f.writer.None?
    case Exclusive => f.writer.None? && f.readers == {}
  }

  predicate LockEnabled(f: LockState, la: LockAction)
    requires Shape(f.s)
  {
    match la
    case Enter(t) => t < |f.s.threads| && !f.Inside(t) && Admits(f, ModeAt(f.s, t))
    case Run(a) =>
      Enabled(f.s, a) && (a.ThreadStep? && ModeAt(f.s, a.t) != Unlocked ==> f.Inside(a.t))
  }

  /** The lock when the machine moves on to s': a thread leaves with its step. */
  function Leave(f: LockState, a: Action, s': State): LockState {
    match a
    case MainStep => f.(s := s')
    case ThreadStep(t, _) =>
      LockState(s', f.readers - {t}, if f.writer == Some(t) then None else f.writer)
  }

  function Taken(f: LockState, t: nat): LockState
    requires Shape(f.s) && t < |f.s.threads|
  {
    if ModeAt(f.s, t) == Shared then f.(readers := f.readers + {t}) else f.(writer := Some(t))
  }

  function LockNext(f: LockState, la: LockAction): LockState
    requires Shape(f.s) && LockEnabled(f, la)
  {
    match la
    case Enter(t) => Taken(f, t)
    case Run(a) => Leave(f, a, Next(f.s, a))
  }

  /** Whoever is inside is inside for its next step, and a writer is alone. */
  predicate LockKept(f: LockState)
    requires Shape(f.s)
  {
    && (forall t :: t in f.readers ==> t < |f.s.threads| && ModeAt(f.s, t) == Shared)
    && (f.writer.Some? ==>
          f.readers == {} && f.writer.value < |f.s.threads| && ModeAt(f.s, f.writer.value) == Exclusive)
  }

  ghost predicate LockInv(input: string, n: nat, f: LockState) {
    Inv(input, n, f.s) && LockKept(f)
  }

  function LockInit(input: string, n: nat): LockState {
    LockState(Init(input, n), {}, None)
  }

  // ----- What every step keeps -----

  /** The mode of a thread does not change while others move. */
  lemma ModeStable(before: Store, after: Store, pc: Pc)
    requires Grows(before, after) && PcShape(before, pc) && PcShape(after, pc)
    ensures ModeOf(after, pc) == ModeOf(before, pc)
  {
  }

  lemma ThreadKeepsLock(f: LockState, t: nat, garbage: seq<nat>, s': State)
    requires Shape(f.s) && Shape(s') && LockKept(f) && Frame(f.s, s', t)
    ensures LockKept(Leave(f, ThreadStep(t, garbage), s'))
  {
    var f' := Leave(f, ThreadStep(t, garbage), s');
    forall u: nat | f'.Inside(u) ensures u != t && u < |s'.threads| && ModeAt(s', u) == ModeAt(f.s, u) {
      assert f.Inside(u);
      ModeStable(f.s.events, s'.events, f.s.threads[u].pc);
    }
  }

  /** main only touches threads that are not executing anything. */
  lemma MainKeepsLock(f: LockState)
    requires Shape(f.s) && Rounds(f.s) && LockKept(f) && MainEnabled(f.s) && Shape(MainMove(f.s))
    ensures LockKept(Leave(f, MainStep, MainMove(f.s)))
  {
    var s' := MainMove(f.s);
    forall u: nat | f.Inside(u) ensures u < |s'.threads| && s'.threads[u] == f.s.threads[u] {
      assert ModeAt(f.s, u) != Unlocked;
    }
  }

  lemma RunKeepsLock(f: LockState, a: Action)
    requires Shape(f.s) && Rounds(f.s) && LockKept(f) && Enabled(f.s, a) && Shape(Next(f.s, a))
    ensures LockKept(Leave(f, a, Next(f.s, a)))
  {
    if a.MainStep? {
      MainKeepsLock(f);
    } else {
      ThreadFrame(f.s, a.t, a.garbage);
      ThreadKeepsLock(f, a.t, a.garbage, Next(f.s, a));
    }
  }

  lemma EnterKeepsLock(f: LockState, t: nat)
    requires Shape(f.s) && LockKept(f) && LockEnabled(f, Enter(t))
    ensures LockKept(Taken(f, t))
  {
  }

  lemma LockStepInv(input: string, n: nat, f: LockState, la: LockAction)
    requires LockInv(input, n, f) && LockEnabled(f, la)
    ensures LockInv(input, n, LockNext(f, la))
  {
    if la.Run? {
      StepInv(input, n, f.s, la.a);
      RunKeepsLock(f, la.a);
    } else {
      EnterKeepsLock(f, la.t);
    }
  }

  /**
   * The list and the events change only under the exclusive lock, but for a reservation that takes back its count
   * and its marks.
   */
  lemma ChangesExclusive(s: State, a: Action)
    requires Shape(s) && Rounds(s) && Enabled(s, a) && Next(s, a).events != s.events
    ensures a.ThreadStep?
    ensures var pc := s.threads[a.t].pc;
            ModeAt(s, a.t) == Exclusive || pc.ReserveUncount? || (pc.ReserveUndo? && ModeAt(s, a.t) == Shared)
  {
  }

  /** Whoever looks for an event, or at an event's data, does it under the lock. */
  lemma LooksShared(s: State, t: nat)
    requires Shape(s) && t < |s.threads|
    ensures var pc := s.threads[t].pc;
            (pc.CreateCheck? || pc.ReserveFind? || pc.ReserveProbe? || pc.ShowFind? || pc.ListCheck? || pc.ListFormat?
             || (pc.ShowCell? && pc.p < |s.events[pc.k].data|)) ==> ModeAt(s, t) != Unlocked
  {
  }

  // ----- Runs -----

  ghost predicate LockStep(f: LockState, f': LockState) {
    Shape(f.s) && exists la :: LockEnabled(f, la) && f' == LockNext(f, la)
  }

  ghost predicate IsLockRun(input: string, n: nat, run: seq<LockState>) {
    && n > 0 && run != [] && run[0] == LockInit(input, n)
    && forall i :: 0 <= i < |run| - 1 ==> LockStep(run[i], run[i + 1])
  }

  /** Taking the lock is invisible; everything else is a step of the machine without it. */
  lemma LockStepRefines(f: LockState, f': LockState)
    requires LockStep(f, f')
    ensures f'.s == f.s || Step(f.s, f'.s)
  {
    var la :| LockEnabled(f, la) && f' == LockNext(f, la);
    if la.Run? {
      assert Enabled(f.s, la.a) && f'.s == Next(f.s, la.a);
    }
  }

  /** So every run with the lock is a run without it, and all that is proved of those holds of it. */
  lemma {:induction false} LockRunRefines(input: string, n: nat, run: seq<LockState>) returns (plain: seq<State>)
    requires IsLockRun(input, n, run)
    ensures IsRun(input, n, plain) && plain[|plain| - 1] == run[|run| - 1].s
    decreases |run|
  {
    var last := |run| - 1;
    if last == 0 {
      return [Init(input, n)];
    }
    LockRunFront(input, n, run);
    plain := LockRunRefines(input, n, run[..last]);
    assert LockStep(run[last - 1], run[last - 1 + 1]);
    LockStepRefines(run[last - 1], run[last]);
    if run[last].s != run[last - 1].s {
      plain := StepAppended(input, n, plain, run[last].s);
    }
  }

  lemma LockRunFront(input: string, n: nat, run: seq<LockState>)
    requires IsLockRun(input, n, run) && |run| > 1
    ensures IsLockRun(input, n, run[..|run| - 1])
  {
    var front := run[..|run| - 1];
    forall i | 0 <= i < |front| - 1 ensures LockStep(front[i], front[i + 1]) {
      assert LockStep(run[i], run[i + 1]);
    }
  }

  lemma StepAppended(input: string, n: nat, run: seq<State>, s: State) returns (longer: seq<State>)
    requires IsRun(input, n, run) && Step(run[|run| - 1], s)
    ensures IsRun(input, n, longer) && longer[|longer| - 1] == s
  {
    longer := run + [s];
    forall i: nat | i + 1 < |longer| ensures StepAt(longer, i) {
      assert i + 1 < |run| ==> StepAt(run, i);
    }
  }

  /** A run of the machine without the lock, made one of the machine with it: each thread enters, and goes on. */
  ghost predicate Lifts(input: string, n: nat, run: seq<LockState>, s: State) {
    IsLockRun(input, n, run) && run[|run| - 1] == LockState(s, {}, None)
  }

  lemma LockStepAppended(input: string, n: nat, run: seq<LockState>, la: LockAction) returns (longer: seq<LockState>)
    requires IsLockRun(input, n, run) && Shape(run[|run| - 1].s) && LockEnabled(run[|run| - 1], la)
    ensures IsLockRun(input, n, longer) && longer[|longer| - 1] == LockNext(run[|run| - 1], la)
  {
    var f' := LockNext(run[|run| - 1], la);
    assert LockStep(run[|run| - 1], f');
    longer := run + [f'];
    forall i | 0 <= i < |longer| - 1 ensures LockStep(longer[i], longer[i + 1]) {
      assert i < |run| - 1 ==> LockStep(run[i], run[i + 1]);
    }
  }

  lemma LiftStep(input: string, n: nat, run: seq<LockState>, s: State, a: Action) returns (longer: seq<LockState>)
    requires Lifts(input, n, run, s) && Shape(s) && Enabled(s, a)
    ensures Lifts(input, n, longer, Next(s, a))
  {
    longer := run;
    if a.ThreadStep? && ModeAt(s, a.t) != Unlocked {
      longer := LockStepAppended(input, n, longer, Enter(a.t));
    }
    longer := LockStepAppended(input, n, longer, Run(a));
  }

  /** And the lock takes no run away: whatever the machine without it can reach, this one reaches. */
  lemma {:induction false} LockRunLifts(input: string, n: nat, plain: seq<State>) returns (run: seq<LockState>)
    requires IsRun(input, n, plain)
    ensures Lifts(input, n, run, plain[|plain| - 1])
    decreases |plain|
  {
    var last := |plain| - 1;
    if last == 0 {
      return [LockInit(input, n)];
    }
    var front := plain[..last];
    forall i: nat | i + 1 < |front| ensures StepAt(front, i) {
      assert StepAt(plain, i);
    }
    run := LockRunLifts(input, n, front);
    assert StepAt(plain, last - 1);
    var a :| Enabled(plain[last - 1], a) && plain[last] == Next(plain[last - 1], a);
    run := LiftStep(input, n, run, plain[last - 1], a);
  }

  lemma {:induction false} LockRunInv(input: string, n: nat, run: seq<LockState>, i: nat)
    requires IsLockRun(input, n, run) && i < |run|
    ensures LockInv(input, n, run[i])
    decreases i
  {
    if i == 0 {
      InitInv(input, n);
    } else {
      LockRunInv(input, n, run, i - 1);
      assert LockStep(run[i - 1], run[i - 1 + 1]);
      var la :| LockEnabled(run[i - 1], la) && run[i] == LockNext(run[i - 1], la);
      LockStepInv(input, n, run[i - 1], la);
    }
  }

  // ----- The lock order -----

  /**
   * A thread inside the list lock never waits: none of the operations that can block, on the fetch mutex,
   * an event mutex or the output lock, is ever asked for under it.
   */
  lemma InsideNeverWaits(f: LockState, t: nat)
    requires Shape(f.s) && LockKept(f) && f.Inside(t)
    ensures t < |f.s.threads|
    ensures LockEnabled(f, Run(ThreadStep(t, NextBlock(f.s.threads[t].pc))))
  {
    var pc := f.s.threads[t].pc;
    assert ModeAt(f.s, t) != Unlocked;
    OnlyLocksBlock(f.s, t);
  }

  /** Waiting for the list lock means that some thread is inside, and that thread can go on. */
  lemma EnterOrRun(f: LockState, t: nat) returns (la: LockAction)
    requires Shape(f.s) && LockKept(f) && t < |f.s.threads| && ModeAt(f.s, t) != Unlocked
    ensures LockEnabled(f, la)
  {
    la := Enter(t);
    if !LockEnabled(f, la) {
      var u: nat := t;
      if !f.Inside(t) {
        if f.writer.Some? {
          u := f.writer.value;
        } else {
          u :| u in f.readers;
        }
      }
      InsideNeverWaits(f, u);
      la := Run(ThreadStep(u, NextBlock(f.s.threads[u].pc)));
    }
  }

  /** Deadlock freedom with all locks in the state. */
  lemma LockNeverStuck(input: string, n: nat, f: LockState) returns (la: LockAction)
    requires LockInv(input, n, f) && Clean(input, n) && !f.s.main.Finished?
    ensures LockEnabled(f, la)
  {
    var a := NeverStuck(input, n, f.s);
    if a.ThreadStep? && ModeAt(f.s, a.t) != Unlocked {
      la := EnterOrRun(f, a.t);
    } else {
      la := Run(a);
    }
  }

  predicate LockFinished(run: seq<LockState>) {
    run != [] && run[|run| - 1].s.main.Finished?
  }

  /** With the list lock in the state, too, the files that can be processed to the end are the clean ones. */
  lemma LockedFinishesExactlyWhenClean(input: string, n: nat)
    requires n > 0
    ensures (exists run: seq<LockState> :: IsLockRun(input, n, run) && LockFinished(run)) <==> Clean(input, n)
  {
    FinishesExactlyWhenClean(input, n);
    if Clean(input, n) {
      var plain: seq<State> :| FinishedRun(input, n, plain);
      var run := LockRunLifts(input, n, plain);
      assert IsLockRun(input, n, run) && LockFinished(run);
    }
    forall run: seq<LockState> | IsLockRun(input, n, run) && LockFinished(run) ensures Clean(input, n) {
      var plain := LockRunRefines(input, n, run);
      assert FinishedRun(input, n, plain);
    }
  }

  // ----- Termination -----

  /** How many threads are inside. */
  function InsideCount(f: LockState): nat {
    |f.readers| + if f.writer.Some? then 1 else 0
  }

  lemma {:induction false} ThreadsInside(threads: set<nat>, n: nat)
    requires forall t :: t in threads ==> t < n
    ensures |threads| <= n
    decreases n
  {
    CellsUpTo(n, threads);
  }

  lemma RoomInside(f: LockState)
    requires Shape(f.s) && LockKept(f)
    ensures InsideCount(f) <= |f.s.threads|
  {
    ThreadsInside(f.readers, |f.s.threads|);
  }

  ghost predicate LockFalls(f: LockState, f': LockState)
    requires Shape(f.s) && Shape(f'.s)
  {
    Falls(f.s, f'.s) || (f'.s == f.s && InsideCount(f) < InsideCount(f') <= |f.s.threads|)
  }

  lemma EnterFalls(f: LockState, t: nat)
    requires Shape(f.s) && LockKept(f) && LockEnabled(f, Enter(t))
    ensures LockFalls(f, Taken(f, t))
  {
    EnterKeepsLock(f, t);
    RoomInside(Taken(f, t));
  }

  lemma RunFalls(f: LockState, a: Action)
    requires Shape(f.s) && Rounds(f.s) && Enabled(f.s, a)
    ensures Shape(Next(f.s, a)) && LockFalls(f, Leave(f, a, Next(f.s, a)))
  {
    EveryStepFalls(f.s, a);
  }

  /** Every step makes the machine's measure fall, or leaves the machine alone and one thread fewer outside. */
  lemma EveryLockStepFalls(f: LockState, la: LockAction)
    requires Shape(f.s) && Rounds(f.s) && LockKept(f) && LockEnabled(f, la)
    ensures Shape(LockNext(f, la).s) && LockFalls(f, LockNext(f, la))
  {
    if la.Run? {
      RunFalls(f, la.a);
    } else {
      EnterFalls(f, la.t);
    }
  }

  ghost predicate IsInfiniteLockRun(input: string, n: nat, states: nat -> LockState) {
    n > 0 && states(0) == LockInit(input, n) && forall i: nat :: LockStep(states(i), states(i + 1))
  }

  lemma NextLockState(input: string, n: nat, f: LockState, f': LockState)
    requires LockInv(input, n, f) && LockStep(f, f')
    ensures LockInv(input, n, f') && Shape(f.s) && Shape(f'.s) && LockFalls(f, f')
  {
    var la :| LockEnabled(f, la) && f' == LockNext(f, la);
    LockStepInv(input, n, f, la);
    EveryLockStepFalls(f, la);
  }

  lemma LockInvNext(holds: LockState -> bool, next: (LockState, LockState) -> bool, input: string, n: nat,
                    f: LockState, f': LockState)
    requires forall x {:trigger holds(x)} :: holds(x) <==> LockInv(input, n, x)
    requires forall x, y {:trigger next(x, y)} :: next(x, y) <==> LockStep(x, y)
    ensures Kept(holds, next, f, f')
  {
    if holds(f) && next(f, f') {
      NextLockState(input, n, f, f');
    }
  }

  lemma LockStreamInv(input: string, n: nat, states: nat -> LockState, i: nat)
    requires IsInfiniteLockRun(input, n, states)
    ensures LockInv(input, n, states(i))
  {
    var holds: LockState -> bool := f => LockInv(input, n, f);
    var next: (LockState, LockState) -> bool := (f, f') => LockStep(f, f');
    InitInv(input, n);
    forall f, f' ensures Kept(holds, next, f, f') {
      LockInvNext(holds, next, input, n, f, f');
    }
    assert forall j: nat {:trigger StepsOn(next, states, j)} :: StepsOn(next, states, j);
    HoldsInStream(holds, next, states, i);
  }

  /** The machine's rank, and how many threads are outside the list lock. */
  function LockRank(f: LockState): Rank {
    RankOf(f.s).(d := if InsideCount(f) <= |f.s.threads| then |f.s.threads| - InsideCount(f) else 0)
  }

  lemma LockStreamFalls(input: string, n: nat, states: nat -> LockState, i: nat)
    requires IsInfiniteLockRun(input, n, states)
    ensures Below(LockRank(states(i + 1)), LockRank(states(i)))
  {
    LockStreamInv(input, n, states, i);
    NextLockState(input, n, states(i), states(i + 1));
  }

  /** No schedule goes on for ever, entering the list lock included. */
  lemma NoInfiniteLockRun(input: string, n: nat, states: nat -> LockState)
    ensures !IsInfiniteLockRun(input, n, states)
  {
    if IsInfiniteLockRun(input, n, states) {
      var rank: nat -> Rank := (i: nat) => LockRank(states(i));
      forall i: nat ensures Drops(rank, i) {
        LockStreamFalls(input, n, states, i);
      }
      NoEndlessDescent(rank, 0);
    }
  }
}
