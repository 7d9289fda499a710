/** The history of a run: what was fetched, what has taken effect, and on which side of each barrier. */
module RunnerHistory {
  import opened Commands
  import opened CommandSyntax
  import opened EventStore
  import opened Runner
  import opened RunnerInvariants

  /** The thread is executing a command. */
  predicate Busy(pc: Pc) {
    !pc.Idle? && !pc.Fetch? && !pc.Done?
  }

  /** ... whose effect is still to come. */
  predicate Pending(pc: Pc) {
    pc.CreateCheck? || pc.CreateAlloc? || pc.CreateZero? || InReserve(pc) || (InList(pc) && !pc.ListWrite?)
  }

  /** The commands that take effect at one instant: all that work on the events except SHOW. */
  predicate Tracked(cmd: Command) {
    cmd.Create? || cmd.Reserve? || cmd.ListEvents?
  }

  predicate Executes(events: Store, pc: Pc, cmd: Command) {
    match pc
    case CreateCheck(id, rows, cols) => cmd == Create(id, rows, cols)
    case CreateAlloc(id, rows, cols) => cmd == Create(id, rows, cols)
    case CreateZero(id, rows, cols, _, _) => cmd == Create(id, rows, cols)
    case ReserveFind(id, seats) => cmd == Reserve(id, seats)
    case ReserveLock(k, seats) => k < |events| && cmd == Reserve(events[k].id, seats)
    case ReserveCount(k, seats) => k < |events| && cmd == Reserve(events[k].id, seats)
    case ReserveBounds(k, seats, _, _) => k < |events| && cmd == Reserve(events[k].id, seats)
    case ReserveProbe(k, seats, _, _) => k < |events| && cmd == Reserve(events[k].id, seats)
    case ReserveMark(k, seats, _, _) => k < |events| && cmd == Reserve(events[k].id, seats)
    case ReserveUncount(k, seats, _, _) => k < |events| && cmd == Reserve(events[k].id, seats)
    case ReserveUndo(k, seats, _, _, _) => k < |events| && cmd == Reserve(events[k].id, seats)
    case ReserveUnlock(k, seats, _) => k < |events| && cmd == Reserve(events[k].id, seats)
    case ShowFind(id) => cmd == Show(id)
    case ShowOpen(k) => k < |events| && cmd == Show(events[k].id)
    case ShowCell(k, _, _) => k < |events| && cmd == Show(events[k].id)
    case _ => InList(pc) && cmd == ListEvents
  }

  lemma ExecutesStable(before: Store, after: Store, pc: Pc, cmd: Command)
    requires Grows(before, after) && Executes(before, pc, cmd)
    ensures Executes(after, pc, cmd)
  {
  }

  // ----- What one step does to the history -----

  /** Thread t's step, between fetch and return, keeps its command and lets it take effect at most once. */
  ghost predicate WorkMove(s: State, s': State, t: nat)
    requires t < |s.threads| && |s'.threads| == |s.threads|
  {
    var pc := s.threads[t].pc;
    var pc' := s'.threads[t].pc;
    && s'.log == s.log && s'.rest == s.rest && s'.flags == s.flags && s'.fetchLock == s.fetchLock
    && s'.threads[t].job == s.threads[t].job
    && (Busy(pc') || pc'.Fetch?)
    && (forall cmd :: Busy(pc') && Executes(s.events, pc, cmd) ==> Executes(s'.events, pc', cmd))
    && (|| (s'.order == s.order && Pending(pc') == Pending(pc))
        || (&& Pending(pc) && !Pending(pc') && |s'.order| == |s.order| + 1
            && s'.order[..|s.order|] == s.order
            && s'.order[|s.order|].job == s.threads[t].job
            && Executes(s.events, pc, s'.order[|s.order|].cmd)))
  }

  lemma CreateHistory(s: State, t: nat, garbage: seq<nat>)
    requires Shape(s) && t < |s.threads|
    requires s.threads[t].pc.CreateCheck? || s.threads[t].pc.CreateAlloc? || s.threads[t].pc.CreateZero?
    ensures WorkMove(s, CreateStep(s, t, garbage), t)
  {
  }

  lemma ReserveEntryHistory(s: State, t: nat)
    requires Shape(s) && t < |s.threads|
    requires var pc := s.threads[t].pc; pc.ReserveFind? || pc.ReserveLock? || pc.ReserveCount?
    ensures WorkMove(s, ReserveStep(s, t), t)
  {
  }

  lemma ReserveMarkHistory(s: State, t: nat)
    requires Shape(s) && t < |s.threads|
    requires var pc := s.threads[t].pc; pc.ReserveBounds? || pc.ReserveProbe? || pc.ReserveMark?
    ensures WorkMove(s, ReserveStep(s, t), t)
  {
  }

  lemma ReserveExitHistory(s: State, t: nat)
    requires Shape(s) && t < |s.threads|
    requires var pc := s.threads[t].pc; pc.ReserveUncount? || pc.ReserveUndo? || pc.ReserveUnlock?
    ensures WorkMove(s, ReserveStep(s, t), t)
  {
  }

  lemma ShowEntryHistory(s: State, t: nat)
    requires Shape(s) && t < |s.threads| && (s.threads[t].pc.ShowFind? || s.threads[t].pc.ShowOpen?)
    ensures WorkMove(s, ShowStep(s, t), t)
  {
  }

  lemma ShowCellHistory(s: State, t: nat)
    requires Shape(s) && t < |s.threads| && s.threads[t].pc.ShowCell?
    ensures WorkMove(s, ShowStep(s, t), t)
  {
  }

  lemma ListEntryHistory(s: State, t: nat)
    requires Shape(s) && t < |s.threads|
    requires s.threads[t].pc.ListCheck? || s.threads[t].pc.ListOpen?
    ensures WorkMove(s, ListStep(s, t), t)
  {
  }

  lemma ListHeadHistory(s: State, t: nat)
    requires Shape(s) && t < |s.threads| && s.threads[t].pc.ListHead?
    ensures WorkMove(s, ListStep(s, t), t)
  {
  }

  lemma ListFormatHistory(s: State, t: nat)
    requires Shape(s) && t < |s.threads| && s.threads[t].pc.ListFormat?
    ensures WorkMove(s, ListStep(s, t), t)
  {
  }

  lemma ListExitHistory(s: State, t: nat)
    requires Shape(s) && t < |s.threads| && (s.threads[t].pc.ListNext? || s.threads[t].pc.ListWrite?)
    ensures WorkMove(s, ListStep(s, t), t)
  {
  }

  lemma WorkHistory(s: State, t: nat, garbage: seq<nat>)
    requires Shape(s) && Enabled(s, ThreadStep(t, garbage)) && !s.threads[t].pc.Fetch?
    ensures Frame(s, Next(s, ThreadStep(t, garbage)), t) && WorkMove(s, Next(s, ThreadStep(t, garbage)), t)
  {
    ThreadFrame(s, t, garbage);
    var pc := s.threads[t].pc;
    if pc.CreateCheck? || pc.CreateAlloc? || pc.CreateZero? {
      CreateHistory(s, t, garbage);
    } else if InReserve(pc) {
      if pc.ReserveFind? || pc.ReserveLock? || pc.ReserveCount? {
        ReserveEntryHistory(s, t);
      } else if pc.ReserveBounds? || pc.ReserveProbe? || pc.ReserveMark? {
        ReserveMarkHistory(s, t);
      } else {
        ReserveExitHistory(s, t);
      }
    } else if InList(pc) {
      if pc.ListFormat? {
        ListFormatHistory(s, t);
      } else if pc.ListNext? || pc.ListWrite? {
        ListExitHistory(s, t);
      } else if pc.ListHead? {
        ListHeadHistory(s, t);
      } else {
        ListEntryHistory(s, t);
      }
    } else {
      if pc.ShowCell? {
        ShowCellHistory(s, t);
      } else {
        ShowEntryHistory(s, t);
      }
    }
  }

  // ----- Jobs -----

  predicate InFlight(s: State, j: nat)
    requires j < |s.log|
  {
    var t := s.log[j].thread;
    t < |s.threads| && s.threads[t].job == j && Pending(s.threads[t].pc)
  }

  predicate InOrder(order: seq<Effect>, j: nat) {
    exists i :: 0 <= i < |order| && order[i].job == j
  }

  ghost predicate WorksOnItsJob(s: State, t: nat)
    requires t < |s.threads|
  {
    Busy(s.threads[t].pc) ==>
      && s.threads[t].job < |s.log| && s.log[s.threads[t].job].thread == t
      && Executes(s.events, s.threads[t].pc, s.log[s.threads[t].job].cmd)
  }

  /** Every fetched command has either taken effect once or is still being executed by its thread. */
  ghost predicate Jobs(s: State) {
    && (forall t :: 0 <= t < |s.threads| ==> WorksOnItsJob(s, t))
    && (forall i :: 0 <= i < |s.order| ==>
          s.order[i].job < |s.log| && s.order[i].cmd == s.log[s.order[i].job].cmd && Tracked(s.order[i].cmd))
    && (forall i, j :: 0 <= i < j < |s.order| ==> s.order[i].job != s.order[j].job)
    && (forall j :: 0 <= j < |s.log| ==> s.log[j].thread < |s.threads|)
    && (forall j :: 0 <= j < |s.log| && Tracked(s.log[j].cmd) ==> (InOrder(s.order, j) <==> !InFlight(s, j)))
  }

  lemma WorkersKeepTheirJobs(s: State, s': State, t: nat)
    requires Shape(s) && Jobs(s) && Frame(s, s', t) && WorkMove(s, s', t) && Busy(s.threads[t].pc)
    ensures forall u :: 0 <= u < |s'.threads| ==> WorksOnItsJob(s', u)
  {
    forall u | 0 <= u < |s'.threads| ensures WorksOnItsJob(s', u) {
      assert WorksOnItsJob(s, u);
      if u != t && Busy(s.threads[u].pc) {
        ExecutesStable(s.events, s'.events, s.threads[u].pc, s.log[s.threads[u].job].cmd);
      }
    }
  }

  /** The command executed by a pending program counter is determined. */
  lemma ExecutesUnique(events: Store, pc: Pc, c: Command, d: Command)
    requires Pending(pc) && Executes(events, pc, c) && Executes(events, pc, d)
    ensures c == d && Tracked(c)
  {
  }

  lemma EffectIsOfItsJob(s: State, s': State, t: nat)
    requires Shape(s) && Jobs(s) && Frame(s, s', t) && WorkMove(s, s', t) && s'.order != s.order
    ensures var e := s'.order[|s.order|];
            s'.order == s.order + [e] && e.job == s.threads[t].job && e.job < |s.log| && s.log[e.job].thread == t &&
            InFlight(s, e.job) && e.cmd == s.log[e.job].cmd && Tracked(e.cmd) && !InOrder(s.order, e.job)
  {
    var e := s'.order[|s.order|];
    assert WorksOnItsJob(s, t);
    ExecutesUnique(s.events, s.threads[t].pc, e.cmd, s.log[e.job].cmd);
  }

  lemma WorkKeepsJobs(s: State, s': State, t: nat)
    requires Shape(s) && Jobs(s) && Frame(s, s', t) && WorkMove(s, s', t) && Busy(s.threads[t].pc)
    ensures Jobs(s')
  {
    WorkersKeepTheirJobs(s, s', t);
    if s'.order == s.order {
      forall j | 0 <= j < |s.log| ensures InFlight(s', j) == InFlight(s, j) {
      }
    } else {
      EffectIsOfItsJob(s, s', t);
      assert forall i :: 0 <= i < |s.order| ==> s'.order[i] == s.order[i] && InOrder(s.order, s.order[i].job);
      EffectCompletes(s, s', t);
    }
  }

  lemma EffectCompletes(s: State, s': State, t: nat)
    requires Shape(s) && Jobs(s) && Frame(s, s', t) && WorkMove(s, s', t) && s'.order != s.order
    ensures forall j :: 0 <= j < |s'.log| && Tracked(s'.log[j].cmd) ==> (InOrder(s'.order, j) <==> !InFlight(s', j))
  {
    EffectIsOfItsJob(s, s', t);
    forall j | 0 <= j < |s'.log| && Tracked(s'.log[j].cmd)
      ensures InOrder(s'.order, j) <==> !InFlight(s', j)
    {
      assert s'.order[|s.order|].job == s.threads[t].job;
      if InOrder(s.order, j) {
        var i :| 0 <= i < |s.order| && s.order[i].job == j;
        assert s'.order[i].job == j;
      }
    }
  }

  /** A step that only moves an idle thread about: nobody's job or pending effect changes. */
  lemma SameWorkKeepsJobs(s: State, s': State)
    requires Jobs(s) && s'.log == s.log && s'.order == s.order && s'.events == s.events
    requires |s'.threads| == |s.threads|
    requires forall u :: 0 <= u < |s.threads| ==>
      s'.threads[u] == s.threads[u] || (!Busy(s.threads[u].pc) && !Busy(s'.threads[u].pc))
    ensures Jobs(s')
  {
    forall u | 0 <= u < |s'.threads| ensures WorksOnItsJob(s', u) {
      assert WorksOnItsJob(s, u);
    }
    forall j | 0 <= j < |s.log| ensures InFlight(s', j) == InFlight(s, j) {
    }
  }

  lemma FetchKeepsJobs(s: State, t: nat)
    requires Shape(s) && Jobs(s) && t < |s.threads| && s.threads[t].pc.Fetch? && s.fetchLock.None?
    ensures Jobs(FetchStep(s, t))
  {
    var s1 := s.(flags := s.flags[t + 1 := 0]);
    if s.flags[0] == 0 && s.rest != "" {
      SameWorkKeepsJobs(s, s1);
      DispatchKeepsJobs(s1, t, NextCommand(true, s.rest).0, NextCommand(true, s.rest).1);
    } else {
      SameWorkKeepsJobs(s, FetchStep(s, t));
    }
  }

  lemma DispatchKeepsJobs(s: State, t: nat, cmd: Command, rest: string)
    requires Shape(s) && Jobs(s) && t < |s.threads| && s.threads[t].pc.Fetch?
    ensures Jobs(Dispatch(s, t, cmd, rest))
  {
    var s' := Dispatch(s, t, cmd, rest);
    forall u | 0 <= u < |s'.threads| ensures WorksOnItsJob(s', u) {
      assert WorksOnItsJob(s, u);
    }
    forall j | 0 <= j < |s'.log| && Tracked(s'.log[j].cmd)
      ensures InOrder(s'.order, j) <==> !InFlight(s', j)
    {
      if j < |s.log| {
        assert s'.log[j] == s.log[j];
        assert InFlight(s', j) == InFlight(s, j);
      } else {
        assert InFlight(s', j);
      }
    }
  }

  lemma JobsKept(s: State, a: Action)
    requires Shape(s) && Rounds(s) && Jobs(s) && Enabled(s, a)
    ensures Jobs(Next(s, a))
  {
    if a.ThreadStep? {
      if s.threads[a.t].pc.Fetch? {
        FetchKeepsJobs(s, a.t);
      } else {
        WorkHistory(s, a.t, a.garbage);
        WorkKeepsJobs(s, Next(s, a), a.t);
      }
    } else {
      MainKeepsJobs(s);
    }
  }

  lemma MainKeepsJobs(s: State)
    requires Shape(s) && Rounds(s) && Jobs(s) && MainEnabled(s)
    ensures Jobs(MainMove(s))
  {
    SameWorkKeepsJobs(s, MainMove(s));
  }

  // ----- Barriers -----

  /** Barriers among the commands fetched so far. */
  function Barriers(log: seq<Fetched>): nat {
    if log == [] then 0
    else Barriers(log[..|log| - 1]) + if log[|log| - 1].cmd.Barrier? then 1 else 0
  }

  /** Which stretch between barriers command j belongs to. */
  function Segment(log: seq<Fetched>, j: nat): nat
    requires j <= |log|
  {
    Barriers(log[..j])
  }

  lemma SegmentStable(log: seq<Fetched>, f: Fetched, j: nat)
    requires j <= |log|
    ensures Segment(log + [f], j) == Segment(log, j)
  {
    assert (log + [f])[..j] == log[..j];
  }

  lemma SegmentsStable(log: seq<Fetched>, f: Fetched)
    ensures forall j: nat :: j <= |log| ==> Segment(log + [f], j) == Segment(log, j)
    ensures Segment(log, |log|) == Barriers(log)
    ensures Barriers(log + [f]) == Barriers(log) + if f.cmd.Barrier? then 1 else 0
  {
    forall j: nat | j <= |log| ensures Segment(log + [f], j) == Segment(log, j) {
      SegmentStable(log, f, j);
    }
    assert log[..|log|] == log && (log + [f])[..|log|] == log;
  }

  /** The stretch being executed: a raised flag belongs to the stretch before its barrier. */
  function Round(s: State): int
    requires Shape(s)
  {
    Barriers(s.log) - s.flags[0]
  }

  /** Whatever is being executed is of this round; effects never come before those of an earlier round. */
  ghost predicate BarrierOrder(s: State)
    requires Shape(s) && Jobs(s)
  {
    && (forall t :: 0 <= t < |s.threads| && Busy(s.threads[t].pc) ==>
          WorksOnItsJob(s, t) && Segment(s.log, s.threads[t].job) == Round(s))
    && (forall i :: 0 <= i < |s.order| ==> Segment(s.log, s.order[i].job) <= Round(s))
    && (forall i, j :: 0 <= i < j < |s.order| ==>
          Segment(s.log, s.order[i].job) <= Segment(s.log, s.order[j].job))
  }

  /** The command that takes effect now is of this round, so it may stand last in the order. */
  lemma EffectOfTheRound(s: State, s': State, t: nat)
    requires Shape(s) && Jobs(s) && BarrierOrder(s)
    requires Frame(s, s', t) && WorkMove(s, s', t) && s'.order != s.order
    ensures var e := s'.order[|s.order|];
            s'.order == s.order + [e] && e.job < |s.log| && Segment(s.log, e.job) == Round(s)
  {
    EffectIsOfItsJob(s, s', t);
    assert Busy(s.threads[t].pc);
  }

  lemma WorkKeepsBarrierOrder(s: State, s': State, t: nat)
    requires Shape(s) && Shape(s') && Jobs(s) && Jobs(s') && BarrierOrder(s)
    requires Frame(s, s', t) && WorkMove(s, s', t) && Busy(s.threads[t].pc)
    ensures BarrierOrder(s')
  {
    forall u | 0 <= u < |s'.threads| && Busy(s'.threads[u].pc)
      ensures WorksOnItsJob(s', u) && Segment(s'.log, s'.threads[u].job) == Round(s')
    {
      assert Busy(s.threads[u].pc);
    }
    if s'.order != s.order {
      EffectOfTheRound(s, s', t);
    }
  }

  lemma DispatchKeepsBarrierOrder(s: State, t: nat, cmd: Command, rest: string)
    requires Shape(s) && Jobs(s) && BarrierOrder(s) && s.flags[0] == 0
    requires t < |s.threads| && s.threads[t].pc.Fetch?
    requires Shape(Dispatch(s, t, cmd, rest)) && Jobs(Dispatch(s, t, cmd, rest))
    ensures BarrierOrder(Dispatch(s, t, cmd, rest))
  {
    var s' := Dispatch(s, t, cmd, rest);
    SegmentsStable(s.log, Fetched(cmd, t));
    assert forall u :: 0 <= u < |s'.threads| ==> WorksOnItsJob(s', u);
  }

  lemma SameWorkKeepsBarrierOrder(s: State, s': State)
    requires Shape(s) && Shape(s') && Jobs(s) && Jobs(s') && BarrierOrder(s)
    requires s'.log == s.log && s'.order == s.order && s'.flags[0] == s.flags[0] && |s'.threads| == |s.threads|
    requires forall u :: 0 <= u < |s.threads| ==> s'.threads[u] == s.threads[u] || !Busy(s'.threads[u].pc)
    ensures BarrierOrder(s')
  {
    forall u | 0 <= u < |s'.threads| && Busy(s'.threads[u].pc)
      ensures WorksOnItsJob(s', u) && Segment(s'.log, s'.threads[u].job) == Round(s')
    {
      assert Busy(s.threads[u].pc);
    }
  }

  lemma FetchKeepsBarrierOrder(s: State, t: nat)
    requires Shape(s) && Rounds(s) && Jobs(s) && BarrierOrder(s)
    requires t < |s.threads| && s.threads[t].pc.Fetch? && s.fetchLock.None?
    requires Shape(FetchStep(s, t)) && Jobs(FetchStep(s, t))
    ensures BarrierOrder(FetchStep(s, t))
  {
    var s1 := s.(flags := s.flags[t + 1 := 0]);
    SameWorkKeepsJobs(s, s1);
    SameWorkKeepsBarrierOrder(s, if s.flags[0] == 0 && s.rest != "" then s1 else FetchStep(s, t));
    if s.flags[0] == 0 && s.rest != "" {
      DispatchKeepsBarrierOrder(s1, t, NextCommand(true, s.rest).0, NextCommand(true, s.rest).1);
    }
  }

  lemma BarrierOrderKept(s: State, a: Action)
    requires Shape(s) && Rounds(s) && Jobs(s) && BarrierOrder(s) && Enabled(s, a)
    ensures Shape(Next(s, a)) && Jobs(Next(s, a)) && BarrierOrder(Next(s, a))
  {
    ShapeKept(s, a);
    JobsKept(s, a);
    if a.ThreadStep? {
      if s.threads[a.t].pc.Fetch? {
        FetchKeepsBarrierOrder(s, a.t);
      } else {
        WorkHistory(s, a.t, a.garbage);
        WorkKeepsBarrierOrder(s, Next(s, a), a.t);
      }
    } else {
      var s' := MainMove(s);
      assert forall u :: 0 <= u < |s'.threads| ==> WorksOnItsJob(s', u);
    }
  }
}
