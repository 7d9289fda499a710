/** What every step of the runner keeps: shapes, lock ownership, and the round protocol. */
module RunnerInvariants {
  import opened Decimal
  import opened Options
  import opened Seating
  import opened Commands
  import opened CommandSyntax
  import opened EventStore
  import opened GridBuffer
  import opened Runner

  // ----- What a step leaves alone -----

  /** Events are only appended, and never change id or size. */
  ghost predicate Grows(before: Store, after: Store) {
    |before| <= |after| &&
    forall k :: 0 <= k < |before| ==>
      after[k].id == before[k].id && after[k].rows == before[k].rows && after[k].cols == before[k].cols
      && |after[k].data| == |before[k].data|
  }

  predicate HoldsEvent(pc: Pc, k: nat) {
    match pc
    case ReserveCount(k', _) => k' == k
    case ReserveBounds(k', _, _, _) => k' == k
    case ReserveProbe(k', _, _, _) => k' == k
    case ReserveMark(k', _, _, _) => k' == k
    case ReserveUncount(k', _, _, _) => k' == k
    case ReserveUndo(k', _, _, _, _) => k' == k
    case ReserveUnlock(k', _, _) => k' == k
    case _ => false
  }

  predicate HoldsOutput(pc: Pc) {
    pc.ShowCell? || pc.ListHead? || pc.ListFormat? || pc.ListNext? || pc.ListWrite?
  }

  /** Thread t holds exactly the locks its program counter says. */
  ghost predicate OwnsItsLocks(s: State, t: nat)
    requires t < |s.threads|
  {
    && (HoldsOutput(s.threads[t].pc) <==> s.outputLock == Some(t))
    && (forall k :: 0 <= k < |s.mutexes| ==> (HoldsEvent(s.threads[t].pc, k) <==> s.mutexes[k] == Some(t)))
  }

  /** A lock either stays as it was, or goes between free and thread t. */
  predicate LockMove(before: Option<nat>, after: Option<nat>, t: nat) {
    after == before || (before == None && after == Some(t)) || (before == Some(t) && after == None)
  }

  function MutexOf(s: State, k: nat): Option<nat> {
    if k < |s.mutexes| then s.mutexes[k] else None
  }

  ghost predicate LockMoves(s: State, s': State, t: nat) {
    && LockMove(s.outputLock, s'.outputLock, t)
    && (forall k :: 0 <= k < |s'.mutexes| ==> LockMove(MutexOf(s, k), s'.mutexes[k], t))
  }

  /** A thread's step changes only that thread, and locks only on its own behalf. */
  ghost predicate Frame(s: State, s': State, t: nat) {
    && t < |s.threads| && |s'.threads| == |s.threads|
    && s'.threads == s.threads[t := s'.threads[t]]
    && s'.main == s.main && |s'.flags| == |s.flags|
    && Grows(s.events, s'.events)
    && |s'.mutexes| == |s'.events|
    && (forall k :: 0 <= k < |s'.events| ==> WellFormed(s'.events[k]))
    && PcShape(s'.events, s'.threads[t].pc)
    && !s'.threads[t].pc.Idle?
    && (OwnsItsLocks(s, t) ==> OwnsItsLocks(s', t) && LockMoves(s, s', t))
    && (s'.fetchLock == s.fetchLock || (s'.fetchLock == Some(t) && s'.threads[t].pc.Fetch?))
  }

  lemma DispatchFrame(s: State, t: nat, cmd: Command, rest: string)
    requires Shape(s) && t < |s.threads| && s.threads[t].pc.Fetch? && s.fetchLock.None?
    ensures Frame(s, Dispatch(s, t, cmd, rest), t)
  {
  }

  lemma FetchFrame(s: State, t: nat)
    requires Shape(s) && t < |s.threads| && s.threads[t].pc.Fetch? && s.fetchLock.None?
    ensures Frame(s, FetchStep(s, t), t)
  {
    var s1 := s.(flags := s.flags[t + 1 := 0]);
    if s.flags[0] == 0 && s.rest != "" {
      var (cmd, rest) := NextCommand(true, s.rest);
      DispatchFrame(s1, t, cmd, rest);
    }
  }

  lemma CreateZeroFrame(s: State, t: nat)
    requires Shape(s) && t < |s.threads| && s.threads[t].pc.CreateZero?
    ensures Frame(s, CreateStep(s, t, []), t)
  {
  }

  lemma CreateFrame(s: State, t: nat, garbage: seq<nat>)
    requires Shape(s) && t < |s.threads| && (s.threads[t].pc.CreateCheck? || s.threads[t].pc.CreateAlloc?)
    requires Enabled(s, ThreadStep(t, garbage))
    ensures Frame(s, CreateStep(s, t, garbage), t)
  {
  }

  lemma ReserveFindFrame(s: State, t: nat)
    requires Shape(s) && t < |s.threads| && s.threads[t].pc.ReserveFind?
    ensures Frame(s, ReserveStep(s, t), t)
  {
  }

  lemma ReserveLockFrame(s: State, t: nat)
    requires Shape(s) && t < |s.threads| && s.threads[t].pc.ReserveLock? && s.mutexes[s.threads[t].pc.k].None?
    ensures Frame(s, ReserveStep(s, t), t)
  {
  }

  lemma ReserveCountFrame(s: State, t: nat)
    requires Shape(s) && t < |s.threads| && s.threads[t].pc.ReserveCount?
    ensures Frame(s, ReserveStep(s, t), t)
  {
  }

  lemma ReserveBoundsFrame(s: State, t: nat)
    requires Shape(s) && t < |s.threads| && s.threads[t].pc.ReserveBounds?
    ensures Frame(s, ReserveStep(s, t), t)
  {
    var pc := s.threads[t].pc;
    if pc.i < |pc.seats| {
      assert pc.seats[..pc.i + 1] == pc.seats[..pc.i] + [pc.seats[pc.i]];
    }
  }

  lemma ReserveProbeFrame(s: State, t: nat)
    requires Shape(s) && t < |s.threads| && s.threads[t].pc.ReserveProbe?
    ensures Frame(s, ReserveStep(s, t), t)
  {
    var pc := s.threads[t].pc;
    assert forall m :: 0 <= m < pc.i ==> pc.seats[..pc.i][m] == pc.seats[..pc.i + 1][m];
  }

  lemma ReserveMarkFrame(s: State, t: nat)
    requires Shape(s) && t < |s.threads| && s.threads[t].pc.ReserveMark?
    ensures Frame(s, ReserveStep(s, t), t)
  {
  }

  lemma ReserveUndoFrame(s: State, t: nat)
    requires Shape(s) && t < |s.threads| && (s.threads[t].pc.ReserveUncount? || s.threads[t].pc.ReserveUndo?)
    ensures Frame(s, ReserveStep(s, t), t)
  {
  }

  lemma ReserveUnlockFrame(s: State, t: nat)
    requires Shape(s) && t < |s.threads| && s.threads[t].pc.ReserveUnlock?
    ensures Frame(s, ReserveStep(s, t), t)
  {
  }

  lemma ShowEntryFrame(s: State, t: nat)
    requires Shape(s) && t < |s.threads| && (s.threads[t].pc.ShowFind? || s.threads[t].pc.ShowOpen?)
    requires Enabled(s, ThreadStep(t, []))
    ensures Frame(s, ShowStep(s, t), t)
  {
  }

  lemma ShowCellFrame(s: State, t: nat)
    requires Shape(s) && t < |s.threads| && s.threads[t].pc.ShowCell?
    ensures Frame(s, ShowStep(s, t), t)
  {
    var pc := s.threads[t].pc;
    var e := s.events[pc.k];
    if pc.p == |e.data| {
      ShowEndFrame(s, t, s.output + pc.buffer);
    } else {
      match PutCell(pc.buffer, e.cols, Capacity(e), Dec(e.data[pc.p]), pc.p)
      case None => ShowEndFrame(s, t, s.output);
      case Some(longer) => ShowOnFrame(s, t, longer);
    }
  }

  lemma ShowEndFrame(s: State, t: nat, output: string)
    requires Shape(s) && t < |s.threads| && s.threads[t].pc.ShowCell?
    ensures Frame(s, s.(output := output, outputLock := None).Goto(t, Fetch), t)
  {
  }

  lemma ShowOnFrame(s: State, t: nat, longer: string)
    requires Shape(s) && t < |s.threads| && s.threads[t].pc.ShowCell?
    requires s.threads[t].pc.p < |s.events[s.threads[t].pc.k].data|
    ensures var pc := s.threads[t].pc; Frame(s, s.Goto(t, ShowCell(pc.k, pc.p + 1, longer)), t)
  {
  }

  lemma ListEntryFrame(s: State, t: nat)
    requires Shape(s) && t < |s.threads|
    requires s.threads[t].pc.ListCheck? || s.threads[t].pc.ListOpen? || s.threads[t].pc.ListHead?
    requires Enabled(s, ThreadStep(t, []))
    ensures Frame(s, ListStep(s, t), t)
  {
  }

  lemma ListWalkFrame(s: State, t: nat)
    requires Shape(s) && t < |s.threads|
    requires s.threads[t].pc.ListFormat? || s.threads[t].pc.ListNext? || s.threads[t].pc.ListWrite?
    ensures Frame(s, ListStep(s, t), t)
  {
  }

  lemma ThreadFrame(s: State, t: nat, garbage: seq<nat>)
    requires Shape(s) && Enabled(s, ThreadStep(t, garbage))
    ensures Frame(s, Next(s, ThreadStep(t, garbage)), t)
  {
    var pc := s.threads[t].pc;
    if pc.Fetch? {
      FetchFrame(s, t);
    } else if pc.CreateZero? {
      CreateZeroFrame(s, t);
    } else if pc.CreateCheck? || pc.CreateAlloc? {
      CreateFrame(s, t, garbage);
    } else if InReserve(pc) {
      if pc.ReserveFind? {
        ReserveFindFrame(s, t);
      } else if pc.ReserveLock? {
        ReserveLockFrame(s, t);
      } else if pc.ReserveCount? {
        ReserveCountFrame(s, t);
      } else if pc.ReserveBounds? {
        ReserveBoundsFrame(s, t);
      } else if pc.ReserveProbe? {
        ReserveProbeFrame(s, t);
      } else if pc.ReserveMark? {
        ReserveMarkFrame(s, t);
      } else if pc.ReserveUnlock? {
        ReserveUnlockFrame(s, t);
      } else {
        ReserveUndoFrame(s, t);
      }
    } else if InList(pc) {
      if pc.ListCheck? || pc.ListOpen? || pc.ListHead? {
        ListEntryFrame(s, t);
      } else {
        ListWalkFrame(s, t);
      }
    } else {
      if pc.ShowCell? {
        ShowCellFrame(s, t);
      } else {
        ShowEntryFrame(s, t);
      }
    }
  }

  // ----- Shape -----

  lemma PcShapeStable(before: Store, after: Store, pc: Pc)
    requires Grows(before, after) && PcShape(before, pc)
    ensures PcShape(after, pc)
  {
  }

  lemma ShapeKept(s: State, a: Action)
    requires Shape(s) && Enabled(s, a)
    ensures Shape(Next(s, a))
  {
    if a.ThreadStep? {
      ThreadFrame(s, a.t, a.garbage);
      forall u | 0 <= u < |s.threads| && u != a.t
        ensures PcShape(Next(s, a).events, s.threads[u].pc)
      {
        PcShapeStable(s.events, Next(s, a).events, s.threads[u].pc);
      }
    }
  }

  // ----- Locks -----

  /** Each lock is held by exactly the thread whose program counter says so. */
  ghost predicate Locks(s: State) {
    && |s.mutexes| == |s.events|
    && (s.fetchLock.Some? ==> s.fetchLock.value < |s.threads| && s.threads[s.fetchLock.value].pc.Fetch?)
    && (s.outputLock.Some? ==> s.outputLock.value < |s.threads|)
    && (forall k :: 0 <= k < |s.mutexes| && s.mutexes[k].Some? ==> s.mutexes[k].value < |s.threads|)
    && (forall t :: 0 <= t < |s.threads| ==> OwnsItsLocks(s, t))
  }

  lemma LocksKept(s: State, a: Action)
    requires Shape(s) && Locks(s) && Rounds(s) && Enabled(s, a)
    ensures Locks(Next(s, a))
  {
    if a.ThreadStep? {
      ThreadFrame(s, a.t, a.garbage);
      FrameKeepsLocks(s, Next(s, a), a.t);
    } else {
      MainKeepsLocks(s);
    }
  }

  lemma FrameKeepsLocks(s: State, s': State, t: nat)
    requires Shape(s) && Locks(s) && Frame(s, s', t)
    requires s.fetchLock == Some(t) ==> s'.threads[t].pc.Fetch?
    ensures Locks(s')
  {
    assert OwnsItsLocks(s, t);
    forall u | 0 <= u < |s.threads| ensures OwnsItsLocks(s', u) {
      assert OwnsItsLocks(s, u);
      if u != t {
        OthersKeepLocks(s, s', t, u);
      }
    }
  }

  lemma MainKeepsLocks(s: State)
    requires Shape(s) && Locks(s) && Rounds(s) && MainEnabled(s)
    ensures Locks(MainMove(s))
  {
    var s' := MainMove(s);
    forall u | 0 <= u < |s'.threads| ensures OwnsItsLocks(s', u) {
      assert OwnsItsLocks(s, u);
    }
  }

  lemma OthersKeepLocks(s: State, s': State, t: nat, u: nat)
    requires Frame(s, s', t) && Shape(s) && u < |s.threads| && u != t
    requires OwnsItsLocks(s, u) && OwnsItsLocks(s, t)
    ensures OwnsItsLocks(s', u)
  {
    forall k | 0 <= k < |s'.mutexes| ensures HoldsEvent(s'.threads[u].pc, k) <==> s'.mutexes[k] == Some(u) {
      assert LockMove(MutexOf(s, k), s'.mutexes[k], t);
    }
  }

  // ----- Rounds -----

  /** A thread has returned 2 only behind a barrier and 0 only at the end of the file. */
  ghost predicate ResultFits(s: State, pc: Pc)
    requires Shape(s)
  {
    pc.Done? ==> (pc.result == 0 && s.flags[0] == 0 && s.rest == "") || (pc.result == 2 && s.flags[0] == 1)
  }

  /** The protocol between main and the threads. */
  ghost predicate Rounds(s: State) {
    && Shape(s)
    && s.flags[0] <= 1
    && (forall t :: 0 <= t < |s.threads| ==> ResultFits(s, s.threads[t].pc))
    && match s.main
       case Starting(i) =>
         forall t :: 0 <= t < |s.threads| ==> (s.threads[t].pc.Idle? <==> i <= t)
       case Joining(results) =>
         && (forall t :: 0 <= t < |s.threads| ==> !s.threads[t].pc.Idle?)
         && forall t :: 0 <= t < |results| ==> s.threads[t].pc == Done(results[t])
       case Finished =>
         forall t :: 0 <= t < |s.threads| ==> s.threads[t].pc == Done(0)
  }

  lemma RoundsKept(s: State, a: Action)
    requires Shape(s) && Rounds(s) && Enabled(s, a)
    ensures Rounds(Next(s, a))
  {
    ShapeKept(s, a);
    if a.ThreadStep? {
      ThreadFrame(s, a.t, a.garbage);
      FlagsAndResults(s, a.t, a.garbage);
    }
  }

  /** A step between fetch and return touches neither flags nor file, and does not return. */
  ghost predicate LeavesRound(s: State, s': State, t: nat) {
    && s'.flags == s.flags && s'.rest == s.rest && t < |s'.threads| && !s'.threads[t].pc.Done?
  }

  lemma CreateLeavesRound(s: State, t: nat, garbage: seq<nat>)
    requires Shape(s) && t < |s.threads|
    requires s.threads[t].pc.CreateCheck? || s.threads[t].pc.CreateAlloc? || s.threads[t].pc.CreateZero?
    ensures LeavesRound(s, CreateStep(s, t, garbage), t)
  {
  }

  lemma ReserveLeavesRound(s: State, t: nat)
    requires Shape(s) && t < |s.threads| && InReserve(s.threads[t].pc)
    ensures LeavesRound(s, ReserveStep(s, t), t)
  {
  }

  lemma ShowLeavesRound(s: State, t: nat)
    requires Shape(s) && t < |s.threads|
    requires s.threads[t].pc.ShowFind? || s.threads[t].pc.ShowOpen? || s.threads[t].pc.ShowCell?
    ensures LeavesRound(s, ShowStep(s, t), t)
  {
  }

  lemma ListLeavesRound(s: State, t: nat)
    requires Shape(s) && t < |s.threads| && InList(s.threads[t].pc)
    ensures LeavesRound(s, ListStep(s, t), t)
  {
  }

  lemma WorkLeavesRound(s: State, t: nat, garbage: seq<nat>)
    requires Shape(s) && Enabled(s, ThreadStep(t, garbage)) && !s.threads[t].pc.Fetch?
    ensures LeavesRound(s, Next(s, ThreadStep(t, garbage)), t)
  {
    var pc := s.threads[t].pc;
    if pc.CreateCheck? || pc.CreateAlloc? || pc.CreateZero? {
      CreateLeavesRound(s, t, garbage);
    } else if InReserve(pc) {
      ReserveLeavesRound(s, t);
    } else if InList(pc) {
      ListLeavesRound(s, t);
    } else {
      ShowLeavesRound(s, t);
    }
  }

  lemma FetchRound(s: State, t: nat)
    requires Shape(s) && Rounds(s) && t < |s.threads| && Shape(FetchStep(s, t))
    ensures var s' := FetchStep(s, t);
            && s.flags[0] <= s'.flags[0] <= 1
            && (s.rest == "" ==> s'.rest == "" && s'.flags[0] == s.flags[0])
            && ResultFits(s', s'.threads[t].pc)
  {
  }

  /** The barrier flag and the end of file are only reached, never left, by a thread's step. */
  lemma FlagsAndResults(s: State, t: nat, garbage: seq<nat>)
    requires Shape(s) && Rounds(s) && Enabled(s, ThreadStep(t, garbage)) && Shape(Next(s, ThreadStep(t, garbage)))
    requires |Next(s, ThreadStep(t, garbage)).threads| == |s.threads|
    ensures var s' := Next(s, ThreadStep(t, garbage));
            && s.flags[0] <= s'.flags[0] <= 1
            && (s.rest == "" ==> s'.rest == "" && s'.flags[0] == s.flags[0])
            && ResultFits(s', s'.threads[t].pc)
  {
    if s.threads[t].pc.Fetch? {
      FetchRound(s, t);
    } else {
      WorkLeavesRound(s, t, garbage);
    }
  }
}
