/**
 * Every step of the runner refines the one-command-at-a-time store: the store obtained by replaying
 * the commands that have taken effect is the current event list, except for events whose mutex is held,
 * which are at a known point of that thread's reservation.
 */
module RunnerRefinement {
  import opened Options
  import opened Seating
  import opened ReserveSteps
  import opened Commands
  import opened CommandSyntax
  import opened Listing
  import opened EventStore
  import opened Runner
  import opened RunnerInvariants
  import opened RunnerHistory

  function CommandsOf(order: seq<Effect>): (cmds: seq<Command>)
    ensures |cmds| == |order|
  {
    seq(|order|, i requires 0 <= i < |order| => order[i].cmd)
  }

  ghost function SpecStore(order: seq<Effect>): Store {
    Replay(CommandsOf(order))
  }

  lemma SpecStoreExtend(order: seq<Effect>, e: Effect)
    ensures SpecStore(order + [e]) == Apply(SpecStore(order), e.cmd)
  {
    assert CommandsOf(order + [e])[..|order|] == CommandsOf(order);
  }

  /** Every outcome a thread reported is the one the atomic command reports at its place in the order. */
  ghost predicate Faithful(order: seq<Effect>) {
    forall i :: 0 <= i < |order| ==> order[i].outcome == Report(SpecStore(order[..i]), order[i].cmd)
  }

  lemma FaithfulExtend(order: seq<Effect>, e: Effect)
    requires Faithful(order) && e.outcome == Report(SpecStore(order), e.cmd)
    ensures Faithful(order + [e])
  {
    forall i | 0 <= i <= |order|
      ensures (order + [e])[i].outcome == Report(SpecStore((order + [e])[..i]), (order + [e])[i].cmd)
    {
      assert (order + [e])[..i] == order[..i];
      assert order[..|order|] == order;
    }
  }

  // ----- The simulation -----

  /** How far the reservation at pc has got with the event that was base when it locked it. */
  ghost predicate Progress(base: EventValue, cur: EventValue, pc: Pc) {
    match pc
    case ReserveCount(_, _) => cur == base
    case ReserveBounds(_, seats, rid, i) => Partway(base, cur, seats, rid, i)
    case ReserveProbe(_, seats, rid, i) => Partway(base, cur, seats, rid, i)
    case ReserveMark(_, seats, rid, i) =>
      Partway(base, cur, seats, rid, i) && i < |seats| && CellFree(cur, seats[i])
    case ReserveUncount(_, seats, rid, i) =>
      Partway(base, cur, seats, rid, i) && !StrictAccepts(base, seats)
    case ReserveUndo(_, seats, rid, i, j) =>
      Undoing(base, cur, seats, rid, i, j) && !StrictAccepts(base, seats)
    case ReserveUnlock(_, seats, outcome) =>
      cur == Strict(base, seats) &&
      outcome == if StrictAccepts(base, seats) then Reserved(NextId(base)) else Failed
    case _ => false
  }

  ghost predicate Simulates(base: EventValue, s: State, k: nat)
    requires Shape(s) && k < |s.events|
  {
    && WellFormed(base)
    && base.id == s.events[k].id && base.rows == s.events[k].rows && base.cols == s.events[k].cols
    && match s.mutexes[k]
       case None => s.events[k] == base
       case Some(t) => t < |s.threads| && Progress(base, s.events[k], s.threads[t].pc)
  }

  ghost predicate Simulation(s: State)
    requires Shape(s)
  {
    && |SpecStore(s.order)| == |s.events|
    && forall k :: 0 <= k < |s.events| ==> Simulates(SpecStore(s.order)[k], s, k)
  }

  /** A block being cleared is clear so far. */
  predicate Cleared(pc: Pc) {
    pc.CreateZero? ==> pc.i <= |pc.block| && forall x :: 0 <= x < pc.i ==> pc.block[x] == 0
  }

  ghost predicate Blocks(s: State) {
    forall t :: 0 <= t < |s.threads| ==> Cleared(s.threads[t].pc)
  }

  lemma SameIdsSameFind(a: Store, b: Store, id: nat)
    requires Ids(a) == Ids(b)
    ensures Find(a, id) == Find(b, id)
  {
    assert forall k :: 0 <= k < |a| ==> a[k].id == Ids(a)[k] == Ids(b)[k] == b[k].id;
  }

  lemma SimulationSameIds(s: State)
    requires Shape(s) && Simulation(s)
    ensures Ids(SpecStore(s.order)) == Ids(s.events)
  {
    var spec := SpecStore(s.order);
    forall k | 0 <= k < |spec| ensures Ids(spec)[k] == Ids(s.events)[k] {
      assert Simulates(spec[k], s, k);
    }
  }

  /** Steps that touch no event, mutex or effect. */
  lemma QuietStep(s: State, s': State, t: nat)
    requires Shape(s) && Shape(s') && Locks(s) && Simulation(s) && t < |s.threads|
    requires s'.events == s.events && s'.mutexes == s.mutexes && s'.order == s.order
    requires |s'.threads| == |s.threads| && s'.threads == s.threads[t := s'.threads[t]]
    requires forall k :: 0 <= k < |s.events| ==> !HoldsEvent(s.threads[t].pc, k)
    ensures Simulation(s')
  {
    assert OwnsItsLocks(s, t);
    forall k | 0 <= k < |s'.events| ensures Simulates(SpecStore(s'.order)[k], s', k) {
      assert Simulates(SpecStore(s.order)[k], s, k);
    }
  }

  /** Steps whose command takes effect without changing the store. */
  lemma IdleEffect(s: State, s': State, t: nat, e: Effect)
    requires Shape(s) && Shape(s') && Locks(s) && Simulation(s) && Faithful(s.order) && t < |s.threads|
    requires s'.events == s.events && s'.mutexes == s.mutexes && s'.order == s.order + [e]
    requires |s'.threads| == |s.threads| && s'.threads == s.threads[t := s'.threads[t]]
    requires forall k :: 0 <= k < |s.events| ==> !HoldsEvent(s.threads[t].pc, k)
    requires Apply(SpecStore(s.order), e.cmd) == SpecStore(s.order)
    requires e.outcome == Report(SpecStore(s.order), e.cmd)
    ensures Simulation(s') && Faithful(s'.order)
  {
    var quiet := s'.(order := s.order);
    QuietStep(s, quiet, t);
    SpecStoreExtend(s.order, e);
    FaithfulExtend(s.order, e);
    forall k | 0 <= k < |s'.events| ensures Simulates(SpecStore(s'.order)[k], s', k) {
      assert Simulates(SpecStore(s.order)[k], quiet, k);
    }
  }

  lemma CreateQuietSimulation(s: State, t: nat, garbage: seq<nat>)
    requires Shape(s) && Locks(s) && Simulation(s) && t < |s.threads|
    requires s.threads[t].pc.CreateCheck? || s.threads[t].pc.CreateAlloc? || s.threads[t].pc.CreateZero?
    requires Shape(CreateStep(s, t, garbage)) && CreateStep(s, t, garbage).order == s.order
    ensures Simulation(CreateStep(s, t, garbage))
  {
    QuietStep(s, CreateStep(s, t, garbage), t);
  }

  /** A CREATE that finds its id taken, whichever of its two looks finds it. */
  lemma CreateFailsSimulation(s: State, s': State, t: nat, id: nat, rows: nat, cols: nat)
    requires Shape(s) && Locks(s) && Simulation(s) && Faithful(s.order) && t < |s.threads|
    requires Find(s.events, id).Some? && Pending(s.threads[t].pc) && !InReserve(s.threads[t].pc)
    requires s' == s.TakesEffect(t, Create(id, rows, cols), Failed).Goto(t, Fetch) && Shape(s')
    ensures Simulation(s') && Faithful(s'.order)
  {
    SimulationSameIds(s);
    SameIdsSameFind(s.events, SpecStore(s.order), id);
    IdleEffect(s, s', t, Effect(s.threads[t].job, Create(id, rows, cols), Failed));
  }

  /** A CREATE that appends its cleared event. */
  lemma CreateAppendSimulation(s: State, t: nat, garbage: seq<nat>)
    requires Shape(s) && Locks(s) && Simulation(s) && Faithful(s.order) && t < |s.threads|
    requires s.threads[t].pc.CreateZero? && Cleared(s.threads[t].pc) && s.threads[t].pc.i == |s.threads[t].pc.block|
    requires Find(s.events, s.threads[t].pc.id).None? && Shape(CreateStep(s, t, garbage))
    ensures Simulation(CreateStep(s, t, garbage)) && Faithful(CreateStep(s, t, garbage).order)
  {
    var s' := CreateStep(s, t, garbage);
    var pc := s.threads[t].pc;
    var spec := SpecStore(s.order);
    var e := Effect(s.threads[t].job, Create(pc.id, pc.rows, pc.cols), Created);
    SimulationSameIds(s);
    SameIdsSameFind(s.events, spec, pc.id);
    SpecStoreExtend(s.order, e);
    FaithfulExtend(s.order, e);
    assert pc.block == Zeros(pc.rows * pc.cols);
    assert OwnsItsLocks(s, t);
    forall k | 0 <= k < |s'.events| ensures Simulates(SpecStore(s'.order)[k], s', k) {
      if k < |s.events| {
        assert Simulates(spec[k], s, k);
      }
    }
  }

  lemma CreateSimulation(s: State, t: nat, garbage: seq<nat>)
    requires Shape(s) && Locks(s) && Simulation(s) && Faithful(s.order) && t < |s.threads|
    requires s.threads[t].pc.CreateCheck? || s.threads[t].pc.CreateAlloc? || s.threads[t].pc.CreateZero?
    requires Cleared(s.threads[t].pc) && Shape(CreateStep(s, t, garbage))
    ensures Simulation(CreateStep(s, t, garbage)) && Faithful(CreateStep(s, t, garbage).order)
  {
    var s' := CreateStep(s, t, garbage);
    var pc := s.threads[t].pc;
    if s'.order == s.order {
      CreateQuietSimulation(s, t, garbage);
    } else if Find(s.events, pc.id).Some? {
      CreateFailsSimulation(s, s', t, pc.id, pc.rows, pc.cols);
    } else {
      CreateAppendSimulation(s, t, garbage);
    }
  }

  /** A reservation's step inside its own event, up to the last mark. */
  lemma MarkingProgress(s: State, t: nat, base: EventValue)
    requires Shape(s) && t < |s.threads|
    requires var pc := s.threads[t].pc; pc.ReserveCount? || pc.ReserveBounds? || pc.ReserveProbe? || pc.ReserveMark?
    requires WellFormed(base) && Progress(base, s.events[s.threads[t].pc.k], s.threads[t].pc)
    ensures var s' := ReserveStep(s, t);
            Progress(base, s'.events[s.threads[t].pc.k], s'.threads[t].pc)
  {
    var pc := s.threads[t].pc;
    var cur := s.events[pc.k];
    match pc
    case ReserveCount(k, seats) => StartMarking(base, seats);
    case ReserveBounds(k, seats, rid, i) =>
      if i == |seats| {
        MarkingDone(base, cur, seats, rid);
      } else if !InBounds(cur, seats[i]) {
        BadSeatRefuses(base, cur, seats, rid, i);
      }
    case ReserveProbe(k, seats, rid, i) =>
      if !CellFree(cur, seats[i]) {
        BadSeatRefuses(base, cur, seats, rid, i);
      }
    case ReserveMark(k, seats, rid, i) =>
      assert seats[..i + 1][i] == seats[i];
      MarkOne(base, cur, seats, rid, i);
  }

  /** ... and while it takes its marks back. */
  lemma UndoingProgress(s: State, t: nat, base: EventValue)
    requires Shape(s) && t < |s.threads|
    requires var pc := s.threads[t].pc; pc.ReserveUncount? || pc.ReserveUndo?
    requires WellFormed(base) && Progress(base, s.events[s.threads[t].pc.k], s.threads[t].pc)
    ensures var s' := ReserveStep(s, t);
            Progress(base, s'.events[s.threads[t].pc.k], s'.threads[t].pc)
  {
    var pc := s.threads[t].pc;
    var cur := s.events[pc.k];
    match pc
    case ReserveUncount(k, seats, rid, i) => StartUndoing(base, cur, seats, rid, i);
    case ReserveUndo(k, seats, rid, i, j) =>
      if j == i {
        UndoingDone(base, cur, seats, rid, i);
      } else {
        assert seats[..i][j] == seats[j];
        UndoOne(base, cur, seats, rid, i, j);
      }
  }

  /** Steps inside an event leave all other events and mutexes alone. */
  lemma ReserveStepElsewhere(s: State, t: nat, k: nat)
    requires Shape(s) && t < |s.threads| && InReserve(s.threads[t].pc) && k < |s.events|
    requires s.threads[t].pc.ReserveFind? || s.threads[t].pc.k != k
    ensures var s' := ReserveStep(s, t);
            |s'.events| == |s.events| == |s'.mutexes| && s'.events[k] == s.events[k] && s'.mutexes[k] == s.mutexes[k]
  {
  }

  lemma ReserveInsideSimulation(s: State, t: nat)
    requires Shape(s) && Locks(s) && Simulation(s) && Faithful(s.order)
    requires t < |s.threads| && InReserve(s.threads[t].pc)
    requires var pc := s.threads[t].pc; !pc.ReserveFind? && !pc.ReserveLock? && !pc.ReserveUnlock?
    requires Shape(ReserveStep(s, t)) && Frame(s, ReserveStep(s, t), t)
    ensures Simulation(ReserveStep(s, t)) && Faithful(ReserveStep(s, t).order)
  {
    var s' := ReserveStep(s, t);
    var spec := SpecStore(s.order);
    var mine := s.threads[t].pc.k;
    assert OwnsItsLocks(s, t) && HoldsEvent(s.threads[t].pc, mine);
    assert s'.order == s.order;
    forall k | 0 <= k < |s'.events| ensures Simulates(spec[k], s', k) {
      assert Simulates(spec[k], s, k);
      if k == mine {
        InsideOwnEvent(s, t, spec[k]);
      } else {
        assert !HoldsEvent(s.threads[t].pc, k);
        ReserveStepElsewhere(s, t, k);
      }
    }
  }

  lemma InsideOwnEvent(s: State, t: nat, base: EventValue)
    requires Shape(s) && t < |s.threads| && InReserve(s.threads[t].pc)
    requires var pc := s.threads[t].pc; !pc.ReserveFind? && !pc.ReserveLock? && !pc.ReserveUnlock?
    requires s.mutexes[s.threads[t].pc.k] == Some(t) && Simulates(base, s, s.threads[t].pc.k)
    requires Shape(ReserveStep(s, t)) && Frame(s, ReserveStep(s, t), t)
    ensures Simulates(base, ReserveStep(s, t), s.threads[t].pc.k)
  {
    if s.threads[t].pc.ReserveUncount? || s.threads[t].pc.ReserveUndo? {
      UndoingProgress(s, t, base);
    } else {
      MarkingProgress(s, t, base);
    }
  }

  lemma ReserveFindSimulation(s: State, t: nat)
    requires Shape(s) && Locks(s) && Simulation(s) && Faithful(s.order)
    requires t < |s.threads| && s.threads[t].pc.ReserveFind?
    requires Shape(ReserveStep(s, t))
    ensures Simulation(ReserveStep(s, t)) && Faithful(ReserveStep(s, t).order)
  {
    var s' := ReserveStep(s, t);
    var pc := s.threads[t].pc;
    assert OwnsItsLocks(s, t);
    if Find(s.events, pc.id).None? {
      SimulationSameIds(s);
      SameIdsSameFind(s.events, SpecStore(s.order), pc.id);
      IdleEffect(s, s', t, Effect(s.threads[t].job, Reserve(pc.id, pc.seats), Failed));
    } else {
      QuietStep(s, s', t);
    }
  }

  lemma ReserveLockSimulation(s: State, t: nat)
    requires Shape(s) && Locks(s) && Simulation(s) && Faithful(s.order)
    requires t < |s.threads| && s.threads[t].pc.ReserveLock? && Enabled(s, ThreadStep(t, []))
    requires Shape(ReserveStep(s, t))
    ensures Simulation(ReserveStep(s, t)) && Faithful(ReserveStep(s, t).order)
  {
    var s' := ReserveStep(s, t);
    assert OwnsItsLocks(s, t);
    forall k | 0 <= k < |s'.events| ensures Simulates(SpecStore(s.order)[k], s', k) {
      assert Simulates(SpecStore(s.order)[k], s, k);
      assert !HoldsEvent(s.threads[t].pc, k);
    }
  }

  /** What the unlocking thread has done to its event is what the atomic reservation does. */
  lemma UnlockIsAtomicReserve(s: State, t: nat)
    requires Shape(s) && Locks(s) && Simulation(s) && t < |s.threads| && s.threads[t].pc.ReserveUnlock?
    ensures var pc := s.threads[t].pc;
            var spec := SpecStore(s.order);
            var cmd := Reserve(s.events[pc.k].id, pc.seats);
            && |spec| == |s.events| && Simulates(spec[pc.k], s, pc.k) && s.mutexes[pc.k] == Some(t)
            && Apply(spec, cmd) == spec[pc.k := s.events[pc.k]]
            && Report(spec, cmd) == pc.outcome
  {
    var spec := SpecStore(s.order);
    var mine := s.threads[t].pc.k;
    assert OwnsItsLocks(s, t) && HoldsEvent(s.threads[t].pc, mine);
    assert Simulates(spec[mine], s, mine);
    ReplayWellFormed(CommandsOf(s.order));
    FindUnique(spec, mine);
  }

  lemma ReserveUnlockSimulation(s: State, t: nat)
    requires Shape(s) && Locks(s) && Simulation(s) && Faithful(s.order)
    requires t < |s.threads| && s.threads[t].pc.ReserveUnlock?
    requires Shape(ReserveStep(s, t))
    ensures Simulation(ReserveStep(s, t)) && Faithful(ReserveStep(s, t).order)
  {
    var s' := ReserveStep(s, t);
    var pc := s.threads[t].pc;
    var spec := SpecStore(s.order);
    UnlockIsAtomicReserve(s, t);
    var e := Effect(s.threads[t].job, Reserve(s.events[pc.k].id, pc.seats), pc.outcome);
    SpecStoreExtend(s.order, e);
    FaithfulExtend(s.order, e);
    UnlockedElsewhere(s, s', t, spec, SpecStore(s'.order));
  }

  lemma UnlockedElsewhere(s: State, s': State, t: nat, spec: Store, spec': Store)
    requires Shape(s) && Locks(s) && t < |s.threads| && s.threads[t].pc.ReserveUnlock?
    requires s' == ReserveStep(s, t) && Shape(s') && |spec| == |s.events|
    requires forall k :: 0 <= k < |s.events| ==> Simulates(spec[k], s, k)
    requires spec' == spec[s.threads[t].pc.k := s.events[s.threads[t].pc.k]]
    ensures forall k :: 0 <= k < |s'.events| ==> Simulates(spec'[k], s', k)
  {
    var mine := s.threads[t].pc.k;
    assert OwnsItsLocks(s, t);
    forall k | 0 <= k < |s'.events| ensures Simulates(spec'[k], s', k) {
      assert Simulates(spec[k], s, k);
      if k != mine {
        assert !HoldsEvent(s.threads[t].pc, k);
      }
    }
  }

  // ----- LIST -----

  /** A LIST holds exactly what its walk over the nodes visited so far produces. */
  ghost predicate WalkFits(s: State, t: nat)
    requires t < |s.threads|
  {
    match s.threads[t].pc
    case ListFormat(cur, buffer, base) =>
      base <= |s.output| && cur < |s.events| && WalkOver(Ids(s.events)[..cur]) == Walk(s.output[base..], buffer)
    case ListNext(cur, buffer, base) =>
      base <= |s.output| && cur < |s.events| && WalkOver(Ids(s.events)[..cur + 1]) == Walk(s.output[base..], buffer)
    case ListWrite(buffer, base, at) =>
      base <= |s.output| && at < |s.order| &&
      s.order[at] == Effect(s.threads[t].job, ListEvents, Listed(s.output[base..] + buffer))
    case _ => true
  }

  ghost predicate Listings(s: State) {
    forall t :: 0 <= t < |s.threads| ==> WalkFits(s, t)
  }

  lemma IdsPrefixStable(before: Store, after: Store, n: nat)
    requires Grows(before, after) && n <= |before|
    ensures Ids(after)[..n] == Ids(before)[..n]
  {
  }

  /** A node's line is added to what the walk had produced. */
  lemma FormatListed(s: State, t: nat)
    requires Shape(s) && t < |s.threads| && s.threads[t].pc.ListFormat? && WalkFits(s, t)
    ensures WalkFits(ListStep(s, t), t)
  {
    var s' := ListStep(s, t);
    var pc := s.threads[t].pc;
    var ids := Ids(s.events);
    assert ids[..pc.cur + 1][..pc.cur] == ids[..pc.cur];
    var w := AddLine(Walk("", pc.buffer), ids[pc.cur]);
    assert s'.output[pc.base..] == s.output[pc.base..] + w.written;
  }

  /** The step in which the next pointer is NULL sees the whole list as it is at that moment. */
  lemma EndListed(s: State, t: nat)
    requires Shape(s) && t < |s.threads| && (s.threads[t].pc.ListNext? || s.threads[t].pc.ListHead?) && WalkFits(s, t)
    ensures WalkFits(ListStep(s, t), t)
    ensures ListStep(s, t).order != s.order ==>
      ListStep(s, t).order[|s.order|..] ==
        [Effect(s.threads[t].job, ListEvents, Listed(ListOutput(Ids(s.events))))]
  {
    var pc := s.threads[t].pc;
    var ids := Ids(s.events);
    if pc.ListHead? {
      assert s.output[|s.output|..] == "";
      assert ids[..0] == [];
    } else if pc.cur + 1 == |s.events| {
      assert ids[..pc.cur + 1] == ids;
    }
  }

  lemma ListedElsewhere(s: State, s': State, t: nat, u: nat)
    requires Shape(s) && Locks(s) && Frame(s, s', t) && u < |s.threads| && u != t && WalkFits(s, u)
    requires s'.output == s.output || HoldsOutput(s.threads[t].pc)
    requires |s.order| <= |s'.order| && s'.order[..|s.order|] == s.order
    ensures WalkFits(s', u)
  {
    assert OwnsItsLocks(s, u) && OwnsItsLocks(s, t);
    var pc := s.threads[u].pc;
    match pc
    case ListFormat(cur, _, _) => IdsPrefixStable(s.events, s'.events, cur);
    case ListNext(cur, _, _) => IdsPrefixStable(s.events, s'.events, cur + 1);
    case ListWrite(_, _, at) => assert s'.order[at] == s.order[at];
    case _ =>
  }

  lemma ListOwnStep(s: State, t: nat)
    requires Shape(s) && t < |s.threads| && InList(s.threads[t].pc) && WalkFits(s, t)
    ensures WalkFits(ListStep(s, t), t)
  {
    var pc := s.threads[t].pc;
    if pc.ListFormat? {
      FormatListed(s, t);
    } else if pc.ListNext? || pc.ListHead? {
      EndListed(s, t);
    }
  }

  /** Output is written only under the output lock, and the history only grows. */
  ghost predicate OutputKept(s: State, s': State, t: nat) {
    && t < |s.threads| && t < |s'.threads|
    && (s'.output == s.output || HoldsOutput(s.threads[t].pc))
    && |s.order| <= |s'.order| && s'.order[..|s.order|] == s.order
    && (InList(s'.threads[t].pc) ==> InList(s.threads[t].pc) || s'.threads[t].pc.ListCheck?)
  }

  lemma CreateKeepsOutput(s: State, t: nat, garbage: seq<nat>)
    requires Shape(s) && t < |s.threads|
    requires s.threads[t].pc.CreateCheck? || s.threads[t].pc.CreateAlloc? || s.threads[t].pc.CreateZero?
    ensures OutputKept(s, CreateStep(s, t, garbage), t)
  {
  }

  lemma ReserveKeepsOutput(s: State, t: nat)
    requires Shape(s) && t < |s.threads| && InReserve(s.threads[t].pc)
    ensures OutputKept(s, ReserveStep(s, t), t)
  {
  }

  lemma ShowKeepsOutput(s: State, t: nat)
    requires Shape(s) && t < |s.threads|
    requires s.threads[t].pc.ShowFind? || s.threads[t].pc.ShowOpen? || s.threads[t].pc.ShowCell?
    ensures OutputKept(s, ShowStep(s, t), t)
  {
  }

  lemma ListKeepsOutput(s: State, t: nat)
    requires Shape(s) && t < |s.threads| && InList(s.threads[t].pc)
    ensures OutputKept(s, ListStep(s, t), t)
  {
  }

  lemma FetchKeepsOutput(s: State, t: nat)
    requires Shape(s) && t < |s.threads|
    ensures OutputKept(s, FetchStep(s, t), t)
  {
    if s.flags[0] == 0 && s.rest != "" {
      var (cmd, rest) := NextCommand(true, s.rest);
      DispatchKeepsOutput(s.(flags := s.flags[t + 1 := 0]), t, cmd, rest);
    }
  }

  lemma DispatchKeepsOutput(s: State, t: nat, cmd: Command, rest: string)
    requires Shape(s) && t < |s.threads|
    ensures OutputKept(s, Dispatch(s, t, cmd, rest), t)
  {
  }

  lemma OutputAndOrder(s: State, t: nat, garbage: seq<nat>)
    requires Shape(s) && Enabled(s, ThreadStep(t, garbage))
    ensures OutputKept(s, Next(s, ThreadStep(t, garbage)), t)
  {
    var pc := s.threads[t].pc;
    if pc.Fetch? {
      FetchKeepsOutput(s, t);
    } else if pc.CreateCheck? || pc.CreateAlloc? || pc.CreateZero? {
      CreateKeepsOutput(s, t, garbage);
    } else if InReserve(pc) {
      ReserveKeepsOutput(s, t);
    } else if InList(pc) {
      ListKeepsOutput(s, t);
    } else {
      ShowKeepsOutput(s, t);
    }
  }

  lemma ListingKept(s: State, s': State, t: nat, garbage: seq<nat>, u: nat)
    requires Shape(s) && Enabled(s, ThreadStep(t, garbage)) && s' == Next(s, ThreadStep(t, garbage))
    requires Locks(s) && Frame(s, s', t) && OutputKept(s, s', t) && u < |s.threads| && WalkFits(s, u)
    ensures WalkFits(s', u)
  {
    if u != t {
      ListedElsewhere(s, s', t, u);
    } else if InList(s.threads[u].pc) {
      ListOwnStep(s, u);
    }
  }

  lemma ListingsKept(s: State, a: Action)
    requires Shape(s) && Locks(s) && Listings(s) && Enabled(s, a)
    ensures Listings(Next(s, a))
  {
    var s' := Next(s, a);
    if a.ThreadStep? {
      ThreadFrame(s, a.t, a.garbage);
      OutputAndOrder(s, a.t, a.garbage);
      forall u | 0 <= u < |s.threads| ensures WalkFits(s', u) {
        ListingKept(s, s', a.t, a.garbage, u);
      }
    } else {
      MainKeepsListings(s);
    }
  }

  lemma MainKeepsListings(s: State)
    requires Shape(s) && Listings(s) && MainEnabled(s)
    ensures Listings(MainMove(s))
  {
    var s' := MainMove(s);
    forall u | 0 <= u < |s'.threads| ensures WalkFits(s', u) {
      assert WalkFits(s, u);
    }
  }

  lemma ListSimulation(s: State, t: nat)
    requires Shape(s) && Locks(s) && Simulation(s) && Faithful(s.order)
    requires t < |s.threads| && InList(s.threads[t].pc) && WalkFits(s, t)
    requires Shape(ListStep(s, t))
    ensures Simulation(ListStep(s, t)) && Faithful(ListStep(s, t).order)
  {
    var s' := ListStep(s, t);
    if s'.order == s.order {
      QuietStep(s, s', t);
    } else {
      ListEffect(s, t);
      IdleEffect(s, s', t, s'.order[|s.order|]);
    }
  }

  /** What LIST reports is what an atomic LIST would report at that moment. */
  lemma ListEffect(s: State, t: nat)
    requires Shape(s) && Simulation(s)
    requires t < |s.threads| && InList(s.threads[t].pc) && WalkFits(s, t)
    requires ListStep(s, t).order != s.order
    ensures var e := ListStep(s, t).order[|s.order|..];
            |e| == 1 && ListStep(s, t).order == s.order + e && e[0].cmd == ListEvents &&
            e[0].outcome == Report(SpecStore(s.order), ListEvents)
  {
    var s' := ListStep(s, t);
    SimulationSameIds(s);
    if s.threads[t].pc.ListCheck? {
      assert Ids(s.events) == [];
    } else {
      EndListed(s, t);
    }
    assert s'.order == s'.order[..|s.order|] + s'.order[|s.order|..];
  }

  // ----- All steps -----

  lemma BlocksKept(s: State, a: Action)
    requires Shape(s) && Blocks(s) && Enabled(s, a)
    ensures Blocks(Next(s, a))
  {
    if a.ThreadStep? {
      ThreadFrame(s, a.t, a.garbage);
      BlockStep(s, a.t, a.garbage);
    }
  }

  lemma BlockStep(s: State, t: nat, garbage: seq<nat>)
    requires Shape(s) && Enabled(s, ThreadStep(t, garbage)) && Cleared(s.threads[t].pc)
    ensures Cleared(Next(s, ThreadStep(t, garbage)).threads[t].pc)
  {
  }

  lemma FetchSimulation(s: State, t: nat)
    requires Shape(s) && Locks(s) && Simulation(s)
    requires t < |s.threads| && s.threads[t].pc.Fetch? && s.fetchLock.None? && Shape(FetchStep(s, t))
    ensures Simulation(FetchStep(s, t)) && FetchStep(s, t).order == s.order
  {
    QuietStep(s, FetchStep(s, t), t);
  }

  lemma ShowSimulation(s: State, t: nat)
    requires Shape(s) && Locks(s) && Simulation(s)
    requires t < |s.threads|
    requires s.threads[t].pc.ShowFind? || s.threads[t].pc.ShowOpen? || s.threads[t].pc.ShowCell?
    requires Shape(ShowStep(s, t))
    ensures Simulation(ShowStep(s, t)) && ShowStep(s, t).order == s.order
  {
    QuietStep(s, ShowStep(s, t), t);
  }

  lemma MainSimulation(s: State)
    requires Shape(s) && Locks(s) && Rounds(s) && Simulation(s) && MainEnabled(s) && Shape(MainMove(s))
    ensures Simulation(MainMove(s)) && MainMove(s).order == s.order
  {
    var s' := MainMove(s);
    forall k | 0 <= k < |s'.events| ensures Simulates(SpecStore(s'.order)[k], s', k) {
      assert Simulates(SpecStore(s.order)[k], s, k);
      if s.mutexes[k].Some? {
        assert OwnsItsLocks(s, s.mutexes[k].value);
      }
    }
  }

  lemma SimulationKept(s: State, a: Action)
    requires Shape(s) && Locks(s) && Rounds(s) && Blocks(s) && Listings(s) && Enabled(s, a)
    requires Simulation(s) && Faithful(s.order)
    ensures Shape(Next(s, a)) && Simulation(Next(s, a)) && Faithful(Next(s, a).order)
  {
    ShapeKept(s, a);
    if a.MainStep? {
      MainSimulation(s);
    } else {
      var t := a.t;
      var pc := s.threads[t].pc;
      ThreadFrame(s, t, a.garbage);
      if pc.Fetch? {
        FetchSimulation(s, t);
      } else if pc.CreateCheck? || pc.CreateAlloc? || pc.CreateZero? {
        CreateSimulation(s, t, a.garbage);
      } else if pc.ReserveFind? {
        ReserveFindSimulation(s, t);
      } else if pc.ReserveLock? {
        ReserveLockSimulation(s, t);
      } else if pc.ReserveUnlock? {
        ReserveUnlockSimulation(s, t);
      } else if InReserve(pc) {
        ReserveInsideSimulation(s, t);
      } else if InList(pc) {
        ListSimulation(s, t);
      } else {
        ShowSimulation(s, t);
      }
    }
  }
}
