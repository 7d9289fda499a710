/** SHOW in the threaded runner, from its fetch to its last byte. */
module RunnerShow {
  import opened Decimal
  import opened Options
  import opened Sequences
  import opened Seating
  import opened Commands
  import opened EventStore
  import opened GridBuffer
  import opened Grids
  import opened Runner
  import opened RunnerInvariants
  import opened RunnerHistory
  import opened RunnerRefinement
  import opened RunnerTheorems
  import opened RunnerOutput

  // ----- Events nobody reserves -----

  lemma ReserveLeavesOthers(s: State, t: nat, k: nat)
    requires Shape(s) && t < |s.threads| && InReserve(s.threads[t].pc)
    requires k < |s.events| && !HoldsEvent(s.threads[t].pc, k)
    ensures k < |ReserveStep(s, t).events| && ReserveStep(s, t).events[k] == s.events[k]
  {
  }

  /** Events change only under their mutex. */
  lemma FreeEventStays(s: State, a: Action, k: nat)
    requires Shape(s) && Locks(s) && Enabled(s, a) && k < |s.events| && s.mutexes[k] == None
    ensures k < |Next(s, a).events| && Next(s, a).events[k] == s.events[k]
  {
    if a.ThreadStep? {
      assert OwnsItsLocks(s, a.t);
      assert !HoldsEvent(s.threads[a.t].pc, k);
      if InReserve(s.threads[a.t].pc) {
        ReserveLeavesOthers(s, a.t, k);
      } else if s.threads[a.t].pc.Fetch? {
        FetchOutput(s, a.t);
      }
    }
  }

  /** An event whose mutex is free is dense, at any moment of any run. */
  lemma FreeEventDense(input: string, n: nat, s: State, k: nat)
    requires Inv(input, n, s) && k < |s.events| && s.mutexes[k] == None && CountableSeats(s.events[k])
    ensures Dense(s.events[k])
  {
    EffectsNonEmpty(input, s);
    ReplayDense(CommandsOf(s.order), k);
    assert Simulates(SpecStore(s.order)[k], s, k);
  }

  // ----- The text of the cells seen -----

  /** What SHOW's buffer holds after the cells seen, read one after the other; nothing once a guard has fired. */
  function SeenText(seen: seq<nat>, cols: nat, capacity: nat): Option<string> {
    Fill(SeatPutter(Texts(seen), capacity), LineCloser(capacity), cols, |seen|)
  }

  ghost predicate PutsAlike(put: Putter, other: Putter, q: nat) {
    forall buffer: string, startsRow: bool {:trigger put(buffer, startsRow, q)} ::
      put(buffer, startsRow, q) == other(buffer, startsRow, q)
  }

  /** Only the first p cells count for the first p cells. */
  lemma {:induction false} FillsAlike(put: Putter, other: Putter, close: Closer, cols: nat, p: nat)
    requires forall q: nat {:trigger PutsAlike(put, other, q)} :: q < p ==> PutsAlike(put, other, q)
    ensures Fill(put, close, cols, p) == Fill(other, close, cols, p)
    decreases p
  {
    if p > 0 {
      FillsAlike(put, other, close, cols, p - 1);
      assert PutsAlike(put, other, p - 1);
    }
  }

  lemma SamePrefix(texts: seq<string>, longer: seq<string>, capacity: nat, p: nat)
    requires p <= |texts| <= |longer| && forall q :: 0 <= q < p ==> texts[q] == longer[q]
    ensures forall q: nat :: q < p ==> PutsAlike(SeatPutter(longer, capacity), SeatPutter(texts, capacity), q)
  {
  }

  lemma PutCellIsFill(put: Putter, close: Closer, texts: seq<string>, cols: nat, capacity: nat, p: nat, buffer: string)
    requires p < |texts| && PutsSeats(put, texts, capacity) && ClosesLines(close, capacity)
    requires Fill(put, close, cols, p) == Some(buffer)
    ensures Fill(put, close, cols, p + 1) == PutCell(buffer, cols, capacity, texts[p], p)
  {
    assert PutsSeat(put, texts, capacity, p);
  }

  /** One cell more. */
  lemma SeenMore(seen: seq<nat>, v: nat, cols: nat, capacity: nat, buffer: string)
    requires SeenText(seen, cols, capacity) == Some(buffer)
    ensures SeenText(seen + [v], cols, capacity) == PutCell(buffer, cols, capacity, Dec(v), |seen|)
  {
    var longer := seen + [v];
    assert longer[..|longer| - 1] == seen;
    SamePrefix(Texts(seen), Texts(longer), capacity, |seen|);
    FillsAlike(SeatPutter(Texts(longer), capacity), SeatPutter(Texts(seen), capacity), LineCloser(capacity), cols,
               |seen|);
    ShowPutsSeats(Texts(longer), capacity);
    PutCellIsFill(SeatPutter(Texts(longer), capacity), LineCloser(capacity), Texts(longer), cols, capacity, |seen|,
                  buffer);
  }

  // ----- From the fetch to the return -----

  predicate InShow(pc: Pc) {
    pc.ShowFind? || pc.ShowOpen? || pc.ShowCell?
  }

  predicate IsEvent(s: State, k: nat, id: nat) {
    k < |s.events| && s.events[k].id == id
  }

  /** Thread t is on its way through SHOW id and has seen these cells. */
  predicate ShowPhase(s: State, t: nat, id: nat, seen: seq<nat>) {
    t < |s.threads| &&
    match s.threads[t].pc
    case ShowFind(sought) => sought == id && seen == []
    case ShowOpen(k) => IsEvent(s, k, id) && seen == []
    case ShowCell(k, p, buffer) =>
      && IsEvent(s, k, id) && |seen| == p <= |s.events[k].data|
      && SeenText(seen, s.events[k].cols, Capacity(s.events[k])) == Some(buffer)
    case _ => false
  }

  /** What a SHOW writes that has seen these cells of an event: all of them, or nothing. */
  predicate ShowEnds(e: EventValue, seen: seq<nat>, text: string) {
    match SeenText(seen, e.cols, Capacity(e))
    case None => |seen| <= |e.data| && text == ""
    case Some(shown) => |seen| == |e.data| && text == shown
  }

  /** The cell that is read in this step, if any. */
  function CellRead(s: State, t: nat): seq<nat>
    requires t < |s.threads|
  {
    match s.threads[t].pc
    case ShowCell(k, p, _) => if k < |s.events| && p < |s.events[k].data| then [s.events[k].data[p]] else []
    case _ => []
  }

  lemma CellShown(s: State, t: nat, id: nat, seen: seq<nat>)
    requires Shape(s) && ShowPhase(s, t, id, seen) && s.threads[t].pc.ShowCell?
    ensures var s' := ShowStep(s, t);
            var e := s.events[s.threads[t].pc.k];
            var seen' := seen + CellRead(s, t);
            if s'.threads[t].pc.Fetch? then s.output <= s'.output && ShowEnds(e, seen', s'.output[|s.output|..])
            else s'.output == s.output && ShowPhase(s', t, id, seen') && s'.threads[t].pc.ShowCell? &&
                 s'.threads[t].pc.k == s.threads[t].pc.k
  {
    var pc := s.threads[t].pc;
    var e := s.events[pc.k];
    if pc.p < |e.data| {
      SeenMore(seen, e.data[pc.p], e.cols, Capacity(e), pc.buffer);
    } else {
      assert seen + CellRead(s, t) == seen;
      assert (s.output + pc.buffer)[|s.output|..] == pc.buffer;
    }
  }

  /** The look for the event, and the output lock. */
  lemma ShowEntered(s: State, t: nat, id: nat)
    requires Shape(s) && ShowPhase(s, t, id, []) && !s.threads[t].pc.ShowCell?
    ensures var s' := ShowStep(s, t);
            if s'.threads[t].pc.Fetch? then Find(s.events, id).None?
            else ShowPhase(s', t, id, []) && (s'.threads[t].pc.ShowCell? ==> s'.threads[t].pc.p == 0)
  {
  }

  /** Steps of others leave it where it is. */
  lemma ShowOtherStep(s: State, a: Action, t: nat, id: nat, seen: seq<nat>)
    requires Shape(s) && Rounds(s) && ShowPhase(s, t, id, seen) && Enabled(s, a) && a != ThreadStep(t, [])
    requires a.ThreadStep? ==> a.t != t
    ensures ShowPhase(Next(s, a), t, id, seen) && Next(s, a).threads[t] == s.threads[t]
  {
    if a.MainStep? {
      MainOutput(s);
    } else {
      ThreadFrame(s, a.t, a.garbage);
    }
  }

  /** The value cell q of event k has in state m. */
  function CellAt(run: seq<State>, m: nat, k: nat, q: nat): nat {
    if m < |run| && k < |run[m].events| && q < |run[m].events[k].data| then run[m].events[k].data[q] else 0
  }

  /** Cells 0, 1, 2, ... of event k, each as it was at its own moment. */
  function Seen(run: seq<State>, k: nat, moments: seq<nat>): (seen: seq<nat>)
    ensures |seen| == |moments|
  {
    if moments == [] then [] else
    var last := |moments| - 1;
    Seen(run, k, moments[..last]) + [CellAt(run, moments[last], k, last)]
  }

  /** Moments between i and j, one after the other, at each of which event k is there. */
  predicate Moments(run: seq<State>, k: nat, moments: seq<nat>, i: nat, j: nat)
    requires j <= |run|
  {
    && (forall q :: 0 <= q < |moments| ==> i < moments[q] < j && k < |run[moments[q]].events|)
    && (forall q, r :: 0 <= q < r < |moments| ==> moments[q] < moments[r])
  }

  /** The same over a run, from the fetch in step i. */
  predicate ShowRuns(run: seq<State>, i: nat, m: nat, t: nat, job: nat, id: nat, moments: seq<nat>)
    requires m < |run|
  {
    && t < |run[m].threads| && run[m].threads[t].job == job
    && match run[m].threads[t].pc
       case ShowCell(k, _, _) =>
         Moments(run, k, moments, i, m) && ShowPhase(run[m], t, id, Seen(run, k, moments))
       case _ => moments == [] && ShowPhase(run[m], t, id, [])
  }

  /** How a SHOW that has returned in state j has ended, and what its part of the file is. */
  ghost predicate ShowDone(run: seq<State>, parts: seq<Part>, i: nat, j: nat, job: nat, id: nat, moments: seq<nat>)
    requires 0 < j <= |run|
  {
    match Find(run[j - 1].events, id)
    case None => NoPart(parts, job)
    case Some(k) =>
      && parts != [] && parts[|parts| - 1].job == job
      && Moments(run, k, moments, i, j)
      && ShowEnds(run[j - 1].events[k], Seen(run, k, moments), parts[|parts| - 1].text)
  }

  lemma FetchStarts(s: State, a: Action, t: nat, id: nat)
    requires Shape(s) && Enabled(s, a) && t < |s.threads|
    requires |Next(s, a).log| > |s.log| && Next(s, a).log[|s.log|] == Fetched(Show(id), t)
    ensures t < |Next(s, a).threads| && Next(s, a).threads[t] == Thread(ShowFind(id), |s.log|)
  {
    if a.ThreadStep? && !s.threads[a.t].pc.Fetch? {
      WorkHistory(s, a.t, a.garbage);
    }
  }

  lemma MomentAdded(run: seq<State>, k: nat, moments: seq<nat>, i: nat, m: nat)
    requires i < m < |run| && Moments(run, k, moments, i, m) && k < |run[m].events|
    ensures Moments(run, k, moments + [m], i, m + 1)
    ensures Seen(run, k, moments + [m]) == Seen(run, k, moments) + [CellAt(run, m, k, |moments|)]
  {
    assert (moments + [m])[..|moments|] == moments;
  }

  /** The moments after this state, in which cell p is read if there is one. */
  function MomentsAfter(s: State, k: nat, p: nat, moments: seq<nat>, m: nat): seq<nat>
    requires k < |s.events|
  {
    if p < |s.events[k].data| then moments + [m] else moments
  }

  lemma SeenAfter(run: seq<State>, k: nat, p: nat, moments: seq<nat>, i: nat, m: nat, cell: seq<nat>)
    requires i < m < |run| && Moments(run, k, moments, i, m) && k < |run[m].events| && |moments| == p
    requires cell == if p < |run[m].events[k].data| then [run[m].events[k].data[p]] else []
    ensures var moments' := MomentsAfter(run[m], k, p, moments, m);
            Moments(run, k, moments', i, m + 1) && Seen(run, k, moments') == Seen(run, k, moments) + cell
  {
    if p < |run[m].events[k].data| {
      MomentAdded(run, k, moments, i, m);
    } else {
      assert Seen(run, k, moments) + [] == Seen(run, k, moments);
    }
  }

  /** The thread has returned in state m + 1 from its cells, or from its look for the event. */
  predicate ShowReturns(run: seq<State>, i: nat, m: nat, t: nat, id: nat, moments: seq<nat>)
    requires m + 1 < |run| && t < |run[m].threads| && t < |run[m + 1].threads|
  {
    run[m + 1].threads[t].pc.Fetch? &&
    match run[m].threads[t].pc
    case ShowCell(k, _, _) =>
      && IsEvent(run[m], k, id) && Moments(run, k, moments, i, m + 1) && run[m].output <= run[m + 1].output
      && ShowEnds(run[m].events[k], Seen(run, k, moments), run[m + 1].output[|run[m].output|..])
    case _ => Find(run[m].events, id).None?
  }

  lemma ShowCellRuns(run: seq<State>, i: nat, m: nat, t: nat, job: nat, id: nat, moments: seq<nat>)
    returns (moments': seq<nat>)
    requires i < m && m + 1 < |run| && ShowRuns(run, i, m, t, job, id, moments) && run[m].threads[t].pc.ShowCell?
    requires Shape(run[m]) && run[m + 1] == ShowStep(run[m], t) && t < |run[m + 1].threads|
    requires run[m + 1].threads[t].job == job
    ensures ShowRuns(run, i, m + 1, t, job, id, moments') || ShowReturns(run, i, m, t, id, moments')
  {
    var s := run[m];
    var pc := s.threads[t].pc;
    moments' := MomentsAfter(s, pc.k, pc.p, moments, m);
    SeenAfter(run, pc.k, pc.p, moments, i, m, CellRead(s, t));
    CellShown(s, t, id, Seen(run, pc.k, moments));
  }

  lemma ShowEntryRuns(run: seq<State>, i: nat, m: nat, t: nat, job: nat, id: nat, moments: seq<nat>)
    requires i < m && m + 1 < |run| && ShowRuns(run, i, m, t, job, id, moments) && !run[m].threads[t].pc.ShowCell?
    requires Shape(run[m]) && run[m + 1] == ShowStep(run[m], t) && t < |run[m + 1].threads|
    requires run[m + 1].threads[t].job == job
    ensures ShowRuns(run, i, m + 1, t, job, id, []) || ShowReturns(run, i, m, t, id, [])
  {
    ShowEntered(run[m], t, id);
  }

  lemma ShowOtherRuns(run: seq<State>, i: nat, m: nat, t: nat, job: nat, id: nat, moments: seq<nat>, a: Action)
    requires i < m && m + 1 < |run| && ShowRuns(run, i, m, t, job, id, moments)
    requires Shape(run[m]) && Rounds(run[m]) && Enabled(run[m], a) && run[m + 1] == Next(run[m], a)
    requires a.ThreadStep? ==> a.t != t
    ensures ShowRuns(run, i, m + 1, t, job, id, moments)
  {
    var pc := run[m].threads[t].pc;
    ShowOtherStep(run[m], a, t, id, if pc.ShowCell? then Seen(run, pc.k, moments) else []);
  }

  /** One step of the run, of the thread itself or of another. */
  lemma ShowRunsOn(run: seq<State>, i: nat, m: nat, t: nat, job: nat, id: nat, moments: seq<nat>, a: Action)
    returns (moments': seq<nat>)
    requires i < m && m + 1 < |run| && ShowRuns(run, i, m, t, job, id, moments)
    requires Shape(run[m]) && Rounds(run[m]) && Enabled(run[m], a) && run[m + 1] == Next(run[m], a)
    ensures t < |run[m + 1].threads|
    ensures ShowRuns(run, i, m + 1, t, job, id, moments') ||
            (a.ThreadStep? && a.t == t && ShowReturns(run, i, m, t, id, moments'))
  {
    if a.ThreadStep? && a.t == t {
      WorkHistory(run[m], t, a.garbage);
      if run[m].threads[t].pc.ShowCell? {
        moments' := ShowCellRuns(run, i, m, t, job, id, moments);
      } else {
        ShowEntryRuns(run, i, m, t, job, id, moments);
        moments' := [];
      }
    } else {
      moments' := moments;
      ShowOtherRuns(run, i, m, t, job, id, moments, a);
    }
  }

  // ----- What SHOW has written when it returns -----

  predicate AtFetch(s: State, t: nat) {
    t < |s.threads| && s.threads[t].pc.Fetch?
  }

  /** In step i thread t fetches SHOW id. */
  predicate FetchesShow(run: seq<State>, i: nat, t: nat, id: nat) {
    && i + 1 < |run| && t < |run[i].threads| && |run[i].log| < |run[i + 1].log|
    && run[i + 1].log[|run[i].log|] == Fetched(Show(id), t)
  }

  /** State j is the first one after i in which thread t is about to fetch. */
  predicate ReturnsIn(run: seq<State>, i: nat, j: nat, t: nat) {
    i < j < |run| && AtFetch(run[j], t) && forall m :: i < m < j ==> !AtFetch(run[m], t)
  }

  predicate InShowOf(s: State, t: nat, job: nat) {
    t < |s.threads| && InShow(s.threads[t].pc) && s.threads[t].job == job
  }

  lemma ShowStarts(input: string, n: nat, run: seq<State>, i: nat, t: nat, id: nat)
    requires IsRun(input, n, run) && FetchesShow(run, i, t, id)
    ensures ShowRuns(run, i, i + 1, t, |run[i].log|, id, [])
  {
    var a := StepTaken(input, n, run, i);
    FetchStarts(run[i], a, t, id);
  }

  lemma ShowStepTaken(input: string, n: nat, run: seq<State>, i: nat, m: nat, t: nat, job: nat, id: nat,
                      moments: seq<nat>) returns (moments': seq<nat>)
    requires IsRun(input, n, run) && i < m && m + 1 < |run| && ShowRuns(run, i, m, t, job, id, moments)
    ensures t < |run[m + 1].threads|
    ensures ShowRuns(run, i, m + 1, t, job, id, moments') || ShowReturns(run, i, m, t, id, moments')
  {
    var a := StepTaken(input, n, run, m);
    moments' := ShowRunsOn(run, i, m, t, job, id, moments, a);
  }

  lemma ShowContinues(input: string, n: nat, run: seq<State>, i: nat, m: nat, t: nat, job: nat, id: nat,
                      moments: seq<nat>) returns (moments': seq<nat>)
    requires IsRun(input, n, run) && i < m && m + 1 < |run| && ShowRuns(run, i, m, t, job, id, moments)
    requires !AtFetch(run[m + 1], t)
    ensures ShowRuns(run, i, m + 1, t, job, id, moments')
  {
    moments' := ShowStepTaken(input, n, run, i, m, t, job, id, moments);
  }

  predicate ShowPlace(run: seq<State>, i: nat, m: nat, t: nat, job: nat, id: nat, moments: seq<nat>) {
    m < |run| && ShowRuns(run, i, m, t, job, id, moments)
  }

  ghost predicate ShowGoesOn(run: seq<State>, i: nat, m: nat, t: nat, job: nat, id: nat) {
    exists moments: seq<nat> :: ShowPlace(run, i, m, t, job, id, moments)
  }

  lemma ShowGoesOnNext(input: string, n: nat, run: seq<State>, i: nat, m: nat, t: nat, job: nat, id: nat)
    requires IsRun(input, n, run) && i < m && m + 1 < |run| && ShowGoesOn(run, i, m, t, job, id)
    requires !AtFetch(run[m + 1], t)
    ensures ShowGoesOn(run, i, m + 1, t, job, id)
  {
    var moments :| ShowPlace(run, i, m, t, job, id, moments);
    var moments' := ShowContinues(input, n, run, i, m, t, job, id, moments);
    assert ShowPlace(run, i, m + 1, t, job, id, moments');
  }

  lemma ShowGoesOnFrom(input: string, n: nat, run: seq<State>, i: nat, t: nat, id: nat)
    requires IsRun(input, n, run) && FetchesShow(run, i, t, id)
    ensures ShowGoesOn(run, i, i + 1, t, |run[i].log|, id)
  {
    ShowStarts(input, n, run, i, t, id);
    assert ShowPlace(run, i, i + 1, t, |run[i].log|, id, []);
  }

  predicate AwayFromFetch(run: seq<State>, i: nat, m: nat, t: nat) {
    m < |run| && forall x :: i < x <= m ==> !AtFetch(run[x], t)
  }

  ghost predicate ShowHandedOn(run: seq<State>, i: nat, m: nat, t: nat, job: nat, id: nat) {
    m + 1 < |run| && !AtFetch(run[m + 1], t) && ShowGoesOn(run, i, m, t, job, id) ==>
      ShowGoesOn(run, i, m + 1, t, job, id)
  }

  ghost predicate ShowAlwaysHandedOn(run: seq<State>, i: nat, t: nat, job: nat, id: nat) {
    forall m: nat {:trigger ShowHandedOn(run, i, m, t, job, id)} :: i < m ==> ShowHandedOn(run, i, m, t, job, id)
  }

  lemma RunHandsShowOn(input: string, n: nat, run: seq<State>, i: nat, t: nat, job: nat, id: nat)
    requires IsRun(input, n, run)
    ensures ShowAlwaysHandedOn(run, i, t, job, id)
  {
    forall m: nat | i < m ensures ShowHandedOn(run, i, m, t, job, id) {
      if m + 1 < |run| && !AtFetch(run[m + 1], t) && ShowGoesOn(run, i, m, t, job, id) {
        ShowGoesOnNext(input, n, run, i, m, t, job, id);
      }
    }
  }

  lemma {:induction false} ShowGoesOnTo(run: seq<State>, i: nat, m: nat, t: nat, job: nat, id: nat)
    requires ShowAlwaysHandedOn(run, i, t, job, id) && ShowGoesOn(run, i, i + 1, t, job, id)
    requires i < m && AwayFromFetch(run, i, m, t)
    ensures ShowGoesOn(run, i, m, t, job, id)
    decreases m
  {
    if i + 1 < m {
      ShowGoesOnTo(run, i, m - 1, t, job, id);
      assert ShowHandedOn(run, i, m - 1, t, job, id);
    }
  }

  lemma ShowPlaceIn(run: seq<State>, i: nat, m: nat, t: nat, job: nat, id: nat, moments: seq<nat>)
    requires ShowPlace(run, i, m, t, job, id, moments)
    ensures InShowOf(run[m], t, job) && !AtFetch(run[m], t)
  {
  }

  lemma ShowInBetween(run: seq<State>, i: nat, j: nat, t: nat, job: nat, id: nat)
    requires ShowAlwaysHandedOn(run, i, t, job, id) && ShowGoesOn(run, i, i + 1, t, job, id) && ReturnsIn(run, i, j, t)
    ensures i + 1 < j && forall m :: i < m < j ==> InShowOf(run[m], t, job)
    ensures ShowGoesOn(run, i, j - 1, t, job, id)
  {
    var first :| ShowPlace(run, i, i + 1, t, job, id, first);
    ShowPlaceIn(run, i, i + 1, t, job, id, first);
    forall m | i < m < j ensures InShowOf(run[m], t, job) {
      ShowInOneState(run, i, m, t, job, id);
    }
    ShowGoesOnTo(run, i, j - 1, t, job, id);
  }

  lemma ShowInOneState(run: seq<State>, i: nat, m: nat, t: nat, job: nat, id: nat)
    requires ShowAlwaysHandedOn(run, i, t, job, id) && ShowGoesOn(run, i, i + 1, t, job, id)
    requires i < m && AwayFromFetch(run, i, m, t)
    ensures InShowOf(run[m], t, job)
  {
    ShowGoesOnTo(run, i, m, t, job, id);
    var moments :| ShowPlace(run, i, m, t, job, id, moments);
    ShowPlaceIn(run, i, m, t, job, id, moments);
  }

  /** A SHOW that finds no event has no part in the file. */
  lemma NothingWritten(parts: seq<Part>, s: State, s': State, t: nat)
    requires PartsInv(parts, s) && t < |s.threads| && t < |s'.threads| && OutputMove(s, s', t)
    requires (s.threads[t].pc.ShowFind? || s.threads[t].pc.ShowOpen?) && s'.threads[t].pc.Fetch?
    ensures NoPart(NextParts(parts, s, s'), s.threads[t].job)
  {
  }

  /** The part of one that does is what it wrote in its last step. */
  lemma CellsWritten(parts: seq<Part>, s: State, s': State, t: nat)
    requires PartsInv(parts, s) && t < |s.threads| && s.outputLock == Some(t) && s.threads[t].pc.ShowCell?
    requires s.output <= s'.output
    ensures var parts' := NextParts(parts, s, s');
            && parts' != [] && parts'[|parts'| - 1].job == s.threads[t].job
            && parts'[|parts'| - 1].text == s'.output[|s.output|..]
  {
    GrownParts(parts, s, s');
  }

  /** What the invariant says about a thread whose SHOW returns in the next state. */
  lemma ReturnTaken(input: string, n: nat, run: seq<State>, m: nat, t: nat)
    requires IsRun(input, n, run) && m + 1 < |run| && t < |run[m].threads| && InShow(run[m].threads[t].pc)
    requires AtFetch(run[m + 1], t)
    ensures UniqueIds(run[m].events) && PartsInv(PartsAt(run, m), run[m]) && OutputMove(run[m], run[m + 1], t)
    ensures run[m].threads[t].pc.ShowCell? ==> run[m].outputLock == Some(t) && run[m + 1].outputLock.None?
  {
    RunParts(input, n, run, m);
    IdsAlwaysUnique(input, n, run, m);
    var a := StepTaken(input, n, run, m);
    OwnReturn(run[m], a, t);
  }

  lemma OwnReturn(s: State, a: Action, t: nat)
    requires Shape(s) && Locks(s) && Rounds(s) && Enabled(s, a) && t < |s.threads| && InShow(s.threads[t].pc)
    requires AtFetch(Next(s, a), t)
    ensures a.ThreadStep? && a.t == t && OutputMove(s, Next(s, a), t)
    ensures s.threads[t].pc.ShowCell? ==> s.outputLock == Some(t) && Next(s, a).outputLock.None?
  {
    assert OwnsItsLocks(s, t);
    if a.MainStep? {
      MainOutput(s);
    } else {
      ThreadFrame(s, a.t, a.garbage);
      if a.t == t {
        WorkOutput(s, t, a.garbage);
      }
    }
  }

  lemma ReturnedShowDone(run: seq<State>, parts: seq<Part>, i: nat, m: nat, t: nat, job: nat, id: nat,
                         moments: seq<nat>)
    requires i < m && m + 1 < |run| && t < |run[m].threads| && t < |run[m + 1].threads|
    requires InShowOf(run[m], t, job) && ShowReturns(run, i, m, t, id, moments)
    requires UniqueIds(run[m].events) && PartsInv(parts, run[m]) && OutputMove(run[m], run[m + 1], t)
    requires run[m].threads[t].pc.ShowCell? ==> run[m].outputLock == Some(t)
    ensures ShowDone(run, NextParts(parts, run[m], run[m + 1]), i, m + 1, job, id, moments)
    ensures run[m].threads[t].pc.ShowCell? <==> Find(run[m].events, id).Some?
  {
    if run[m].threads[t].pc.ShowCell? {
      CellsWritten(parts, run[m], run[m + 1], t);
      FindUnique(run[m].events, run[m].threads[t].pc.k);
    } else {
      NothingWritten(parts, run[m], run[m + 1], t);
    }
  }

  /** In the next state the thread is back: how it got there. */
  lemma ShowEndsFrom(input: string, n: nat, run: seq<State>, i: nat, m: nat, t: nat, job: nat, id: nat,
                     before: seq<nat>) returns (moments: seq<nat>)
    requires IsRun(input, n, run) && i < m && m + 1 < |run| && ShowPlace(run, i, m, t, job, id, before)
    requires AtFetch(run[m + 1], t)
    ensures InShowOf(run[m], t, job) && ShowDone(run, PartsAt(run, m + 1), i, m + 1, job, id, moments)
    ensures Find(run[m].events, id).Some? ==> run[m + 1].outputLock.None?
  {
    ShowPlaceIn(run, i, m, t, job, id, before);
    moments := ShowReturnTaken(input, n, run, i, m, t, job, id, before);
    ReturnTaken(input, n, run, m, t);
    ReturnedShowDone(run, PartsAt(run, m), i, m, t, job, id, moments);
  }

  lemma ShowReturnTaken(input: string, n: nat, run: seq<State>, i: nat, m: nat, t: nat, job: nat, id: nat,
                        before: seq<nat>) returns (moments: seq<nat>)
    requires IsRun(input, n, run) && i < m && m + 1 < |run| && ShowPlace(run, i, m, t, job, id, before)
    requires AtFetch(run[m + 1], t)
    ensures t < |run[m].threads| && ShowReturns(run, i, m, t, id, moments)
  {
    moments := ShowStepTaken(input, n, run, i, m, t, job, id, before);
  }

  lemma ShowEnded(input: string, n: nat, run: seq<State>, i: nat, m: nat, t: nat, job: nat, id: nat)
    returns (moments: seq<nat>)
    requires IsRun(input, n, run) && i < m && m + 1 < |run| && ShowGoesOn(run, i, m, t, job, id)
    requires AtFetch(run[m + 1], t)
    ensures ShowDone(run, PartsAt(run, m + 1), i, m + 1, job, id, moments)
    ensures Find(run[m].events, id).Some? ==> run[m + 1].outputLock.None?
  {
    var before :| ShowPlace(run, i, m, t, job, id, before);
    moments := ShowEndsFrom(input, n, run, i, m, t, job, id, before);
  }

  /** The whole of a SHOW: its thread stays in it until it returns, and returns in one of two ways. */
  lemma ShowFromFetch(input: string, n: nat, run: seq<State>, i: nat, j: nat, t: nat, id: nat)
    returns (moments: seq<nat>)
    requires IsRun(input, n, run) && FetchesShow(run, i, t, id) && ReturnsIn(run, i, j, t)
    ensures i + 1 < j && forall m :: i < m < j ==> InShowOf(run[m], t, |run[i].log|)
    ensures ShowDone(run, PartsAt(run, j), i, j, |run[i].log|, id, moments)
    ensures Find(run[j - 1].events, id).Some? ==> run[j].outputLock.None?
  {
    var job := |run[i].log|;
    ShowGoesOnFrom(input, n, run, i, t, id);
    RunHandsShowOn(input, n, run, i, t, job, id);
    ShowInBetween(run, i, j, t, job, id);
    moments := ShowEnded(input, n, run, i, j - 1, t, job, id);
  }

  // ----- What is in the file later on -----

  /** Nobody is executing the command any more. */
  ghost predicate JobOver(s: State, job: nat) {
    job < |s.log| && forall u :: 0 <= u < |s.threads| && Busy(s.threads[u].pc) ==> s.threads[u].job != job
  }

  lemma JobStaysOver(s: State, a: Action, job: nat)
    requires Shape(s) && Rounds(s) && Enabled(s, a) && JobOver(s, job)
    ensures JobOver(Next(s, a), job)
  {
    if a.MainStep? {
      MainOutput(s);
    } else if s.threads[a.t].pc.Fetch? {
      FetchOutput(s, a.t);
    } else {
      WorkHistory(s, a.t, a.garbage);
    }
  }

  lemma NoPartStays(parts: seq<Part>, s: State, a: Action, job: nat)
    requires Shape(s) && Locks(s) && Rounds(s) && Enabled(s, a) && JobOver(s, job) && NoPart(parts, job)
    ensures NoPart(NextParts(parts, s, Next(s, a)), job)
  {
    PartStarted(parts, s, a);
  }

  ghost predicate NeverWritten(run: seq<State>, job: nat, m: nat) {
    m < |run| ==> JobOver(run[m], job) && NoPart(PartsAt(run, m), job)
  }

  ghost predicate NeverHandedOn(run: seq<State>, job: nat, m: nat) {
    NeverWritten(run, job, m) ==> NeverWritten(run, job, m + 1)
  }

  ghost predicate NeverAlwaysHandedOn(run: seq<State>, job: nat) {
    forall m: nat {:trigger NeverHandedOn(run, job, m)} :: NeverHandedOn(run, job, m)
  }

  lemma NeverWrittenNext(input: string, n: nat, run: seq<State>, job: nat, m: nat)
    requires IsRun(input, n, run)
    ensures NeverHandedOn(run, job, m)
  {
    if m + 1 < |run| && NeverWritten(run, job, m) {
      var a := StepTaken(input, n, run, m);
      JobStaysOver(run[m], a, job);
      NoPartStays(PartsAt(run, m), run[m], a, job);
    }
  }

  lemma RunNeverWrites(input: string, n: nat, run: seq<State>, job: nat)
    requires IsRun(input, n, run)
    ensures NeverAlwaysHandedOn(run, job)
  {
    forall m: nat ensures NeverHandedOn(run, job, m) {
      NeverWrittenNext(input, n, run, job, m);
    }
  }

  lemma {:induction false} NeverWrittenTo(run: seq<State>, job: nat, j: nat, l: nat)
    requires NeverAlwaysHandedOn(run, job) && j <= l && NeverWritten(run, job, j)
    ensures NeverWritten(run, job, l)
    decreases l
  {
    if j < l {
      NeverWrittenTo(run, job, j, l - 1);
      assert NeverHandedOn(run, job, l - 1);
    }
  }

  lemma ReturnedJobOver(s: State, t: nat, job: nat)
    requires Jobs(s) && job < |s.log| && s.log[job].thread == t && AtFetch(s, t)
    ensures JobOver(s, job)
  {
    forall u | 0 <= u < |s.threads| && Busy(s.threads[u].pc) ensures s.threads[u].job != job {
      assert WorksOnItsJob(s, u);
    }
  }

  /** The log still says which thread fetched the SHOW. */
  lemma FetchRemembered(input: string, n: nat, run: seq<State>, i: nat, j: nat, t: nat, id: nat)
    requires IsRun(input, n, run) && FetchesShow(run, i, t, id) && i < j < |run| && AtFetch(run[j], t)
    ensures JobOver(run[j], |run[i].log|)
  {
    RunHistoryGrows(input, n, run);
    HistoryGrows(run, i + 1, j);
    RunJobs(input, n, run, j);
    ReturnedJobOver(run[j], t, |run[i].log|);
  }

  lemma ClosedWhole(run: seq<State>, j: nat, l: nat)
    requires j <= l < |run| && run[j].outputLock.None? && ClosedParts(run, j) <= ClosedParts(run, l)
    ensures PartsAt(run, j) <= PartsAt(run, l)
  {
    var parts := PartsAt(run, j);
    assert parts[..|parts|] == parts;
  }

  lemma LastAmongLater(parts: seq<Part>, later: seq<Part>, log: seq<Fetched>)
    requires parts != [] && parts <= later && PartJobs(later, log)
    ensures WrittenFor(later, parts[|parts| - 1].job) == parts[|parts| - 1].text
  {
    assert later[|parts| - 1] == parts[|parts| - 1];
    WrittenForAt(later, |parts| - 1);
  }

  /** A part that is complete is what its job has written, from then on. */
  lemma LastPartStays(input: string, n: nat, run: seq<State>, j: nat, l: nat)
    requires IsRun(input, n, run) && j <= l < |run| && run[j].outputLock.None? && PartsAt(run, j) != []
    ensures var parts := PartsAt(run, j);
            WrittenFor(PartsAt(run, l), parts[|parts| - 1].job) == parts[|parts| - 1].text
  {
    ClosedPartsStay(input, n, run, j, l);
    ClosedWhole(run, j, l);
    RunParts(input, n, run, l);
    LastAmongLater(PartsAt(run, j), PartsAt(run, l), run[l].log);
  }

  /** What a SHOW that returned in state j has in the file in state l, or at its end. */
  ghost predicate ShowWrote(run: seq<State>, i: nat, j: nat, l: nat, job: nat, id: nat, moments: seq<nat>)
    requires 0 < j <= l < |run|
  {
    match Find(run[j - 1].events, id)
    case None => NoPart(PartsAt(run, l), job)
    case Some(k) =>
      && Moments(run, k, moments, i, j)
      && ShowEnds(run[j - 1].events[k], Seen(run, k, moments), WrittenFor(PartsAt(run, l), job))
  }

  lemma DoneThenWritten(input: string, n: nat, run: seq<State>, i: nat, j: nat, l: nat, job: nat, id: nat,
                        moments: seq<nat>)
    requires IsRun(input, n, run) && 0 < j <= l < |run| && JobOver(run[j], job)
    requires ShowDone(run, PartsAt(run, j), i, j, job, id, moments)
    requires Find(run[j - 1].events, id).Some? ==> run[j].outputLock.None?
    ensures ShowWrote(run, i, j, l, job, id, moments)
  {
    if Find(run[j - 1].events, id).Some? {
      LastPartStays(input, n, run, j, l);
    } else {
      NoPartEver(input, n, run, job, j, l);
    }
  }

  lemma NoPartEver(input: string, n: nat, run: seq<State>, job: nat, j: nat, l: nat)
    requires IsRun(input, n, run) && j <= l < |run| && JobOver(run[j], job) && NoPart(PartsAt(run, j), job)
    ensures NoPart(PartsAt(run, l), job)
  {
    RunNeverWrites(input, n, run, job);
    NeverWrittenTo(run, job, j, l);
  }

  /**
   * A SHOW, from the step that fetches it to the first state in which its thread fetches again: until then the
   * thread is in that SHOW. It either has found no event, and has no part in the file, then or later; or its part
   * of the file is what the buffer makes of the event's cells, each read once, in order, at a moment in between.
   */
  lemma ShowWrites(input: string, n: nat, run: seq<State>, i: nat, j: nat, l: nat, t: nat, id: nat)
    returns (moments: seq<nat>)
    requires IsRun(input, n, run) && FetchesShow(run, i, t, id) && ReturnsIn(run, i, j, t) && j <= l < |run|
    ensures i + 1 < j && forall m :: i < m < j ==> InShowOf(run[m], t, |run[i].log|)
    ensures ShowWrote(run, i, j, l, |run[i].log|, id, moments)
  {
    moments := ShowFromFetch(input, n, run, i, j, t, id);
    FetchRemembered(input, n, run, i, j, t, id);
    DoneThenWritten(input, n, run, i, j, l, |run[i].log|, id, moments);
  }

  // ----- An event nobody reserves meanwhile -----

  /** No reservation of event id is on its way. */
  predicate EventFree(s: State, id: nat) {
    forall k :: 0 <= k < |s.events| && s.events[k].id == id ==> k < |s.mutexes| && s.mutexes[k] == None
  }

  ghost predicate SameEvent(run: seq<State>, k: nat, e: EventValue, m: nat) {
    m < |run| ==> k < |run[m].events| && run[m].events[k] == e
  }

  lemma SameEventNext(input: string, n: nat, run: seq<State>, k: nat, e: EventValue, m: nat)
    requires IsRun(input, n, run) && (m < |run| ==> EventFree(run[m], e.id))
    ensures SameEvent(run, k, e, m) ==> SameEvent(run, k, e, m + 1)
  {
    if m + 1 < |run| && SameEvent(run, k, e, m) {
      var a := StepTaken(input, n, run, m);
      FreeEventStays(run[m], a, k);
    }
  }

  lemma SameEventTo(input: string, n: nat, run: seq<State>, k: nat, m: nat, l: nat)
    requires IsRun(input, n, run) && m <= l < |run| && k < |run[m].events|
    requires forall x :: m <= x < l ==> EventFree(run[x], run[m].events[k].id)
    ensures k < |run[l].events| && run[l].events[k] == run[m].events[k]
  {
    var e := run[m].events[k];
    var holds: nat -> bool := (x: nat) => SameEvent(run, k, e, x);
    forall x: nat | m <= x < l ensures HandsOn(holds, x) {
      SameEventNext(input, n, run, k, e, x);
    }
    HandedOn(holds, m, l);
    assert SameEvent(run, k, e, l);
  }

  /** What a run of undisturbed moments has seen are the first cells of the event. */
  lemma {:induction false} SeenIsPrefix(run: seq<State>, k: nat, moments: seq<nat>, data: seq<nat>)
    requires |moments| <= |data|
    requires forall q :: 0 <= q < |moments| ==> CellAt(run, moments[q], k, q) == data[q]
    ensures Seen(run, k, moments) == data[..|moments|]
    decreases |moments|
  {
    if moments != [] {
      var last := |moments| - 1;
      SeenIsPrefix(run, k, moments[..last], data);
      assert data[..|moments|] == data[..last] + [data[last]];
    }
  }

  /** The first cells, put one after the other, are the first cells of the whole. */
  lemma PrefixText(e: EventValue, p: nat)
    requires p <= |e.data|
    ensures SeenText(e.data[..p], e.cols, Capacity(e)) == FillOf(e, p)
  {
    var front := e.data[..p];
    forall q | 0 <= q < p ensures Texts(front)[q] == Texts(e.data)[q] {
      TextAt(front, q);
      TextAt(e.data, q);
    }
    SamePrefix(Texts(front), Texts(e.data), Capacity(e), p);
    FillsAlike(SeatPutter(Texts(e.data), Capacity(e)), SeatPutter(Texts(front), Capacity(e)), LineCloser(Capacity(e)),
               e.cols, p);
  }

  /** Where the whole text fits, no guard fires on the way. */
  lemma FillsToTheEnd(e: EventValue, p: nat)
    requires p <= |e.data| && ShownText(e).Some?
    ensures FillOf(e, p).Some?
  {
    if FillOf(e, p).None? {
      FillStops(SeatPutter(Texts(e.data), Capacity(e)), LineCloser(Capacity(e)), e.cols, p, |e.data|);
    }
  }

  lemma WholeGridShown(e: EventValue, seen: seq<nat>, text: string)
    requires |seen| <= |e.data| && seen == e.data[..|seen|] && ShowEnds(e, seen, text)
    requires WellFormed(e) && ShownText(e) == Some(GridText(e))
    ensures text == GridText(e)
  {
    PrefixText(e, |seen|);
    FillsToTheEnd(e, |seen|);
  }

  /** SHOW id, fetched in step i and back in state j, during which nobody reserves the event. */
  predicate Undisturbed(run: seq<State>, i: nat, j: nat, id: nat) {
    j < |run| && forall m :: i < m <= j ==> EventFree(run[m], id)
  }

  lemma UndisturbedSeen(input: string, n: nat, run: seq<State>, i: nat, j: nat, k: nat, moments: seq<nat>)
    requires IsRun(input, n, run) && 0 < j < |run| && k < |run[j - 1].events|
    requires Undisturbed(run, i, j, run[j - 1].events[k].id) && Moments(run, k, moments, i, j)
    requires |moments| <= |run[j - 1].events[k].data|
    ensures Seen(run, k, moments) == run[j - 1].events[k].data[..|moments|]
  {
    var e := run[j - 1].events[k];
    forall q | 0 <= q < |moments| ensures CellAt(run, moments[q], k, q) == e.data[q] {
      SameIdStays(input, n, run, k, moments[q], j - 1);
      SameEventTo(input, n, run, k, moments[q], j - 1);
    }
    SeenIsPrefix(run, k, moments, e.data);
  }

  ghost predicate SameId(run: seq<State>, k: nat, id: nat, m: nat) {
    m < |run| ==> k < |run[m].events| && run[m].events[k].id == id
  }

  lemma SameIdNext(input: string, n: nat, run: seq<State>, k: nat, id: nat, m: nat)
    requires IsRun(input, n, run)
    ensures SameId(run, k, id, m) ==> SameId(run, k, id, m + 1)
  {
    if m + 1 < |run| && SameId(run, k, id, m) {
      var a := StepTaken(input, n, run, m);
      EventsGrow(run[m], a);
    }
  }

  lemma EventsGrow(s: State, a: Action)
    requires Shape(s) && Rounds(s) && Enabled(s, a)
    ensures Grows(s.events, Next(s, a).events)
  {
    if a.ThreadStep? {
      ThreadFrame(s, a.t, a.garbage);
    }
  }

  lemma SameIdStays(input: string, n: nat, run: seq<State>, k: nat, m: nat, l: nat)
    requires IsRun(input, n, run) && m <= l < |run| && k < |run[m].events|
    ensures k < |run[l].events| && run[l].events[k].id == run[m].events[k].id
  {
    var id := run[m].events[k].id;
    var holds: nat -> bool := (x: nat) => SameId(run, k, id, x);
    forall x: nat | m <= x < l ensures HandsOn(holds, x) {
      SameIdNext(input, n, run, k, id, x);
    }
    HandedOn(holds, m, l);
    assert SameId(run, k, id, l);
  }

  /** A hall with seats whose ids have at most four digits. */
  predicate ShortHall(e: EventValue) {
    0 < e.rows && 0 < e.cols && CountableSeats(e) && e.reservations < 10000
  }

  /** The event SHOW looks at is dense, so with fewer than 10000 reservations all of it is shown. */
  lemma UndisturbedFits(input: string, n: nat, run: seq<State>, m: nat, k: nat)
    requires IsRun(input, n, run) && m < |run| && k < |run[m].events| && EventFree(run[m], run[m].events[k].id)
    requires ShortHall(run[m].events[k])
    ensures WellFormed(run[m].events[k]) && ShownText(run[m].events[k]) == Some(GridText(run[m].events[k]))
  {
    RunInv(input, n, run, m);
    FreeEventDense(input, n, run[m], k);
    ShowPrintsDenseGrid(run[m].events[k]);
  }

  /** What SHOW id is to write over these events: the grid of the one with the id; without one, nothing. */
  ghost predicate GridIn(store: Store, id: nat, parts: seq<Part>, job: nat) {
    match Find(store, id)
    case None => NoPart(parts, job)
    case Some(k) => WellFormed(store[k]) && WrittenFor(parts, job) == GridText(store[k]) != ""
  }

  /**
   * A SHOW of an event that nobody reserves meanwhile, with fewer than 10000 reservations: from its fetch on, the
   * buffer guards never fire, and what it has in the file when it returns, and ever after, is exactly the grid's
   * text; it has nothing there exactly when the list has no event of that id.
   */
  lemma ShowPrintsTheGrid(input: string, n: nat, run: seq<State>, i: nat, j: nat, l: nat, t: nat, id: nat)
    requires IsRun(input, n, run) && FetchesShow(run, i, t, id) && ReturnsIn(run, i, j, t) && j <= l < |run|
    requires Undisturbed(run, i, j, id)
    requires Find(run[j - 1].events, id).Some? ==> ShortHall(run[j - 1].events[Find(run[j - 1].events, id).value])
    ensures GridIn(run[j - 1].events, id, PartsAt(run, l), |run[i].log|)
  {
    var moments := ShowWrites(input, n, run, i, j, l, t, id);
    if Find(run[j - 1].events, id).Some? {
      GridWritten(input, n, run, i, j, l, |run[i].log|, id, moments);
    }
  }

  lemma GridWritten(input: string, n: nat, run: seq<State>, i: nat, j: nat, l: nat, job: nat, id: nat,
                    moments: seq<nat>)
    requires IsRun(input, n, run) && i + 1 < j <= l < |run| && Find(run[j - 1].events, id).Some?
    requires ShowWrote(run, i, j, l, job, id, moments) && Undisturbed(run, i, j, id)
    requires ShortHall(run[j - 1].events[Find(run[j - 1].events, id).value])
    ensures GridIn(run[j - 1].events, id, PartsAt(run, l), job)
  {
    var k := Find(run[j - 1].events, id).value;
    var e := run[j - 1].events[k];
    UndisturbedFits(input, n, run, j - 1, k);
    UndisturbedSeen(input, n, run, i, j, k, moments);
    WholeGridShown(e, Seen(run, k, moments), WrittenFor(PartsAt(run, l), job));
    GridNotEmpty(e);
  }

  lemma GridNotEmpty(e: EventValue)
    requires WellFormed(e) && 0 < e.rows
    ensures GridText(e) != ""
  {
    RowInGrid(e, e.rows - 1);
    LineAt(Texts(e.data), e.cols, e.rows, e.rows - 1);
  }
}
