/** The bounded ring of admitted sessions, as a queue. */
module SessionRing {
  const MAX_SESSION_COUNT: nat := 8

  datatype SessionInfo = SessionInfo(id: nat, request: string, response: string)

  /** The slot i places behind first. */
  function Place(first: int, i: int): int {
    if first + i < MAX_SESSION_COUNT then first + i else first + i - MAX_SESSION_COUNT
  }

  lemma PlaceIsRemainder(first: int, i: int)
    requires 0 <= first + i < 2 * MAX_SESSION_COUNT
    ensures (first + i) % MAX_SESSION_COUNT == Place(first, i)
  {
  }

  class SessionBuffer {
    const data: array<SessionInfo>
    var front: int
    var rear: int
    var count: int

    ghost predicate Valid()
      reads this, data
    {
      && data.Length == MAX_SESSION_COUNT && 0 <= count <= MAX_SESSION_COUNT
      && 0 <= front < MAX_SESSION_COUNT && -1 <= rear < MAX_SESSION_COUNT
      && Place(rear, 1) == Place(front, count)
    }

    /** The sessions in the order they were added. */
    ghost function Queue(): (sessions: seq<SessionInfo>)
      reads this, data
      requires Valid()
      ensures |sessions| == count
    {
      var (slots, first) := (data[..], front);
      seq(count, i requires 0 <= i < MAX_SESSION_COUNT && |slots| == MAX_SESSION_COUNT
                         && 0 <= first < MAX_SESSION_COUNT => slots[Place(first, i)])
    }

    constructor ()
      ensures Valid() && fresh(data) && Queue() == []
    {
      data := new SessionInfo[MAX_SESSION_COUNT](_ => SessionInfo(0, "", ""));
      front, rear, count := 0, -1, 0;
    }

    predicate IsFull()
      reads this
    {
      count == MAX_SESSION_COUNT
    }

    /** A full ring drops the session. */
    method Enqueue(session: SessionInfo)
      requires Valid()
      modifies this`rear, this`count, data
      ensures Valid()
      ensures Queue() == if old(|Queue()|) == MAX_SESSION_COUNT then old(Queue()) else old(Queue()) + [session]
    {
      if IsFull() {
        return;
      }
      PlaceIsRemainder(rear, 1);
      rear := (rear + 1) % MAX_SESSION_COUNT;
      data[rear] := session;
      count := count + 1;
    }

    /** Takes whatever is at the front; there is no test for an empty ring, whose count goes to -1. */
    method Dequeue() returns (session: SessionInfo)
      requires Valid()
      modifies this`front, this`count
      ensures session == old(data[front]) && front == Place(old(front), 1) && count == old(count) - 1
      ensures old(Queue()) != [] ==> Valid() && [session] + Queue() == old(Queue())
    {
      PlaceIsRemainder(front, 1);
      session := data[front];
      front := (front + 1) % MAX_SESSION_COUNT;
      count := count - 1;
    }
  }
}

/** Admitting, serving and ending sessions, each as one step; waits are guards. */
module Sessions {
  import opened Options
  import opened Sequences
  import opened SessionRing

  /** flags: which ids are taken; workers: the session each worker thread serves. */
  datatype Server = Server(
    flags: seq<nat>,
    active: int,
    queue: seq<SessionInfo>,
    workers: seq<Option<SessionInfo>>
  )

  predicate Shape(s: Server) {
    |s.flags| == MAX_SESSION_COUNT && |s.workers| == MAX_SESSION_COUNT
  }

  function Fresh(): Server {
    Server(seq(MAX_SESSION_COUNT, _ => 0), 0, [], seq(MAX_SESSION_COUNT, _ => None))
  }

  function FirstFree(flags: seq<nat>): (id: Option<nat>)
    ensures id.None? ==> forall i :: 0 <= i < |flags| ==> flags[i] != 0
    ensures id.Some? ==> id.value < |flags| && flags[id.value] == 0
    ensures id.Some? ==> forall i :: 0 <= i < id.value ==> flags[i] != 0
  {
    if flags == [] then None
    else if flags[0] == 0 then Some(0)
    else match FirstFree(flags[1..])
      case None => None
      case Some(i) => Some(i + 1)
  }

  function Clamp(active: int): int {
    if active > MAX_SESSION_COUNT then MAX_SESSION_COUNT else active
  }

  /** Room in the ring is tested here; with no free id the session would keep the unset one. */
  function Admit(s: Server, request: string, response: string, unset: nat): Server
    requires Shape(s)
  {
    var id := FirstFree(s.flags);
    var session := SessionInfo(if id.Some? then id.value else unset, request, response);
    Server(if id.Some? then s.flags[id.value := 1] else s.flags,
           Clamp(s.active) + 1,
           if |s.queue| == MAX_SESSION_COUNT then s.queue else s.queue + [session],
           s.workers)
  }

  function Take(s: Server, w: nat): Server
    requires w < |s.workers| && s.queue != []
  {
    s.(queue := s.queue[1..], workers := s.workers[w := Some(s.queue[0])])
  }

  function Quit(s: Server, w: nat): Server
    requires Shape(s) && w < |s.workers| && s.workers[w].Some? && s.workers[w].value.id < MAX_SESSION_COUNT
  {
    s.(flags := s.flags[s.workers[w].value.id := 0],
       active := Clamp(s.active) - 1,
       workers := s.workers[w := None])
  }

  /** The same state as the program holds it. */
  class SessionServer {
    const ring: SessionBuffer
    const flags: array<nat>
    const workers: array<Option<SessionInfo>>
    var active: int

    ghost predicate Valid()
      reads this, ring, ring.data, flags, workers
    {
      ring.Valid() && flags.Length == MAX_SESSION_COUNT && workers.Length == MAX_SESSION_COUNT
    }

    ghost function Value(): (s: Server)
      reads this, ring, ring.data, flags, workers
      requires Valid()
      ensures Shape(s)
    {
      Server(flags[..], active, ring.Queue(), workers[..])
    }

    constructor ()
      ensures Valid() && Value() == Fresh()
    {
      ring := new SessionBuffer();
      flags := new nat[MAX_SESSION_COUNT](_ => 0);
      workers := new Option<SessionInfo>[MAX_SESSION_COUNT](_ => None);
      active := 0;
    }

    /** The loop over the flags. */
    method TakeFreeId(unset: nat) returns (id: nat)
      requires Valid()
      modifies flags
      ensures Valid()
      ensures match FirstFree(old(flags[..]))
              case None => id == unset && flags[..] == old(flags[..])
              case Some(free) => id == free && flags[..] == old(flags[..])[free := 1]
    {
      for i := 0 to MAX_SESSION_COUNT
        invariant flags[..] == old(flags[..]) && forall j :: 0 <= j < i ==> flags[j] != 0
      {
        if flags[i] == 0 {
          flags[i] := 1;
          return i;
        }
      }
      return unset;
    }

    method AdmitSession(request: string, response: string, unset: nat)
      requires Valid()
      modifies this`active, flags, ring`rear, ring`count, ring.data
      ensures Valid() && Value() == Admit(old(Value()), request, response, unset)
    {
      if active > MAX_SESSION_COUNT {
        active := MAX_SESSION_COUNT;
      }
      active := active + 1;
      var id := TakeFreeId(unset);
      ring.Enqueue(SessionInfo(id, request, response));
    }

    method TakeSession(w: nat)
      requires Valid() && w < workers.Length && ring.Queue() != []
      modifies workers, ring`front, ring`count
      ensures Valid() && Value() == Take(old(Value()), w)
    {
      var session := ring.Dequeue();
      workers[w] := Some(session);
    }

    method QuitSession(w: nat)
      requires Valid() && w < workers.Length && workers[w].Some? && workers[w].value.id < MAX_SESSION_COUNT
      modifies this`active, flags, workers
      ensures Valid() && Value() == Quit(old(Value()), w)
    {
      flags[workers[w].value.id] := 0;
      workers[w] := None;
      if active > MAX_SESSION_COUNT {
        active := MAX_SESSION_COUNT;
      }
      active := active - 1;
    }
  }

  // ----- The ids of live sessions -----

  function IdsOfQueue(queue: seq<SessionInfo>): (ids: seq<nat>)
    ensures |ids| == |queue|
  {
    seq(|queue|, i requires 0 <= i < |queue| => queue[i].id)
  }

  function IdOf(worker: Option<SessionInfo>): multiset<nat> {
    if worker.Some? then multiset{worker.value.id} else multiset{}
  }

  function IdsOfWorkers(workers: seq<Option<SessionInfo>>): multiset<nat> {
    if workers == [] then multiset{}
    else IdsOfWorkers(workers[..|workers| - 1]) + IdOf(workers[|workers| - 1])
  }

  /** One entry for every queued and every served session. */
  function LiveIds(s: Server): multiset<nat> {
    multiset(IdsOfQueue(s.queue)) + IdsOfWorkers(s.workers)
  }

  /** A worker's session is one entry among the ids. */
  lemma {:induction false} WorkerDone(workers: seq<Option<SessionInfo>>, w: nat)
    requires w < |workers| && workers[w].Some?
    ensures IdsOfWorkers(workers) == IdsOfWorkers(workers[w := None]) + multiset{workers[w].value.id}
  {
    var front := workers[..|workers| - 1];
    if w < |front| {
      WorkerDone(front, w);
      assert workers[w := None][..|front|] == front[w := None];
      Swap(IdsOfWorkers(front[w := None]), multiset{front[w].value.id}, IdOf(workers[|front|]));
    } else {
      assert workers[w := None][..|front|] == front;
    }
  }

  lemma Swap(a: multiset<nat>, b: multiset<nat>, c: multiset<nat>)
    ensures a + b + c == a + c + b
  {
  }

  lemma WorkerBusy(workers: seq<Option<SessionInfo>>, w: nat, session: SessionInfo)
    requires w < |workers| && workers[w].None?
    ensures IdsOfWorkers(workers[w := Some(session)]) == IdsOfWorkers(workers) + multiset{session.id}
  {
    WorkerDone(workers[w := Some(session)], w);
    assert workers[w := Some(session)][w := None] == workers;
  }

  /** The flags say exactly which ids are in use, each by one session, and active counts the sessions. */
  ghost predicate Consistent(s: Server) {
    && Shape(s)
    && (forall id: nat :: LiveIds(s)[id] == if id < MAX_SESSION_COUNT && s.flags[id] != 0 then 1 else 0)
    && s.active == |LiveIds(s)|
  }

  /** Different ids below n: at most n of them, and with fewer one is missing. */
  lemma {:induction false} FewIds(ids: multiset<nat>, n: nat)
    requires forall id: nat :: ids[id] <= 1 && (ids[id] > 0 ==> id < n)
    ensures |ids| <= n
    ensures |ids| < n <==> exists id: nat :: id < n && ids[id] == 0
  {
    if n > 0 {
      var others := ids[n - 1 := 0];
      assert ids == others + multiset{n - 1} || ids == others;
      FewIds(others, n - 1);
    }
  }

  lemma RoomIffNotAllActive(s: Server)
    requires Consistent(s)
    ensures 0 <= s.active <= MAX_SESSION_COUNT
    ensures s.active < MAX_SESSION_COUNT <==> FirstFree(s.flags).Some?
    ensures |s.queue| <= s.active
  {
    FewIds(LiveIds(s), MAX_SESSION_COUNT);
    forall id: nat | id < MAX_SESSION_COUNT ensures LiveIds(s)[id] == 0 <==> s.flags[id] == 0 {
    }
  }

  lemma QueueGrows(queue: seq<SessionInfo>, session: SessionInfo)
    ensures multiset(IdsOfQueue(queue + [session])) == multiset(IdsOfQueue(queue)) + multiset{session.id}
  {
    assert IdsOfQueue(queue + [session]) == IdsOfQueue(queue) + [session.id];
  }

  lemma QueueShrinks(queue: seq<SessionInfo>)
    requires queue != []
    ensures multiset(IdsOfQueue(queue)) == multiset{queue[0].id} + multiset(IdsOfQueue(queue[1..]))
  {
    assert IdsOfQueue(queue) == [queue[0].id] + IdsOfQueue(queue[1..]);
  }

  // ----- Steps -----

  lemma AdmitConsistent(s: Server, request: string, response: string, unset: nat)
    requires Consistent(s) && s.active != MAX_SESSION_COUNT
    ensures Consistent(Admit(s, request, response, unset))
    ensures var s' := Admit(s, request, response, unset);
            |s'.queue| == |s.queue| + 1 && s'.queue[..|s.queue|] == s.queue
  {
    RoomIffNotAllActive(s);
    var s' := Admit(s, request, response, unset);
    QueueGrows(s.queue, s'.queue[|s.queue|]);
    assert LiveIds(s') == LiveIds(s) + multiset{FirstFree(s.flags).value};
  }

  lemma TakeConsistent(s: Server, w: nat)
    requires Consistent(s) && w < |s.workers| && s.workers[w].None? && s.queue != []
    ensures Consistent(Take(s, w))
  {
    QueueShrinks(s.queue);
    WorkerBusy(s.workers, w, s.queue[0]);
    assert LiveIds(Take(s, w)) == LiveIds(s);
  }

  /** The id a worker gives back is an id in use. */
  lemma WorkerIsLive(s: Server, w: nat)
    requires Consistent(s) && w < |s.workers| && s.workers[w].Some?
    ensures s.workers[w].value.id < MAX_SESSION_COUNT && s.flags[s.workers[w].value.id] != 0
    ensures IdsOfWorkers(s.workers) == IdsOfWorkers(s.workers[w := None]) + multiset{s.workers[w].value.id}
  {
    WorkerDone(s.workers, w);
    assert LiveIds(s)[s.workers[w].value.id] >= 1;
  }

  lemma QuitConsistent(s: Server, w: nat)
    requires Consistent(s) && w < |s.workers| && s.workers[w].Some?
    ensures s.workers[w].value.id < MAX_SESSION_COUNT && Consistent(Quit(s, w))
  {
    WorkerIsLive(s, w);
    RoomIffNotAllActive(s);
    IdGivenBack(LiveIds(s), LiveIds(Quit(s, w)), s.workers[w].value.id);
  }

  lemma IdGivenBack(before: multiset<nat>, after: multiset<nat>, id: nat)
    requires before == after + multiset{id}
    ensures |before| == |after| + 1 && after[id] == before[id] - 1
    ensures forall other: nat :: other != id ==> after[other] == before[other]
  {
  }

  // ----- Runs -----

  datatype Happening =
    | Admitting(request: string, response: string, unset: nat)
    | Taking(w: nat)
    | Quitting(w: nat)

  /** History: every session admitted and every session a worker took, in order. */
  datatype State = State(server: Server, admitted: seq<SessionInfo>, taken: seq<SessionInfo>)

  /** The acceptor waits while all sessions are in use, a worker while the ring is empty. */
  predicate Enabled(st: State, h: Happening) {
    var s := st.server;
    Shape(s) &&
    match h
    case Admitting(_, _, _) => s.active != MAX_SESSION_COUNT
    case Taking(w) => w < MAX_SESSION_COUNT && s.workers[w].None? && s.queue != []
    case Quitting(w) => w < MAX_SESSION_COUNT && s.workers[w].Some? && s.workers[w].value.id < MAX_SESSION_COUNT
  }

  function Next(st: State, h: Happening): State
    requires Enabled(st, h)
  {
    var s := st.server;
    match h
    case Admitting(request, response, unset) =>
      var id := FirstFree(s.flags);
      State(Admit(s, request, response, unset),
            st.admitted + [SessionInfo(if id.Some? then id.value else unset, request, response)], st.taken)
    case Taking(w) => State(Take(s, w), st.admitted, st.taken + [s.queue[0]])
    case Quitting(w) => State(Quit(s, w), st.admitted, st.taken)
  }

  ghost predicate Step(st: State, st': State) {
    exists h :: Enabled(st, h) && st' == Next(st, h)
  }

  ghost predicate IsRun(run: seq<State>) {
    run != [] && run[0] == State(Fresh(), [], []) && forall i :: 0 <= i < |run| - 1 ==> Step(run[i], run[i + 1])
  }

  ghost predicate Inv(st: State) {
    Consistent(st.server) && st.admitted == st.taken + st.server.queue
  }

  lemma FreshConsistent()
    ensures Consistent(Fresh())
  {
    NobodyServed(Fresh().workers);
  }

  lemma {:induction false} NobodyServed(workers: seq<Option<SessionInfo>>)
    requires forall w :: 0 <= w < |workers| ==> workers[w] == None
    ensures IdsOfWorkers(workers) == multiset{}
  {
    if workers != [] {
      NobodyServed(workers[..|workers| - 1]);
    }
  }

  lemma AdmitKeepsInv(st: State, request: string, response: string, unset: nat)
    requires Inv(st) && Enabled(st, Admitting(request, response, unset))
    ensures Inv(Next(st, Admitting(request, response, unset)))
  {
    var st' := Next(st, Admitting(request, response, unset));
    AdmitConsistent(st.server, request, response, unset);
    RoomIffNotAllActive(st.server);
    Associate(st.taken, st.server.queue, [st'.admitted[|st.admitted|]]);
  }

  lemma StepKeepsInv(st: State, h: Happening)
    requires Inv(st) && Enabled(st, h)
    ensures Inv(Next(st, h))
  {
    match h
    case Admitting(request, response, unset) => AdmitKeepsInv(st, request, response, unset);
    case Taking(w) =>
      TakeConsistent(st.server, w);
      Associate(st.taken, [st.server.queue[0]], st.server.queue[1..]);
      assert st.server.queue == [st.server.queue[0]] + st.server.queue[1..];
    case Quitting(w) => QuitConsistent(st.server, w);
  }

  lemma {:induction false} RunInv(run: seq<State>, i: nat)
    requires IsRun(run) && i < |run|
    ensures Inv(run[i])
  {
    if i == 0 {
      FreshConsistent();
    } else {
      RunInv(run, i - 1);
      assert Step(run[i - 1], run[i - 1 + 1]);
      var h :| Enabled(run[i - 1], h) && run[i] == Next(run[i - 1], h);
      StepKeepsInv(run[i - 1], h);
    }
  }

  // ----- What holds in every run -----

  lemma {:induction false} WorkersIds(workers: seq<Option<SessionInfo>>, w: nat)
    requires w < |workers| && workers[w].Some?
    ensures IdsOfWorkers(workers)[workers[w].value.id] >= 1
  {
    WorkerDone(workers, w);
  }

  lemma TwoWorkers(workers: seq<Option<SessionInfo>>, v: nat, w: nat)
    requires v < w < |workers| && workers[v].Some? && workers[w].Some? && workers[v].value.id == workers[w].value.id
    ensures IdsOfWorkers(workers)[workers[v].value.id] >= 2
  {
    WorkerDone(workers, w);
    WorkersIds(workers[w := None], v);
  }

  lemma TwoQueued(queue: seq<SessionInfo>, i: nat, j: nat)
    requires i < j < |queue| && queue[i].id == queue[j].id
    ensures multiset(IdsOfQueue(queue))[queue[i].id] >= 2
  {
    var ids := IdsOfQueue(queue);
    assert ids == ids[..j] + [ids[j]] + ids[j + 1..];
    assert ids[..j][i] == ids[i] && ids[i] in ids[..j];
  }

  lemma OneQueued(queue: seq<SessionInfo>, i: nat)
    requires i < |queue|
    ensures multiset(IdsOfQueue(queue))[queue[i].id] >= 1
  {
    assert IdsOfQueue(queue)[i] == queue[i].id;
  }

  /** Live sessions, waiting or served, hold different ids below 8. */
  ghost predicate LiveSessionsApart(s: Server)
    requires Shape(s)
  {
    && (forall i, j :: 0 <= i < j < |s.queue| ==> s.queue[i].id != s.queue[j].id)
    && (forall v, w :: 0 <= v < w < |s.workers| && s.workers[v].Some? && s.workers[w].Some? ==>
          s.workers[v].value.id != s.workers[w].value.id)
    && (forall i, w :: 0 <= i < |s.queue| && 0 <= w < |s.workers| && s.workers[w].Some? ==>
          s.queue[i].id != s.workers[w].value.id)
    && (forall i :: 0 <= i < |s.queue| ==> s.queue[i].id < MAX_SESSION_COUNT)
    && (forall w :: 0 <= w < |s.workers| && s.workers[w].Some? ==> s.workers[w].value.id < MAX_SESSION_COUNT)
  }

  /** An id is live once at most, and only below 8. */
  lemma LiveOnce(s: Server, id: nat)
    requires Consistent(s)
    ensures multiset(IdsOfQueue(s.queue))[id] + IdsOfWorkers(s.workers)[id] == LiveIds(s)[id] <= 1
    ensures LiveIds(s)[id] > 0 ==> id < MAX_SESSION_COUNT
  {
  }

  lemma QueueApart(s: Server)
    requires Consistent(s)
    ensures forall i, j :: 0 <= i < j < |s.queue| ==> s.queue[i].id != s.queue[j].id
    ensures forall i :: 0 <= i < |s.queue| ==> s.queue[i].id < MAX_SESSION_COUNT
  {
    forall i | 0 <= i < |s.queue| ensures s.queue[i].id < MAX_SESSION_COUNT {
      OneQueued(s.queue, i);
      LiveOnce(s, s.queue[i].id);
    }
    forall i, j | 0 <= i < j < |s.queue| ensures s.queue[i].id != s.queue[j].id {
      if s.queue[i].id == s.queue[j].id {
        TwoQueued(s.queue, i, j);
        LiveOnce(s, s.queue[i].id);
      }
    }
  }

  lemma WorkersApart(s: Server)
    requires Consistent(s)
    ensures forall v, w :: 0 <= v < w < |s.workers| && s.workers[v].Some? && s.workers[w].Some? ==>
      s.workers[v].value.id != s.workers[w].value.id
    ensures forall w :: 0 <= w < |s.workers| && s.workers[w].Some? ==> s.workers[w].value.id < MAX_SESSION_COUNT
  {
    forall w | 0 <= w < |s.workers| && s.workers[w].Some? ensures s.workers[w].value.id < MAX_SESSION_COUNT {
      WorkersIds(s.workers, w);
      LiveOnce(s, s.workers[w].value.id);
    }
    forall v, w | 0 <= v < w < |s.workers| && s.workers[v].Some? && s.workers[w].Some?
      ensures s.workers[v].value.id != s.workers[w].value.id
    {
      if s.workers[v].value.id == s.workers[w].value.id {
        TwoWorkers(s.workers, v, w);
        LiveOnce(s, s.workers[v].value.id);
      }
    }
  }

  lemma ConsistentApart(s: Server)
    requires Consistent(s)
    ensures LiveSessionsApart(s)
  {
    QueueApart(s);
    WorkersApart(s);
    forall i, w | 0 <= i < |s.queue| && 0 <= w < |s.workers| && s.workers[w].Some?
      ensures s.queue[i].id != s.workers[w].value.id
    {
      if s.queue[i].id == s.workers[w].value.id {
        OneQueued(s.queue, i);
        WorkersIds(s.workers, w);
        LiveOnce(s, s.queue[i].id);
      }
    }
  }

  function Busy(workers: seq<Option<SessionInfo>>): nat {
    if workers == [] then 0
    else Busy(workers[..|workers| - 1]) + if workers[|workers| - 1].Some? then 1 else 0
  }

  lemma {:induction false} BusyCount(workers: seq<Option<SessionInfo>>)
    ensures Busy(workers) == |IdsOfWorkers(workers)| <= |workers|
    ensures Busy(workers) < |workers| ==> exists w :: 0 <= w < |workers| && workers[w].None?
  {
    if workers != [] {
      var front := workers[..|workers| - 1];
      BusyCount(front);
      if Busy(front) < |front| {
        var w :| 0 <= w < |front| && front[w].None?;
        assert workers[w].None?;
      }
    }
  }

  /** Everything the server relies on between steps. */
  ghost predicate Sound(s: Server)
    requires Shape(s)
  {
    && LiveSessionsApart(s)
    && (forall id: nat :: id < MAX_SESSION_COUNT ==> (s.flags[id] != 0 <==> id in LiveIds(s)))
    && s.active == |s.queue| + Busy(s.workers) && 0 <= s.active <= MAX_SESSION_COUNT
    // an admission finds an id and room in the ring
    && (s.active != MAX_SESSION_COUNT ==> |s.queue| < MAX_SESSION_COUNT && FirstFree(s.flags).Some?)
    // a waiting session does not have to wait for another one to end
    && (s.queue != [] ==> exists w :: 0 <= w < |s.workers| && s.workers[w].None?)
  }

  lemma ConsistentIsSound(s: Server)
    requires Consistent(s)
    ensures Sound(s)
  {
    ConsistentApart(s);
    RoomIffNotAllActive(s);
    BusyCount(s.workers);
  }

  /** Ids are used once, the counter counts, the ring drops no session, and the first to come is the first taken. */
  lemma SessionsKept(run: seq<State>, i: nat)
    requires IsRun(run) && i < |run|
    ensures Shape(run[i].server) && Sound(run[i].server)
    ensures run[i].admitted == run[i].taken + run[i].server.queue
  {
    RunInv(run, i);
    ConsistentIsSound(run[i].server);
  }
}
