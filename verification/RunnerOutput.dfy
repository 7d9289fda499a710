/**
 * The output file of a run: what each SHOW and each LIST wrote, in the order in which they took the output lock.
 * These parts are read off the run from outside, from the lock and the file alone.
 */
module RunnerOutput {
  import opened Options
  import opened Sequences
  import opened Commands
  import opened CommandSyntax
  import opened EventStore
  import opened Listing
  import opened Runner
  import opened RunnerInvariants
  import opened RunnerHistory
  import opened RunnerRefinement
  import opened RunnerTheorems

  datatype Part = Part(job: nat, text: string)

  function AllText(parts: seq<Part>): string {
    if parts == [] then "" else AllText(parts[..|parts| - 1]) + parts[|parts| - 1].text
  }

  /** More text for the last part. */
  function Extended(parts: seq<Part>, more: string): (longer: seq<Part>)
    ensures |longer| == |parts|
  {
    if parts == [] then [] else
    var last := parts[|parts| - 1];
    parts[..|parts| - 1] + [Part(last.job, last.text + more)]
  }

  /** Taking the output lock starts a part; what the file gains belongs to the part started last. */
  function NextParts(parts: seq<Part>, s: State, s': State): seq<Part> {
    if s.outputLock.None? && s'.outputLock.Some? && s'.outputLock.value < |s'.threads| then
      parts + [Part(s'.threads[s'.outputLock.value].job, "")]
    else if s.output < s'.output then Extended(parts, s'.output[|s.output|..])
    else parts
  }

  /** The parts of the file in state i of a run. */
  function PartsAt(run: seq<State>, i: nat): seq<Part>
    requires i < |run|
  {
    if i == 0 then [] else NextParts(PartsAt(run, i - 1), run[i - 1], run[i])
  }

  predicate NoPart(parts: seq<Part>, job: nat) {
    forall i :: 0 <= i < |parts| ==> parts[i].job != job
  }

  /** What a job has written. */
  function WrittenFor(parts: seq<Part>, job: nat): string {
    if parts == [] then ""
    else if parts[|parts| - 1].job == job then parts[|parts| - 1].text
    else WrittenFor(parts[..|parts| - 1], job)
  }

  lemma {:induction false} WrittenForNone(parts: seq<Part>, job: nat)
    requires NoPart(parts, job)
    ensures WrittenFor(parts, job) == ""
  {
    if parts != [] {
      WrittenForNone(parts[..|parts| - 1], job);
    }
  }

  lemma {:induction false} WrittenForAt(parts: seq<Part>, x: nat)
    requires x < |parts| && forall i, j :: 0 <= i < j < |parts| ==> parts[i].job != parts[j].job
    ensures WrittenFor(parts, parts[x].job) == parts[x].text
    decreases |parts|
  {
    if x < |parts| - 1 {
      WrittenForAt(parts[..|parts| - 1], x);
    }
  }

  lemma WrittenForStarted(parts: seq<Part>, started: nat, job: nat)
    requires NoPart(parts, started)
    ensures WrittenFor(parts + [Part(started, "")], job) == WrittenFor(parts, job)
  {
    assert (parts + [Part(started, "")])[..|parts|] == parts;
    WrittenForNone(parts, started);
  }

  lemma WrittenForExtended(parts: seq<Part>, more: string, job: nat)
    requires parts != []
    ensures var last := parts[|parts| - 1];
            WrittenFor(Extended(parts, more), job) ==
              if job == last.job then last.text + more else WrittenFor(parts, job)
  {
    var longer := Extended(parts, more);
    assert longer[..|longer| - 1] == parts[..|parts| - 1];
  }

  lemma ExtendedText(parts: seq<Part>, more: string)
    requires parts != []
    ensures AllText(Extended(parts, more)) == AllText(parts) + more
  {
    var longer := Extended(parts, more);
    var last := parts[|parts| - 1];
    assert longer[..|longer| - 1] == parts[..|parts| - 1];
    Associate(AllText(parts[..|parts| - 1]), last.text, more);
  }

  lemma StartedText(parts: seq<Part>, job: nat)
    ensures AllText(parts + [Part(job, "")]) == AllText(parts)
  {
    assert (parts + [Part(job, "")])[..|parts|] == parts;
    assert AllText(parts) + "" == AllText(parts);
  }

  // ----- What one step does to the file and its lock -----

  /** A thread whose SHOW or LIST has not taken the output lock yet. */
  predicate Waiting(pc: Pc) {
    pc.ShowFind? || pc.ShowOpen? || pc.ListCheck? || pc.ListOpen?
  }

  /** Where in the file a LIST began. */
  function Base(pc: Pc): nat {
    match pc
    case ListFormat(_, _, base) => base
    case ListNext(_, _, base) => base
    case ListWrite(_, base, _) => base
    case _ => 0
  }

  predicate InWalk(pc: Pc) {
    pc.ListFormat? || pc.ListNext? || pc.ListWrite?
  }

  /** A step that has nothing to do with the file. */
  predicate StepsAside(s: State, s': State, pc: Pc, pc': Pc) {
    && s'.output == s.output && s'.outputLock == s.outputLock && !HoldsOutput(pc) && !HoldsOutput(pc')
    && (Waiting(pc') ==> Waiting(pc))
    && (Waiting(pc) && |s.order| < |s'.order| ==> s'.order[|s.order|].outcome == Listed(""))
  }

  predicate TakesOutput(s: State, s': State, t: nat, pc: Pc, pc': Pc) {
    && s'.output == s.output && s.outputLock == None && s'.outputLock == Some(t) && Waiting(pc)
    && (pc'.ShowCell? || pc'.ListHead?) && s'.order == s.order
  }

  predicate KeepsOutput(s: State, s': State, pc: Pc, pc': Pc) {
    && s.output <= s'.output && s'.outputLock == s.outputLock && HoldsOutput(pc) && HoldsOutput(pc') && !pc.ListWrite?
    && (pc.ShowCell? ==> pc'.ShowCell? && s'.output == s.output)
    && (pc.ListHead? ==> InWalk(pc') && s'.output == s.output && Base(pc') == |s.output|)
    && (InWalk(pc) ==> InWalk(pc') && Base(pc') == Base(pc))
    && (s'.order != s.order ==> pc'.ListWrite? && s'.output == s.output)
  }

  predicate ReleasesOutput(s: State, s': State, pc: Pc, pc': Pc) {
    && s.output <= s'.output && s'.outputLock == None && HoldsOutput(pc) && pc'.Fetch? && s'.order == s.order
    && (pc.ShowCell? || (pc.ListWrite? && s'.output == s.output + pc.buffer))
  }

  ghost predicate OutputMove(s: State, s': State, t: nat)
    requires t < |s.threads| && t < |s'.threads|
  {
    var pc, pc' := s.threads[t].pc, s'.threads[t].pc;
    || StepsAside(s, s', pc, pc')
    || TakesOutput(s, s', t, pc, pc')
    || KeepsOutput(s, s', pc, pc')
    || ReleasesOutput(s, s', pc, pc')
  }

  lemma CreateOutput(s: State, t: nat, garbage: seq<nat>)
    requires Shape(s) && t < |s.threads|
    requires s.threads[t].pc.CreateCheck? || s.threads[t].pc.CreateAlloc? || s.threads[t].pc.CreateZero?
    ensures OutputMove(s, CreateStep(s, t, garbage), t)
  {
  }

  lemma ReserveOutput(s: State, t: nat)
    requires Shape(s) && t < |s.threads| && InReserve(s.threads[t].pc)
    ensures var s' := ReserveStep(s, t);
            t < |s'.threads| && StepsAside(s, s', s.threads[t].pc, s'.threads[t].pc)
  {
  }

  lemma ShowOutput(s: State, t: nat)
    requires Shape(s) && t < |s.threads| && Enabled(s, ThreadStep(t, []))
    requires s.threads[t].pc.ShowFind? || s.threads[t].pc.ShowOpen? || s.threads[t].pc.ShowCell?
    ensures OutputMove(s, ShowStep(s, t), t)
  {
  }

  lemma ListEntryOutput(s: State, t: nat)
    requires Shape(s) && t < |s.threads| && Enabled(s, ThreadStep(t, []))
    requires s.threads[t].pc.ListCheck? || s.threads[t].pc.ListOpen? || s.threads[t].pc.ListHead?
    ensures OutputMove(s, ListStep(s, t), t)
  {
  }

  lemma ListWalkOutput(s: State, t: nat)
    requires Shape(s) && t < |s.threads| && InWalk(s.threads[t].pc)
    ensures OutputMove(s, ListStep(s, t), t)
  {
  }

  lemma WorkOutput(s: State, t: nat, garbage: seq<nat>)
    requires Shape(s) && Enabled(s, ThreadStep(t, garbage)) && !s.threads[t].pc.Fetch?
    requires t < |Next(s, ThreadStep(t, garbage)).threads|
    ensures OutputMove(s, Next(s, ThreadStep(t, garbage)), t)
  {
    var pc := s.threads[t].pc;
    if pc.CreateCheck? || pc.CreateAlloc? || pc.CreateZero? {
      CreateOutput(s, t, garbage);
    } else if InReserve(pc) {
      ReserveOutput(s, t);
    } else if InWalk(pc) {
      ListWalkOutput(s, t);
    } else if InList(pc) {
      ListEntryOutput(s, t);
    } else {
      ShowOutput(s, t);
    }
  }

  lemma FetchOutput(s: State, t: nat)
    requires Shape(s) && t < |s.threads|
    ensures var s' := FetchStep(s, t);
            && s'.output == s.output && s'.outputLock == s.outputLock && s'.order == s.order && s'.events == s.events
            && |s'.threads| == |s.threads|
            && (forall u :: 0 <= u < |s.threads| && u != t ==> s'.threads[u] == s.threads[u])
  {
  }

  lemma MainOutput(s: State)
    requires Shape(s) && Rounds(s) && MainEnabled(s)
    ensures var s' := MainMove(s);
            && s'.output == s.output && s'.outputLock == s.outputLock && s'.order == s.order && s'.log == s.log
            && |s'.threads| == |s.threads|
            && (forall u :: 0 <= u < |s.threads| ==>
                  s'.threads[u] == s.threads[u] || (!Busy(s.threads[u].pc) && !Busy(s'.threads[u].pc)))
  {
  }

  /** No step takes anything out of the output file. */
  lemma OutputGrowsStep(s: State, a: Action)
    requires Shape(s) && Rounds(s) && Enabled(s, a)
    ensures s.output <= Next(s, a).output
  {
    if a.MainStep? {
      MainOutput(s);
    } else if s.threads[a.t].pc.Fetch? {
      FetchOutput(s, a.t);
    } else {
      ThreadFrame(s, a.t, a.garbage);
      WorkOutput(s, a.t, a.garbage);
    }
  }

  function OutputAt(run: seq<State>, i: nat): string {
    if i < |run| then run[i].output else ""
  }

  lemma OutputGrowsNext(input: string, n: nat, run: seq<State>, i: nat)
    requires IsRun(input, n, run) && i + 1 < |run|
    ensures OutputAt(run, i) <= OutputAt(run, i + 1)
  {
    var a := StepTaken(input, n, run, i);
    OutputGrowsStep(run[i], a);
  }

  lemma OutputGrowsBetween(input: string, n: nat, run: seq<State>, i: nat, j: nat)
    requires IsRun(input, n, run) && i <= j < |run|
    ensures OutputAt(run, i) <= OutputAt(run, j)
  {
    var output: nat -> string := (m: nat) => OutputAt(run, m);
    forall m: nat | i <= m < j ensures output(m) <= output(m + 1) {
      OutputGrowsNext(input, n, run, m);
    }
    PrefixesGrow(output, i, j);
  }

  /** What is in the output file at one moment of a run stays there, at its place, to the end. */
  lemma OutputStays(input: string, n: nat, run: seq<State>, i: nat, j: nat)
    requires IsRun(input, n, run) && i <= j < |run|
    ensures run[i].output <= run[j].output
  {
    OutputGrowsBetween(input, n, run, i, j);
  }

  // ----- What the parts are -----

  predicate SameJobs(parts: seq<Part>, longer: seq<Part>) {
    |longer| == |parts| && forall i :: 0 <= i < |parts| ==> longer[i].job == parts[i].job
  }

  lemma ExtendedJobs(parts: seq<Part>, more: string)
    ensures SameJobs(parts, Extended(parts, more))
  {
  }

  /** Parts belong to different commands, each a SHOW or a LIST. */
  predicate PartJobs(parts: seq<Part>, log: seq<Fetched>) {
    && (forall i :: 0 <= i < |parts| ==>
          parts[i].job < |log| && (log[parts[i].job].cmd.Show? || log[parts[i].job].cmd.ListEvents?))
    && (forall i, j :: 0 <= i < j < |parts| ==> parts[i].job != parts[j].job)
  }

  /** What the part of the lock's holder says by now. */
  predicate PartSoFar(text: string, length: nat, pc: Pc) {
    && (pc.ShowCell? || pc.ListHead? ==> text == "")
    && (InWalk(pc) ==> Base(pc) + |text| == length)
  }

  /** The last part is the one of the thread that holds the output lock. */
  ghost predicate CurrentPart(parts: seq<Part>, s: State) {
    s.outputLock.Some? ==>
      var t := s.outputLock.value;
      && t < |s.threads| && parts != [] && parts[|parts| - 1].job == s.threads[t].job
      && PartSoFar(parts[|parts| - 1].text, |s.output|, s.threads[t].pc)
  }

  ghost predicate NotYet(parts: seq<Part>, s: State) {
    forall t :: 0 <= t < |s.threads| && Waiting(s.threads[t].pc) ==> NoPart(parts, s.threads[t].job)
  }

  /** A LIST that has taken effect and has its last bytes still to write. */
  predicate StillWriting(s: State, job: nat) {
    && s.outputLock.Some? && s.outputLock.value < |s.threads|
    && s.threads[s.outputLock.value].pc.ListWrite? && s.threads[s.outputLock.value].job == job
  }

  /** A LIST reports what it writes. */
  predicate ListWritten(parts: seq<Part>, s: State, x: nat)
    requires x < |s.order|
  {
    s.order[x].cmd.ListEvents? ==>
      s.order[x].outcome == Listed(WrittenFor(parts, s.order[x].job)) || StillWriting(s, s.order[x].job)
  }

  ghost predicate ListsWritten(parts: seq<Part>, s: State) {
    forall x :: 0 <= x < |s.order| ==> ListWritten(parts, s, x)
  }

  ghost predicate PartsInv(parts: seq<Part>, s: State) {
    AllText(parts) == s.output && PartJobs(parts, s.log) && CurrentPart(parts, s) && NotYet(parts, s) &&
    ListsWritten(parts, s)
  }

  // ----- Every step keeps them -----

  /** The thread that holds the output lock does not change while another steps. */
  lemma AsideKeepsParts(parts: seq<Part>, s: State, s': State, t: nat)
    requires Shape(s) && Jobs(s) && PartsInv(parts, s) && t < |s.threads| && OwnsItsLocks(s, t)
    requires Frame(s, s', t) && WorkMove(s, s', t)
    requires StepsAside(s, s', s.threads[t].pc, s'.threads[t].pc)
    ensures NextParts(parts, s, s') == parts && PartsInv(parts, s')
  {
    if s.order != s'.order {
      EffectIsOfItsJob(s, s', t);
      if s'.order[|s.order|].cmd.ListEvents? {
        WrittenForNone(parts, s.threads[t].job);
      }
    }
    forall x | 0 <= x < |s'.order| ensures ListWritten(parts, s', x) {
      if x < |s.order| {
        assert ListWritten(parts, s, x);
        assert s'.order[x] == s.order[x];
      }
    }
  }

  lemma WaitingJob(s: State, t: nat)
    requires Jobs(s) && t < |s.threads| && Waiting(s.threads[t].pc)
    ensures var job := s.threads[t].job;
            job < |s.log| && s.log[job].thread == t && (s.log[job].cmd.Show? || s.log[job].cmd.ListEvents?)
  {
    assert WorksOnItsJob(s, t);
  }

  lemma TakingFor(parts: seq<Part>, s: State, t: nat)
    requires Jobs(s) && PartsInv(parts, s) && t < |s.threads| && Waiting(s.threads[t].pc) && s.outputLock.None?
    ensures var parts' := parts + [Part(s.threads[t].job, "")];
            && AllText(parts') == s.output && PartJobs(parts', s.log) && ListsWritten(parts', s)
            && forall u :: 0 <= u < |s.threads| && u != t && Waiting(s.threads[u].pc) ==>
                 NoPart(parts', s.threads[u].job)
  {
    var job := s.threads[t].job;
    StartedText(parts, job);
    WaitingJob(s, t);
    forall u | 0 <= u < |s.threads| && u != t && Waiting(s.threads[u].pc)
      ensures NoPart(parts + [Part(job, "")], s.threads[u].job)
    {
      WaitingJob(s, u);
    }
    forall x | 0 <= x < |s.order| ensures ListWritten(parts + [Part(job, "")], s, x) {
      assert ListWritten(parts, s, x);
      WrittenForStarted(parts, job, s.order[x].job);
    }
  }

  lemma TakingStartsPart(parts: seq<Part>, s: State, s': State, t: nat)
    requires Shape(s) && Jobs(s) && PartsInv(parts, s) && t < |s.threads|
    requires Frame(s, s', t) && WorkMove(s, s', t)
    requires TakesOutput(s, s', t, s.threads[t].pc, s'.threads[t].pc)
    ensures NextParts(parts, s, s') == parts + [Part(s.threads[t].job, "")] && PartsInv(NextParts(parts, s, s'), s')
  {
    var parts' := parts + [Part(s.threads[t].job, "")];
    TakingFor(parts, s, t);
    forall x | 0 <= x < |s'.order| ensures ListWritten(parts', s', x) {
      assert ListWritten(parts', s, x);
    }
  }

  /** While a job's SHOW or LIST collects, nothing has been reported for it. */
  lemma CollectingNotReported(s: State, t: nat, x: nat)
    requires Jobs(s) && t < |s.threads| && HoldsOutput(s.threads[t].pc) && !s.threads[t].pc.ListWrite?
    requires x < |s.order| && s.order[x].cmd.ListEvents?
    ensures s.order[x].job != s.threads[t].job
  {
    assert WorksOnItsJob(s, t);
    assert InOrder(s.order, s.order[x].job);
  }

  lemma GrownParts(parts: seq<Part>, s: State, s': State)
    requires AllText(parts) == s.output && parts != [] && s.output <= s'.output
    requires s.outputLock.Some?
    ensures var parts' := NextParts(parts, s, s');
            var last, last' := parts[|parts| - 1], parts'[|parts'| - 1];
            && SameJobs(parts, parts') && AllText(parts') == s'.output
            && last'.text == last.text + s'.output[|s.output|..] && last'.job == last.job
            && forall job :: job != last.job ==> WrittenFor(parts', job) == WrittenFor(parts, job)
    ensures WrittenFor(NextParts(parts, s, s'), parts[|parts| - 1].job) ==
            parts[|parts| - 1].text + s'.output[|s.output|..]
  {
    var more := s'.output[|s.output|..];
    assert s'.output == s.output + more;
    if s.output == s'.output {
      assert parts[|parts| - 1].text + more == parts[|parts| - 1].text;
    } else {
      ExtendedJobs(parts, more);
      ExtendedText(parts, more);
      forall job ensures WrittenFor(Extended(parts, more), job) ==
          if job == parts[|parts| - 1].job then parts[|parts| - 1].text + more else WrittenFor(parts, job)
      {
        WrittenForExtended(parts, more, job);
      }
    }
  }

  /** The last part grows, and the jobs stay as they are. */
  lemma GrownPartsFit(parts: seq<Part>, parts': seq<Part>, s: State, s': State, t: nat)
    requires t < |s.threads| && Frame(s, s', t) && s'.log == s.log && s'.threads[t].job == s.threads[t].job
    requires PartJobs(parts, s.log) && NotYet(parts, s) && SameJobs(parts, parts')
    requires Waiting(s'.threads[t].pc) ==> Waiting(s.threads[t].pc)
    ensures PartJobs(parts', s'.log) && NotYet(parts', s')
  {
  }

  lemma KeepingReports(parts: seq<Part>, parts': seq<Part>, s: State, s': State, t: nat)
    requires Shape(s) && Jobs(s) && ListsWritten(parts, s) && t < |s.threads| && s.outputLock == Some(t)
    requires Frame(s, s', t) && WorkMove(s, s', t)
    requires KeepsOutput(s, s', s.threads[t].pc, s'.threads[t].pc)
    requires forall job :: job != s.threads[t].job ==> WrittenFor(parts', job) == WrittenFor(parts, job)
    ensures ListsWritten(parts', s')
  {
    forall x | 0 <= x < |s'.order| ensures ListWritten(parts', s', x) {
      if x < |s.order| {
        assert s'.order[x] == s.order[x] && ListWritten(parts, s, x);
        if s.order[x].cmd.ListEvents? {
          CollectingNotReported(s, t, x);
        }
      } else {
        EffectIsOfItsJob(s, s', t);
      }
    }
  }

  lemma KeepingGrowsPart(parts: seq<Part>, s: State, s': State, t: nat)
    requires Shape(s) && Jobs(s) && PartsInv(parts, s) && t < |s.threads| && OwnsItsLocks(s, t)
    requires Frame(s, s', t) && WorkMove(s, s', t)
    requires KeepsOutput(s, s', s.threads[t].pc, s'.threads[t].pc)
    ensures PartsInv(NextParts(parts, s, s'), s')
  {
    GrownParts(parts, s, s');
    GrownPartsFit(parts, NextParts(parts, s, s'), s, s', t);
    KeepingReports(parts, NextParts(parts, s, s'), s, s', t);
  }

  /** The last write of a LIST makes its part what it has reported. */
  lemma LastWriteReported(parts: seq<Part>, s: State, t: nat, x: nat)
    requires Shape(s) && Jobs(s) && PartsInv(parts, s) && t < |s.threads| && s.threads[t].pc.ListWrite?
    requires s.outputLock == Some(t) && WalkFits(s, t)
    requires x < |s.order| && s.order[x].job == s.threads[t].job
    ensures s.order[x].outcome == Listed(parts[|parts| - 1].text + s.threads[t].pc.buffer)
  {
    var pc := s.threads[t].pc;
    var last := parts[|parts| - 1];
    assert s.output == AllText(parts[..|parts| - 1]) + last.text;
    assert s.output[pc.base..] == last.text;
    assert s.order[pc.at].job == s.order[x].job;
    assert x == pc.at;
  }

  lemma ReleasingReports(parts: seq<Part>, parts': seq<Part>, s: State, s': State, t: nat)
    requires Shape(s) && Jobs(s) && PartsInv(parts, s) && t < |s.threads| && s.outputLock == Some(t) && WalkFits(s, t)
    requires t < |s'.threads|
    requires ReleasesOutput(s, s', s.threads[t].pc, s'.threads[t].pc)
    requires forall job :: job != s.threads[t].job ==> WrittenFor(parts', job) == WrittenFor(parts, job)
    requires parts != [] && WrittenFor(parts', s.threads[t].job) == parts[|parts| - 1].text + s'.output[|s.output|..]
    ensures ListsWritten(parts', s')
  {
    forall x | 0 <= x < |s'.order| ensures ListWritten(parts', s', x) {
      assert ListWritten(parts, s, x);
      if s.order[x].cmd.ListEvents? {
        if s.threads[t].pc.ShowCell? {
          CollectingNotReported(s, t, x);
        } else if s.order[x].job == s.threads[t].job {
          LastWriteReported(parts, s, t, x);
          assert s'.output[|s.output|..] == s.threads[t].pc.buffer;
        }
      }
    }
  }

  lemma ReleasingEndsPart(parts: seq<Part>, s: State, s': State, t: nat)
    requires Shape(s) && Jobs(s) && PartsInv(parts, s) && t < |s.threads| && OwnsItsLocks(s, t) && WalkFits(s, t)
    requires Frame(s, s', t) && WorkMove(s, s', t)
    requires ReleasesOutput(s, s', s.threads[t].pc, s'.threads[t].pc)
    ensures PartsInv(NextParts(parts, s, s'), s')
  {
    GrownParts(parts, s, s');
    GrownPartsFit(parts, NextParts(parts, s, s'), s, s', t);
    ReleasingReports(parts, NextParts(parts, s, s'), s, s', t);
  }

  lemma WorkKeepsParts(parts: seq<Part>, s: State, s': State, t: nat)
    requires Shape(s) && Jobs(s) && PartsInv(parts, s) && t < |s.threads| && OwnsItsLocks(s, t) && WalkFits(s, t)
    requires Frame(s, s', t) && WorkMove(s, s', t) && OutputMove(s, s', t)
    ensures PartsInv(NextParts(parts, s, s'), s')
  {
    var pc, pc' := s.threads[t].pc, s'.threads[t].pc;
    if StepsAside(s, s', pc, pc') {
      AsideKeepsParts(parts, s, s', t);
    } else if TakesOutput(s, s', t, pc, pc') {
      TakingStartsPart(parts, s, s', t);
    } else if KeepsOutput(s, s', pc, pc') {
      KeepingGrowsPart(parts, s, s', t);
    } else {
      ReleasingEndsPart(parts, s, s', t);
    }
  }

  /** Steps that leave the file, its lock and the history of effects alone. */
  ghost predicate QuietMove(s: State, s': State) {
    && s'.output == s.output && s'.outputLock == s.outputLock && s'.order == s.order && s.log <= s'.log
    && |s'.threads| == |s.threads|
    && (s.outputLock.Some? && s.outputLock.value < |s.threads| ==>
          s'.threads[s.outputLock.value] == s.threads[s.outputLock.value])
    && (forall u :: 0 <= u < |s.threads| && Waiting(s'.threads[u].pc) ==>
          s'.threads[u] == s.threads[u] || s'.threads[u].job >= |s.log|)
  }

  lemma QuietKeepsParts(parts: seq<Part>, s: State, s': State)
    requires PartsInv(parts, s) && QuietMove(s, s')
    ensures NextParts(parts, s, s') == parts && PartsInv(parts, s')
  {
    forall x | 0 <= x < |s'.order| ensures ListWritten(parts, s', x) {
      assert ListWritten(parts, s, x);
    }
  }

  lemma FetchIsQuiet(s: State, t: nat)
    requires Shape(s) && t < |s.threads| && s.threads[t].pc.Fetch? && OwnsItsLocks(s, t)
    ensures QuietMove(s, FetchStep(s, t))
  {
  }

  lemma MainIsQuiet(s: State)
    requires Shape(s) && Locks(s) && Rounds(s) && MainEnabled(s)
    ensures QuietMove(s, MainMove(s))
  {
    MainOutput(s);
    if s.outputLock.Some? {
      assert OwnsItsLocks(s, s.outputLock.value);
    }
  }

  lemma StepKeepsParts(parts: seq<Part>, s: State, a: Action)
    requires Shape(s) && Locks(s) && Rounds(s) && Jobs(s) && Listings(s) && PartsInv(parts, s) && Enabled(s, a)
    ensures PartsInv(NextParts(parts, s, Next(s, a)), Next(s, a))
  {
    if a.MainStep? {
      MainIsQuiet(s);
      QuietKeepsParts(parts, s, Next(s, a));
    } else {
      assert OwnsItsLocks(s, a.t) && WalkFits(s, a.t);
      if s.threads[a.t].pc.Fetch? {
        FetchIsQuiet(s, a.t);
        QuietKeepsParts(parts, s, Next(s, a));
      } else {
        WorkHistory(s, a.t, a.garbage);
        WorkOutput(s, a.t, a.garbage);
        WorkKeepsParts(parts, s, Next(s, a), a.t);
      }
    }
  }

  lemma OneMoreState(input: string, n: nat, run: seq<State>, i: nat, parts: seq<Part>)
    requires IsRun(input, n, run) && i + 1 < |run| && PartsInv(parts, run[i])
    ensures PartsInv(NextParts(parts, run[i], run[i + 1]), run[i + 1])
  {
    var a := StepTaken(input, n, run, i);
    StepKeepsParts(parts, run[i], a);
  }

  lemma {:induction false} RunParts(input: string, n: nat, run: seq<State>, i: nat)
    requires IsRun(input, n, run) && i < |run|
    ensures PartsInv(PartsAt(run, i), run[i])
    decreases i
  {
    if i > 0 {
      RunParts(input, n, run, i - 1);
      OneMoreState(input, n, run, i - 1, PartsAt(run, i - 1));
    }
  }

  // ----- Parts and barriers -----

  lemma SegmentPrefix(log: seq<Fetched>, longer: seq<Fetched>, j: nat)
    requires log <= longer && j <= |log|
    ensures Segment(longer, j) == Segment(log, j)
  {
    assert longer[..j] == log[..j];
  }

  lemma RoundGrows(s: State, a: Action)
    requires Shape(s) && Rounds(s) && Enabled(s, a) && Shape(Next(s, a))
    ensures s.log <= Next(s, a).log && Round(s) <= Round(Next(s, a))
  {
    if a.ThreadStep? {
      if !s.threads[a.t].pc.Fetch? {
        WorkHistory(s, a.t, a.garbage);
      } else if s.flags[0] == 0 && s.rest != "" {
        SegmentsStable(s.log, Fetched(NextCommand(true, s.rest).0, a.t));
      }
    }
  }

  /** Parts are of this round or an earlier one, and those of earlier rounds come first. */
  ghost predicate PartsInRounds(parts: seq<Part>, log: seq<Fetched>, round: int) {
    && (forall i :: 0 <= i < |parts| ==> parts[i].job <= |log| && Segment(log, parts[i].job) <= round)
    && (forall i, j :: 0 <= i < j < |parts| ==> Segment(log, parts[i].job) <= Segment(log, parts[j].job))
  }

  lemma LaterRound(parts: seq<Part>, parts': seq<Part>, log: seq<Fetched>, log': seq<Fetched>, round: int, round': int)
    requires PartsInRounds(parts, log, round) && SameJobs(parts, parts') && log <= log' && round <= round'
    ensures PartsInRounds(parts', log', round')
  {
    forall i | 0 <= i < |parts| ensures Segment(log', parts'[i].job) == Segment(log, parts[i].job) {
      SegmentPrefix(log, log', parts[i].job);
    }
  }

  /** A step starts a part for the thread that takes the lock, or no part at all. */
  lemma PartStarted(parts: seq<Part>, s: State, a: Action)
    requires Shape(s) && Locks(s) && Rounds(s) && Enabled(s, a)
    ensures var s' := Next(s, a);
            var parts' := NextParts(parts, s, s');
            || SameJobs(parts, parts')
            || (a.ThreadStep? && Waiting(s.threads[a.t].pc) && s'.log == s.log && s'.outputLock.Some?
                && parts' == parts + [Part(s.threads[a.t].job, "")])
  {
    var s' := Next(s, a);
    if s.output < s'.output {
      ExtendedJobs(parts, s'.output[|s.output|..]);
    }
    if a.MainStep? {
      MainOutput(s);
    } else if s.threads[a.t].pc.Fetch? {
      FetchOutput(s, a.t);
    } else {
      WorkHistory(s, a.t, a.garbage);
      WorkOutput(s, a.t, a.garbage);
    }
  }

  lemma StepKeepsRounds(parts: seq<Part>, s: State, a: Action)
    requires Shape(s) && Locks(s) && Rounds(s) && Jobs(s) && BarrierOrder(s) && Enabled(s, a) && Shape(Next(s, a))
    requires PartsInRounds(parts, s.log, Round(s))
    ensures PartsInRounds(NextParts(parts, s, Next(s, a)), Next(s, a).log, Round(Next(s, a)))
  {
    var s' := Next(s, a);
    RoundGrows(s, a);
    PartStarted(parts, s, a);
    var parts' := NextParts(parts, s, s');
    if SameJobs(parts, parts') {
      LaterRound(parts, parts', s.log, s'.log, Round(s), Round(s'));
    } else {
      WaitingJob(s, a.t);
      assert Busy(s.threads[a.t].pc);
      LaterRound(parts, parts, s.log, s'.log, Round(s), Round(s'));
    }
  }

  lemma OneMoreRound(input: string, n: nat, run: seq<State>, i: nat, parts: seq<Part>)
    requires IsRun(input, n, run) && i + 1 < |run| && Shape(run[i]) && PartsInRounds(parts, run[i].log, Round(run[i]))
    ensures Shape(run[i + 1])
    ensures PartsInRounds(NextParts(parts, run[i], run[i + 1]), run[i + 1].log, Round(run[i + 1]))
  {
    var a := StepTaken(input, n, run, i);
    StepKeepsRounds(parts, run[i], a);
  }

  lemma {:induction false} RunRounds(input: string, n: nat, run: seq<State>, i: nat)
    requires IsRun(input, n, run) && i < |run|
    ensures Shape(run[i]) && PartsInRounds(PartsAt(run, i), run[i].log, Round(run[i]))
    decreases i
  {
    if i == 0 {
      RunInv(input, n, run, 0);
    } else {
      RunRounds(input, n, run, i - 1);
      OneMoreRound(input, n, run, i - 1, PartsAt(run, i - 1));
    }
  }

  // ----- Finished parts -----

  /** How many parts are complete: all but that of the lock's holder. */
  function Closed(parts: seq<Part>, s: State): (n: nat)
    ensures n <= |parts|
  {
    if s.outputLock.Some? && parts != [] then |parts| - 1 else |parts|
  }

  lemma StepKeepsClosed(parts: seq<Part>, s: State, a: Action)
    requires Shape(s) && Locks(s) && Rounds(s) && Enabled(s, a)
    ensures var s' := Next(s, a);
            var parts' := NextParts(parts, s, s');
            parts[..Closed(parts, s)] <= parts'[..Closed(parts', s')]
  {
    if a.MainStep? {
      MainOutput(s);
    } else if s.threads[a.t].pc.Fetch? {
      FetchOutput(s, a.t);
    } else {
      assert OwnsItsLocks(s, a.t);
      ThreadFrame(s, a.t, a.garbage);
      WorkOutput(s, a.t, a.garbage);
    }
  }

  lemma OneMoreClosed(input: string, n: nat, run: seq<State>, i: nat, parts: seq<Part>)
    requires IsRun(input, n, run) && i + 1 < |run|
    ensures var parts' := NextParts(parts, run[i], run[i + 1]);
            parts[..Closed(parts, run[i])] <= parts'[..Closed(parts', run[i + 1])]
  {
    var a := StepTaken(input, n, run, i);
    StepKeepsClosed(parts, run[i], a);
  }

  function ClosedParts(run: seq<State>, i: nat): seq<Part> {
    if i < |run| then PartsAt(run, i)[..Closed(PartsAt(run, i), run[i])] else []
  }

  ghost predicate ClosedHandedOn(run: seq<State>, i: nat) {
    i + 1 < |run| ==> ClosedParts(run, i) <= ClosedParts(run, i + 1)
  }

  ghost predicate ClosedAlwaysHandedOn(run: seq<State>) {
    forall i: nat {:trigger ClosedHandedOn(run, i)} :: ClosedHandedOn(run, i)
  }

  lemma ClosedPartsNext(input: string, n: nat, run: seq<State>, i: nat)
    requires IsRun(input, n, run)
    ensures ClosedHandedOn(run, i)
  {
    if i + 1 < |run| {
      OneMoreClosed(input, n, run, i, PartsAt(run, i));
    }
  }

  lemma RunHandsClosedOn(input: string, n: nat, run: seq<State>)
    requires IsRun(input, n, run)
    ensures ClosedAlwaysHandedOn(run)
  {
    forall i: nat ensures ClosedHandedOn(run, i) {
      ClosedPartsNext(input, n, run, i);
    }
  }

  lemma {:induction false} ClosedPartsTo(run: seq<State>, i: nat, j: nat)
    requires ClosedAlwaysHandedOn(run) && i <= j < |run|
    ensures ClosedParts(run, i) <= ClosedParts(run, j)
    decreases j
  {
    if i < j {
      ClosedPartsTo(run, i, j - 1);
      assert ClosedHandedOn(run, j - 1);
      PrefixTransitive(ClosedParts(run, i), ClosedParts(run, j - 1), ClosedParts(run, j));
    }
  }

  /** A complete part stays as it is, at its place, to the end. */
  lemma ClosedPartsStay(input: string, n: nat, run: seq<State>, i: nat, j: nat)
    requires IsRun(input, n, run) && i <= j < |run|
    ensures ClosedParts(run, i) <= ClosedParts(run, j)
  {
    RunHandsClosedOn(input, n, run);
    ClosedPartsTo(run, i, j);
  }

  // ----- The file of a finished run -----

  /** Parts are of different SHOW and LIST commands of the file, and none moves across a BARRIER. */
  ghost predicate PartsOfFile(parts: seq<Part>, cmds: seq<Command>) {
    && (forall i :: 0 <= i < |parts| ==>
          parts[i].job < |cmds| && (cmds[parts[i].job].Show? || cmds[parts[i].job].ListEvents?))
    && (forall i, j :: 0 <= i < j < |parts| ==> parts[i].job != parts[j].job)
    && (forall i, j :: 0 <= i < j < |parts| ==>
          BarriersIn(cmds[..parts[i].job]) <= BarriersIn(cmds[..parts[j].job]))
  }

  lemma PartsAreOfFile(parts: seq<Part>, log: seq<Fetched>, cmds: seq<Command>, round: int)
    requires PartJobs(parts, log) && PartsInRounds(parts, log, round) && cmds == LogCommands(log)
    ensures PartsOfFile(parts, cmds)
  {
    SegmentsOfFile(log, cmds);
    forall i | 0 <= i < |parts| ensures Segment(log, parts[i].job) == BarriersIn(cmds[..parts[i].job]) {
      assert cmds[parts[i].job] == log[parts[i].job].cmd;
    }
  }

  lemma NobodyWrites(s: State)
    requires Shape(s) && Locks(s) && Rounds(s) && s.main.Finished?
    ensures s.outputLock.None?
  {
    forall t | 0 <= t < |s.threads| ensures s.outputLock != Some(t) {
      assert OwnsItsLocks(s, t);
    }
  }

  /** What the invariant says of the last state of a finished run. */
  lemma FinishedState(input: string, n: nat, run: seq<State>)
    requires IsRun(input, n, run) && run[|run| - 1].main.Finished?
    ensures var s := run[|run| - 1]; s.outputLock.None? && LogCommands(s.log) == AllCommands(true, input)
  {
    RunInv(input, n, run, |run| - 1);
    NobodyWrites(run[|run| - 1]);
    FinishedReadsAll(input, n, run[|run| - 1]);
  }

  lemma ListsReported(parts: seq<Part>, s: State)
    requires ListsWritten(parts, s) && s.outputLock.None?
    ensures forall x :: 0 <= x < |s.order| && s.order[x].cmd.ListEvents? ==>
      s.order[x].outcome == Listed(WrittenFor(parts, s.order[x].job))
  {
    forall x | 0 <= x < |s.order| && s.order[x].cmd.ListEvents?
      ensures s.order[x].outcome == Listed(WrittenFor(parts, s.order[x].job))
    {
      assert ListWritten(parts, s, x);
    }
  }

  lemma ListsOfOrder(parts: seq<Part>, s: State, cmds: seq<Command>, order: seq<nat>)
    requires ListsWritten(parts, s) && s.outputLock.None? && order == JobsOf(s.order)
    requires forall i :: 0 <= i < |order| ==> order[i] < |cmds|
    requires forall i :: 0 <= i < |order| ==> s.order[i].cmd == cmds[order[i]]
    requires forall i :: 0 <= i < |order| ==>
      s.order[i].outcome == Report(Replay(Pick(cmds, order[..i])), cmds[order[i]])
    ensures forall i :: 0 <= i < |order| && cmds[order[i]].ListEvents? ==>
      WrittenFor(parts, order[i]) == ListOutput(Ids(Replay(Pick(cmds, order[..i]))))
  {
    forall i | 0 <= i < |order| && cmds[order[i]].ListEvents?
      ensures WrittenFor(parts, order[i]) == ListOutput(Ids(Replay(Pick(cmds, order[..i]))))
    {
      assert ListWritten(parts, s, i);
    }
  }

  /**
   * The output file of a finished run is made up of what each SHOW and each LIST wrote, in the order in which
   * they took the output lock, none across a BARRIER; and each LIST of the job file wrote what it reported, which is
   * what it writes at its place in the order in which the commands can be thought to have run one at a time.
   */
  lemma FinishedOutput(input: string, n: nat, run: seq<State>) returns (order: seq<nat>)
    requires IsRun(input, n, run) && run[|run| - 1].main.Finished?
    ensures var parts := PartsAt(run, |run| - 1);
            run[|run| - 1].output == AllText(parts) && PartsOfFile(parts, AllCommands(true, input))
    ensures var parts, s := PartsAt(run, |run| - 1), run[|run| - 1];
            forall x :: 0 <= x < |s.order| && s.order[x].cmd.ListEvents? ==>
              s.order[x].outcome == Listed(WrittenFor(parts, s.order[x].job))
    ensures Serialization(AllCommands(true, input), order)
    ensures run[|run| - 1].events == Replay(Pick(AllCommands(true, input), order))
    ensures var parts, cmds := PartsAt(run, |run| - 1), AllCommands(true, input);
            forall i :: 0 <= i < |order| && cmds[order[i]].ListEvents? ==>
              WrittenFor(parts, order[i]) == ListOutput(Ids(Replay(Pick(cmds, order[..i]))))
  {
    var last := |run| - 1;
    var cmds := AllCommands(true, input);
    order := FinishedRunIsSequential(input, n, run);
    RunParts(input, n, run, last);
    RunRounds(input, n, run, last);
    FinishedState(input, n, run);
    PartsAreOfFile(PartsAt(run, last), run[last].log, cmds, Round(run[last]));
    EffectCommands(input, n, run);
    ListsReported(PartsAt(run, last), run[last]);
    ListsOfOrder(PartsAt(run, last), run[last], cmds, order);
  }

  lemma EffectCommands(input: string, n: nat, run: seq<State>)
    requires IsRun(input, n, run)
    ensures var s, cmds := run[|run| - 1], AllCommands(true, input);
            forall i :: 0 <= i < |s.order| ==> s.order[i].job < |cmds| && s.order[i].cmd == cmds[s.order[i].job]
  {
    RunInv(input, n, run, |run| - 1);
    var s, cmds := run[|run| - 1], AllCommands(true, input);
    forall i | 0 <= i < |s.order| ensures s.order[i].job < |cmds| && s.order[i].cmd == cmds[s.order[i].job] {
      assert LogCommands(s.log)[s.order[i].job] == s.log[s.order[i].job].cmd;
    }
  }
}
