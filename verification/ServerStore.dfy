/** The server's store: as EventStore, but RESERVE follows the two-pass rule. */
module ServerStore {
  import opened Options
  import opened Seating
  import opened Commands
  import opened EventStore

  ghost function ServerApply(store: Store, cmd: Command): Store {
    if cmd.Reserve? then ApplyLenient(store, cmd.id, cmd.seats) else Apply(store, cmd)
  }

  ghost function ServerReplay(cmds: seq<Command>): Store {
    if cmds == [] then [] else ServerApply(ServerReplay(cmds[..|cmds| - 1]), cmds[|cmds| - 1])
  }

  lemma {:induction false} ServerReplayWellFormed(cmds: seq<Command>)
    ensures UniqueIds(ServerReplay(cmds))
    ensures forall k :: 0 <= k < |ServerReplay(cmds)| ==> WellFormed(ServerReplay(cmds)[k])
  {
    if cmds != [] {
      ServerReplayWellFormed(cmds[..|cmds| - 1]);
      ServerApplyWellFormed(ServerReplay(cmds[..|cmds| - 1]), cmds[|cmds| - 1]);
    }
  }

  lemma ServerApplyWellFormed(store: Store, cmd: Command)
    requires UniqueIds(store) && forall k :: 0 <= k < |store| ==> WellFormed(store[k])
    ensures UniqueIds(ServerApply(store, cmd))
    ensures forall k :: 0 <= k < |ServerApply(store, cmd)| ==> WellFormed(ServerApply(store, cmd)[k])
  {
  }

  /** Density does not depend on refusing repeated seats. */
  lemma {:induction false} ServerReplayDense(cmds: seq<Command>, k: nat)
    requires NonEmptyRequests(cmds)
    requires k < |ServerReplay(cmds)| && CountableSeats(ServerReplay(cmds)[k])
    ensures Dense(ServerReplay(cmds)[k])
  {
    ServerReplayWellFormed(cmds);
    if cmds != [] {
      var last := cmds[|cmds| - 1];
      var before := ServerReplay(cmds[..|cmds| - 1]);
      if k < |before| {
        ServerReplayDense(cmds[..|cmds| - 1], k);
        if last.Reserve? && Find(before, last.id) == Some(k) && LenientAccepts(before[k], last.seats) {
          assert last.seats != [];
          CommitKeepsDensity(before[k], last.seats);
        }
      }
    }
  }

  /** A request the rollback rule refuses only because it names a seat twice. */
  predicate RefusedForRepeating(store: Store, cmd: Command) {
    cmd.Reserve? &&
    match Find(store, cmd.id)
    case None => false
    case Some(k) =>
      AllInBounds(store[k], cmd.seats) && AllFree(store[k], cmd.seats) && !Distinct(cmd.seats) && NextId(store[k]) != 0
  }

  lemma CommandsAgreeExactly(store: Store, cmd: Command)
    requires forall k :: 0 <= k < |store| ==> WellFormed(store[k])
    ensures ServerApply(store, cmd) == Apply(store, cmd) <==> !RefusedForRepeating(store, cmd)
  {
    if RefusedForRepeating(store, cmd) {
      var k := Find(store, cmd.id).value;
      assert ServerApply(store, cmd)[k].reservations == NextId(store[k]) != Apply(store, cmd)[k].reservations;
    }
  }

  /** The server and the first versions have the same store after every command. */
  ghost predicate AgreeAlong(cmds: seq<Command>) {
    ServerReplay(cmds) == Replay(cmds) && (cmds == [] || AgreeAlong(cmds[..|cmds| - 1]))
  }

  /** No command is refused for repeating a seat when its turn comes. */
  ghost predicate NeverRefusedForRepeating(cmds: seq<Command>) {
    cmds == [] ||
    (NeverRefusedForRepeating(cmds[..|cmds| - 1]) &&
     !RefusedForRepeating(Replay(cmds[..|cmds| - 1]), cmds[|cmds| - 1]))
  }

  /**
   * On whole runs: the server's store and the first versions' stay the same exactly as long as no request
   * is refused merely for naming a seat twice.
   */
  lemma {:induction false} StoresAgreeExactly(cmds: seq<Command>)
    ensures AgreeAlong(cmds) <==> NeverRefusedForRepeating(cmds)
  {
    if cmds != [] {
      var front := cmds[..|cmds| - 1];
      StoresAgreeExactly(front);
      ReplayWellFormed(front);
      CommandsAgreeExactly(Replay(front), cmds[|cmds| - 1]);
    }
  }
}
