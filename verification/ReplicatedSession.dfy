/** The phases of one session when several replicas keep a cache of it over one store.

A step of a replica is a step of `SessionCommit` against the common store.  A replica may also lose its
cached copy to a notification at any time.  Handlers hold the write lease from their start to their end;
game ticks never take it.  Nothing keeps a cached copy in step with the store. */
module ReplicatedSession {
  import opened Wrappers
  import opened Workshop
  import opened SessionCommit
  import opened PhaseHistory

  type ReplicaId = nat

  /** When a workshop was last touched: the cached copy, the copy kept for the undo, the one about to be saved,
  and those read for the cache. */
  datatype Stamps = Stamps(copy: nat, before: nat, snapshot: nat, loads: map<nat, nat>)

  /** One replica. */
  datatype Node<C> = Node(cached: Option<Session<C>>, lock: Lock<C>, loading: map<nat, Workshop<C>>, stamps: Stamps)

  /** `savedAt` is when the stored workshop was last touched; the store refuses one that is not newer. */
  datatype System<C> = System(persisted: Workshop<C>, savedAt: nat, clock: nat, nodes: map<ReplicaId, Node<C>>,
                              lease: Option<ReplicaId>)

  datatype Move = Local(replica: ReplicaId, step: Step) | Evict(replica: ReplicaId)

  function StateAt<C>(s: System<C>, replica: ReplicaId): State<C>
    requires replica in s.nodes
  {
    State(s.persisted, s.nodes[replica].cached, s.nodes[replica].lock, s.nodes[replica].loading)
  }

  predicate CanMove<C(==)>(s: System<C>, move: Move) {
    && move.replica in s.nodes
    && (move.Local? ==>
          && Enabled(StateAt(s, move.replica), move.step)
          && (move.step.TakeLock? && !move.step.task.GameTick? ==> s.lease.None?)
          && (move.step.SaveSucceeds? ==> s.nodes[move.replica].stamps.snapshot > s.savedAt))
  }

  function LeaseAfter<C>(s: System<C>, replica: ReplicaId, step: Step, lock: Lock<C>): Option<ReplicaId> {
    if step.TakeLock? && !step.task.GameTick? then Some(replica)
    else if s.lease == Some(replica) && lock.Free? then None
    else s.lease
  }

  /** Touching counts a revision and takes the time; a task that touches nothing leaves the old time. */
  function StampsAfter<C>(s: System<C>, node: Node<C>, step: Step, after: Option<Session<C>>): Stamps {
    match step
    case ReadForCache(loader) => node.stamps.(loads := node.stamps.loads[loader := s.savedAt])
    case FillCache(loader, _) =>
      if node.cached.Some? || loader !in node.stamps.loads then node.stamps
      else node.stamps.(copy := node.stamps.loads[loader])
    case Load(_) =>
      if node.cached.Some? && node.lock.Taken? && !ReloadsAlways(node.lock.task) then node.stamps
      else node.stamps.(copy := s.savedAt)
    case Mutate =>
      var touched := node.cached.Some? && after.Some?
                     && after.value.workshop.revision != node.cached.value.workshop.revision;
      var at := if touched then s.clock + 1 else node.stamps.copy;
      node.stamps.(copy := at, before := node.stamps.copy, snapshot := at)
    case SaveFails =>
      if node.lock.Saving? && !node.lock.task.GameTick? then node.stamps.(copy := node.stamps.before) else node.stamps
    case _ => node.stamps
  }

  function Moved<C(==)>(rules: Rules<C>, s: System<C>, move: Move): System<C>
    requires CanMove(s, move)
  {
    var r, node := move.replica, s.nodes[move.replica];
    if move.Evict? then s.(nodes := s.nodes[r := node.(cached := None)])
    else
      var t := Next(rules, StateAt(s, r), move.step);
      System(t.persisted, if move.step.SaveSucceeds? then node.stamps.snapshot else s.savedAt,
             if move.step.Mutate? then s.clock + 1 else s.clock,
             s.nodes[r := Node(t.cached, t.lock, t.loading, StampsAfter(s, node, move.step, t.cached))],
             LeaseAfter(s, r, move.step, t.lock))
  }

  /** A task that touches nothing is not saved over a workshop that is newer than its copy, or as old. */
  lemma UntouchedCopyIsRefused<C>(rules: Rules<C>, s: System<C>, r: ReplicaId)
    requires CanMove(s, Local(r, Mutate)) && s.nodes[r].stamps.copy <= s.savedAt
    requires var o := Perform(rules, s.nodes[r].cached.value, s.nodes[r].lock.task);
             o.Changed? && o.next.workshop.revision == s.nodes[r].cached.value.workshop.revision
    ensures !CanMove(Moved(rules, s, Local(r, Mutate)), Local(r, SaveSucceeds))
  {
    assert Moved(rules, s, Local(r, Mutate)).nodes[r].stamps.snapshot == s.nodes[r].stamps.copy;
  }

  predicate IsIdle<C>(node: Node<C>) {
    node.cached.None? && node.lock.Free? && node.loading == map[]
  }

  ghost predicate IsSystemRun<C(!new)>(rules: Rules<C>, run: seq<System<C>>, moves: seq<Move>) {
    && |run| == |moves| + 1 && run[0].lease.None? && AwardedOnce(run[0].persisted)
    && (forall r :: r in run[0].nodes ==> IsIdle(run[0].nodes[r]))
    && forall i :: 0 <= i < |moves| ==> CanMove(run[i], moves[i]) && run[i+1] == Moved(rules, run[i], moves[i])
  }

  // ---- Award rounds, whatever the replicas do ----

  ghost predicate NodeIsAwardedOnce<C(!new)>(node: Node<C>) {
    && (node.cached.Some? ==> AwardedOnce(node.cached.value.workshop))
    && (forall l :: l in node.loading ==> AwardedOnce(node.loading[l]))
    && (node.lock.Saving? ==> AwardedOnce(node.lock.before.workshop) && AwardedOnce(node.lock.snapshot))
  }

  ghost predicate AwardInv<C(!new)>(s: System<C>) {
    AwardedOnce(s.persisted) && forall r :: r in s.nodes ==> NodeIsAwardedOnce(s.nodes[r])
  }

  ghost predicate StateIsAwardedOnce<C(!new)>(s: State<C>) {
    && AwardedOnce(s.persisted)
    && (s.cached.Some? ==> AwardedOnce(s.cached.value.workshop))
    && (forall l :: l in s.loading ==> AwardedOnce(s.loading[l]))
    && (s.lock.Saving? ==> AwardedOnce(s.lock.before.workshop) && AwardedOnce(s.lock.snapshot))
  }

  lemma StepKeepsAwards<C(!new)>(rules: Rules<C>, s: State<C>, step: Step)
    requires StateIsAwardedOnce(s) && Enabled(s, step)
    ensures StateIsAwardedOnce(Next(rules, s, step))
  {
    if step.Mutate? {
      TaskMovesForward(rules, s.cached.value, s.lock.task);
    }
  }

  lemma MoveKeepsAwards<C(!new)>(rules: Rules<C>, s: System<C>, move: Move)
    requires AwardInv(s) && CanMove(s, move)
    ensures AwardInv(Moved(rules, s, move))
  {
    assert NodeIsAwardedOnce(s.nodes[move.replica]);
    if move.Local? {
      StepKeepsAwards(rules, StateAt(s, move.replica), move.step);
    }
    var t := Moved(rules, s, move);
    forall r | r in t.nodes ensures NodeIsAwardedOnce(t.nodes[r]) {
      if r != move.replica {
        assert t.nodes[r] == s.nodes[r];
      }
    }
  }

  /** Over every run of any number of replicas, stale caches included, each saved workshop has exactly the
  award rounds of its phase. */
  lemma {:induction false} AwardsStayRight<C(!new)>(rules: Rules<C>, run: seq<System<C>>, moves: seq<Move>, i: nat)
    requires IsSystemRun(rules, run, moves) && i <= |moves|
    ensures AwardInv(run[i])
  {
    if i > 0 {
      AwardsStayRight(rules, run, moves, i - 1);
      MoveKeepsAwards(rules, run[i-1], moves[i-1]);
    }
  }

  // ---- Phases, while the caches follow ----

  /** What a replica can check before it saves: that the copy its task was performed on, which it keeps for
  the undo, follows what is saved at that moment. */
  predicate IsGuarded<C(==)>(s: System<C>, move: Move)
    requires CanMove(s, move)
  {
    move.Local? && move.step.SaveSucceeds? ==>
      IsSafePair(s.persisted.phase, s.nodes[move.replica].lock.before.workshop.phase)
  }

  /** What is about to be saved came of performing the task on the copy kept for the undo. */
  ghost predicate NodeCameOfTask<C(!new)>(rules: Rules<C>, node: Node<C>) {
    node.lock.Saving? ==>
      var o := Perform(rules, node.lock.before, node.lock.task);
      o.Changed? && o.next.workshop == node.lock.snapshot
  }

  ghost predicate TaskInv<C(!new)>(rules: Rules<C>, s: System<C>) {
    forall r :: r in s.nodes ==> NodeCameOfTask(rules, s.nodes[r])
  }

  lemma MoveKeepsTasks<C(!new)>(rules: Rules<C>, s: System<C>, move: Move)
    requires TaskInv(rules, s) && CanMove(s, move)
    ensures TaskInv(rules, Moved(rules, s, move))
  {
    var t := Moved(rules, s, move);
    assert NodeCameOfTask(rules, s.nodes[move.replica]);
    forall r | r in t.nodes ensures NodeCameOfTask(rules, t.nodes[r]) {
      if r != move.replica {
        assert t.nodes[r] == s.nodes[r];
      }
    }
  }

  lemma {:induction false} RunKeepsTasks<C(!new)>(rules: Rules<C>, run: seq<System<C>>, moves: seq<Move>, i: nat)
    requires IsSystemRun(rules, run, moves) && i <= |moves|
    ensures TaskInv(rules, run[i])
  {
    if i > 0 {
      RunKeepsTasks(rules, run, moves, i - 1);
      MoveKeepsTasks(rules, run[i-1], moves[i-1]);
    }
  }

  /** Over every run of any number of replicas, a save from a copy that follows what is saved at that moment
  moves the phase forwards or resets it; nothing but a save moves it at all. */
  lemma PhasesMoveForwardWhileCachesFollow<C(!new)>(rules: Rules<C>, run: seq<System<C>>, moves: seq<Move>, i: nat)
    requires IsSystemRun(rules, run, moves) && i < |moves| && IsGuarded(run[i], moves[i])
    ensures run[i+1].persisted == run[i].persisted
            || (IsReset(run[i].nodes[moves[i].replica].lock.task) && run[i+1].persisted.phase == Lobby)
            || MovesForward(run[i].persisted.phase, run[i+1].persisted.phase)
  {
    var s, r := run[i], moves[i].replica;
    AwardsStayRight(rules, run, moves, i);
    RunKeepsTasks(rules, run, moves, i);
    assert NodeIsAwardedOnce(s.nodes[r]) && NodeCameOfTask(rules, s.nodes[r]);
    if moves[i].Local? && moves[i].step.SaveSucceeds? {
      var lock := s.nodes[r].lock;
      TaskMovesForward(rules, lock.before, lock.task);
      if !IsReset(lock.task) {
        SafePairMovesForward(rules, s.persisted.phase, lock.before, lock.task);
      }
    }
  }

  lemma SavingKeepsItsCopy<C(!new)>(rules: Rules<C>, s: System<C>, move: Move, r: ReplicaId)
    requires CanMove(s, move) && r in s.nodes && s.nodes[r].lock.Saving?
    requires Moved(rules, s, move).nodes[r].lock.Saving?
    ensures Moved(rules, s, move).nodes[r].lock.before == s.nodes[r].lock.before
  {
  }

  /** Checking before the change is enough when nothing is saved between it and its own save. */
  lemma {:induction false} UndisturbedTaskIsGuarded<C(!new)>(rules: Rules<C>, run: seq<System<C>>, moves: seq<Move>,
                                                            r: ReplicaId, j: nat, i: nat)
    requires IsSystemRun(rules, run, moves) && j < i < |moves| && moves[j] == Local(r, Mutate)
    requires IsSafePair(run[j].persisted.phase, run[j].nodes[r].cached.value.workshop.phase)
    requires forall k :: j < k <= i ==> r in run[k].nodes && run[k].nodes[r].lock.Saving?
    requires forall k :: j < k < i ==> run[k+1].persisted == run[k].persisted
    ensures IsSafePair(run[i].persisted.phase, run[i].nodes[r].lock.before.workshop.phase)
    ensures run[i].nodes[r].lock.before == run[j].nodes[r].cached.value && run[i].persisted == run[j].persisted
  {
    if i > j + 1 {
      UndisturbedTaskIsGuarded(rules, run, moves, r, j, i - 1);
      var k := i - 1;
      assert run[k+1] == Moved(rules, run[k], moves[k]) && run[k+1].nodes[r].lock.Saving?;
      SavingKeepsItsCopy(rules, run[k], moves[k], r);
    }
  }

  // ---- What the lease does for it ----

  /** The lease is held by the one replica, if any, whose running task is not a tick. */
  ghost predicate LeaseInv<C(!new)>(s: System<C>) {
    forall r :: r in s.nodes && !s.nodes[r].lock.Free? && !s.nodes[r].lock.task.GameTick? ==> s.lease == Some(r)
  }

  lemma MoveKeepsLease<C(!new)>(rules: Rules<C>, s: System<C>, move: Move)
    requires LeaseInv(s) && CanMove(s, move)
    ensures LeaseInv(Moved(rules, s, move))
  {
    var t := Moved(rules, s, move);
    forall r | r in t.nodes && !t.nodes[r].lock.Free? && !t.nodes[r].lock.task.GameTick? ensures t.lease == Some(r) {
      if r != move.replica {
        assert t.nodes[r] == s.nodes[r];
      }
    }
  }

  lemma {:induction false} RunKeepsLease<C(!new)>(rules: Rules<C>, run: seq<System<C>>, moves: seq<Move>, i: nat)
    requires IsSystemRun(rules, run, moves) && i <= |moves|
    ensures LeaseInv(run[i])
  {
    if i > 0 {
      RunKeepsLease(rules, run, moves, i - 1);
      MoveKeepsLease(rules, run[i-1], moves[i-1]);
    }
  }

  /** While a handler is at work on one replica, only a game tick of another can change what is saved. */
  lemma OnlyTicksSlipIn<C(!new)>(rules: Rules<C>, run: seq<System<C>>, moves: seq<Move>, i: nat, worker: ReplicaId)
    requires IsSystemRun(rules, run, moves) && i < |moves|
    requires worker in run[i].nodes && !run[i].nodes[worker].lock.Free? && !run[i].nodes[worker].lock.task.GameTick?
    requires moves[i].replica != worker && run[i+1].persisted != run[i].persisted
    ensures moves[i].Local? && moves[i].step.SaveSucceeds? && run[i].nodes[moves[i].replica].lock.task.GameTick?
  {
    RunKeepsLease(rules, run, moves, i);
  }

  // ---- Runs in which a phase moves back ----

  /** A run, one move longer. */
  lemma RunGoesOn<C(!new)>(rules: Rules<C>, run: seq<System<C>>, moves: seq<Move>, move: Move)
    returns (longer: seq<System<C>>, more: seq<Move>)
    requires IsSystemRun(rules, run, moves) && CanMove(run[|moves|], move)
    ensures IsSystemRun(rules, longer, more)
    ensures more == moves + [move] && longer == run + [Moved(rules, run[|moves|], move)]
  {
    longer, more := run + [Moved(rules, run[|moves|], move)], moves + [move];
  }

  function IdleNode<C>(): Node<C> {
    Node(None, Free, map[], Stamps(0, 0, 0, map[]))
  }

  function HostOnly(): Presence {
    Presence({"host"}, Some("host"))
  }

  /** Replica 0 has cached a second phase that is saved, replica 1 has not. */
  function OneCache<C>(care: C): System<C> {
    var w := OnePlayerIn(Phase2, care).workshop;
    var caching := Node(Some(Fresh(w, HostOnly())), Free, map[], Stamps(0, 0, 0, map[7 := 0]));
    System(w, 0, 0, map[0 := caching, 1 := IdleNode()], None)
  }

  lemma OneReplicaCaches<C(!new)>(rules: Rules<C>, care: C) returns (run: seq<System<C>>, moves: seq<Move>)
    ensures IsSystemRun(rules, run, moves) && run[|moves|] == OneCache(care) && CachesFollow(run, moves)
  {
    var w := OnePlayerIn(Phase2, care).workshop;
    run, moves := [System(w, 0, 0, map[0 := IdleNode(), 1 := IdleNode()], None)], [];
    run, moves := RunGoesOn(rules, run, moves, Local(0, ReadForCache(7)));
    assert run[1].nodes[0] == Node(None, Free, map[7 := w], Stamps(0, 0, 0, map[7 := 0]));
    run, moves := RunGoesOn(rules, run, moves, Local(0, FillCache(7, HostOnly())));
    assert map[7 := w] - {7} == map[];
  }

  /** The copy a task that keeps a cache starts from. */
  function LoadedBy<C>(s: System<C>, r: ReplicaId): Session<C>
    requires r in s.nodes
  {
    if s.nodes[r].cached.Some? then s.nodes[r].cached.value else Fresh(s.persisted, HostOnly())
  }

  /** A replica is free to start this task, and the task will change the copy. */
  ghost predicate CanWork<C(!new)>(rules: Rules<C>, s: System<C>, r: ReplicaId, task: Task) {
    && r in s.nodes && s.nodes[r].lock.Free? && !ReloadsAlways(task)
    && (if task.GameTick? then s.nodes[r].cached.Some? else s.lease.None?)
    && var o := Perform(rules, LoadedBy(s, r), task);
       o.Changed? && o.next.workshop.revision != LoadedBy(s, r).workshop.revision
  }

  /** The stamps of a replica that has touched the copy it had or loaded. */
  function Touched<C>(s: System<C>, r: ReplicaId): Stamps
    requires r in s.nodes
  {
    var stamps := s.nodes[r].stamps;
    var before := if s.nodes[r].cached.Some? then stamps.copy else s.savedAt;
    Stamps(s.clock + 1, before, s.clock + 1, stamps.loads)
  }

  /** Where it then stands, about to save. */
  function AboutToSave<C(==)>(rules: Rules<C>, s: System<C>, r: ReplicaId, task: Task): System<C>
    requires r in s.nodes && Perform(rules, LoadedBy(s, r), task).Changed?
  {
    var next := Perform(rules, LoadedBy(s, r), task).next;
    System(s.persisted, s.savedAt, s.clock + 1,
           s.nodes[r := Node(Some(next), Saving(task, LoadedBy(s, r), next.workshop), s.nodes[r].loading,
                             Touched(s, r))],
           if task.GameTick? then s.lease else Some(r))
  }

  lemma WorkLeadsToSave<C(!new)>(rules: Rules<C>, s: System<C>, r: ReplicaId, task: Task)
    returns (taken: System<C>, loaded: System<C>)
    requires CanWork(rules, s, r, task)
    ensures CanMove(s, Local(r, TakeLock(task))) && taken == Moved(rules, s, Local(r, TakeLock(task)))
    ensures CanMove(taken, Local(r, Load(HostOnly()))) && loaded == Moved(rules, taken, Local(r, Load(HostOnly())))
    ensures CanMove(loaded, Local(r, Mutate))
    ensures Moved(rules, loaded, Local(r, Mutate)) == AboutToSave(rules, s, r, task)
    ensures loaded.persisted == s.persisted && loaded.nodes[r].cached == Some(LoadedBy(s, r))
  {
    taken := Moved(rules, s, Local(r, TakeLock(task)));
    loaded := Moved(rules, taken, Local(r, Load(HostOnly())));
    assert Moved(rules, loaded, Local(r, Mutate)).nodes == AboutToSave(rules, s, r, task).nodes;
  }

  /** Every task so far found a copy that follows the saved phase. */
  ghost predicate CachesFollow<C(!new)>(run: seq<System<C>>, moves: seq<Move>)
    requires |run| == |moves| + 1
  {
    forall j :: 0 <= j < |moves| && CanMove(run[j], moves[j]) && moves[j] == Local(moves[j].replica, Mutate)
      ==> IsSafePair(run[j].persisted.phase, run[j].nodes[moves[j].replica].cached.value.workshop.phase)
  }

  /** A replica takes the lock, loads and changes the copy. */
  lemma ReplicaWorks<C(!new)>(rules: Rules<C>, run: seq<System<C>>, moves: seq<Move>, r: ReplicaId, task: Task)
    returns (longer: seq<System<C>>, more: seq<Move>)
    requires IsSystemRun(rules, run, moves) && CanWork(rules, run[|moves|], r, task)
    ensures IsSystemRun(rules, longer, more) && |more| == |moves| + 3 && run <= longer && moves <= more
    ensures longer[|more|] == AboutToSave(rules, run[|moves|], r, task)
    ensures CachesFollow(run, moves)
            && IsSafePair(run[|moves|].persisted.phase, LoadedBy(run[|moves|], r).workshop.phase)
            ==> CachesFollow(longer, more)
  {
    var taken, loaded := WorkLeadsToSave(rules, run[|moves|], r, task);
    longer, more := RunGoesOn(rules, run, moves, Local(r, TakeLock(task)));
    longer, more := RunGoesOn(rules, longer, more, Local(r, Load(HostOnly())));
    longer, more := RunGoesOn(rules, longer, more, Local(r, Mutate));
  }

  lemma ReplicaSaves<C(!new)>(rules: Rules<C>, run: seq<System<C>>, moves: seq<Move>, r: ReplicaId)
    returns (longer: seq<System<C>>, more: seq<Move>)
    requires IsSystemRun(rules, run, moves) && r in run[|moves|].nodes && run[|moves|].nodes[r].lock.Saving?
    requires run[|moves|].nodes[r].stamps.snapshot > run[|moves|].savedAt
    ensures IsSystemRun(rules, longer, more) && |more| == |moves| + 1 && run <= longer && moves <= more
    ensures var s, node := run[|moves|], run[|moves|].nodes[r];
            longer[|more|] == System(node.lock.snapshot, node.stamps.snapshot, s.clock,
                                     s.nodes[r := node.(lock := Free)],
                                     if s.lease == Some(r) then None else s.lease)
    ensures CachesFollow(run, moves) ==> CachesFollow(longer, more)
  {
    longer, more := RunGoesOn(rules, run, moves, Local(r, SaveSucceeds));
  }

  lemma EndingAndTicking<C>(rules: Rules<C>, care: C)
    ensures var s := Fresh(OnePlayerIn(Phase2, care).workshop, HostOnly());
            var ended, ticked := Perform(rules, s, RunCommand("host", EndGame, false)), Perform(rules, s, GameTick);
            && ended.Changed? && ended.next.workshop.phase == Voting
            && ended.next.workshop.revision != s.workshop.revision
            && ticked.Changed? && ticked.next.workshop.phase == Phase2 && ticked.next.workshop.time == 5
            && ticked.next.workshop.revision != s.workshop.revision
  {
    assert Fresh(OnePlayerIn(Phase2, care).workshop, HostOnly()) == OnePlayerIn(Phase2, care);
    OnePlayerEndsPhase2(rules, care);
  }

  /** The vote is saved, replica 0 still holds the second phase, and nobody is at work. */
  ghost predicate IsOutrun<C(!new)>(s: System<C>, care: C) {
    && s.persisted.phase == Voting && 0 in s.nodes && s.savedAt <= s.clock && s.lease.None?
    && s.nodes[0].cached == Some(Fresh(OnePlayerIn(Phase2, care).workshop, HostOnly()))
    && forall r :: r in s.nodes ==> s.nodes[r].lock.Free?
  }

  /** Two replicas reach a stale cache: one ends the second phase, the other still holds it. */
  lemma StaleCacheIsReached<C(!new)>(rules: Rules<C>, care: C) returns (run: seq<System<C>>, moves: seq<Move>)
    ensures IsSystemRun(rules, run, moves) && IsOutrun(run[|moves|], care)
  {
    EndingAndTicking(rules, care);
    run, moves := OneReplicaCaches(rules, care);
    run, moves := ReplicaWorks(rules, run, moves, 1, RunCommand("host", EndGame, false));
    run, moves := ReplicaSaves(rules, run, moves, 1);
  }

  /** The other's next game tick then saves the second phase over the vote. */
  lemma StaleCacheMovesBack<C(!new)>(rules: Rules<C>, care: C) returns (run: seq<System<C>>, moves: seq<Move>)
    ensures IsSystemRun(rules, run, moves) && |moves| >= 4 && IsOutrun(run[|moves| - 4], care)
    ensures run[|moves| - 1].persisted.phase == Voting
    ensures run[|moves|].persisted.phase == Phase2 && run[|moves|].persisted.time == 5
    ensures !MovesForward(run[|moves| - 1].persisted.phase, run[|moves|].persisted.phase)
  {
    EndingAndTicking(rules, care);
    run, moves := StaleCacheIsReached(rules, care);
    run, moves := ReplicaWorks(rules, run, moves, 0, GameTick);
    run, moves := ReplicaSaves(rules, run, moves, 0);
  }

  /** Finding a copy that follows is not enough: a tick that takes no lease can be overtaken between its
  change and its save. */
  lemma OvertakenTickMovesBack<C(!new)>(rules: Rules<C>, care: C) returns (run: seq<System<C>>, moves: seq<Move>)
    ensures IsSystemRun(rules, run, moves) && |moves| > 0 && CachesFollow(run, moves)
    ensures run[|moves| - 1].persisted.phase == Voting
    ensures run[|moves|].persisted.phase == Phase2 && run[|moves|].persisted.time == 5
    ensures !MovesForward(run[|moves| - 1].persisted.phase, run[|moves|].persisted.phase)
  {
    EndingAndTicking(rules, care);
    run, moves := OneReplicaCaches(rules, care);
    run, moves := ReplicaWorks(rules, run, moves, 1, RunCommand("host", EndGame, false));
    run, moves := ReplicaWorks(rules, run, moves, 0, GameTick);
    run, moves := ReplicaSaves(rules, run, moves, 1);
    run, moves := ReplicaSaves(rules, run, moves, 0);
  }
}
