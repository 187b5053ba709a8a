/** Restoring a displaced connection while its own socket is being torn down.

Both are sequences of separate critical sections, so they interleave.  The state machine below runs
one disconnect of the connection `conn` against any number of restores of it, with the rest of the
system free to do anything that does not register `conn`. */
module RestoreRace {
  import opened Wrappers
  import opened Connections

  /** The connection, its seat and the replica that its socket lives on. */
  datatype Target = Target(seat: Seat, conn: ConnId, replica: ReplicaId)

  /** The next critical section of a restore. */
  datatype RestorePc =
    | CheckSender | RestoreRow | AttachHere | StartHeartbeat | Recheck
    | StopHeartbeat | DetachHere | ReleaseRow | RestoreDone

  /** The next critical section of the disconnect. */
  datatype DisconnectPc = StopBeat | DropSender | ReleaseOwnRow | TakeTombstone | Detach | DisconnectDone

  datatype State = State(registry: Registry, store: Store, senders: set<ConnId>, heartbeats: set<ConnId>,
                         restores: map<nat, RestorePc>, disconnect: DisconnectPc)

  /** One critical section of a restore; `answers` says whether the store call in it succeeds, if it has one. */
  function RestoreStep(t: Target, s: State, task: nat, now: int, answers: bool): State
    requires task in s.restores
  {
    var conn := t.conn;
    match s.restores[task]
    case CheckSender =>
      s.(restores := s.restores[task := if conn in s.senders then RestoreRow else RestoreDone])
    case RestoreRow => if !answers then s.(restores := s.restores[task := RestoreDone]) else
      var (store, restored) := s.store.Restore(Registration(t.seat, conn, t.replica), now);
      s.(store := store, restores := s.restores[task := if restored then AttachHere else RestoreDone])
    case AttachHere =>
      s.(registry := s.registry.Attach(t.seat, conn).0, restores := s.restores[task := StartHeartbeat])
    case StartHeartbeat =>
      s.(heartbeats := s.heartbeats + {conn}, restores := s.restores[task := Recheck])
    case Recheck =>
      s.(restores := s.restores[task := if conn in s.senders then RestoreDone else StopHeartbeat])
    case StopHeartbeat =>
      s.(heartbeats := s.heartbeats - {conn}, restores := s.restores[task := DetachHere])
    case DetachHere =>
      s.(registry := s.registry.Detach(conn), restores := s.restores[task := ReleaseRow])
    case ReleaseRow =>
      s.(store := if answers then s.store.Release(conn, t.replica).0 else s.store,
         restores := s.restores[task := RestoreDone])
    case RestoreDone => s
  }

  /** One critical section of the disconnect, which takes a failed store call for an empty answer. */
  function DisconnectStep(t: Target, s: State, answers: bool): State {
    var conn := t.conn;
    match s.disconnect
    case StopBeat => s.(heartbeats := s.heartbeats - {conn}, disconnect := DropSender)
    case DropSender => s.(senders := s.senders - {conn}, disconnect := ReleaseOwnRow)
    case ReleaseOwnRow =>
      var (store, found) := if answers then s.store.Release(conn, t.replica) else (s.store, None);
      s.(store := store, disconnect := if found.Some? then Detach else TakeTombstone)
    case TakeTombstone =>
      s.(store := if answers then s.store.TakeRetired(conn, t.replica).0 else s.store, disconnect := Detach)
    case Detach => s.(registry := s.registry.Detach(conn), disconnect := DisconnectDone)
    case DisconnectDone => s
  }

  /** Anything the rest of the system may do: it never registers `conn` nor starts a heartbeat for it, though
  it may displace it, close its sender, stop its heartbeat or start another restore of it. */
  ghost predicate OtherStep(t: Target, s: State, s': State) {
    && (t.conn in s'.registry.byId ==> t.conn in s.registry.byId)
    && (t.conn in s'.store.rows ==> t.conn in s.store.rows)
    && (t.conn in s'.senders ==> t.conn in s.senders)
    && (t.conn in s'.heartbeats ==> t.conn in s.heartbeats)
    && s'.disconnect == s.disconnect
    && (forall task :: task in s.restores ==> task in s'.restores && s'.restores[task] == s.restores[task])
    && (forall task :: task in s'.restores && task !in s.restores ==> s'.restores[task] == CheckSender)
  }

  ghost predicate Next(t: Target, s: State, s': State) {
    || (exists answers :: s' == DisconnectStep(t, s, answers))
    || (exists task, now, answers :: task in s.restores && s' == RestoreStep(t, s, task, now, answers))
    || OtherStep(t, s, s')
  }

  ghost predicate Steps(t: Target, run: seq<State>, i: nat) {
    i < |run| - 1 && Next(t, run[i], run[i+1])
  }

  ghost predicate IsRun(t: Target, run: seq<State>) {
    && |run| > 0
    && run[0].disconnect == StopBeat
    && (forall task :: task in run[0].restores ==> run[0].restores[task] == CheckSender)
    && forall i {:trigger Steps(t, run, i)} :: 0 <= i < |run| - 1 ==> Steps(t, run, i)
  }

  /** Some restore still has the named part of its work ahead of it. */
  ghost predicate SomeRestoreAt(s: State, pcs: set<RestorePc>) {
    exists task :: task in s.restores && s.restores[task] in pcs
  }

  const WillRelease: set<RestorePc> := {AttachHere, StartHeartbeat, Recheck, StopHeartbeat, DetachHere, ReleaseRow}
  const WillDetach: set<RestorePc> := {StartHeartbeat, Recheck, StopHeartbeat, DetachHere}

  /** Whoever registers the connection after the disconnect looked is still going to take it away; only a row
  that a failed release has `left` behind is nobody's any more. */
  ghost predicate Inv(t: Target, s: State, left: bool) {
    && (s.disconnect !in {StopBeat, DropSender} ==> t.conn !in s.senders)
    && (t.conn in s.store.rows ==>
         s.disconnect in {StopBeat, DropSender, ReleaseOwnRow} || SomeRestoreAt(s, WillRelease) || left)
    && (t.conn in s.registry.byId ==> s.disconnect != DisconnectDone || SomeRestoreAt(s, WillDetach))
  }

  lemma RestoreKeepsInv(t: Target, s: State, task: nat, now: int, answers: bool, left: bool)
    requires Inv(t, s, left) && task in s.restores
    requires t.conn in s.store.rows && s.restores[task] == ReleaseRow && !answers ==> left
    ensures Inv(t, RestoreStep(t, s, task, now, answers), left)
  {
    var s' := RestoreStep(t, s, task, now, answers);
    forall other | other in s.restores && other != task
      ensures other in s'.restores && s'.restores[other] == s.restores[other]
    {
    }
    assert task in s'.restores;
  }

  lemma DisconnectKeepsInv(t: Target, s: State, answers: bool, left: bool)
    requires Inv(t, s, left)
    requires t.conn in s.store.rows && s.disconnect == ReleaseOwnRow && !answers ==> left
    ensures Inv(t, DisconnectStep(t, s, answers), left)
  {
    assert DisconnectStep(t, s, answers).restores == s.restores;
  }

  lemma OtherKeepsInv(t: Target, s: State, s': State, left: bool)
    requires Inv(t, s, left) && OtherStep(t, s, s')
    ensures Inv(t, s', left)
  {
  }

  /** The step from `i` is a release of the connection's row that the store does not answer. */
  ghost predicate FailsToRelease(t: Target, run: seq<State>, i: nat)
    requires i < |run| - 1
  {
    && t.conn in run[i].store.rows
    && ((run[i].disconnect == ReleaseOwnRow && run[i+1] == DisconnectStep(t, run[i], false))
        || (exists task, now :: task in run[i].restores && run[i].restores[task] == ReleaseRow
                                && run[i+1] == RestoreStep(t, run[i], task, now, false)))
  }

  /** The step from `i` leaves the row in place. */
  predicate KeepsRow(t: Target, run: seq<State>, i: nat)
    requires i < |run| - 1
  {
    t.conn in run[i+1].store.rows
  }

  ghost predicate RowIsLeft(t: Target, run: seq<State>, k: nat, i: nat) {
    k < i < |run| && FailsToRelease(t, run, k) && forall l :: k <= l < i ==> KeepsRow(t, run, l)
  }

  /** Some release failed, and no step since took the row away. */
  ghost predicate SomeRowIsLeft(t: Target, run: seq<State>, i: nat) {
    exists k :: RowIsLeft(t, run, k, i)
  }

  lemma LeftRowStaysLeft(t: Target, run: seq<State>, i: nat)
    requires i < |run| - 1 && KeepsRow(t, run, i) && (SomeRowIsLeft(t, run, i) || FailsToRelease(t, run, i))
    ensures SomeRowIsLeft(t, run, i + 1)
  {
    if k :| RowIsLeft(t, run, k, i) {
      assert RowIsLeft(t, run, k, i + 1);
    } else {
      assert RowIsLeft(t, run, i, i + 1);
    }
  }

  lemma StepKeepsInv(t: Target, run: seq<State>, i: nat, left: bool)
    requires i < |run| - 1 && Next(t, run[i], run[i+1]) && Inv(t, run[i], left)
    requires FailsToRelease(t, run, i) ==> left
    ensures Inv(t, run[i+1], left)
  {
    var s, s' := run[i], run[i+1];
    if answers :| s' == DisconnectStep(t, s, answers) {
      DisconnectKeepsInv(t, s, answers, left);
    } else if OtherStep(t, s, s') {
      OtherKeepsInv(t, s, s', left);
    } else {
      var task, now, answers :| task in s.restores && s' == RestoreStep(t, s, task, now, answers);
      RestoreKeepsInv(t, s, task, now, answers, left);
    }
  }

  lemma {:induction false} RunKeepsInv(t: Target, run: seq<State>, i: nat)
    requires IsRun(t, run) && i < |run|
    ensures Inv(t, run[i], SomeRowIsLeft(t, run, i))
  {
    if i > 0 {
      RunKeepsInv(t, run, i - 1);
      assert Steps(t, run, i - 1);
      var left := SomeRowIsLeft(t, run, i - 1) || FailsToRelease(t, run, i - 1);
      StepKeepsInv(t, run, i - 1, left);
      if left && KeepsRow(t, run, i - 1) {
        LeftRowStaysLeft(t, run, i - 1);
      }
    }
  }

  ghost predicate IsFinished(s: State) {
    s.disconnect == DisconnectDone && forall task :: task in s.restores ==> s.restores[task] == RestoreDone
  }

  /** However the restores and the disconnect interleave, once all of them have finished the dead connection
  has no sender and is not in the local registry.  It is in the store exactly when some release of its row
  failed and nothing took the row away since. */
  lemma DeadConnectionIsForgotten(t: Target, run: seq<State>)
    requires IsRun(t, run)
    ensures var last := run[|run|-1];
            IsFinished(last) ==>
              && t.conn !in last.registry.byId && t.conn !in last.senders
              && (t.conn in last.store.rows <==> SomeRowIsLeft(t, run, |run| - 1))
  {
    var last := |run| - 1;
    RunKeepsInv(t, run, last);
    if k :| RowIsLeft(t, run, k, last) {
      assert KeepsRow(t, run, last - 1);
    }
  }

  // ---- When a heartbeat is left behind ----

  /** The step from `i` is this task's own, from this point of its work. */
  ghost predicate TakesStep(t: Target, run: seq<State>, i: nat, task: nat, pc: RestorePc)
    requires i < |run| - 1
  {
    && task in run[i].restores && run[i].restores[task] == pc
    && exists now, answers :: run[i+1] == RestoreStep(t, run[i], task, now, answers)
  }

  /** The step from `i` leaves the heartbeat in place. */
  predicate KeepsHeartbeat(t: Target, run: seq<State>, i: nat)
    requires i < |run| - 1
  {
    t.conn in run[i+1].heartbeats
  }

  /** A restore starts the heartbeat after the disconnect has stopped the old one and before it drops the
  sender, its own check afterwards still finds the sender, and no later step stops the heartbeat. */
  ghost predicate StartsInWindow(t: Target, run: seq<State>, i: nat, task: nat) {
    && i < |run| - 1 && run[i].disconnect == DropSender && TakesStep(t, run, i, task, StartHeartbeat)
    && (exists k :: i < k < |run| - 1 && TakesStep(t, run, k, task, Recheck) && t.conn in run[k].senders)
    && forall k :: i < k < |run| - 1 ==> KeepsHeartbeat(t, run, k)
  }

  /** A heartbeat that is there once the disconnect has stopped the old one was started by a restore since,
  and stayed. */
  ghost predicate StartedSince(t: Target, run: seq<State>, i: nat, j: nat, task: nat) {
    && j < i < |run| && run[j].disconnect != StopBeat && TakesStep(t, run, j, task, StartHeartbeat)
    && forall k :: j < k < i ==> KeepsHeartbeat(t, run, k)
  }

  lemma StepStartsHeartbeat(t: Target, run: seq<State>, i: nat) returns (task: nat)
    requires IsRun(t, run) && i < |run| - 1 && t.conn in run[i+1].heartbeats && run[i+1].disconnect != StopBeat
    requires t.conn !in run[i].heartbeats || run[i].disconnect == StopBeat
    ensures run[i].disconnect != StopBeat && TakesStep(t, run, i, task, StartHeartbeat)
  {
    assert Steps(t, run, i);
    var step, now, answers :| step in run[i].restores && run[i+1] == RestoreStep(t, run[i], step, now, answers);
    task := step;
  }

  lemma {:induction false} HeartbeatHasStart(t: Target, run: seq<State>, i: nat) returns (j: nat, task: nat)
    requires IsRun(t, run) && i < |run| && run[i].disconnect != StopBeat && t.conn in run[i].heartbeats
    ensures StartedSince(t, run, i, j, task)
  {
    var before := i - 1;
    if t.conn in run[before].heartbeats && run[before].disconnect != StopBeat {
      j, task := HeartbeatHasStart(t, run, before);
      assert KeepsHeartbeat(t, run, before);
    } else {
      task := StepStartsHeartbeat(t, run, before);
      j := before;
    }
  }

  /** A restore that has moved on from a point of its work took the step from there. */
  lemma {:induction false} LeavesPoint(t: Target, run: seq<State>, i: nat, j: nat, task: nat, pc: RestorePc)
    returns (k: nat)
    requires IsRun(t, run) && i < j < |run| && task in run[i].restores && run[i].restores[task] == pc
    requires task in run[j].restores && run[j].restores[task] != pc
    ensures i <= k < j && TakesStep(t, run, k, task, pc)
    decreases if i < j then j - i else 0
  {
    assert Steps(t, run, i);
    StepKeepsRestores(t, run[i], run[i+1], task);
    if run[i+1].restores[task] == pc {
      k := LeavesPoint(t, run, i + 1, j, task, pc);
    } else {
      k := i;
    }
  }

  lemma DisconnectKeepsRestores(t: Target, s: State, answers: bool)
    ensures DisconnectStep(t, s, answers).restores == s.restores
  {
  }

  lemma RestoreMovesOnlyItsTask(t: Target, s: State, step: nat, now: int, answers: bool, task: nat)
    requires step in s.restores && task in s.restores
    ensures task in RestoreStep(t, s, step, now, answers).restores
    ensures step != task ==> RestoreStep(t, s, step, now, answers).restores[task] == s.restores[task]
  {
  }

  lemma StepKeepsRestores(t: Target, s: State, s': State, task: nat)
    requires Next(t, s, s') && task in s.restores
    ensures task in s'.restores
    ensures s'.restores[task] == s.restores[task] || exists now, answers :: s' == RestoreStep(t, s, task, now, answers)
  {
    if answers :| s' == DisconnectStep(t, s, answers) {
      DisconnectKeepsRestores(t, s, answers);
    } else if !OtherStep(t, s, s') {
      var step, now, answers :| step in s.restores && s' == RestoreStep(t, s, step, now, answers);
      RestoreMovesOnlyItsTask(t, s, step, now, answers, task);
    }
  }

  lemma {:induction false} SenderStaysGone(t: Target, run: seq<State>, i: nat, j: nat)
    requires IsRun(t, run) && i <= j < |run| && t.conn !in run[i].senders
    ensures t.conn !in run[j].senders
  {
    if i < j {
      SenderStaysGone(t, run, i, j - 1);
      assert Steps(t, run, j - 1);
    }
  }

  /** A restore that has started the heartbeat, and left it in place to the end, found the sender. */
  lemma StartedHeartbeatWasRechecked(t: Target, run: seq<State>, j: nat, task: nat) returns (k: nat)
    requires IsRun(t, run) && IsFinished(run[|run|-1]) && StartedSince(t, run, |run| - 1, j, task)
    ensures j < k < |run| - 1 && TakesStep(t, run, k, task, Recheck) && t.conn in run[k].senders
  {
    var last := |run| - 1;
    StartLeadsToRecheck(t, run, j, task);
    RestoresStay(t, run, j + 1, last, task);
    k := LeavesPoint(t, run, j + 1, last, task, Recheck);
    if t.conn !in run[k].senders {
      FailedRecheckStops(t, run, k, task);
      var stop := LeavesPoint(t, run, k + 1, last, task, StopHeartbeat);
      StopTakesHeartbeat(t, run, stop, task);
    }
  }

  lemma StartLeadsToRecheck(t: Target, run: seq<State>, k: nat, task: nat)
    requires k < |run| - 1 && TakesStep(t, run, k, task, StartHeartbeat)
    ensures task in run[k+1].restores && run[k+1].restores[task] == Recheck
  {
  }

  lemma FailedRecheckStops(t: Target, run: seq<State>, k: nat, task: nat)
    requires k < |run| - 1 && TakesStep(t, run, k, task, Recheck) && t.conn !in run[k].senders
    ensures task in run[k+1].restores && run[k+1].restores[task] == StopHeartbeat
  {
  }

  lemma StopTakesHeartbeat(t: Target, run: seq<State>, k: nat, task: nat)
    requires k < |run| - 1 && TakesStep(t, run, k, task, StopHeartbeat)
    ensures !KeepsHeartbeat(t, run, k)
  {
  }

  lemma {:induction false} RestoresStay(t: Target, run: seq<State>, i: nat, j: nat, task: nat)
    requires IsRun(t, run) && i <= j < |run| && task in run[i].restores
    ensures task in run[j].restores
  {
    if i < j {
      RestoresStay(t, run, i, j - 1, task);
      assert Steps(t, run, j - 1);
      StepKeepsRestores(t, run[j-1], run[j], task);
    }
  }

  /** In every finished run the dead connection keeps a heartbeat exactly when some restore started it within
  the window, found the sender afterwards, and no later step stopped it. */
  lemma HeartbeatLingersExactly(t: Target, run: seq<State>)
    requires IsRun(t, run) && IsFinished(run[|run|-1])
    ensures t.conn in run[|run|-1].heartbeats <==> exists i, task :: StartsInWindow(t, run, i, task)
  {
    var last := |run| - 1;
    if t.conn in run[last].heartbeats {
      var j, task := HeartbeatHasStart(t, run, last);
      var k := StartedHeartbeatWasRechecked(t, run, j, task);
      RunKeepsInv(t, run, j);
      if run[j].disconnect != DropSender {
        SenderStaysGone(t, run, j, k);
      }
      assert StartsInWindow(t, run, j, task);
    }
    if i, task :| StartsInWindow(t, run, i, task) {
      HeartbeatStays(t, run, i, task);
    }
  }

  lemma HeartbeatStays(t: Target, run: seq<State>, i: nat, task: nat)
    requires StartsInWindow(t, run, i, task)
    ensures t.conn in run[|run|-1].heartbeats
  {
    if i + 1 < |run| - 1 {
      assert KeepsHeartbeat(t, run, |run| - 2);
    }
  }

  lemma NextExtendsRun(t: Target, run: seq<State>, next: State)
    requires IsRun(t, run) && Next(t, run[|run|-1], next)
    ensures IsRun(t, run + [next])
  {
    var longer := run + [next];
    forall i | 0 <= i < |longer| - 1 ensures Steps(t, longer, i) {
      if i < |run| - 1 {
        assert Steps(t, run, i);
      }
    }
  }

  lemma RestoreExtendsRun(t: Target, run: seq<State>, task: nat)
    requires IsRun(t, run) && task in run[|run|-1].restores
    ensures IsRun(t, run + [RestoreStep(t, run[|run|-1], task, 0, true)])
  {
    var next := RestoreStep(t, run[|run|-1], task, 0, true);
    assert Next(t, run[|run|-1], next);
    NextExtendsRun(t, run, next);
  }

  lemma DisconnectExtendsRun(t: Target, run: seq<State>, answers: bool)
    requires IsRun(t, run)
    ensures IsRun(t, run + [DisconnectStep(t, run[|run|-1], answers)])
  {
    var next := DisconnectStep(t, run[|run|-1], answers);
    assert Next(t, run[|run|-1], next);
    NextExtendsRun(t, run, next);
  }

  /** The restore takes the row back and registers the connection, up to its heartbeat. */
  lemma RestoreReachesItsHeartbeat(t: Target) returns (run: seq<State>)
    ensures IsRun(t, run)
    ensures var s := run[|run|-1];
            && s.restores == map[0 := StartHeartbeat] && s.disconnect == StopBeat && t.conn in s.senders
            && t.conn in s.store.rows && s.store.rows[t.conn].replica == t.replica
  {
    var store := Store(map[], map[], map[t.conn := t.replica]);
    run := [State(Registry(map[], map[]), store, {t.conn}, {t.conn}, map[0 := CheckSender], StopBeat)];
    RestoreExtendsRun(t, run, 0);
    run := run + [RestoreStep(t, run[|run|-1], 0, 0, true)];
    RestoreExtendsRun(t, run, 0);
    RestoreGivesTheSeatBack(store, Registration(t.seat, t.conn, t.replica), 0);
    run := run + [RestoreStep(t, run[|run|-1], 0, 0, true)];
    RestoreExtendsRun(t, run, 0);
    run := run + [RestoreStep(t, run[|run|-1], 0, 0, true)];
  }

  // ---- Left alone, restores and the disconnect finish ----

  function StepsAhead(pc: RestorePc): nat {
    match pc
    case CheckSender => 8
    case RestoreRow => 7
    case AttachHere => 6
    case StartHeartbeat => 5
    case Recheck => 4
    case StopHeartbeat => 3
    case DetachHere => 2
    case ReleaseRow => 1
    case RestoreDone => 0
  }

  /** The same but for the progress of one restore, and for what restores do to registry, store and heartbeats. */
  predicate OnlyMoves(s: State, s': State, task: nat) {
    && s'.disconnect == s.disconnect && s'.senders == s.senders
    && s'.restores.Keys == s.restores.Keys
    && forall other :: other in s.restores && other != task ==> s'.restores[other] == s.restores[other]
  }

  lemma RestoreStepMovesOn(t: Target, s: State, task: nat)
    requires task in s.restores && s.restores[task] != RestoreDone
    ensures var s' := RestoreStep(t, s, task, 0, true);
            OnlyMoves(s, s', task) && StepsAhead(s'.restores[task]) < StepsAhead(s.restores[task])
  {
  }

  lemma {:induction false} RestoreFinishes(t: Target, run: seq<State>, task: nat) returns (longer: seq<State>)
    requires IsRun(t, run) && task in run[|run|-1].restores
    ensures IsRun(t, longer) && run <= longer
    ensures OnlyMoves(run[|run|-1], longer[|longer|-1], task) && longer[|longer|-1].restores[task] == RestoreDone
    decreases StepsAhead(run[|run|-1].restores[task])
  {
    longer := run;
    var s := run[|run|-1];
    if s.restores[task] != RestoreDone {
      RestoreExtendsRun(t, run, task);
      RestoreStepMovesOn(t, s, task);
      longer := RestoreFinishes(t, run + [RestoreStep(t, s, task, 0, true)], task);
    }
  }

  predicate OthersAreDone(s: State, open: set<nat>) {
    forall task :: task in s.restores && task !in open ==> s.restores[task] == RestoreDone
  }

  /** All restores but one finish, and leave the rest to it. */
  lemma {:induction false} OtherRestoresFinish(t: Target, run: seq<State>, task: nat, open: set<nat>)
    returns (longer: seq<State>)
    requires IsRun(t, run) && task in run[|run|-1].restores && task !in open && open <= run[|run|-1].restores.Keys
    requires OthersAreDone(run[|run|-1], open + {task})
    decreases open
    ensures IsRun(t, longer) && run <= longer
    ensures var s, s' := run[|run|-1], longer[|longer|-1];
            && s'.disconnect == s.disconnect && s'.senders == s.senders && s'.restores.Keys == s.restores.Keys
            && s'.restores[task] == s.restores[task]
            && OthersAreDone(s', {task})
  {
    longer := run;
    if other :| other in open {
      longer := RestoreFinishes(t, run, other);
      longer := OtherRestoresFinish(t, longer, task, open - {other});
    } else {
      assert open + {task} == {task};
    }
  }

  /** Past its window the disconnect runs to its end without another look at the heartbeats. */
  lemma DisconnectFinishes(t: Target, run: seq<State>, answers: bool) returns (longer: seq<State>)
    requires IsRun(t, run) && run[|run|-1].disconnect == DropSender
    ensures IsRun(t, longer) && run <= longer
    ensures var s, s' := run[|run|-1], longer[|longer|-1];
            && s'.disconnect == DisconnectDone && s'.restores == s.restores && s'.heartbeats == s.heartbeats
            && (!answers ==> s'.store == s.store)
  {
    DisconnectExtendsRun(t, run, answers);
    longer := run + [DisconnectStep(t, run[|run|-1], answers)];
    DisconnectExtendsRun(t, longer, answers);
    longer := longer + [DisconnectStep(t, longer[|longer|-1], answers)];
    DisconnectExtendsRun(t, longer, answers);
    longer := longer + [DisconnectStep(t, longer[|longer|-1], answers)];
    if longer[|longer|-1].disconnect == Detach {
      DisconnectExtendsRun(t, longer, answers);
      longer := longer + [DisconnectStep(t, longer[|longer|-1], answers)];
    }
  }

  /** A restore is about to start the heartbeat, the disconnect has stopped it and not yet dropped the sender. */
  predicate IsInWindow(t: Target, s: State, task: nat) {
    s.disconnect == DropSender && t.conn in s.senders && task in s.restores && s.restores[task] == StartHeartbeat
  }

  /** Whatever a run did before, and whatever else is under way, from any state in the window it can finish with
  the heartbeat left behind. */
  lemma WindowLeadsToHeartbeat(t: Target, run: seq<State>, task: nat) returns (longer: seq<State>)
    requires IsRun(t, run) && IsInWindow(t, run[|run|-1], task)
    ensures IsRun(t, longer) && run <= longer && IsFinished(longer[|longer|-1])
    ensures t.conn in longer[|longer|-1].heartbeats
  {
    longer := OtherRestoresFinish(t, run, task, run[|run|-1].restores.Keys - {task});
    RestoreExtendsRun(t, longer, task);
    longer := longer + [RestoreStep(t, longer[|longer|-1], task, 0, true)];
    RestoreExtendsRun(t, longer, task);
    longer := longer + [RestoreStep(t, longer[|longer|-1], task, 0, true)];
    longer := DisconnectFinishes(t, longer, true);
  }

  /** And a run reaches such a state. */
  lemma HeartbeatMayLinger(t: Target) returns (run: seq<State>)
    ensures IsRun(t, run) && IsFinished(run[|run|-1]) && t.conn in run[|run|-1].heartbeats
  {
    run := RestoreReachesItsHeartbeat(t);
    DisconnectExtendsRun(t, run, true);
    run := run + [DisconnectStep(t, run[|run|-1], true)];
    run := WindowLeadsToHeartbeat(t, run, 0);
  }

  /** A disconnect whose release is not answered leaves the row of a dead connection in the store. */
  lemma RowMayStay(t: Target) returns (run: seq<State>)
    ensures IsRun(t, run) && IsFinished(run[|run|-1]) && t.conn in run[|run|-1].store.rows
    ensures SomeRowIsLeft(t, run, |run| - 1)
  {
    var store := Store(map[t.conn := StoreRow(t.seat, t.replica, 0)], map[t.seat := t.conn], map[]);
    run := [State(Registry(map[], map[]), store, {t.conn}, {t.conn}, map[], StopBeat)];
    DisconnectExtendsRun(t, run, false);
    run := run + [DisconnectStep(t, run[|run|-1], false)];
    run := DisconnectFinishes(t, run, false);
    DeadConnectionIsForgotten(t, run);
  }
}
