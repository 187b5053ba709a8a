/** How the persisted phase moves, and how often the phase-end awards are given, over every run. */
module PhaseHistory {
  import opened Wrappers
  import opened Workshop
  import opened SessionCommit

  predicate IsReset(task: Task) {
    task.RunCommand? && task.command.ResetGame?
  }

  /** The persisted phase stays, follows the table forwards, or goes back to the lobby by a reset. */
  predicate MovesForward(from: Phase, to: Phase) {
    from == to || (CanTransition(from, to) && to != Lobby)
  }

  /** Between entering the second phase and the next reset there is exactly one award round: none while
  the phase lasts, one ever after. */
  predicate AwardedOnce<C>(w: Workshop<C>) {
    && (w.phase == Phase2 ==> w.awardRounds == 0)
    && (w.phase == Judge || w.phase == Voting || w.phase == End ==> w.awardRounds == 1)
  }

  lemma CommandMovesForward<C>(rules: Rules<C>, s: Session<C>, player: string, command: Command, overdue: bool)
    requires AwardedOnce(s.workshop)
    ensures match DoCommand(rules, s, player, command, overdue)
            case Refused(left) => left.workshop.phase == s.workshop.phase && AwardedOnce(left.workshop)
            case Changed(next) =>
              && AwardedOnce(next.workshop)
              && if command.ResetGame? then next.workshop.phase == Lobby
                 else MovesForward(s.workshop.phase, next.workshop.phase)
  {
  }

  /** What one task does to the phase and to the award rounds, accepted or refused. */
  lemma TaskMovesForward<C>(rules: Rules<C>, s: Session<C>, task: Task)
    requires AwardedOnce(s.workshop)
    ensures match Perform(rules, s, task)
            case Refused(left) => left.workshop.phase == s.workshop.phase && AwardedOnce(left.workshop)
            case Changed(next) =>
              && AwardedOnce(next.workshop)
              && (if IsReset(task) then next.workshop.phase == Lobby
                  else MovesForward(s.workshop.phase, next.workshop.phase))
              && (task.GameTick? || task.Attach? ==> next.workshop.phase == s.workshop.phase)
              && (task.JudgeRun? ==> next.workshop.phase == s.workshop.phase
                                     || (s.workshop.phase == Phase2 && next.workshop.phase == Judge))
  {
    if task.RunCommand? {
      CommandMovesForward(rules, s, task.player, task.command, task.overdue);
    }
  }

  // ---- Which caches are safe to work on ----

  /** The phase of the cached copy, against the saved one: the same, or one of two that cannot overtake it. */
  predicate IsSafePair(saved: Phase, cached: Phase) {
    saved == cached || (saved == Phase2 && cached == Judge) || (saved == Voting && cached == End)
  }

  /** No task performed on a copy in this phase can move that saved phase other than forwards or by a reset. */
  ghost predicate NeverMovesBack<C(!new)>(rules: Rules<C>, saved: Phase, cached: Phase) {
    forall s: Session<C>, task: Task ::
      s.workshop.phase == cached && AwardedOnce(s.workshop) && !IsReset(task) && Perform(rules, s, task).Changed?
      ==> MovesForward(saved, Perform(rules, s, task).next.workshop.phase)
  }

  lemma SafePairMovesForward<C>(rules: Rules<C>, saved: Phase, s: Session<C>, task: Task)
    requires IsSafePair(saved, s.workshop.phase) && AwardedOnce(s.workshop)
    requires !IsReset(task) && Perform(rules, s, task).Changed?
    ensures MovesForward(saved, Perform(rules, s, task).next.workshop.phase)
  {
    TaskMovesForward(rules, s, task);
    if s.workshop.phase != saved && task.RunCommand? {
      LateCommandsMoveForward(rules, s, task.player, task.command, task.overdue);
    }
  }

  /** From judging a command leads to the vote at most, and from the end nowhere but to a reset. */
  lemma LateCommandsMoveForward<C>(rules: Rules<C>, s: Session<C>, player: string, command: Command, overdue: bool)
    requires s.workshop.phase == Judge || s.workshop.phase == End
    requires !command.ResetGame? && DoCommand(rules, s, player, command, overdue).Changed?
    ensures var phase := DoCommand(rules, s, player, command, overdue).next.workshop.phase;
            phase == s.workshop.phase || (s.workshop.phase == Judge && phase == Voting)
  {
  }

  /** A workshop with one player in a phase, with the award rounds it must have, one tick before the server
  saves a tick: it saves those whose time is a multiple of five, and those with awards. */
  function OnePlayerIn<C>(phase: Phase, care: C): Session<C> {
    var rounds := if phase == Judge || phase == Voting || phase == End then 1 else 0;
    var hatched := phase != Lobby && phase != Phase0;
    var players := map["host" := Player(if hatched then Some("dragon_host") else None, true)];
    var dragons := if hatched then map["dragon_host" := Dragon("host", FALLBACK_TAGS)] else map[];
    Session(Workshop(phase, 4, 0, players, dragons, None, care, rounds), {"host"}, Some("host"), false)
  }

  /** The command that moves such a workshop on, where it can overtake a saved phase. */
  function NextCommand(phase: Phase): Command {
    match phase
    case Phase1 => StartHandover
    case Handover => StartPhase2
    case Phase2 => EndGame
    case _ => EndSession
  }

  lemma ChoosingKeepsThePhase<C>(rules: Rules<C>, care: C, phase: Phase)
    ensures var o := Perform(rules, OnePlayerIn(phase, care), RunCommand("host", SelectCharacter, false));
            o.Changed? && o.next.workshop.phase == phase
  {
  }

  lemma OnePlayerStartsPhase2<C>(rules: Rules<C>, care: C)
    ensures var o := Perform(rules, OnePlayerIn(Handover, care), RunCommand("host", StartPhase2, false));
            o.Changed? && o.next.workshop.phase == Phase2
  {
    var s := OnePlayerIn(Handover, care);
    assert s.workshop.EnterPhase2(rules, s.connected, false).1;
  }

  lemma OnePlayerEndsPhase2<C>(rules: Rules<C>, care: C)
    ensures var o := Perform(rules, OnePlayerIn(Phase2, care), RunCommand("host", EndGame, false));
            && o.Changed? && o.next.workshop.phase == Voting && o.next.host == Some("host")
            && o.next.workshop.ballot == Some(Ballot({}, map[], true))
            && o.next.workshop.revision > OnePlayerIn(Phase2, care).workshop.revision
  {
    LonePlayerHasNoBallot(OnePlayerIn(Phase2, care).workshop.AwardPhaseEnd(rules));
  }

  lemma LonePlayerHasNoBallot<C>(w: Workshop<C>)
    requires w.phase == Phase2 && w.players.Keys == {"host"}
    ensures var o := w.EnterVoting();
            && o.Some? && o.value.phase == Voting && o.value.ballot == Some(Ballot({}, map[], true))
            && o.value.revision > w.revision
  {
    var carers := set p | p in w.players && w.players[p].dragon.Some?;
    if carers != {} {
      assert carers == {"host"};
    }
  }

  lemma LonePlayerEndsVote<C>(rules: Rules<C>, s: Session<C>)
    requires s.workshop.phase == Voting && s.host == Some("host") && s.workshop.ballot == Some(Ballot({}, map[], true))
    ensures var o := Perform(rules, s, RunCommand("host", EndSession, false));
            o.Changed? && o.next.workshop.phase == End
  {
  }

  lemma NextCommandOvertakes<C>(rules: Rules<C>, care: C, saved: Phase, cached: Phase)
    requires !IsSafePair(saved, cached) && MovesForward(saved, cached)
    ensures var o := Perform(rules, OnePlayerIn(cached, care), RunCommand("host", NextCommand(cached), false));
            o.Changed? && !MovesForward(saved, o.next.workshop.phase)
  {
    match cached {
      case Handover => OnePlayerStartsPhase2(rules, care);
      case Phase2 => OnePlayerEndsPhase2(rules, care);
      case _ =>
    }
  }

  lemma UnsafePairMovesBack<C>(rules: Rules<C>, care: C, saved: Phase, cached: Phase) returns (task: Task)
    requires !IsSafePair(saved, cached)
    ensures !IsReset(task) && !ReloadsAlways(task) && !task.GameTick? && AwardedOnce(OnePlayerIn(cached, care).workshop)
    ensures var o := Perform(rules, OnePlayerIn(cached, care), task);
            o.Changed? && !MovesForward(saved, o.next.workshop.phase)
  {
    if MovesForward(saved, cached) {
      task := RunCommand("host", NextCommand(cached), false);
      NextCommandOvertakes(rules, care, saved, cached);
    } else {
      task := RunCommand("host", SelectCharacter, false);
      ChoosingKeepsThePhase(rules, care, cached);
    }
  }

  /** Working on a cached copy is safe for the saved phase exactly for these pairs of phases. */
  lemma SafePairExactly<C(!new)>(rules: Rules<C>, care: C, saved: Phase, cached: Phase)
    ensures NeverMovesBack(rules, saved, cached) <==> IsSafePair(saved, cached)
  {
    if IsSafePair(saved, cached) {
      forall s: Session<C>, task: Task | s.workshop.phase == cached && AwardedOnce(s.workshop) && !IsReset(task)
                                         && Perform(rules, s, task).Changed?
        ensures MovesForward(saved, Perform(rules, s, task).next.workshop.phase)
      {
        SafePairMovesForward(rules, saved, s, task);
      }
    } else {
      var task := UnsafePairMovesBack(rules, care, saved, cached);
      assert OnePlayerIn(cached, care).workshop.phase == cached;
    }
  }

  // ---- Every run of one replica ----

  predicate CacheFollows<C>(saved: Workshop<C>, w: Workshop<C>) {
    AwardedOnce(w) && IsSafePair(saved.phase, w.phase)
  }

  ghost predicate PhaseInv<C(!new)>(s: State<C>) {
    && AwardedOnce(s.persisted)
    && (s.cached.None? ==> forall l :: l in s.loading ==> s.loading[l] == s.persisted)
    && (s.lock.Saving? ==> s.cached.Some?)
    && match s.lock
       case Saving(task, before, snapshot) =>
         && s.cached.value.workshop == snapshot
         && CacheFollows(s.persisted, before.workshop)
         && AwardedOnce(snapshot)
         && (IsReset(task) ==> snapshot.phase == Lobby)
         && (!IsReset(task) ==> MovesForward(s.persisted.phase, snapshot.phase))
         && (task.GameTick? ==> before.workshop.phase == snapshot.phase)
         && (task.Attach? ==> before.workshop == s.persisted && snapshot.phase == before.workshop.phase)
         && (task.JudgeRun? ==> before.workshop == s.persisted
                                && (snapshot.phase == before.workshop.phase
                                    || (before.workshop.phase == Phase2 && snapshot.phase == Judge)))
       case Ready(task) =>
         && s.cached.Some? && CacheFollows(s.persisted, s.cached.value.workshop)
         && (ReloadsAlways(task) ==> s.cached.value.workshop == s.persisted)
       case _ => s.cached.Some? ==> CacheFollows(s.persisted, s.cached.value.workshop)
  }

  /** A handler that was dropped before its save leaves a copy that is not safe to work on. */
  predicate DropsUnsafely<C(==)>(s: State<C>, step: Step) {
    step.HandlerDropped? && s.lock.Saving? && !IsSafePair(s.persisted.phase, s.lock.snapshot.phase)
  }

  lemma StepKeepsPhaseInv<C(!new)>(rules: Rules<C>, s: State<C>, step: Step)
    requires PhaseInv(s) && Enabled(s, step) && !DropsUnsafely(s, step)
    ensures PhaseInv(Next(rules, s, step))
  {
    if step.Mutate? {
      var copy, task := s.cached.value, s.lock.task;
      TaskMovesForward(rules, copy, task);
      if !IsReset(task) && Perform(rules, copy, task).Changed? {
        SafePairMovesForward(rules, s.persisted.phase, copy, task);
      }
    }
  }

  /** A save moves the persisted phase forwards, or resets it; a save that ends the second phase without
  a reset carries exactly one award round. */
  lemma SaveMovesForward<C(!new)>(rules: Rules<C>, s: State<C>, step: Step)
    requires PhaseInv(s) && Enabled(s, step)
    ensures var t := Next(rules, s, step);
            && (t.persisted != s.persisted ==>
                 && step.SaveSucceeds?
                 && (if IsReset(s.lock.task) then t.persisted.phase == Lobby
                     else MovesForward(s.persisted.phase, t.persisted.phase)))
            && (s.persisted.phase == Phase2 && t.persisted.phase != Phase2 && t.persisted.phase != Lobby ==>
                 t.persisted.awardRounds == 1)
            && (t.persisted.phase == Phase2 ==> t.persisted.awardRounds == 0)
  {
  }

  lemma {:induction false} RunKeepsPhaseInv<C(!new)>(rules: Rules<C>, run: seq<State<C>>, steps: seq<Step>, i: nat)
    requires IsRun(rules, run, steps) && AwardedOnce(run[0].persisted) && i <= |steps|
    requires forall j :: 0 <= j < i ==> !DropsUnsafely(run[j], steps[j])
    ensures PhaseInv(run[i])
  {
    if i > 0 {
      RunKeepsPhaseInv(rules, run, steps, i - 1);
      StepKeepsPhaseInv(rules, run[i-1], steps[i-1]);
    }
  }

  /** Over every run, with failed saves, lost leases, restarts and any order of writers: until a dropped
  handler leaves a copy that is not safe, the persisted phase only moves forwards or back to the lobby by a
  reset, and the award rounds stay right. */
  lemma PhasesMoveForward<C(!new)>(rules: Rules<C>, run: seq<State<C>>, steps: seq<Step>, i: nat)
    requires IsRun(rules, run, steps) && AwardedOnce(run[0].persisted) && i < |steps|
    requires forall j :: 0 <= j < i ==> !DropsUnsafely(run[j], steps[j])
    ensures AwardedOnce(run[i].persisted) && AwardedOnce(run[i+1].persisted)
    ensures run[i+1].persisted == run[i].persisted
            || (run[i].lock.Saving? && IsReset(run[i].lock.task) && run[i+1].persisted.phase == Lobby)
            || MovesForward(run[i].persisted.phase, run[i+1].persisted.phase)
  {
    RunKeepsPhaseInv(rules, run, steps, i);
    SaveMovesForward(rules, run[i], steps[i]);
  }

  // ---- A run in which a dropped handler loses a phase ----

  lemma StepExtendsRun<C(!new)>(rules: Rules<C>, run: seq<State<C>>, steps: seq<Step>, step: Step)
    returns (longer: seq<State<C>>, more: seq<Step>)
    requires IsRun(rules, run, steps) && Enabled(run[|steps|], step)
    ensures IsRun(rules, longer, more)
    ensures more == steps + [step] && longer == run + [Next(rules, run[|steps|], step)]
  {
    longer, more := run + [Next(rules, run[|steps|], step)], steps + [step];
  }

  /** A handler takes the free lock, loads and changes the copy. */
  lemma HandlerWorks<C(!new)>(rules: Rules<C>, run: seq<State<C>>, steps: seq<Step>, host: Presence, task: Task)
    returns (longer: seq<State<C>>, more: seq<Step>)
    requires IsRun(rules, run, steps) && run[|steps|].lock.Free? && !ReloadsAlways(task) && !task.GameTick?
    requires var s := run[|steps|];
             Perform(rules, s.cached.GetOr(Fresh(s.persisted, host)), task).Changed?
    ensures IsRun(rules, longer, more) && |more| == |steps| + 3 && run <= longer && steps <= more
    ensures var s := run[|steps|];
            var copy := s.cached.GetOr(Fresh(s.persisted, host));
            var next := Perform(rules, copy, task).next;
            longer[|more|] == s.(cached := Some(next), lock := Saving(task, copy, next.workshop))
  {
    longer, more := StepExtendsRun(rules, run, steps, TakeLock(task));
    longer, more := StepExtendsRun(rules, longer, more, Load(host));
    longer, more := StepExtendsRun(rules, longer, more, Mutate);
  }

  /** A handler that is dropped before its save leaves the changed copy behind. */
  lemma HandlerIsDropped<C(!new)>(rules: Rules<C>, run: seq<State<C>>, steps: seq<Step>, host: Presence, task: Task)
    returns (longer: seq<State<C>>, more: seq<Step>)
    requires IsRun(rules, run, steps) && run[|steps|].lock.Free? && IsRequest(task) && !ReloadsAlways(task)
    requires Perform(rules, run[|steps|].cached.GetOr(Fresh(run[|steps|].persisted, host)), task).Changed?
    ensures IsRun(rules, longer, more) && |more| == |steps| + 4 && run <= longer
    ensures var s := run[|steps|];
            var next := Perform(rules, s.cached.GetOr(Fresh(s.persisted, host)), task).next;
            && longer[|more|] == s.(cached := Some(next))
            && (!IsSafePair(s.persisted.phase, next.workshop.phase) ==>
                  DropsUnsafely(longer[|steps| + 3], more[|steps| + 3]))
  {
    longer, more := HandlerWorks(rules, run, steps, host, task);
    longer, more := StepExtendsRun(rules, longer, more, HandlerDropped);
  }

  lemma HandlerSaves<C(!new)>(rules: Rules<C>, run: seq<State<C>>, steps: seq<Step>, host: Presence, task: Task)
    returns (longer: seq<State<C>>, more: seq<Step>)
    requires IsRun(rules, run, steps) && run[|steps|].lock.Free? && !ReloadsAlways(task) && !task.GameTick?
    requires Perform(rules, run[|steps|].cached.GetOr(Fresh(run[|steps|].persisted, host)), task).Changed?
    ensures IsRun(rules, longer, more) && |more| == |steps| + 4 && run <= longer && steps <= more
    ensures longer[|steps| + 3].persisted == run[|steps|].persisted
    ensures var s := run[|steps|];
            var next := Perform(rules, s.cached.GetOr(Fresh(s.persisted, host)), task).next;
            longer[|more|] == s.(persisted := next.workshop, cached := Some(next))
  {
    longer, more := HandlerWorks(rules, run, steps, host, task);
    longer, more := StepExtendsRun(rules, longer, more, SaveSucceeds);
  }

  /** The host ends the second phase, the client goes away before the save, and the host's next command ends
  the session: the vote is never saved. */
  lemma DroppedHandlerLosesAPhase<C(!new)>(rules: Rules<C>, care: C) returns (run: seq<State<C>>, steps: seq<Step>)
    ensures IsRun(rules, run, steps) && AwardedOnce(run[0].persisted) && |steps| == 8
    ensures DropsUnsafely(run[3], steps[3])
    ensures run[7].persisted.phase == Phase2 && run[8].persisted.phase == End
    ensures !MovesForward(run[7].persisted.phase, run[8].persisted.phase)
  {
    var copy := OnePlayerIn(Phase2, care);
    var host := Presence({"host"}, Some("host"));
    OnePlayerEndsPhase2(rules, care);
    run, steps := [State(copy.workshop, None, Free, map[])], [];
    assert Fresh(copy.workshop, host) == copy;
    run, steps := HandlerIsDropped(rules, run, steps, host, RunCommand("host", EndGame, false));
    LonePlayerEndsVote(rules, run[4].cached.value);
    run, steps := HandlerSaves(rules, run, steps, host, RunCommand("host", EndSession, false));
  }
}
