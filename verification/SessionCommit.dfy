/** The session cache of one replica against the store, for one session code.

A task takes the write lock, loads the session, changes the cached copy and then either saves it or
undoes the change.  Between those points the rest of the system goes on: broadcasts load the cache,
warnings set a flag, and the process may restart. */
module SessionCommit {
  import opened Wrappers
  import opened Workshop

  /** A cached session: presence, host and the warning flag are runtime data beside the workshop. */
  datatype Session<C> = Session(workshop: Workshop<C>, connected: set<string>, host: Option<string>, warned: bool)

  datatype Command =
    | StartPhase1
    | SelectCharacter
    | SubmitObservation(text: string)
    | Act(action: string)
    | StartHandover
    | SubmitTags(tags: seq<string>)
    | StartPhase2
    | EndGame
    | StartVoting
    | SubmitVote(dragon: string)
    | RevealVotingResults
    | EndSession
    | ResetGame
    | Unsupported

  /** The writers of a session.  `overdue` says whether the phase clock has run out when they look. */
  datatype Task =
    | RunCommand(player: string, command: Command, overdue: bool)
    | JoinAsNew(player: string, hasCharacter: bool)
    | ComeBack(player: string, newCharacter: bool)
    | Attach(player: string)
    | AdvanceOverdue(overdue: bool)
    | JudgeRun(evaluation: string)
    | GameTick

  /** What a task does to the cached session: refuse it, perhaps leaving something behind, or change it. */
  datatype Outcome<C> = Refused(left: Session<C>) | Changed(next: Session<C>)

  predicate IsHostCommand(command: Command) {
    !(command.SelectCharacter? || command.SubmitObservation? || command.Act? || command.SubmitTags?
      || command.SubmitVote? || command.Unsupported?)
  }

  /** A domain call that may refuse; what the caller changed before it stays. */
  function Accept<C>(s: Session<C>, w: Option<Workshop<C>>): Outcome<C> {
    if w.None? then Refused(s) else Changed(s.(workshop := w.value, warned := false))
  }

  /** Ends the second phase: the award round, then the vote. */
  function AwardAndVote<C>(rules: Rules<C>, s: Session<C>): Outcome<C> {
    var awarded := s.workshop.AwardPhaseEnd(rules);
    Accept(s.(workshop := awarded), awarded.EnterVoting())
  }

  function DoCommand<C>(rules: Rules<C>, s: Session<C>, player: string, command: Command, overdue: bool): Outcome<C> {
    var w := s.workshop;
    if IsHostCommand(command) && s.host != Some(player) then Refused(s)
    else
      match command
      case StartPhase1 => if w.phase != Lobby then Refused(s) else Accept(s, w.BeginPhase1(rules))
      case SelectCharacter =>
        if player !in w.players then Refused(s)
        else
          var chosen := w.players[player].(hasCharacter := true);
          Changed(s.(workshop := w.(players := w.players[player := chosen]).Touch()))
      case SubmitObservation(text) =>
        if w.phase != Phase1 || text == "" || w.DragonOf(player).None? then Refused(s)
        else Changed(s.(workshop := w.(care := rules.change(w.care, Noted(player, text))).Touch()))
      case Act(action) =>
        if w.DragonOf(player).None? || (w.phase != Phase1 && w.phase != Phase2)
           || w.DragonOf(player).value !in w.dragons then Refused(s)
        else Changed(s.(workshop := w.(care := rules.change(w.care, Acted(player, action))).Touch()))
      case StartHandover => if w.phase != Phase1 then Refused(s) else Accept(s, w.TransitionTo(Handover))
      case SubmitTags(tags) =>
        if w.phase != Handover || w.SaveTags(player, tags).None? then Refused(s)
        else Changed(s.(workshop := w.SaveTags(player, tags).value))
      case StartPhase2 =>
        if w.phase != Handover then Refused(s)
        else
          var (after, entered) := w.EnterPhase2(rules, s.connected, overdue);
          if entered then Changed(s.(workshop := after, warned := false)) else Refused(s.(workshop := after))
      case EndGame => if w.phase != Phase2 then Refused(s) else AwardAndVote(rules, s)
      case StartVoting =>
        if w.phase == Phase2 then AwardAndVote(rules, s)
        else if w.phase == Judge then Accept(s, w.EnterVoting())
        else Refused(s)
      case SubmitVote(dragon) =>
        if w.phase != Voting || w.SubmitVote(player, dragon).None? then Refused(s)
        else Changed(s.(workshop := w.SubmitVote(player, dragon).value))
      case RevealVotingResults =>
        if w.phase != Voting || w.RevealVotingResults().None? then Refused(s)
        else Changed(s.(workshop := w.RevealVotingResults().value))
      case EndSession => if w.phase != Voting then Refused(s) else Accept(s, w.FinalizeVoting())
      case ResetGame => Changed(s.(workshop := w.ResetToLobby(rules, player)))
      case Unsupported => Refused(s)
  }

  function DoAdvance<C>(rules: Rules<C>, s: Session<C>, overdue: bool): Outcome<C> {
    var w := s.workshop;
    if !overdue then Refused(s)
    else
      match w.phase
      case Phase1 => Accept(s, w.TransitionTo(Handover))
      case Handover =>
        var (after, entered) := w.EnterPhase2(rules, s.connected, true);
        if entered then Changed(s.(workshop := after, warned := false)) else Refused(s.(workshop := after))
      case Phase2 => AwardAndVote(rules, s)
      case _ => Refused(s)
  }

  function DoJudge<C>(rules: Rules<C>, s: Session<C>, evaluation: string): Outcome<C> {
    var w := s.workshop;
    if w.phase != Phase2 then Changed(s.(workshop := w.ApplyJudgeScores(rules, evaluation)))
    else
      var scored := w.AwardPhaseEnd(rules).ApplyJudgeScores(rules, evaluation);
      Accept(s.(workshop := scored), scored.EnterJudge())
  }

  function Perform<C>(rules: Rules<C>, s: Session<C>, task: Task): Outcome<C> {
    var w := s.workshop;
    match task
    case RunCommand(player, command, overdue) => DoCommand(rules, s, player, command, overdue)
    case JoinAsNew(player, hasCharacter) =>
      if w.phase != Lobby || player in w.players then Refused(s)
      else Changed(s.(workshop := w.(players := w.players[player := Player(None, hasCharacter)]).Touch(),
                      connected := s.connected + {player}))
    case ComeBack(player, newCharacter) =>
      if player !in w.players then Refused(s)
      else Changed(s.(workshop := w.(players := if newCharacter
                                               then w.players[player := w.players[player].(hasCharacter := true)]
                                               else w.players).Touch(),
                      connected := s.connected + {player}))
    case Attach(player) =>
      if player !in w.players || player in s.connected then Refused(s)
      else Changed(s.(workshop := w.Touch(), connected := s.connected + {player}))
    case AdvanceOverdue(overdue) => DoAdvance(rules, s, overdue)
    case JudgeRun(evaluation) => DoJudge(rules, s, evaluation)
    case GameTick => Changed(s.(workshop := w.Tick(rules, s.connected)))
  }

  // ---- The state machine ----

  /** Where the holder of the write lock stands.  `before` is what a failed save puts back. */
  datatype Lock<C> =
    | Free
    | Taken(task: Task)
    | Ready(task: Task)
    | Saving(task: Task, before: Session<C>, snapshot: Workshop<C>)

  datatype State<C> = State(persisted: Workshop<C>, cached: Option<Session<C>>, lock: Lock<C>,
                            loading: map<nat, Workshop<C>>)

  /** The presence and the host that a load works out from the live connections. */
  datatype Presence = Presence(connected: set<string>, host: Option<string>)

  datatype Step =
    | TakeLock(task: Task)
    | Load(presence: Presence)
    | GiveUp
    | Mutate
    | SaveSucceeds
    | SaveFails
    | SkipSave
    | JudgeLosesLease
    | AttachUndoStops
    | HandlerDropped
    | ReadForCache(loader: nat)
    | FillCache(loader: nat, presence: Presence)
    | WarnPlayers
    | Restart

  /** Joins, returns, attaches and judge runs always read the store; the others keep a cached session. */
  predicate ReloadsAlways(task: Task) {
    task.JoinAsNew? || task.ComeBack? || task.Attach? || task.JudgeRun?
  }

  /** Tasks that an HTTP handler performs: its future is dropped if the client goes away. */
  predicate IsRequest(task: Task) {
    task.RunCommand? || task.JoinAsNew? || task.ComeBack? || task.JudgeRun?
  }

  predicate Enabled<C(==)>(s: State<C>, step: Step) {
    match step
    case TakeLock(_) => s.lock.Free?
    case Load(_) => s.lock.Taken? && (s.lock.task.GameTick? ==> s.cached.Some?)
    case GiveUp => s.lock.Taken? || s.lock.Ready?
    case Mutate => s.lock.Ready? && s.cached.Some?
    case SaveSucceeds => s.lock.Saving?
    case SaveFails => s.lock.Saving?
    case SkipSave => s.lock.Saving? && s.lock.task.GameTick?
    case JudgeLosesLease => s.lock.Saving? && s.lock.task.JudgeRun?
    case AttachUndoStops => s.lock.Saving? && s.lock.task.Attach?
    case HandlerDropped => s.lock.Saving? && IsRequest(s.lock.task)
    case ReadForCache(_) => s.cached.None?
    case FillCache(loader, _) => loader in s.loading
    case WarnPlayers => s.cached.Some?
    case Restart => true
  }

  function Fresh<C>(w: Workshop<C>, presence: Presence): Session<C> {
    Session(w, presence.connected, presence.host, false)
  }

  function Next<C(==)>(rules: Rules<C>, s: State<C>, step: Step): State<C>
    requires Enabled(s, step)
  {
    match step
    case TakeLock(task) => s.(lock := Taken(task))
    case Load(presence) =>
      var keep := s.cached.Some? && !ReloadsAlways(s.lock.task);
      s.(cached := if keep then s.cached else Some(Fresh(s.persisted, presence)), lock := Ready(s.lock.task))
    case GiveUp => s.(lock := Free)
    case Mutate =>
      (match Perform(rules, s.cached.value, s.lock.task)
       case Refused(left) => s.(cached := Some(left), lock := Free)
       case Changed(next) =>
         s.(cached := Some(next), lock := Saving(s.lock.task, s.cached.value, next.workshop)))
    case SaveSucceeds => s.(persisted := s.lock.snapshot, lock := Free)
    case SaveFails =>
      s.(cached := if s.lock.task.GameTick? then s.cached else Some(s.lock.before), lock := Free)
    case SkipSave => s.(lock := Free)
    case JudgeLosesLease => s.(lock := Free)
    case AttachUndoStops => s.(lock := Free)
    case HandlerDropped => s.(lock := Free)
    case ReadForCache(loader) => s.(loading := s.loading[loader := s.persisted])
    case FillCache(loader, presence) =>
      s.(cached := if s.cached.Some? then s.cached else Some(Fresh(s.loading[loader], presence)),
         loading := s.loading - {loader})
    case WarnPlayers => s.(cached := Some(s.cached.value.(warned := true)))
    case Restart => s.(cached := None, lock := Free, loading := map[])
  }

  // ---- The cache is the store, some ticks later ----

  function TickAll<C>(rules: Rules<C>, w: Workshop<C>, ticks: seq<set<string>>): Workshop<C> {
    if ticks == [] then w else TickAll(rules, w, ticks[..|ticks|-1]).Tick(rules, ticks[|ticks|-1])
  }

  ghost predicate IsTicksAhead<C(!new)>(rules: Rules<C>, saved: Workshop<C>, w: Workshop<C>) {
    exists ticks :: TickAll(rules, saved, ticks) == w
  }

  /** What holds whenever the write lock is free. */
  ghost predicate Agrees<C(!new)>(rules: Rules<C>, s: State<C>) {
    s.cached.Some? ==> IsTicksAhead(rules, s.persisted, s.cached.value.workshop)
  }

  /** And at every point in between. */
  ghost predicate CacheInv<C(!new)>(rules: Rules<C>, s: State<C>) {
    && (s.cached.None? ==> forall l :: l in s.loading ==> s.loading[l] == s.persisted)
    && match s.lock
       case Free => Agrees(rules, s)
       case Taken(_) => Agrees(rules, s)
       case Ready(task) =>
         && Agrees(rules, s)
         && s.cached.Some?
         && (ReloadsAlways(task) ==> s.cached.value.workshop == s.persisted)
       case Saving(task, before, snapshot) =>
         && s.cached.Some? && s.cached.value.workshop == snapshot
         && IsTicksAhead(rules, s.persisted, before.workshop)
         && (ReloadsAlways(task) ==> before.workshop == s.persisted)
         && (exists performed: Session<C> ::
                performed.workshop == snapshot && Perform(rules, before, task) == Changed(performed))
  }

  /** A step that leaves something unsaved behind: a refusal that has changed the workshop, a judge run that
  returns without its lease, an attach whose undo stops at a failed restore call, or a handler dropped
  between a change and its save. */
  predicate LeavesResidue<C(==)>(rules: Rules<C>, s: State<C>, step: Step)
    requires Enabled(s, step)
  {
    || step.JudgeLosesLease? || step.AttachUndoStops?
    || (step.HandlerDropped? && s.lock.snapshot != s.lock.before.workshop)
    || (step.Mutate? && Perform(rules, s.cached.value, s.lock.task).Refused?
        && Perform(rules, s.cached.value, s.lock.task).left.workshop != s.cached.value.workshop)
  }

  lemma NoTicksAhead<C(!new)>(rules: Rules<C>, w: Workshop<C>)
    ensures IsTicksAhead(rules, w, w)
  {
    assert TickAll(rules, w, []) == w;
  }

  lemma OneMoreTick<C(!new)>(rules: Rules<C>, saved: Workshop<C>, w: Workshop<C>, connected: set<string>)
    requires IsTicksAhead(rules, saved, w)
    ensures IsTicksAhead(rules, saved, w.Tick(rules, connected))
  {
    var ticks :| TickAll(rules, saved, ticks) == w;
    var longer := ticks + [connected];
    assert longer[..|longer|-1] == ticks;
    assert TickAll(rules, saved, longer) == w.Tick(rules, connected);
  }

  lemma StepKeepsCacheInv<C(!new)>(rules: Rules<C>, s: State<C>, step: Step)
    requires CacheInv(rules, s) && Enabled(s, step) && !LeavesResidue(rules, s, step)
    ensures CacheInv(rules, Next(rules, s, step))
  {
    NoTicksAhead(rules, s.persisted);
    match step {
      case SaveSucceeds =>
        NoTicksAhead(rules, s.lock.snapshot);
      case SaveFails =>
        if s.lock.task.GameTick? {
          OneMoreTick(rules, s.persisted, s.lock.before.workshop, s.lock.before.connected);
        }
      case SkipSave =>
        OneMoreTick(rules, s.persisted, s.lock.before.workshop, s.lock.before.connected);
      case _ =>
    }
  }

  // ---- Exactly which steps break the agreement ----

  predicate InCarePhase(phase: Phase) {
    phase == Phase1 || phase == Phase2
  }

  /** Ticks leave the phase alone; outside the care phases they leave everything alone, and inside each
  one counts one revision and moves the clock by one. */
  lemma {:induction false} WhatTicksDo<C(!new)>(rules: Rules<C>, w: Workshop<C>, ticks: seq<set<string>>)
    ensures var t := TickAll(rules, w, ticks);
            && t.phase == w.phase
            && (!InCarePhase(w.phase) ==> t == w)
            && (InCarePhase(w.phase) ==> t.revision == w.revision + |ticks|)
            && (InCarePhase(w.phase) && ticks != [] ==> t.time == (w.time + |ticks|) % 48)
  {
    if ticks != [] {
      WhatTicksDo(rules, w, ticks[..|ticks|-1]);
      ClockGoesOn(w.time, |ticks| - 1);
    }
  }

  lemma ClockGoesOn(time: int, ticks: nat)
    ensures ((time + ticks) % 48 + 1) % 48 == (time + ticks + 1) % 48
  {
  }

  /** A request that changes anything changes the phase, or counts a revision without moving the clock of a
  care phase. */
  predicate IsNoTick<C>(w: Workshop<C>, t: Workshop<C>) {
    t.phase != w.phase || (t.revision == w.revision + 1 && (InCarePhase(w.phase) ==> t.time == w.time))
  }

  lemma RequestsAreNoTicks<C>(rules: Rules<C>, s: Session<C>, task: Task)
    requires IsRequest(task) && Perform(rules, s, task).Changed?
    ensures var t := Perform(rules, s, task).next.workshop; t == s.workshop || IsNoTick(s.workshop, t)
  {
    if task.RunCommand? {
      CommandsAreNoTicks(rules, s, task.player, task.command, task.overdue);
    }
  }

  lemma CommandsAreNoTicks<C>(rules: Rules<C>, s: Session<C>, player: string, command: Command, overdue: bool)
    requires DoCommand(rules, s, player, command, overdue).Changed?
    ensures var t := DoCommand(rules, s, player, command, overdue).next.workshop;
            t == s.workshop || IsNoTick(s.workshop, t)
  {
  }

  lemma NoTickIsNotTicksAhead<C(!new)>(rules: Rules<C>, saved: Workshop<C>, w: Workshop<C>, t: Workshop<C>)
    requires IsTicksAhead(rules, saved, w) && IsNoTick(w, t)
    ensures !IsTicksAhead(rules, saved, t)
  {
    var earlier :| TickAll(rules, saved, earlier) == w;
    WhatTicksDo(rules, saved, earlier);
    if ticks :| TickAll(rules, saved, ticks) == t {
      WhatTicksDo(rules, saved, ticks);
    }
  }

  /** Only starting the second phase refuses after it has changed something. */
  lemma OnlyStartPhase2RefusesWithResidue<C>(rules: Rules<C>, s: Session<C>, task: Task)
    requires Perform(rules, s, task).Refused? && Perform(rules, s, task).left.workshop != s.workshop
    ensures task.RunCommand? && task.command.StartPhase2? && s.workshop.phase == Handover
    ensures Perform(rules, s, task).left.workshop == s.workshop.AutoFill(s.connected, task.overdue)
  {
  }

  lemma ResidueBreaksAgreement<C(!new)>(rules: Rules<C>, s: State<C>, step: Step)
    requires CacheInv(rules, s) && Enabled(s, step) && LeavesResidue(rules, s, step)
    ensures Next(rules, s, step).lock.Free? && !Agrees(rules, Next(rules, s, step))
  {
    if step.HandlerDropped? {
      RequestsAreNoTicks(rules, s.lock.before, s.lock.task);
      NoTickIsNotTicksAhead(rules, s.persisted, s.lock.before.workshop, s.lock.snapshot);
      return;
    }
    var left := Next(rules, s, step).cached.value.workshop;
    if step.Mutate? {
      OnlyStartPhase2RefusesWithResidue(rules, s.cached.value, s.lock.task);
      var ticks :| TickAll(rules, s.persisted, ticks) == s.cached.value.workshop;
      WhatTicksDo(rules, s.persisted, ticks);
    } else if step.JudgeLosesLease? {
      JudgeScoresAreNoTick(rules, s.lock.before, s.lock.task.evaluation);
    }
    forall ticks
      ensures TickAll(rules, s.persisted, ticks) != left
    {
      WhatTicksDo(rules, s.persisted, ticks);
    }
  }

  lemma JudgeScoresAreNoTick<C>(rules: Rules<C>, s: Session<C>, evaluation: string)
    ensures DoJudge(rules, s, evaluation).Changed?
    ensures var w, t := s.workshop, DoJudge(rules, s, evaluation).next.workshop;
            && (w.phase == Phase2 ==> t.phase == Judge)
            && (w.phase != Phase2 ==> t.phase == w.phase && t.revision == w.revision + 1 && t.time == w.time)
  {
  }

  /** From a state where the cache agrees with the store, a step that ends with the lock free keeps the
  agreement exactly when it leaves no residue. */
  lemma AgreementIsKeptExactly<C(!new)>(rules: Rules<C>, s: State<C>, step: Step)
    requires CacheInv(rules, s) && Enabled(s, step) && Next(rules, s, step).lock.Free?
    ensures Agrees(rules, Next(rules, s, step)) <==> !LeavesResidue(rules, s, step)
  {
    if LeavesResidue(rules, s, step) {
      ResidueBreaksAgreement(rules, s, step);
    } else {
      StepKeepsCacheInv(rules, s, step);
    }
  }

  /** A player the host has to wait for: here, short of notes, and not sharing a dragon with someone away. */
  predicate IsWaitedFor<C>(s: Session<C>, player: string) {
    && s.workshop.IsStillWriting(player, s.connected, false)
    && forall q :: q in s.workshop.players && q !in s.connected
         ==> s.workshop.players[q].dragon != s.workshop.players[player].dragon
  }

  lemma AutoFillChangesExactly<C>(w: Workshop<C>, connected: set<string>, afterDeadline: bool)
    ensures w.AutoFill(connected, afterDeadline) != w <==>
              exists p :: p in w.players && w.IsAutoFilled(p, connected, afterDeadline)
  {
    var filled := w.AutoFill(connected, afterDeadline);
    if p :| p in w.players && w.IsAutoFilled(p, connected, afterDeadline) {
      var d := w.players[p].dragon.value;
      assert |filled.dragons[d].tags| == HANDOVER_TAG_COUNT;
    } else {
      assert filled.dragons == w.dragons;
    }
  }

  lemma FilledStillWritingExactly<C>(s: Session<C>, player: string)
    ensures s.workshop.AutoFill(s.connected, false).IsStillWriting(player, s.connected, false)
            <==> IsWaitedFor(s, player)
  {
  }

  /** From the handover the second phase is entered unless, in time, somebody has to be waited for. */
  lemma Phase2IsEnteredExactly<C>(rules: Rules<C>, s: Session<C>, overdue: bool)
    requires s.workshop.phase == Handover
    ensures var (after, entered) := s.workshop.EnterPhase2(rules, s.connected, overdue);
            && (entered <==> overdue || !exists p :: p in s.workshop.players && IsWaitedFor(s, p))
            && (!entered ==> after == s.workshop.AutoFill(s.connected, overdue))
  {
    var filled := s.workshop.AutoFill(s.connected, overdue);
    forall p | p in s.workshop.players
      ensures filled.IsStillWriting(p, s.connected, overdue) <==> !overdue && IsWaitedFor(s, p)
    {
      if !overdue {
        FilledStillWritingExactly(s, p);
      }
    }
  }

  /** Starting the second phase is refused with notes already filled in exactly when the host asks in
  time, somebody present is still writing, and somebody away was short of notes. */
  lemma StartPhase2LeavesResidueExactly<C>(rules: Rules<C>, s: Session<C>, player: string, overdue: bool)
    ensures var o := Perform(rules, s, RunCommand(player, StartPhase2, overdue));
            o.Refused? && o.left.workshop != s.workshop <==>
            && s.host == Some(player) && s.workshop.phase == Handover && !overdue
            && (exists p :: p in s.workshop.players && IsWaitedFor(s, p))
            && (exists q :: q in s.workshop.players && s.workshop.IsAutoFilled(q, s.connected, false))
  {
    if s.host == Some(player) && s.workshop.phase == Handover {
      AutoFillChangesExactly(s.workshop, s.connected, overdue);
      Phase2IsEnteredExactly(rules, s, overdue);
    }
  }

  // ---- Whole runs ----

  ghost predicate IsRun<C(!new)>(rules: Rules<C>, run: seq<State<C>>, steps: seq<Step>) {
    && |run| == |steps| + 1
    && run[0].cached.None? && run[0].lock.Free? && run[0].loading == map[]
    && forall i {:trigger steps[i]} :: 0 <= i < |steps| ==>
         Enabled(run[i], steps[i]) && run[i+1] == Next(rules, run[i], steps[i])
  }

  lemma {:induction false} RunKeepsCacheInv<C(!new)>(rules: Rules<C>, run: seq<State<C>>, steps: seq<Step>, i: nat)
    requires IsRun(rules, run, steps) && i <= |steps|
    requires forall j :: 0 <= j < i ==> !LeavesResidue(rules, run[j], steps[j])
    ensures CacheInv(rules, run[i])
  {
    if i > 0 {
      RunKeepsCacheInv(rules, run, steps, i - 1);
      StepKeepsCacheInv(rules, run[i-1], steps[i-1]);
    }
  }

  /** In every run, up to the first step that leaves residue, the cached workshop is the persisted one
  some ticks later whenever the write lock is free; and that first step does break it. */
  lemma CacheAgreesUntilResidue<C(!new)>(rules: Rules<C>, run: seq<State<C>>, steps: seq<Step>, i: nat)
    requires IsRun(rules, run, steps) && i <= |steps|
    requires forall j :: 0 <= j < i ==> !LeavesResidue(rules, run[j], steps[j])
    ensures run[i].lock.Free? ==> Agrees(rules, run[i])
    ensures i < |steps| && LeavesResidue(rules, run[i], steps[i]) ==> !Agrees(rules, run[i+1])
  {
    RunKeepsCacheInv(rules, run, steps, i);
    if i < |steps| && LeavesResidue(rules, run[i], steps[i]) {
      ResidueBreaksAgreement(rules, run[i], steps[i]);
    }
  }

  /** A run that ends in disagreement: the host starts the second phase while one player is away and
  another is still writing. */
  lemma RefusedStartLosesAgreement<C(!new)>(rules: Rules<C>, care: C) returns (run: seq<State<C>>, steps: seq<Step>)
    ensures IsRun(rules, run, steps) && run[|steps|].lock.Free? && !Agrees(rules, run[|steps|])
  {
    var players := map["host" := Player(Some("d1"), true), "away" := Player(Some("d2"), true)];
    var dragons := map["d1" := Dragon("host", []), "d2" := Dragon("away", [])];
    var w := Workshop(Handover, 20, 9, players, dragons, None, care, 0);
    var presence := Presence({"host"}, Some("host"));
    var task := RunCommand("host", StartPhase2, false);
    steps := [TakeLock(task), Load(presence), Mutate];
    var s0 := State(w, None, Free, map[]);
    var s1 := State(w, None, Taken(task), map[]);
    var s2 := State(w, Some(Fresh(w, presence)), Ready(task), map[]);
    NoTicksAhead(rules, w);
    StartPhase2LeavesResidueExactly(rules, Fresh(w, presence), "host", false);
    assert IsWaitedFor(Fresh(w, presence), "host");
    assert w.IsAutoFilled("away", presence.connected, false);
    assert LeavesResidue(rules, s2, Mutate);
    ResidueBreaksAgreement(rules, s2, Mutate);
    run := [s0, s1, s2, Next(rules, s2, Mutate)];
  }

  // ---- One task from beginning to end ----

  /** The cache and the store of one code, as the handlers see them under the write lock. */
  class SessionHolder<C(!new)> {
    const rules: Rules<C>
    var persisted: Workshop<C>
    var cached: Option<Session<C>>

    constructor (rules: Rules<C>, persisted: Workshop<C>)
      ensures this.rules == rules && this.persisted == persisted && cached.None?
    {
      this.rules, this.persisted, this.cached := rules, persisted, None;
    }

    ghost predicate Valid()
      reads this
    {
      cached.Some? ==> IsTicksAhead(rules, persisted, cached.value.workshop)
    }

    /** The session that a task starts from. */
    function Loaded(task: Task, presence: Presence): Session<C>
      reads this
    {
      if cached.Some? && !ReloadsAlways(task) then cached.value else Fresh(persisted, presence)
    }

    /** A change that was not saved and is not undone either. */
    static predicate StaysUnsaved(task: Task, leaseActive: bool, undoOk: bool) {
      (task.JudgeRun? && !leaseActive) || (task.Attach? && !undoOk)
    }

    /** Loads, changes, and saves or undoes.  `leaseActive` and `saveOk` are what the last lease check and
    the store answer, `undoOk` whether the undo of an attach gets as far as the session; a tick never
    checks the lease and never undoes. */
    method RunTask(task: Task, presence: Presence, leaseActive: bool, saveOk: bool, undoOk: bool) returns (done: bool)
      requires Valid() && !task.GameTick?
      modifies this
      ensures var o := Perform(rules, old(Loaded(task, presence)), task);
              && done == (o.Changed? && leaseActive && saveOk)
              && persisted == (if done then o.next.workshop else old(persisted))
              && cached == Some(if done then o.next
                                else if o.Refused? then o.left
                                else if StaysUnsaved(task, leaseActive, undoOk) then o.next
                                else old(Loaded(task, presence)))
      ensures Valid() <==>
                var o := Perform(rules, old(Loaded(task, presence)), task);
                if o.Refused? then o.left.workshop == old(Loaded(task, presence)).workshop
                else done || !StaysUnsaved(task, leaseActive, undoOk)
    {
      NoTicksAhead(rules, persisted);
      if cached.None? || ReloadsAlways(task) {
        cached := Some(Fresh(persisted, presence));
      }
      var before := cached.value;
      ghost var step :=
        if !StaysUnsaved(task, leaseActive, undoOk) then SaveFails
        else if task.JudgeRun? then JudgeLosesLease else AttachUndoStops;
      match Perform(rules, before, task) {
        case Refused(left) =>
          cached := Some(left);
          AgreementIsKeptExactly(rules, State(persisted, Some(before), Ready(task), map[]), Mutate);
          return false;
        case Changed(next) =>
          cached := Some(next);
          if !leaseActive || !saveOk {
            AgreementIsKeptExactly(rules, State(persisted, cached, Saving(task, before, next.workshop), map[]), step);
            if !StaysUnsaved(task, leaseActive, undoOk) {
              cached := Some(before);
            }
            return false;
          }
          persisted := next.workshop;
          NoTicksAhead(rules, persisted);
          return true;
      }
    }
  }
}
