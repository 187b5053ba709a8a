/** Single-flight operations of the browser client: one flow, command or archive request at a time, and
tickets that tell a late completion from the current one. */
module Tickets {
  import opened Generations
  import opened Wrappers
  import opened Workshop

  datatype PendingFlow = SignIn | Create | Join | Resume | Review | Reconnect | DeleteCharacter
                       | RenameCharacter | UpdateWorkshop | DeleteWorkshop | Logout

  datatype SessionCommand =
    | JoinSession | SelectCharacter | SubmitObservation | StartPhase1 | StartHandover | SubmitTags
    | StartPhase2 | Action | EndGame | StartVoting | SubmitVote | RevealVotingResults | ResetGame
    | EndSession | LeaveWorkshop

  /** What is pending of one kind, and the generation of the latest reservation of that kind. */
  datatype Slot<T> = Slot(pending: Option<T>, generation: U64)

  datatype Ticket<T> = Ticket(value: T, generation: U64)

  datatype Ops = Ops(flow: Slot<PendingFlow>, command: Slot<SessionCommand>, judge: Slot<()>) {
    predicate IsFree() {
      flow.pending.None? && command.pending.None? && judge.pending.None?
    }
  }

  function Reserve<T>(slot: Slot<T>, value: T): Slot<T> {
    Slot(Some(value), NextGeneration(slot.generation))
  }

  predicate IsCurrent<T(==)>(slot: Slot<T>, ticket: Ticket<T>) {
    slot.pending == Some(ticket.value) && slot.generation == ticket.generation
  }

  function ClearIfCurrent<T(==)>(slot: Slot<T>, ticket: Ticket<T>): Slot<T> {
    if IsCurrent(slot, ticket) then slot.(pending := None) else slot
  }

  /** The command a snapshot of this phase confirms. */
  predicate IsCompletedBy(command: SessionCommand, phase: Phase, revealed: bool) {
    match command
    case StartPhase1 => phase == Phase1
    case StartHandover => phase == Handover
    case StartPhase2 => phase == Phase2
    case EndGame | StartVoting => phase == Voting
    case RevealVotingResults => revealed
    case EndSession => phase == End
    case ResetGame => phase == Lobby
    case _ => false
  }

  /** A join response, applied only while its own flow is pending. */
  function FinishJoin(ops: Ops, ticket: Ticket<PendingFlow>): Ops {
    if !IsCurrent(ops.flow, ticket) then ops
    else ops.(flow := ops.flow.(pending := None), judge := ops.judge.(pending := None))
  }

  /** Logging out drops whatever else was pending, before its own request. */
  function BeginLogout(ops: Ops, ticket: Ticket<PendingFlow>): Ops {
    if !IsCurrent(ops.flow, ticket) then ops
    else ops.(command := ops.command.(pending := None), judge := ops.judge.(pending := None))
  }

  /** An accepted snapshot confirms the pending command by itself and, before the end, drops an archive request. */
  function ApplyUpdate(ops: Ops, phase: Phase, revealed: bool): Ops {
    var confirmed := ops.command.pending.Some? && IsCompletedBy(ops.command.pending.value, phase, revealed);
    ops.(command := if confirmed then ops.command.(pending := None) else ops.command,
         judge := if phase != End then ops.judge.(pending := None) else ops.judge)
  }

  function Leave(ops: Ops): Ops {
    ops.(flow := ops.flow.(pending := None), command := ops.command.(pending := None),
         judge := ops.judge.(pending := None))
  }

  // ----- The client's operation state, changed in place -----

  class OperationState {
    var pendingFlow: Option<PendingFlow>
    var pendingFlowGeneration: U64
    var pendingCommand: Option<SessionCommand>
    var pendingCommandGeneration: U64
    var pendingJudgeBundle: bool
    var pendingJudgeBundleGeneration: U64

    constructor ()
      ensures View() == Initial()
    {
      pendingFlow, pendingFlowGeneration := None, 0;
      pendingCommand, pendingCommandGeneration := None, 0;
      pendingJudgeBundle, pendingJudgeBundleGeneration := false, 0;
    }

    ghost function View(): Ops
      reads this
    {
      Ops(Slot(pendingFlow, pendingFlowGeneration), Slot(pendingCommand, pendingCommandGeneration),
          Slot(if pendingJudgeBundle then Some(()) else None, pendingJudgeBundleGeneration))
    }

    method ReservePendingFlow(flow: PendingFlow) returns (ticket: Option<Ticket<PendingFlow>>)
      modifies this
      ensures ticket.Some? <==> old(View()).IsFree()
      ensures ticket.None? ==> View() == old(View())
      ensures ticket.Some? ==> View() == old(View()).(flow := Reserve(old(View()).flow, flow))
      ensures ticket.Some? ==> ticket.value.value == flow && IsCurrent(View().flow, ticket.value)
    {
      if pendingFlow.Some? || pendingCommand.Some? || pendingJudgeBundle {
        return None;
      }
      pendingFlowGeneration := NextGeneration(pendingFlowGeneration);
      pendingFlow := Some(flow);
      ticket := Some(Ticket(flow, pendingFlowGeneration));
    }

    method ReservePendingCommand(command: SessionCommand) returns (ticket: Option<Ticket<SessionCommand>>)
      modifies this
      ensures ticket.Some? <==> old(View()).IsFree()
      ensures ticket.None? ==> View() == old(View())
      ensures ticket.Some? ==> View() == old(View()).(command := Reserve(old(View()).command, command))
      ensures ticket.Some? ==> ticket.value.value == command && IsCurrent(View().command, ticket.value)
    {
      if pendingFlow.Some? || pendingCommand.Some? || pendingJudgeBundle {
        return None;
      }
      pendingCommandGeneration := NextGeneration(pendingCommandGeneration);
      pendingCommand := Some(command);
      ticket := Some(Ticket(command, pendingCommandGeneration));
    }

    method ReservePendingJudgeBundle() returns (ticket: Option<Ticket<()>>)
      modifies this
      ensures ticket.Some? <==> old(View()).IsFree()
      ensures ticket.None? ==> View() == old(View())
      ensures ticket.Some? ==> View() == old(View()).(judge := Reserve(old(View()).judge, ()))
      ensures ticket.Some? ==> IsCurrent(View().judge, ticket.value)
    {
      if pendingFlow.Some? || pendingCommand.Some? || pendingJudgeBundle {
        return None;
      }
      pendingJudgeBundleGeneration := NextGeneration(pendingJudgeBundleGeneration);
      pendingJudgeBundle := true;
      ticket := Some(Ticket((), pendingJudgeBundleGeneration));
    }

    /** The response to a command: dropped if the session changed meanwhile, applied only if still current. */
    method FinishCommand(ticket: Ticket<SessionCommand>, sameSnapshot: bool) returns (applied: bool)
      modifies this
      ensures applied <==> sameSnapshot && IsCurrent(old(View()).command, ticket)
      ensures View() == old(View()).(command := ClearIfCurrent(old(View()).command, ticket))
    {
      var current := pendingCommand == Some(ticket.value) && pendingCommandGeneration == ticket.generation;
      if !sameSnapshot {
        if current {
          pendingCommand := None;
        }
        return false;
      }
      if !current {
        return false;
      }
      pendingCommand := None;
      return true;
    }

    method FinishJudgeBundle(ticket: Ticket<()>, sameSnapshot: bool) returns (applied: bool)
      modifies this
      ensures applied <==> sameSnapshot && IsCurrent(old(View()).judge, ticket)
      ensures View() == old(View()).(judge := ClearIfCurrent(old(View()).judge, ticket))
    {
      assert ticket.value == ();
      var current := pendingJudgeBundle && pendingJudgeBundleGeneration == ticket.generation;
      if !sameSnapshot {
        if current {
          pendingJudgeBundle := false;
        }
        return false;
      }
      if !current {
        return false;
      }
      pendingJudgeBundle := false;
      return true;
    }

    /** The response to a flow that joins a session, or to one that does not. */
    method FinishFlow(ticket: Ticket<PendingFlow>, joined: bool) returns (applied: bool)
      modifies this
      ensures applied <==> IsCurrent(old(View()).flow, ticket)
      ensures View() == (if joined then FinishJoin(old(View()), ticket)
                         else old(View()).(flow := ClearIfCurrent(old(View()).flow, ticket)))
    {
      if !(pendingFlow == Some(ticket.value) && pendingFlowGeneration == ticket.generation) {
        return false;
      }
      pendingFlow := None;
      if joined {
        pendingJudgeBundle := false;
      }
      return true;
    }

    method ApplyStateUpdate(phase: Phase, revealed: bool)
      modifies this
      ensures View() == ApplyUpdate(old(View()), phase, revealed)
    {
      if phase != End {
        pendingJudgeBundle := false;
      }
      if pendingCommand.Some? && IsCompletedBy(pendingCommand.value, phase, revealed) {
        pendingCommand := None;
      }
    }

    /** Logging out, before its own request is sent. */
    method StartLogout(ticket: Ticket<PendingFlow>)
      modifies this
      ensures View() == BeginLogout(old(View()), ticket)
    {
      if !(pendingFlow == Some(ticket.value) && pendingFlowGeneration == ticket.generation) {
        return;
      }
      pendingCommand := None;
      pendingJudgeBundle := false;
    }

    method LeaveSession()
      modifies this
      ensures View() == Leave(old(View())) && View().IsFree()
    {
      pendingFlow := None;
      pendingCommand := None;
      pendingJudgeBundle := false;
    }
  }

  // ----- Runs of reservations, responses and snapshots -----

  /** Every ticket issued so far, and which of them is in force. */
  datatype Ledger<T> = Ledger(issued: seq<Ticket<T>>, holder: Option<nat>)

  datatype Client = Client(ops: Ops, flows: Ledger<PendingFlow>, commands: Ledger<SessionCommand>, judges: Ledger<()>)

  datatype Step =
    | ReserveFlow(flow: PendingFlow)
    | ReserveCommand(command: SessionCommand)
    | ReserveJudge
    | FlowDone(ticket: nat, joined: bool)
    | CommandDone(ticket: nat)
    | JudgeDone(ticket: nat)
    | LogoutBegins(ticket: nat)
    | Updated(phase: Phase, revealed: bool)
    | Left

  function Initial(): Ops {
    Ops(Slot(None, 0), Slot(None, 0), Slot(None, 0))
  }

  predicate Enabled(c: Client, step: Step) {
    match step
    case FlowDone(k, _) => k < |c.flows.issued|
    case LogoutBegins(k) => k < |c.flows.issued| && c.flows.issued[k].value == Logout
    case CommandDone(k) => k < |c.commands.issued|
    case JudgeDone(k) => k < |c.judges.issued|
    case _ => true
  }

  function StepOps(c: Client, step: Step): Ops
    requires Enabled(c, step)
  {
    match step
    case ReserveFlow(flow) => if c.ops.IsFree() then c.ops.(flow := Reserve(c.ops.flow, flow)) else c.ops
    case ReserveCommand(command) =>
      if c.ops.IsFree() then c.ops.(command := Reserve(c.ops.command, command)) else c.ops
    case ReserveJudge => if c.ops.IsFree() then c.ops.(judge := Reserve(c.ops.judge, ())) else c.ops
    case FlowDone(k, joined) =>
      if joined then FinishJoin(c.ops, c.flows.issued[k])
      else c.ops.(flow := ClearIfCurrent(c.ops.flow, c.flows.issued[k]))
    case CommandDone(k) => c.ops.(command := ClearIfCurrent(c.ops.command, c.commands.issued[k]))
    case JudgeDone(k) => c.ops.(judge := ClearIfCurrent(c.ops.judge, c.judges.issued[k]))
    case LogoutBegins(k) => BeginLogout(c.ops, c.flows.issued[k])
    case Updated(phase, revealed) => ApplyUpdate(c.ops, phase, revealed)
    case Left => Leave(c.ops)
  }

  /** A new reservation enters the ledger and holds its slot until the slot is emptied. */
  function Record<T>(ledger: Ledger<T>, before: Slot<T>, after: Slot<T>): Ledger<T> {
    if after.pending.None? then ledger.(holder := None)
    else if before.pending.None? then
      Ledger(ledger.issued + [Ticket(after.pending.value, after.generation)], Some(|ledger.issued|))
    else ledger
  }

  function Next(c: Client, step: Step): Client
    requires Enabled(c, step)
  {
    var ops := StepOps(c, step);
    Client(ops, Record(c.flows, c.ops.flow, ops.flow), Record(c.commands, c.ops.command, ops.command),
           Record(c.judges, c.ops.judge, ops.judge))
  }

  ghost predicate IsRun(run: seq<Client>, steps: seq<Step>) {
    && |run| == |steps| + 1
    && run[0] == Client(Initial(), Ledger([], None), Ledger([], None), Ledger([], None))
    && forall i {:trigger steps[i]} :: 0 <= i < |steps| ==>
         Enabled(run[i], steps[i]) && run[i+1] == Next(run[i], steps[i])
  }

  /** The ledger's holder is its latest ticket and is what the slot holds; generations follow the count. */
  ghost predicate Tracks<T>(slot: Slot<T>, ledger: Ledger<T>) {
    && (forall k :: 0 <= k < |ledger.issued| ==> ledger.issued[k].generation == GenerationAfter(k + 1))
    && slot.generation == GenerationAfter(|ledger.issued|)
    && (slot.pending.Some? <==> ledger.holder.Some?)
    && (ledger.holder.Some? ==>
          && ledger.holder.value + 1 == |ledger.issued|
          && slot.pending.value == ledger.issued[ledger.holder.value].value)
  }

  ghost predicate Inv(c: Client) {
    && Tracks(c.ops.flow, c.flows) && Tracks(c.ops.command, c.commands) && Tracks(c.ops.judge, c.judges)
    && !(c.ops.flow.pending.Some? && c.ops.command.pending.Some?)
    && !(c.ops.flow.pending.Some? && c.ops.judge.pending.Some?)
    && !(c.ops.command.pending.Some? && c.ops.judge.pending.Some?)
  }

  lemma RecordKeepsTrack<T>(ledger: Ledger<T>, before: Slot<T>, after: Slot<T>)
    requires Tracks(before, ledger)
    requires after == before || after == before.(pending := None)
          || (before.pending.None? && after.pending.Some? && after == Reserve(before, after.pending.value))
    ensures Tracks(after, Record(ledger, before, after))
  {
  }

  lemma StepKeepsInv(c: Client, step: Step)
    requires Inv(c) && Enabled(c, step)
    ensures Inv(Next(c, step))
  {
    var ops := StepOps(c, step);
    RecordKeepsTrack(c.flows, c.ops.flow, ops.flow);
    RecordKeepsTrack(c.commands, c.ops.command, ops.command);
    RecordKeepsTrack(c.judges, c.ops.judge, ops.judge);
  }

  /** At most one of flow, command and archive request is ever pending. */
  lemma {:induction false} RunKeepsInv(run: seq<Client>, steps: seq<Step>)
    requires IsRun(run, steps)
    ensures forall i :: 0 <= i < |run| ==> Inv(run[i])
  {
    if |steps| == 0 {
      assert GenerationAfter(0) == 0;
    } else {
      var last := |steps| - 1;
      RunKeepsInv(run[..|run| - 1], steps[..last]);
      assert run[..|run| - 1][last] == run[last];
      StepKeepsInv(run[last], steps[last]);
      forall i | 0 <= i < |run| ensures Inv(run[i]) {
        if i < |run| - 1 {
          assert run[i] == run[..|run| - 1][i];
        }
      }
    }
  }

  /** A ticket passes the check exactly when its slot is held by a reservation of the same value, a whole
  number of counter rounds later. */
  lemma TicketIsCurrentExactly<T>(slot: Slot<T>, ledger: Ledger<T>, k: nat)
    requires Tracks(slot, ledger) && k < |ledger.issued|
    ensures IsCurrent(slot, ledger.issued[k]) <==>
            && ledger.holder.Some?
            && ledger.issued[ledger.holder.value].value == ledger.issued[k].value
            && (ledger.holder.value - k) % U64_MAX == 0
  {
    SameGenerationExactly(k + 1, |ledger.issued|);
  }

  /** Within 2^64 - 2 later reservations only the holder's own ticket passes. */
  lemma OnlyTheHolderIsCurrent<T>(slot: Slot<T>, ledger: Ledger<T>, k: nat)
    requires Tracks(slot, ledger) && k < |ledger.issued|
    requires |ledger.issued| - 1 - k < U64_MAX
    ensures IsCurrent(slot, ledger.issued[k]) <==> ledger.holder == Some(k)
  {
    TicketIsCurrentExactly(slot, ledger, k);
  }

  /** The ledger entry a response belongs to is no longer in force. */
  predicate IsStale(c: Client, step: Step)
    requires Enabled(c, step)
  {
    match step
    case FlowDone(k, _) => c.flows.holder != Some(k)
    case LogoutBegins(k) => c.flows.holder != Some(k)
    case CommandDone(k) => c.commands.holder != Some(k)
    case JudgeDone(k) => c.judges.holder != Some(k)
    case _ => false
  }

  predicate IsRecent(c: Client, step: Step)
    requires Enabled(c, step)
  {
    match step
    case FlowDone(k, _) => |c.flows.issued| - 1 - k < U64_MAX
    case LogoutBegins(k) => |c.flows.issued| - 1 - k < U64_MAX
    case CommandDone(k) => |c.commands.issued| - 1 - k < U64_MAX
    case JudgeDone(k) => |c.judges.issued| - 1 - k < U64_MAX
    case _ => true
  }

  /** In any run, a response whose reservation was released changes nothing at all. */
  lemma StaleResponseChangesNothing(run: seq<Client>, steps: seq<Step>, i: nat)
    requires IsRun(run, steps) && i < |steps|
    requires IsStale(run[i], steps[i]) && IsRecent(run[i], steps[i])
    ensures run[i+1] == run[i]
  {
    RunKeepsInv(run, steps);
    var c := run[i];
    match steps[i]
    case FlowDone(k, _) => OnlyTheHolderIsCurrent(c.ops.flow, c.flows, k);
    case LogoutBegins(k) => OnlyTheHolderIsCurrent(c.ops.flow, c.flows, k);
    case CommandDone(k) => OnlyTheHolderIsCurrent(c.ops.command, c.commands, k);
    case JudgeDone(k) => OnlyTheHolderIsCurrent(c.ops.judge, c.judges, k);
    case _ =>
  }

  /** A response still in force frees the client, and nothing else was pending; only starting a logout keeps
  the flow it belongs to. */
  lemma CurrentResponseFreesTheClient(run: seq<Client>, steps: seq<Step>, i: nat)
    requires IsRun(run, steps) && i < |steps|
    requires steps[i].FlowDone? || steps[i].CommandDone? || steps[i].JudgeDone? || steps[i].LogoutBegins?
    requires !IsStale(run[i], steps[i])
    ensures if steps[i].LogoutBegins? then run[i+1] == run[i] else run[i+1].ops.IsFree()
    ensures run[i+1].flows.issued == run[i].flows.issued
    ensures run[i+1].commands.issued == run[i].commands.issued
    ensures run[i+1].judges.issued == run[i].judges.issued
  {
    RunKeepsInv(run, steps);
    var c := run[i];
    match steps[i]
    case FlowDone(k, _) => TicketIsCurrentExactly(c.ops.flow, c.flows, k);
    case LogoutBegins(k) => TicketIsCurrentExactly(c.ops.flow, c.flows, k);
    case CommandDone(k) => TicketIsCurrentExactly(c.ops.command, c.commands, k);
    case JudgeDone(k) => TicketIsCurrentExactly(c.ops.judge, c.judges, k);
  }

  // ----- The bound cannot be dropped -----

  lemma RunGoesOn(run: seq<Client>, steps: seq<Step>, step: Step)
    requires IsRun(run, steps) && Enabled(run[|steps|], step)
    ensures IsRun(run + [Next(run[|steps|], step)], steps + [step])
  {
  }

  lemma FinishAndReserveAgain(c: Client, command: SessionCommand) returns (freed: Client, again: Client)
    requires Inv(c) && c.commands.holder.Some?
    ensures freed == Next(c, CommandDone(c.commands.holder.value)) && again == Next(freed, ReserveCommand(command))
    ensures again.commands.holder == Some(c.commands.holder.value + 1)
    ensures |again.commands.issued| == |c.commands.issued| + 1
    ensures again.commands.issued[..|c.commands.issued|] == c.commands.issued
    ensures again.commands.issued[|c.commands.issued|].value == command
    ensures again.ops.flow.pending.None? && again.ops.judge.pending.None?
  {
    TicketIsCurrentExactly(c.ops.command, c.commands, c.commands.holder.value);
    freed := Next(c, CommandDone(c.commands.holder.value));
    again := Next(freed, ReserveCommand(command));
  }

  /** Reserving and finishing `rounds` times, then reserving once more. */
  lemma {:induction false} ReserveRepeatedly(command: SessionCommand, rounds: nat)
    returns (run: seq<Client>, steps: seq<Step>)
    ensures IsRun(run, steps)
    ensures run[|steps|].commands.holder == Some(rounds)
    ensures |run[|steps|].commands.issued| == rounds + 1
    ensures forall k :: 0 <= k <= rounds ==> run[|steps|].commands.issued[k].value == command
    ensures run[|steps|].ops.flow.pending.None? && run[|steps|].ops.judge.pending.None?
  {
    if rounds == 0 {
      var c := Client(Initial(), Ledger([], None), Ledger([], None), Ledger([], None));
      steps := [ReserveCommand(command)];
      run := [c, Next(c, steps[0])];
    } else {
      var shorter, before := ReserveRepeatedly(command, rounds - 1);
      RunKeepsInv(shorter, before);
      var freed, again := FinishAndReserveAgain(shorter[|before|], command);
      RunGoesOn(shorter, before, CommandDone(rounds - 1));
      RunGoesOn(shorter + [freed], before + [CommandDone(rounds - 1)], ReserveCommand(command));
      steps := before + [CommandDone(rounds - 1)] + [ReserveCommand(command)];
      run := shorter + [freed] + [again];
      assert again.commands.issued[..rounds] == shorter[|before|].commands.issued;
    }
  }

  /** After exactly 2^64 - 1 later commands of the same kind, a response long released passes again. */
  lemma WrappedTicketPassesAgain(command: SessionCommand) returns (run: seq<Client>, steps: seq<Step>)
    ensures IsRun(run, steps)
    ensures var c := run[|steps|];
            && |c.commands.issued| == U64_MAX + 1
            && c.commands.holder == Some(U64_MAX)
            && IsCurrent(c.ops.command, c.commands.issued[0])
  {
    run, steps := ReserveRepeatedly(command, U64_MAX);
    RunKeepsInv(run, steps);
    TicketIsCurrentExactly(run[|steps|].ops.command, run[|steps|].commands, 0);
  }
}
