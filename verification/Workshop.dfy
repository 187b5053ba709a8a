/** The workshop session and the operations that move it through its phases.

Dragon statistics, achievements and scores are one value of type `C` that only the rules change, so
everything below holds for any tick, action and award rules. */
module Workshop {
  import opened Wrappers

  const HANDOVER_TAG_COUNT: nat := 3

  datatype Phase = Lobby | Phase0 | Phase1 | Handover | Phase2 | Judge | Voting | End

  datatype Event =
    | Hatched(players: set<string>)
    | Ticked(connected: set<string>, time: int, inPhase2: bool)
    | Noted(player: string, text: string)
    | Acted(player: string, action: string)
    | Restarted
    | Awarded
    | Scored(evaluation: string)
    | Cleared

  datatype Player = Player(dragon: Option<string>, hasCharacter: bool)

  datatype Dragon = Dragon(originalOwner: string, tags: seq<string>)

  datatype Ballot = Ballot(eligible: set<string>, votes: map<string, string>, revealed: bool)

  /** How care values change, and who looks after which dragon in the second phase. */
  datatype Rules<!C> = Rules(change: (C, Event) -> C, reassign: map<string, Player> -> map<string, Player>)

  /** The notes that stand in for missing ones: only their number matters here. */
  const FALLBACK_TAGS: seq<string> := ["fallback", "fallback", "fallback"]

  /** `awardRounds` counts the phase-end award rounds since the second phase was last entered. */
  datatype Workshop<C> = Workshop(phase: Phase, time: int, revision: nat, players: map<string, Player>,
                                  dragons: map<string, Dragon>, ballot: Option<Ballot>, care: C,
                                  awardRounds: nat) {
    function Touch(): Workshop<C> {
      this.(revision := revision + 1)
    }

    function DragonOf(player: string): Option<string> {
      if player in players then players[player].dragon else None
    }

    /** One game tick: nothing happens outside the two care phases. */
    function Tick(rules: Rules<C>, connected: set<string>): Workshop<C> {
      if phase != Phase1 && phase != Phase2 then this
      else
        var next := (time + 1) % 48;
        this.(time := next, care := rules.change(care, Ticked(connected, next, phase == Phase2))).Touch()
    }

    /** A phase change, if the transition table has it. */
    function TransitionTo(next: Phase): Option<Workshop<C>> {
      if CanTransition(phase, next) then Some(this.(phase := next).Touch()) else None
    }

    function BeginPhase1(rules: Rules<C>): Option<Workshop<C>> {
      if exists p :: p in players && !players[p].hasCharacter then None
      else
        var moved := TransitionTo(Phase1);
        if moved.None? then None
        else
          Some(moved.value.(
            time := 16, ballot := None, care := rules.change(care, Hatched(players.Keys)),
            players := map p | p in players :: players[p].(dragon := Some("dragon_" + p)),
            dragons := Hatchlings(players.Keys)).Touch())
    }

    /** A player whose notes the server writes: away, or late past the deadline, and short of tags. */
    predicate IsAutoFilled(player: string, connected: set<string>, afterDeadline: bool) {
      && player in players && players[player].dragon.Some? && players[player].dragon.value in dragons
      && (player !in connected || afterDeadline)
      && |dragons[players[player].dragon.value].tags| < HANDOVER_TAG_COUNT
    }

    function AutoFill(connected: set<string>, afterDeadline: bool): Workshop<C> {
      this.(dragons := map d | d in dragons ::
        if exists p :: p in players && players[p].dragon == Some(d) && IsAutoFilled(p, connected, afterDeadline)
        then dragons[d].(tags := FALLBACK_TAGS) else dragons[d])
    }

    predicate IsStillWriting(player: string, connected: set<string>, afterDeadline: bool) {
      && player in players && players[player].dragon.Some? && players[player].dragon.value in dragons
      && player in connected && !afterDeadline
      && |dragons[players[player].dragon.value].tags| < HANDOVER_TAG_COUNT
    }

    /** Entering the second phase.  The missing notes are filled in before the check that may refuse, and
    a refusal leaves them filled in. */
    function EnterPhase2(rules: Rules<C>, connected: set<string>, afterDeadline: bool): (Workshop<C>, bool) {
      var filled := AutoFill(connected, afterDeadline);
      if exists p :: p in players && filled.IsStillWriting(p, connected, afterDeadline) then (filled, false)
      else
        var moved := filled.TransitionTo(Phase2);
        if moved.None? then (filled, false)
        else (moved.value.(players := rules.reassign(players), care := rules.change(care, Restarted),
                           awardRounds := 0).Touch(),
              true)
    }

    function AwardPhaseEnd(rules: Rules<C>): Workshop<C> {
      this.(care := rules.change(care, Awarded), awardRounds := awardRounds + 1).Touch()
    }

    function EnterJudge(): Option<Workshop<C>> {
      var moved := TransitionTo(Judge);
      if moved.None? then None else Some(moved.value.Touch())
    }

    /** Opens the vote among the players who have a dragon; alone, there is nothing to vote on. */
    function EnterVoting(): Option<Workshop<C>> {
      var moved := TransitionTo(Voting);
      if moved.None? then None
      else
        var carers := set p | p in players && players[p].dragon.Some?;
        var eligible := if |carers| > 1 then carers else {};
        Some(moved.value.(ballot := Some(Ballot(eligible, map[], eligible == {}))).Touch())
    }

    function SubmitVote(player: string, dragon: string): Option<Workshop<C>> {
      if ballot.None? || ballot.value.revealed || player !in ballot.value.eligible then None
      else if dragon !in dragons || dragons[dragon].originalOwner == player then None
      else Some(this.(ballot := Some(ballot.value.(votes := ballot.value.votes[player := dragon]))).Touch())
    }

    function RevealVotingResults(): Option<Workshop<C>> {
      if ballot.None? || (ballot.value.eligible != {} && ballot.value.votes == map[]) then None
      else Some(this.(ballot := Some(ballot.value.(revealed := true))).Touch())
    }

    function FinalizeVoting(): Option<Workshop<C>> {
      if ballot.Some? && !ballot.value.revealed then None
      else
        var moved := TransitionTo(End);
        if moved.None? then None else Some(moved.value.Touch())
    }

    function ApplyJudgeScores(rules: Rules<C>, evaluation: string): Workshop<C> {
      this.(care := rules.change(care, Scored(evaluation))).Touch()
    }

    function ResetToLobby(rules: Rules<C>, host: string): Workshop<C> {
      this.(phase := Lobby, time := 16, ballot := None, dragons := map[], care := rules.change(care, Cleared),
            players := map p | p in players && p == host :: players[p].(dragon := None)).Touch()
    }

    function SaveTags(player: string, tags: seq<string>): Option<Workshop<C>> {
      if |tags| != HANDOVER_TAG_COUNT then None
      else if DragonOf(player).None? then Some(this)
      else
        var d := DragonOf(player).value;
        Some((if d in dragons then this.(dragons := dragons[d := dragons[d].(tags := tags)]) else this).Touch())
    }
  }

  function Hatchlings(players: set<string>): map<string, Dragon> {
    map d | d in (set p | p in players :: "dragon_" + p) :: Dragon(d[|"dragon_"|..], [])
  }

  predicate CanTransition(current: Phase, next: Phase) {
    match (current, next)
    case (Lobby, Phase1) => true
    case (Phase1, Handover) => true
    case (Handover, Phase2) => true
    case (Phase2, Judge) => true
    case (Phase2, Voting) => true
    case (Judge, Voting) => true
    case (Voting, End) => true
    case (End, Lobby) => true
    case _ => false
  }
}
