/** The browser's copy of a session: full snapshots and deltas that may be lost, repeated or reordered,
accepted by revision, and delivered by sockets that are told apart by generation. */
module ClientReplica {
  import opened Generations
  import opened Wrappers
  import opened Workshop
  import Text

  datatype Meta = Meta(code: string, revision: nat, details: string)

  /** A player or a dragon as the client sees it. */
  datatype Entity = Entity(id: string, details: string)

  datatype Game = Game(session: Meta, currentPlayer: Option<string>, phase: Phase, time: int,
                       players: map<string, Entity>, dragons: map<string, Entity>, voting: Option<string>)

  datatype Message =
    | StateUpdate(game: Game)
    | PlayerUpsert(revision: nat, player: Entity)
    | DragonPatch(revision: nat, dragon: Entity)
    | PhaseChanged(phase: Phase, time: int, session: Meta)
    | TimeTick(revision: nat, time: int)
    | Notice(text: string)
    | Error(text: string)
    | Pong

  datatype Status = Offline | Connecting | Connected

  datatype Credentials = Credentials(code: string, player: string)

  /** `restored` is set while a game restored from browser storage has not been confirmed by the server. */
  datatype Client = Client(credentials: Option<Credentials>, status: Status, attempted: bool, restored: bool,
                           game: Option<Game>, generation: U64)

  predicate EndsSession(error: string) {
    Text.Trim(error) in
      {"Missing workshop credentials.", "Session identity is invalid or expired.", "Workshop not found."}
  }

  predicate ShouldApply(credentials: Option<Credentials>, current: Option<Game>, next: Game) {
    && credentials.Some?
    && next.session.code == credentials.value.code
    && next.currentPlayer == Some(credentials.value.player)
    && !(current.Some?
         && current.value.session.code == next.session.code
         && current.value.currentPlayer == next.currentPlayer
         && next.session.revision < current.value.session.revision)
  }

  /** Forgetting the session also invalidates the socket. */
  function ClearIdentity(c: Client): Client {
    c.(credentials := None, status := Offline, attempted := false, restored := false,
       generation := NextGeneration(c.generation))
  }

  function BootstrapError(c: Client, error: string): Client {
    var failed := c.(attempted := true, status := Offline, game := if c.restored then None else c.game);
    if EndsSession(error) then ClearIdentity(failed) else failed
  }

  function ApplyDelta(game: Game, message: Message): Game {
    match message
    case PlayerUpsert(revision, player) =>
      if revision < game.session.revision then game
      else game.(players := game.players[player.id := player], session := game.session.(revision := revision))
    case DragonPatch(revision, dragon) =>
      if revision < game.session.revision then game
      else game.(dragons := game.dragons[dragon.id := dragon], session := game.session.(revision := revision))
    case PhaseChanged(phase, time, session) =>
      if session.revision < game.session.revision then game
      else game.(phase := phase, time := time, session := session)
    case TimeTick(revision, time) =>
      if revision < game.session.revision then game
      else game.(time := time, session := game.session.(revision := revision))
    case _ => game
  }

  function ApplyMessage(c: Client, message: Message): Client {
    match message
    case StateUpdate(game) =>
      if ShouldApply(c.credentials, c.game, game)
      then c.(game := Some(game), status := Connected, restored := false)
      else c
    case Error(text) =>
      if c.restored then BootstrapError(c, text)
      else
        var failed := c.(status := Offline);
        if EndsSession(text) then ClearIdentity(failed) else failed
    case Notice(_) => c
    case Pong => c.(status := Connected)
    case _ => if c.game.None? then c else c.(game := Some(ApplyDelta(c.game.value, message)))
  }

  const NOT_JOINED: string := "Join a workshop before syncing the session."

  /** What one socket may deliver; `Received` names the server state the message was read from. */
  datatype Delivery =
    | Opened(sent: bool)
    | Received(origin: nat, message: Message)
    | Garbled
    | Failed
    | Closed

  function Fault(c: Client, error: string): Client {
    if c.restored then BootstrapError(c, error) else c.(status := Offline)
  }

  function Accept(c: Client, delivery: Delivery): Client {
    match delivery
    case Opened(sent) => if sent then c else Fault(c, "Could not sync the session.")
    case Received(_, message) => ApplyMessage(c, message)
    case Garbled => Fault(c, "Received an invalid session update.")
    case Failed => Fault(c, "Session connection failed.")
    case Closed => Fault(c, "Session connection closed.")
  }

  /** Opening a socket replaces the previous one before anything can fail. */
  function OpenSocket(c: Client, error: Option<string>): Client {
    var bumped := c.(generation := NextGeneration(c.generation));
    if c.credentials.None? then BootstrapError(bumped, NOT_JOINED)
    else
      var connecting := bumped.(attempted := true, status := Connecting);
      if error.Some? then BootstrapError(connecting, error.value) else connecting
  }

  // ----- The same, on fields changed in place -----

  class Replica {
    var credentials: Option<Credentials>
    var status: Status
    var attempted: bool
    var restored: bool
    var game: Option<Game>
    var generation: U64

    constructor (credentials: Option<Credentials>, game: Option<Game>, restored: bool)
      ensures View() == Client(credentials, Offline, false, restored, game, 0)
    {
      this.credentials, this.game, this.restored := credentials, game, restored;
      status, attempted, generation := Offline, false, 0;
    }

    ghost function View(): Client
      reads this
    {
      Client(credentials, status, attempted, restored, game, generation)
    }

    method ForgetSession()
      modifies this
      ensures View() == ClearIdentity(old(View()))
    {
      generation := NextGeneration(generation);
      status := Offline;
      credentials := None;
      attempted, restored := false, false;
    }

    method ApplyBootstrapError(error: string)
      modifies this
      ensures View() == BootstrapError(old(View()), error)
    {
      attempted := true;
      status := Offline;
      if restored {
        game := None;
      }
      if EndsSession(error) {
        ForgetSession();
      }
    }

    method ApplyFault(error: string)
      modifies this
      ensures View() == Fault(old(View()), error)
    {
      if restored {
        ApplyBootstrapError(error);
      } else {
        status := Offline;
      }
    }

    method UpsertPlayer(revision: nat, player: Entity)
      modifies this`game
      ensures View() == ApplyMessage(old(View()), PlayerUpsert(revision, player))
    {
      if game.None? {
        return;
      }
      var state := game.value;
      if revision < state.session.revision {
        return;
      }
      state := state.(players := state.players[player.id := player]);
      game := Some(state.(session := state.session.(revision := Larger(state.session.revision, revision))));
    }

    method PatchDragon(revision: nat, dragon: Entity)
      modifies this`game
      ensures View() == ApplyMessage(old(View()), DragonPatch(revision, dragon))
    {
      if game.None? {
        return;
      }
      var state := game.value;
      if revision < state.session.revision {
        return;
      }
      state := state.(dragons := state.dragons[dragon.id := dragon]);
      game := Some(state.(session := state.session.(revision := Larger(state.session.revision, revision))));
    }

    method ChangeTime(revision: nat, time: int)
      modifies this`game
      ensures View() == ApplyMessage(old(View()), TimeTick(revision, time))
    {
      if game.None? || revision < game.value.session.revision {
        return;
      }
      var state := game.value.(time := time);
      game := Some(state.(session := state.session.(revision := Larger(state.session.revision, revision))));
    }

    method ApplyServerMessage(message: Message)
      modifies this
      ensures View() == ApplyMessage(old(View()), message)
    {
      match message {
        case StateUpdate(next) =>
          if !ShouldApply(credentials, game, next) {
            return;
          }
          game := Some(next);
          status := Connected;
          restored := false;
        case PlayerUpsert(revision, player) => UpsertPlayer(revision, player);
        case DragonPatch(revision, dragon) => PatchDragon(revision, dragon);
        case TimeTick(revision, time) => ChangeTime(revision, time);
        case PhaseChanged(phase, time, session) =>
          if game.Some? && session.revision >= game.value.session.revision {
            game := Some(game.value.(phase := phase, time := time, session := session));
          }
        case Notice(_) =>
        case Error(text) =>
          if restored {
            ApplyBootstrapError(text);
          } else {
            status := Offline;
            if EndsSession(text) {
              ForgetSession();
            }
          }
        case Pong => status := Connected;
      }
    }

    /** A callback of the socket that was opened at `socket`. */
    method OnEvent(socket: U64, delivery: Delivery)
      modifies this
      ensures View() == (if old(generation) == socket then Accept(old(View()), delivery) else old(View()))
    {
      if socket != generation {
        return;
      }
      match delivery {
        case Opened(sent) =>
          if !sent {
            ApplyFault("Could not sync the session.");
          }
        case Received(_, message) => ApplyServerMessage(message);
        case Garbled => ApplyFault("Received an invalid session update.");
        case Failed => ApplyFault("Session connection failed.");
        case Closed => ApplyFault("Session connection closed.");
      }
    }

    method Bootstrap(error: Option<string>) returns (socket: U64)
      modifies this
      ensures View() == OpenSocket(old(View()), error)
      ensures socket == NextGeneration(old(generation))
    {
      generation := NextGeneration(generation);
      socket := generation;
      if credentials.None? {
        ApplyBootstrapError(NOT_JOINED);
        return;
      }
      attempted := true;
      status := Connecting;
      if error.Some? {
        ApplyBootstrapError(error.value);
      }
    }
  }

  function Larger(a: nat, b: nat): nat {
    if a < b then b else a
  }

  // ----- Runs against one server history -----

  /** The states the server went through, as projected for one player. */
  ghost predicate IsHistory(history: seq<Game>) {
    && |history| > 0
    && (forall i, j :: 0 <= i <= j < |history| ==> history[i].session.revision <= history[j].session.revision)
    && (forall i :: 0 <= i < |history| ==>
          && history[i].session.code == history[0].session.code
          && history[i].currentPlayer == history[0].currentPlayer
          && IsKeyedById(history[i].players) && IsKeyedById(history[i].dragons))
  }

  predicate IsKeyedById(entities: map<string, Entity>) {
    forall id :: id in entities ==> entities[id].id == id
  }

  /** The message carries the revision and the values of this server state. */
  predicate IsProjection(state: Game, message: Message) {
    match message
    case StateUpdate(game) => game == state
    case PlayerUpsert(revision, player) =>
      revision == state.session.revision && player.id in state.players && state.players[player.id] == player
    case DragonPatch(revision, dragon) =>
      revision == state.session.revision && dragon.id in state.dragons && state.dragons[dragon.id] == dragon
    case PhaseChanged(phase, time, session) =>
      session == state.session && phase == state.phase && time == state.time
    case TimeTick(revision, time) => revision == state.session.revision && time == state.time
    case _ => true
  }

  /** For each value shown, the server state it was read from. */
  datatype Origin = Origin(players: map<string, nat>, dragons: map<string, nat>, phase: nat, time: nat)

  /** `bumps` counts how often the socket generation changed. */
  datatype State = State(client: Client, origin: Origin, bumps: nat)

  datatype Step =
    | Open(error: Option<string>)
    | Deliver(socket: nat, delivery: Delivery)
    | Forget

  predicate Enabled(history: seq<Game>, s: State, step: Step) {
    match step
    case Deliver(socket, delivery) =>
      && 1 <= socket <= s.bumps
      && (delivery.Received? ==>
            delivery.origin < |history| && IsProjection(history[delivery.origin], delivery.message))
    case Open(error) => error.Some? ==> !EndsSession(error.value)
    case _ => true
  }

  function StepClient(c: Client, step: Step): Client {
    match step
    case Open(error) => OpenSocket(c, error)
    case Deliver(socket, delivery) => if c.generation == GenerationAfter(socket) then Accept(c, delivery) else c
    case Forget => ClearIdentity(c)
  }

  function StepOrigin(s: State, after: Client, step: Step): Origin {
    if step.Deliver? && step.delivery.Received? && s.client.generation == GenerationAfter(step.socket)
    then OriginAfter(s.client, s.origin, step.delivery.origin, step.delivery.message)
    else s.origin
  }

  function OriginAfter(c: Client, origin: Origin, index: nat, message: Message): Origin {
    match message
    case StateUpdate(game) =>
      if ShouldApply(c.credentials, c.game, game)
      then Origin(map p | p in game.players :: index, map d | d in game.dragons :: index, index, index)
      else origin
    case PlayerUpsert(revision, player) =>
      if c.game.Some? && revision >= c.game.value.session.revision
      then origin.(players := origin.players[player.id := index]) else origin
    case DragonPatch(revision, dragon) =>
      if c.game.Some? && revision >= c.game.value.session.revision
      then origin.(dragons := origin.dragons[dragon.id := index]) else origin
    case PhaseChanged(_, _, session) =>
      if c.game.Some? && session.revision >= c.game.value.session.revision
      then origin.(phase := index, time := index) else origin
    case TimeTick(revision, _) =>
      if c.game.Some? && revision >= c.game.value.session.revision then origin.(time := index) else origin
    case _ => origin
  }

  function Next(s: State, step: Step): State {
    var client := StepClient(s.client, step);
    State(client, StepOrigin(s, client, step),
          if client.generation != s.client.generation then s.bumps + 1 else s.bumps)
  }

  /** Every value is the one in the state it was read from, which is no newer than the copy's revision. */
  ghost predicate IsExplained(history: seq<Game>, game: Game, origin: Origin)
    requires IsHistory(history)
  {
    && game.session.code == history[0].session.code && game.currentPlayer == history[0].currentPlayer
    && game.session.revision <= history[|history| - 1].session.revision
    && ExplainsPlayers(history, game.session.revision, game.players, origin.players)
    && ExplainsDragons(history, game.session.revision, game.dragons, origin.dragons)
    && IsFrom(history, game.session.revision, origin.phase) && history[origin.phase].phase == game.phase
    && IsFrom(history, game.session.revision, origin.time) && history[origin.time].time == game.time
  }

  predicate IsFrom(history: seq<Game>, revision: nat, index: nat) {
    index < |history| && history[index].session.revision <= revision
  }

  predicate ExplainsPlayers(history: seq<Game>, revision: nat, shown: map<string, Entity>, origins: map<string, nat>) {
    && origins.Keys == shown.Keys
    && forall p :: p in shown ==>
         IsFrom(history, revision, origins[p]) && Reads(history[origins[p]].players, p, shown[p])
  }

  predicate ExplainsDragons(history: seq<Game>, revision: nat, shown: map<string, Entity>, origins: map<string, nat>) {
    && origins.Keys == shown.Keys
    && forall d :: d in shown ==>
         IsFrom(history, revision, origins[d]) && Reads(history[origins[d]].dragons, d, shown[d])
  }

  predicate Reads(entities: map<string, Entity>, id: string, entity: Entity) {
    id in entities && entities[id] == entity
  }

  ghost predicate Inv(history: seq<Game>, s: State)
    requires IsHistory(history)
  {
    && s.client.generation == GenerationAfter(s.bumps)
    && (s.client.game.Some? ==> IsExplained(history, s.client.game.value, s.origin))
  }

  ghost predicate IsRun(history: seq<Game>, run: seq<State>, steps: seq<Step>) {
    && |run| == |steps| + 1 && IsHistory(history) && Inv(history, run[0])
    && forall i {:trigger steps[i]} :: 0 <= i < |steps| ==>
         Enabled(history, run[i], steps[i]) && run[i+1] == Next(run[i], steps[i])
  }

  lemma RunTakesStep(history: seq<Game>, run: seq<State>, steps: seq<Step>, i: nat)
    requires IsRun(history, run, steps) && i < |steps|
    ensures Enabled(history, run[i], steps[i]) && run[i+1] == Next(run[i], steps[i])
  {
  }

  lemma PlayerStaysExplained(history: seq<Game>, game: Game, origin: Origin, index: nat, player: Entity)
    requires IsHistory(history) && index < |history| && IsExplained(history, game, origin)
    requires Reads(history[index].players, player.id, player)
    requires history[index].session.revision >= game.session.revision
    ensures IsExplained(history, ApplyDelta(game, PlayerUpsert(history[index].session.revision, player)),
                        origin.(players := origin.players[player.id := index]))
  {
    var revision := history[index].session.revision;
    assert ExplainsPlayers(history, revision, game.players[player.id := player], origin.players[player.id := index]);
    assert ExplainsDragons(history, revision, game.dragons, origin.dragons);
  }

  lemma DragonStaysExplained(history: seq<Game>, game: Game, origin: Origin, index: nat, dragon: Entity)
    requires IsHistory(history) && index < |history| && IsExplained(history, game, origin)
    requires Reads(history[index].dragons, dragon.id, dragon)
    requires history[index].session.revision >= game.session.revision
    ensures IsExplained(history, ApplyDelta(game, DragonPatch(history[index].session.revision, dragon)),
                        origin.(dragons := origin.dragons[dragon.id := index]))
  {
    var revision := history[index].session.revision;
    assert ExplainsPlayers(history, revision, game.players, origin.players);
    assert ExplainsDragons(history, revision, game.dragons[dragon.id := dragon], origin.dragons[dragon.id := index]);
  }

  lemma RestStaysExplained(history: seq<Game>, game: Game, origin: Origin, next: Game, nextOrigin: Origin, index: nat)
    requires IsHistory(history) && index < |history| && IsExplained(history, game, origin)
    requires history[index].session.revision >= game.session.revision
    requires next.session.revision == history[index].session.revision
    requires next.session.code == game.session.code && next.currentPlayer == game.currentPlayer
    requires next.players == game.players && next.dragons == game.dragons
    requires nextOrigin == origin.(phase := nextOrigin.phase, time := nextOrigin.time)
    requires (nextOrigin.phase == index && next.phase == history[index].phase)
          || (nextOrigin.phase == origin.phase && next.phase == game.phase)
    requires nextOrigin.time == index && next.time == history[index].time
    ensures IsExplained(history, next, nextOrigin)
  {
    assert ExplainsPlayers(history, next.session.revision, game.players, origin.players);
    assert ExplainsDragons(history, next.session.revision, game.dragons, origin.dragons);
  }

  lemma SnapshotIsExplained(history: seq<Game>, index: nat)
    requires IsHistory(history) && index < |history|
    ensures var game := history[index];
            var players, dragons := map p | p in game.players :: index, map d | d in game.dragons :: index;
            IsExplained(history, game, Origin(players, dragons, index, index))
  {
  }

  lemma MessageStaysExplained(history: seq<Game>, s: State, index: nat, message: Message)
    requires IsHistory(history) && index < |history| && IsProjection(history[index], message)
    requires s.client.game.Some? ==> IsExplained(history, s.client.game.value, s.origin)
    ensures var after := ApplyMessage(s.client, message);
            after.game.Some? ==>
              IsExplained(history, after.game.value, OriginAfter(s.client, s.origin, index, message))
  {
    match message {
      case StateUpdate(_) => SnapshotIsExplained(history, index);
      case PlayerUpsert(revision, player) =>
        if s.client.game.Some? && revision >= s.client.game.value.session.revision {
          PlayerStaysExplained(history, s.client.game.value, s.origin, index, player);
        }
      case DragonPatch(revision, dragon) =>
        if s.client.game.Some? && revision >= s.client.game.value.session.revision {
          DragonStaysExplained(history, s.client.game.value, s.origin, index, dragon);
        }
      case PhaseChanged(_, _, session) =>
        if s.client.game.Some? && session.revision >= s.client.game.value.session.revision {
          RestStaysExplained(history, s.client.game.value, s.origin, ApplyDelta(s.client.game.value, message),
                             s.origin.(phase := index, time := index), index);
        }
      case TimeTick(revision, _) =>
        if s.client.game.Some? && revision >= s.client.game.value.session.revision {
          RestStaysExplained(history, s.client.game.value, s.origin, ApplyDelta(s.client.game.value, message),
                             s.origin.(time := index), index);
        }
      case _ =>
    }
  }

  lemma NotJoinedIsNotFatal()
    ensures !EndsSession(NOT_JOINED)
  {
    var text := NOT_JOINED;
    assert text[0] == 'J' && text[|text| - 1] == '.';
    Text.TrimDropsPadding("", text, "");
    assert "" + text + "" == text;
  }

  lemma FaultBumpsAtMostOnce(c: Client, error: string)
    ensures Fault(c, error).generation in {c.generation, NextGeneration(c.generation)}
  {
  }

  lemma DeliveryBumpsAtMostOnce(c: Client, delivery: Delivery)
    ensures Accept(c, delivery).generation in {c.generation, NextGeneration(c.generation)}
  {
    match delivery {
      case Opened(sent) => FaultBumpsAtMostOnce(c, "Could not sync the session.");
      case Received(_, message) =>
      case Garbled => FaultBumpsAtMostOnce(c, "Received an invalid session update.");
      case Failed => FaultBumpsAtMostOnce(c, "Session connection failed.");
      case Closed => FaultBumpsAtMostOnce(c, "Session connection closed.");
    }
  }

  lemma OpeningBumpsOnce(c: Client, error: Option<string>)
    requires error.Some? ==> !EndsSession(error.value)
    ensures OpenSocket(c, error).generation == NextGeneration(c.generation)
  {
    NotJoinedIsNotFatal();
  }

  lemma ForgettingBumpsOnce(c: Client)
    ensures ClearIdentity(c).generation == NextGeneration(c.generation)
  {
  }

  lemma StepBumpsAtMostOnce(history: seq<Game>, s: State, step: Step)
    requires Enabled(history, s, step)
    ensures StepClient(s.client, step).generation in {s.client.generation, NextGeneration(s.client.generation)}
  {
    match step {
      case Open(error) => OpeningBumpsOnce(s.client, error);
      case Deliver(_, delivery) => DeliveryBumpsAtMostOnce(s.client, delivery);
      case Forget => ForgettingBumpsOnce(s.client);
    }
  }

  /** A generation that is the current one or its bump is counted by the bumps so far or one more. */
  lemma BumpIsCounted(bumps: nat, after: U64)
    requires after in {GenerationAfter(bumps), NextGeneration(GenerationAfter(bumps))}
    ensures after == GenerationAfter(if after != GenerationAfter(bumps) then bumps + 1 else bumps)
  {
  }

  lemma StepKeepsCount(history: seq<Game>, s: State, step: Step)
    requires s.client.generation == GenerationAfter(s.bumps) && Enabled(history, s, step)
    ensures Next(s, step).client.generation == GenerationAfter(Next(s, step).bumps)
  {
    StepBumpsAtMostOnce(history, s, step);
    BumpIsCounted(s.bumps, StepClient(s.client, step).generation);
  }

  lemma FaultKeepsGame(c: Client, error: string)
    ensures Fault(c, error).game in {c.game, None}
    ensures !c.restored ==> Fault(c, error).game == c.game && !Fault(c, error).restored
  {
  }

  lemma OtherDeliveriesKeepGame(c: Client, delivery: Delivery)
    requires !delivery.Received?
    ensures Accept(c, delivery).game in {c.game, None}
    ensures !c.restored ==> Accept(c, delivery).game == c.game && !Accept(c, delivery).restored
  {
    FaultKeepsGame(c, "Could not sync the session.");
    FaultKeepsGame(c, "Received an invalid session update.");
    FaultKeepsGame(c, "Session connection failed.");
    FaultKeepsGame(c, "Session connection closed.");
  }

  lemma OpeningKeepsGame(c: Client, error: Option<string>)
    ensures OpenSocket(c, error).game in {c.game, None}
    ensures !c.restored ==> OpenSocket(c, error).game == c.game && !OpenSocket(c, error).restored
  {
  }

  /** What leaves the messages alone leaves the game alone, or drops it. */
  lemma OtherStepsKeepGame(s: State, step: Step)
    requires !(step.Deliver? && step.delivery.Received?)
    ensures Next(s, step).client.game in {s.client.game, None} && Next(s, step).origin == s.origin
    ensures !s.client.restored ==> Next(s, step).client.game == s.client.game && !Next(s, step).client.restored
  {
    match step {
      case Open(error) => OpeningKeepsGame(s.client, error);
      case Deliver(_, delivery) => OtherDeliveriesKeepGame(s.client, delivery);
      case Forget =>
    }
  }

  lemma StepKeepsInv(history: seq<Game>, s: State, step: Step)
    requires IsHistory(history) && Inv(history, s) && Enabled(history, s, step)
    ensures Inv(history, Next(s, step))
  {
    StepKeepsCount(history, s, step);
    if step.Deliver? && step.delivery.Received? {
      MessageStaysExplained(history, s, step.delivery.origin, step.delivery.message);
    } else {
      OtherStepsKeepGame(s, step);
    }
  }

  lemma {:induction false} RunKeepsInv(history: seq<Game>, run: seq<State>, steps: seq<Step>)
    requires IsRun(history, run, steps)
    ensures forall i :: 0 <= i < |run| ==> Inv(history, run[i])
  {
    if |steps| > 0 {
      var last := |steps| - 1;
      RunKeepsInv(history, run[..|run| - 1], steps[..last]);
      assert run[..|run| - 1][last] == run[last];
      StepKeepsInv(history, run[last], steps[last]);
      forall i | 0 <= i < |run| ensures Inv(history, run[i]) {
        if i < |run| - 1 {
          assert run[i] == run[..|run| - 1][i];
        }
      }
    }
  }

  // ----- Sockets -----

  /** A callback acts exactly when its socket is the latest, or the 64-bit counter went round since. */
  lemma CallbackActsExactly(history: seq<Game>, run: seq<State>, steps: seq<Step>, i: nat)
    requires IsRun(history, run, steps) && i < |steps| && steps[i].Deliver?
    ensures var s, step := run[i], steps[i];
            run[i+1].client == if (s.bumps - step.socket) % U64_MAX == 0 then Accept(s.client, step.delivery)
                               else s.client
  {
    RunKeepsInv(history, run, steps);
    SameGenerationExactly(steps[i].socket, run[i].bumps);
  }

  /** Callbacks of an earlier socket change nothing. */
  lemma StaleSocketChangesNothing(history: seq<Game>, run: seq<State>, steps: seq<Step>, i: nat)
    requires IsRun(history, run, steps) && i < |steps| && steps[i].Deliver?
    requires steps[i].socket < run[i].bumps && run[i].bumps - steps[i].socket < U64_MAX
    ensures run[i+1] == run[i]
  {
    RunKeepsInv(history, run, steps);
    GenerationsDiffer(steps[i].socket, run[i].bumps);
  }

  // ----- Monotone reads -----

  lemma ConfirmedGameOutlivesStep(s: State, step: Step)
    requires s.client.game.Some? && !s.client.restored
    ensures Next(s, step).client.game.Some? && !Next(s, step).client.restored
  {
    if step.Deliver? && step.delivery.Received? {
    } else {
      OtherStepsKeepGame(s, step);
    }
  }

  function RevisionAt(history: seq<Game>, index: nat): nat {
    if index < |history| then history[index].session.revision else 0
  }

  predicate EntitiesReadForward(history: seq<Game>, before: map<string, nat>, after: map<string, nat>) {
    forall id :: id in before && id in after ==> RevisionAt(history, before[id]) <= RevisionAt(history, after[id])
  }

  /** Nothing shown later was read from an older server state than what was shown for it before. */
  predicate ReadsForward(history: seq<Game>, before: Origin, after: Origin) {
    && EntitiesReadForward(history, before.players, after.players)
    && EntitiesReadForward(history, before.dragons, after.dragons)
    && RevisionAt(history, before.phase) <= RevisionAt(history, after.phase)
    && RevisionAt(history, before.time) <= RevisionAt(history, after.time)
  }

  /** Nothing shown was read from a state newer than this revision. */
  predicate IsBounded(history: seq<Game>, origin: Origin, revision: nat) {
    && (forall id :: id in origin.players ==> RevisionAt(history, origin.players[id]) <= revision)
    && (forall id :: id in origin.dragons ==> RevisionAt(history, origin.dragons[id]) <= revision)
    && RevisionAt(history, origin.phase) <= revision && RevisionAt(history, origin.time) <= revision
  }

  lemma ExplainedIsBounded(history: seq<Game>, game: Game, origin: Origin)
    requires IsHistory(history) && IsExplained(history, game, origin)
    ensures IsBounded(history, origin, game.session.revision)
  {
  }

  /** A message either keeps a value or replaces it by one at least as new as the copy's revision. */
  lemma MessageReadsForward(history: seq<Game>, first: Origin, s: State, index: nat, message: Message)
    requires IsHistory(history) && index < |history| && IsProjection(history[index], message)
    requires s.client.game.Some? && IsExplained(history, s.client.game.value, s.origin)
    requires IsBounded(history, first, s.client.game.value.session.revision)
    requires ReadsForward(history, first, s.origin)
    ensures ReadsForward(history, first, OriginAfter(s.client, s.origin, index, message))
  {
  }

  lemma MessageKeepsRevision(history: seq<Game>, s: State, index: nat, message: Message)
    requires IsHistory(history) && index < |history| && IsProjection(history[index], message)
    requires s.client.game.Some? && IsExplained(history, s.client.game.value, s.origin)
    requires ApplyMessage(s.client, message).game.Some?
    ensures s.client.game.value.session.revision <= ApplyMessage(s.client, message).game.value.session.revision
  {
  }

  lemma StepReadsForward(history: seq<Game>, first: Origin, s: State, step: Step)
    requires IsHistory(history) && Inv(history, s) && Enabled(history, s, step)
    requires s.client.game.Some? && !s.client.restored
    requires IsBounded(history, first, s.client.game.value.session.revision)
    requires ReadsForward(history, first, s.origin)
    ensures var next := Next(s, step);
            && next.client.game.Some? && !next.client.restored && ReadsForward(history, first, next.origin)
            && s.client.game.value.session.revision <= next.client.game.value.session.revision
            && IsBounded(history, first, next.client.game.value.session.revision)
  {
    ConfirmedGameOutlivesStep(s, step);
    if step.Deliver? && step.delivery.Received? {
      if s.client.generation == GenerationAfter(step.socket) {
        MessageReadsForward(history, first, s, step.delivery.origin, step.delivery.message);
        MessageKeepsRevision(history, s, step.delivery.origin, step.delivery.message);
      }
    } else {
      OtherStepsKeepGame(s, step);
    }
  }

  /** Over any stretch of any run, whatever is lost, repeated or reordered, a confirmed game is never
  dropped and its values only get newer. */
  lemma {:induction false} ReadsAreMonotone(history: seq<Game>, run: seq<State>, steps: seq<Step>, i: nat, j: nat)
    requires IsRun(history, run, steps) && i <= j < |run|
    requires run[i].client.game.Some? && !run[i].client.restored
    ensures run[j].client.game.Some? && !run[j].client.restored
    ensures run[i].client.game.value.session.revision <= run[j].client.game.value.session.revision
    ensures ReadsForward(history, run[i].origin, run[j].origin)
    ensures IsBounded(history, run[i].origin, run[j].client.game.value.session.revision)
  {
    RunKeepsInv(history, run, steps);
    assert Inv(history, run[i]);
    if i == j {
      ExplainedIsBounded(history, run[i].client.game.value, run[i].origin);
    } else {
      ReadsAreMonotone(history, run, steps, i, j - 1);
      StepReadsForward(history, run[i].origin, run[j-1], steps[j-1]);
    }
  }

  // ----- Convergence -----

  /** The server has only one state of the final revision. */
  ghost predicate IsSettled(history: seq<Game>)
    requires IsHistory(history)
  {
    var last := history[|history| - 1];
    forall i :: 0 <= i < |history| && history[i].session.revision == last.session.revision ==> history[i] == last
  }

  lemma MessageKeepsFinalState(history: seq<Game>, c: Client, index: nat, message: Message)
    requires IsHistory(history) && IsSettled(history) && index < |history|
    requires IsProjection(history[index], message)
    requires c.game == Some(history[|history| - 1]) && !c.restored
    ensures ApplyMessage(c, message).game == c.game && !ApplyMessage(c, message).restored
  {
    var last := history[|history| - 1];
    assert history[index].session.revision <= last.session.revision;
    if message.PlayerUpsert? && message.revision == last.session.revision {
      assert last.players[message.player.id := message.player] == last.players;
    }
    if message.DragonPatch? && message.revision == last.session.revision {
      assert last.dragons[message.dragon.id := message.dragon] == last.dragons;
    }
  }

  lemma StepKeepsFinalState(history: seq<Game>, s: State, step: Step)
    requires IsHistory(history) && IsSettled(history) && Enabled(history, s, step)
    requires s.client.game == Some(history[|history| - 1]) && !s.client.restored
    ensures Next(s, step).client.game == s.client.game && !Next(s, step).client.restored
  {
    if step.Deliver? && step.delivery.Received? {
      MessageKeepsFinalState(history, s.client, step.delivery.origin, step.delivery.message);
    } else {
      OtherStepsKeepGame(s, step);
    }
  }

  /** The copy is confirmed and equals the last server state. */
  predicate IsFinal(history: seq<Game>, c: Client) {
    |history| > 0 && c.game == Some(history[|history| - 1]) && !c.restored
  }

  lemma RunStepKeepsFinalState(history: seq<Game>, run: seq<State>, steps: seq<Step>, k: nat)
    requires IsRun(history, run, steps) && IsSettled(history) && k < |steps| && IsFinal(history, run[k].client)
    ensures IsFinal(history, run[k+1].client)
  {
    RunTakesStep(history, run, steps, k);
    StepKeepsFinalState(history, run[k], steps[k]);
  }

  lemma {:induction false} FinalStateStays(history: seq<Game>, run: seq<State>, steps: seq<Step>, i: nat, j: nat)
    requires IsRun(history, run, steps) && IsSettled(history) && i <= j < |run| && IsFinal(history, run[i].client)
    ensures IsFinal(history, run[j].client)
  {
    if i < j {
      FinalStateStays(history, run, steps, i, j - 1);
      RunStepKeepsFinalState(history, run, steps, j - 1);
    }
  }

  /** Once the snapshot of the highest revision arrives, the copy equals it and stays equal. */
  lemma FinalSnapshotConverges(history: seq<Game>, run: seq<State>, steps: seq<Step>, i: nat, j: nat)
    requires IsRun(history, run, steps) && IsSettled(history) && i < j < |run|
    requires var last := history[|history| - 1];
             && steps[i].Deliver? && steps[i].socket == run[i].bumps
             && steps[i].delivery == Received(|history| - 1, StateUpdate(last))
             && run[i].client.credentials.Some?
             && last.session.code == run[i].client.credentials.value.code
             && last.currentPlayer == Some(run[i].client.credentials.value.player)
    ensures run[j].client.game == Some(history[|history| - 1])
  {
    RunKeepsInv(history, run, steps);
    assert run[i+1] == Next(run[i], steps[i]);
    FinalStateStays(history, run, steps, i + 1, j);
  }

  ghost predicate StaysAt(history: seq<Game>, s: State) {
    forall run: seq<State>, steps: seq<Step> ::
      IsRun(history, run, steps) && run[0] == s ==> run[|steps|].client.game == s.client.game
  }

  /** A copy of the final state is stable exactly when no other state has the final revision: an earlier
  snapshot of the same revision is accepted over a later one. */
  lemma ConvergenceExactly(history: seq<Game>, s: State)
    requires IsHistory(history) && Inv(history, s) && s.bumps >= 1
    requires s.client.game == Some(history[|history| - 1]) && !s.client.restored
    requires s.client.credentials.Some?
    requires s.client.credentials.value.code == history[0].session.code
    requires Some(s.client.credentials.value.player) == history[0].currentPlayer
    ensures StaysAt(history, s) <==> IsSettled(history)
  {
    var last := history[|history| - 1];
    if IsSettled(history) {
      forall run: seq<State>, steps: seq<Step> | IsRun(history, run, steps) && run[0] == s
        ensures run[|steps|].client.game == s.client.game
      {
        FinalStateStays(history, run, steps, 0, |steps|);
      }
    } else {
      var i :| 0 <= i < |history| && history[i].session.revision == last.session.revision && history[i] != last;
      var step := Deliver(s.bumps, Received(i, StateUpdate(history[i])));
      var run, steps := [s, Next(s, step)], [step];
      assert IsRun(history, run, steps) && run[0] == s;
      assert run[|steps|].client.game == Some(history[i]);
    }
  }

  /** A player who goes away is another state of the same revision: a copy of it goes back to the earlier one. */
  lemma UnsettledCopyMoves() returns (history: seq<Game>, s: State)
    ensures IsHistory(history) && Inv(history, s) && !IsSettled(history)
    ensures s.client.game == Some(history[|history| - 1]) && !s.client.restored && !StaysAt(history, s)
  {
    var meta := Meta("482913", 7, "");
    var here := Game(meta, Some("p1"), Phase1, 20, map["p2" := Entity("p2", "connected")], map[], None);
    var away := here.(players := map["p2" := Entity("p2", "away")]);
    history := [here, away];
    var credentials := Some(Credentials("482913", "p1"));
    s := State(Client(credentials, Connected, true, false, Some(away), GenerationAfter(1)),
               Origin(map["p2" := 1], map[], 1, 1), 1);
    assert here.players["p2"] != away.players["p2"];
    assert history[0].session.revision == history[1].session.revision && history[0] != history[1];
    SnapshotIsExplained(history, 1);
    assert s.origin.players == (map p | p in away.players :: 1) && s.origin.dragons == map d | d in away.dragons :: 1;
    ConvergenceExactly(history, s);
  }
}
