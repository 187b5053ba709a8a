/** Who sits in a workshop, with which character: creating, joining, coming back and choosing.

Random choices and random ids are inputs; a generated id is one never used before. */
module Membership {
  import opened Workshop
  import opened Wrappers
  import Text

  /** A stored character.  Placeholder sprites are the timeout companion's; without an owner it is a starter. */
  datatype Record = Record(id: string, owner: Option<string>, placeholder: bool)

  datatype Character = Character(id: string, placeholder: bool)

  datatype Seat = Seat(account: Option<string>, name: string, characterId: Option<string>,
                       selected: Option<Character>)

  datatype Room = Room(phase: Phase, players: map<string, Seat>)

  datatype Account = Account(id: string, name: string)

  /** What the generator draws for one request. */
  datatype Draw = Draw(index: nat, characterId: string, playerId: string)

  // ----- Choosing a character -----

  function Keep(records: seq<Record>, keeps: Record -> bool): (kept: seq<Record>)
    ensures forall r :: r in kept <==> r in records && keeps(r)
  {
    if records == [] then []
    else (if keeps(records[0]) then [records[0]] else []) + Keep(records[1..], keeps)
  }

  /** Any record with sprites of its own is lent out under a new id; failing that, a free starter as it is. */
  function PickStarter(records: seq<Record>, taken: set<string>, draw: Draw): Option<Character> {
    var reusable := Keep(records, (r: Record) => !r.placeholder && r.id !in taken);
    var starters := Keep(records, (r: Record) => r.owner.None? && r.id !in taken);
    if reusable != [] then Some(Character(draw.characterId, false))
    else if starters != [] then Some(Character(starters[draw.index % |starters|].id, false))
    else None
  }

  function Find(records: seq<Record>, id: string): Option<Record> {
    if records == [] then None else if records[0].id == id then Some(records[0]) else Find(records[1..], id)
  }

  /** A request for a character, if it names one. */
  function Requested(id: Option<string>): Option<string> {
    if id.None? || Text.Trim(id.value) == "" then None else Some(Text.Trim(id.value))
  }

  /** Failure refuses the request; None seats the player without a character. */
  function ResolveCharacter(records: seq<Record>, account: string, request: Option<string>, taken: set<string>,
                            draw: Draw): Result<Option<Character>, string> {
    if Requested(request).Some? then
      var found := Find(records, Requested(request).value);
      if found.None? then Success(None)
      else if found.value.owner != Some(account) && found.value.owner.Some?
      then Failure("you do not own this character")
      else if found.value.owner.None? && Requested(request).value in taken
      then Failure("that starter is already taken in this workshop")
      else Success(Some(Character(found.value.id, false)))
    else if Keep(records, (r: Record) => r.owner == Some(account)) != [] then Failure("please select a character")
    else Success(PickStarter(records, taken, draw))
  }

  // ----- The requests -----

  function CharactersOfOthers(room: Room, account: string): set<string> {
    set p | p in room.players && room.players[p].account != Some(account) && room.players[p].selected.Some?
      :: room.players[p].selected.value.id
  }

  function SeatOf(account: Account, character: Option<Character>): Seat {
    Seat(Some(account.id), account.name, if character.None? then None else Some(character.value.id), character)
  }

  /** A new workshop seats its creator. */
  function Create(records: seq<Record>, account: Account, request: Option<string>, draw: Draw): Result<Room, string> {
    var character := ResolveCharacter(records, account.id, request, {}, draw);
    if character.Failure? then Failure(character.error)
    else Success(Room(Lobby, map[draw.playerId := SeatOf(account, character.value)]))
  }

  predicate HasSeat(room: Room, account: string) {
    exists p :: p in room.players && room.players[p].account == Some(account)
  }

  predicate IsNameTaken(room: Room, name: string) {
    exists p :: p in room.players && Text.Lower(room.players[p].name) == Text.Lower(name)
  }

  /** An account that has no seat yet takes one, in the lobby only. */
  function JoinAsNew(room: Room, records: seq<Record>, account: Account, request: Option<string>, draw: Draw)
    : Result<Room, string>
  {
    if room.phase != Lobby then Failure("This workshop has already started.")
    else
      var character := ResolveCharacter(records, account.id, request, CharactersOfOthers(room, account.id), draw);
      if character.Failure? then Failure(character.error)
      else if character.value.None? && Requested(request).None? then Failure("no starter available")
      else if IsNameTaken(room, account.name) then Failure("That player name is already taken in this workshop.")
      else Success(room.(players := room.players[draw.playerId := SeatOf(account, character.value)]))
  }

  /** An account comes back to its seat; in the lobby, placeholder sprites are replaced if anything is free. */
  function ComeBack(room: Room, records: seq<Record>, account: Account, player: string, draw: Draw): Room
    requires player in room.players
  {
    var seat := room.players[player];
    if room.phase != Lobby || seat.selected.None? || !seat.selected.value.placeholder then room
    else
      var upgraded := PickStarter(records, CharactersOfOthers(room, account.id), draw);
      if upgraded.None? then room
      else room.(players := room.players[player := seat.(characterId := Some(upgraded.value.id), selected := upgraded)])
  }

  predicate IsTakenByAnother(room: Room, player: string, id: string) {
    exists p :: p in room.players && p != player && room.players[p].characterId == Some(id)
  }

  predicate HasPrefix(text: string, prefix: string) {
    prefix <= text
  }

  function AccountOf(room: Room, player: string): Option<string> {
    if player in room.players then room.players[player].account else None
  }

  /** `record` is what was loaded for the id before the session was locked. */
  function SelectCharacter(room: Room, player: string, id: string, record: Option<Record>): Result<Room, string> {
    if HasPrefix(id, "starter_") && IsTakenByAnother(room, player, id)
    then Failure("That starter is already taken in this workshop.")
    else if record.None? then Failure("Selected character was not found.")
    else
      var isOwned := AccountOf(room, player).Some? && record.value.owner == AccountOf(room, player);
      if !isOwned && record.value.owner.Some? then Failure("You do not own this character.")
      else if record.value.owner.None? && IsTakenByAnother(room, player, id)
      then Failure("That starter is already taken in this workshop.")
      else if player !in room.players then Failure("action not allowed")
      else
        var seat := room.players[player];
        Success(room.(players := room.players[player :=
          seat.(characterId := Some(record.value.id), selected := Some(Character(record.value.id, false)))]))
  }

  /** Resetting keeps the host's seat only. */
  function Reset(room: Room, host: string): Room {
    Room(Lobby, map p | p in room.players && p == host :: room.players[p])
  }

  // ----- The same, on a cached session changed in place -----

  class Seats {
    var phase: Phase
    var players: map<string, Seat>

    constructor (room: Room)
      ensures View() == room
    {
      phase, players := room.phase, room.players;
    }

    ghost function View(): Room
      reads this
    {
      Room(phase, players)
    }

    method AssignCharacter(player: string, character: Character) returns (seated: bool)
      modifies this`players
      ensures seated <==> player in old(players)
      ensures players == if !seated then old(players) else old(players)[player :=
                           old(players)[player].(characterId := Some(character.id), selected := Some(character))]
    {
      if player !in players {
        return false;
      }
      players := players[player := players[player].(characterId := Some(character.id))];
      players := players[player := players[player].(selected := Some(character))];
      return true;
    }

    method Select(player: string, id: string, record: Option<Record>) returns (done: bool)
      modifies this`players
      ensures done <==> SelectCharacter(old(View()), player, id, record).Success?
      ensures View() == if done then SelectCharacter(old(View()), player, id, record).value else old(View())
    {
      var others := set p | p in players && p != player && players[p].characterId == Some(id);
      var isTaken := others != {};
      assert isTaken <==> IsTakenByAnother(View(), player, id) by {
        if IsTakenByAnother(View(), player, id) {
          var p :| p in players && p != player && players[p].characterId == Some(id);
          assert p in others;
        }
        if isTaken {
          var p :| p in others;
        }
      }
      if (HasPrefix(id, "starter_") && isTaken) || record.None? {
        return false;
      }
      var account := if player in players then players[player].account else None;
      var isOwned := account.Some? && record.value.owner == account;
      var isStarter := record.value.owner.None?;
      if (!isOwned && !isStarter) || (isStarter && isTaken) {
        return false;
      }
      done := AssignCharacter(player, Character(record.value.id, false));
    }
  }

  // ----- What every request keeps -----

  /** Where a character id comes from, for good. */
  datatype Origin = OwnedBy(account: string) | Starter | Lent

  /** `origins` knows every id ever used; stored records keep their owner. */
  predicate AreKnown(records: seq<Record>, origins: map<string, Origin>) {
    forall r :: r in records ==> IsKnown(r, origins)
  }

  predicate IsKnown(r: Record, origins: map<string, Origin>) {
    r.id in origins && origins[r.id] == (if r.owner.Some? then OwnedBy(r.owner.value) else Starter)
  }

  predicate IsFresh(draw: Draw, room: Room, origins: map<string, Origin>) {
    draw.characterId !in origins && draw.playerId !in room.players
  }

  /** After a request every id drawn for it is used up. */
  function Recorded(origins: map<string, Origin>, draw: Draw): map<string, Origin> {
    if draw.characterId in origins then origins else origins[draw.characterId := Lent]
  }

  predicate HoldsKnown(seat: Seat, origins: map<string, Origin>) {
    && seat.characterId == (if seat.selected.Some? then Some(seat.selected.value.id) else None)
    && (seat.selected.Some? ==>
          && seat.selected.value.id in origins
          && (origins[seat.selected.value.id].OwnedBy? ==>
                seat.account == Some(origins[seat.selected.value.id].account)))
  }

  predicate Differ(a: Seat, b: Seat) {
    && !(a.account.Some? && a.account == b.account)
    && Text.Lower(a.name) != Text.Lower(b.name)
    && !(a.selected.Some? && b.selected.Some? && a.selected.value.id == b.selected.value.id)
  }

  /** One seat per account, one name per seat ignoring case, one character per seat. */
  predicate IsSound(room: Room, origins: map<string, Origin>) {
    && (forall p :: p in room.players ==> HoldsKnown(room.players[p], origins))
    && (forall p, q :: p in room.players && q in room.players && p != q ==> Differ(room.players[p], room.players[q]))
  }

  lemma {:induction false} FoundIsStored(records: seq<Record>, id: string)
    ensures Find(records, id).Some? ==> Find(records, id).value in records && Find(records, id).value.id == id
  {
    if records != [] && records[0].id != id {
      FoundIsStored(records[1..], id);
    }
  }

  /** A character that can be given to this account beside these taken ones. */
  predicate IsFree(character: Character, account: Option<string>, taken: set<string>, origins: map<string, Origin>) {
    && character.id in origins
    && (if origins[character.id].OwnedBy? then account == Some(origins[character.id].account)
        else character.id !in taken)
  }

  lemma PickedIsFree(records: seq<Record>, taken: set<string>, draw: Draw, origins: map<string, Origin>,
                     account: string)
    requires AreKnown(records, origins) && draw.characterId !in origins && taken <= origins.Keys
    ensures var picked := PickStarter(records, taken, draw);
            picked.Some? ==> IsFree(picked.value, Some(account), taken, Recorded(origins, draw))
  {
    var reusable := Keep(records, (r: Record) => !r.placeholder && r.id !in taken);
    var starters := Keep(records, (r: Record) => r.owner.None? && r.id !in taken);
    if reusable == [] && starters != [] {
      var r := starters[draw.index % |starters|];
      assert r in starters;
      assert IsKnown(r, origins);
    }
  }

  lemma ResolvedIsFree(records: seq<Record>, account: string, request: Option<string>, taken: set<string>, draw: Draw,
                       origins: map<string, Origin>)
    requires AreKnown(records, origins) && draw.characterId !in origins && taken <= origins.Keys
    ensures var resolved := ResolveCharacter(records, account, request, taken, draw);
            resolved.Success? && resolved.value.Some? ==>
              IsFree(resolved.value.value, Some(account), taken, Recorded(origins, draw))
  {
    if Requested(request).Some? {
      FoundIsStored(records, Requested(request).value);
      var found := Find(records, Requested(request).value);
      if found.Some? {
        assert IsKnown(found.value, origins);
      }
    } else {
      PickedIsFree(records, taken, draw, origins, account);
    }
  }

  lemma OthersAreKnown(room: Room, origins: map<string, Origin>, account: string)
    requires IsSound(room, origins)
    ensures CharactersOfOthers(room, account) <= origins.Keys
  {
  }

  /** Giving a seat a free character keeps everything, whoever the seat belonged to before. */
  lemma SeatingKeepsSound(room: Room, origins: map<string, Origin>, player: string, seat: Seat, account: string)
    requires forall p :: p in room.players && p != player ==> HoldsKnown(room.players[p], origins)
    requires forall p, q :: p in room.players && q in room.players && p != q && p != player && q != player ==>
               Differ(room.players[p], room.players[q])
    requires seat.account == Some(account)
    requires seat.characterId == (if seat.selected.Some? then Some(seat.selected.value.id) else None)
    requires forall p :: p in room.players && p != player ==>
               && room.players[p].account != Some(account)
               && Text.Lower(room.players[p].name) != Text.Lower(seat.name)
    requires seat.selected.Some? ==>
               IsFree(seat.selected.value, Some(account), CharactersOfOthers(room, account), origins)
    ensures IsSound(room.(players := room.players[player := seat]), origins)
  {
    var next := room.players[player := seat];
    forall p | p in room.players && p != player ensures Differ(room.players[p], seat) && Differ(seat, room.players[p]) {
      var other := room.players[p];
      assert HoldsKnown(other, origins);
      assert other.selected.Some? ==> other.selected.value.id in CharactersOfOthers(room, account);
    }
    forall p, q | p in next && q in next && p != q ensures Differ(next[p], next[q]) {
    }
  }

  lemma MoreOriginsKeepSound(room: Room, origins: map<string, Origin>, draw: Draw)
    requires IsSound(room, origins)
    ensures IsSound(room, Recorded(origins, draw))
  {
    forall p | p in room.players ensures HoldsKnown(room.players[p], Recorded(origins, draw)) {
      assert HoldsKnown(room.players[p], origins);
    }
  }

  lemma CreateIsSound(records: seq<Record>, account: Account, request: Option<string>, draw: Draw,
                      origins: map<string, Origin>)
    requires AreKnown(records, origins) && draw.characterId !in origins
    requires Create(records, account, request, draw).Success?
    ensures IsSound(Create(records, account, request, draw).value, Recorded(origins, draw))
  {
    ResolvedIsFree(records, account.id, request, {}, draw, origins);
  }

  lemma JoinKeepsSound(room: Room, records: seq<Record>, account: Account, request: Option<string>, draw: Draw,
                       origins: map<string, Origin>)
    requires IsSound(room, origins) && AreKnown(records, origins) && IsFresh(draw, room, origins)
    requires !HasSeat(room, account.id) && JoinAsNew(room, records, account, request, draw).Success?
    ensures IsSound(JoinAsNew(room, records, account, request, draw).value, Recorded(origins, draw))
  {
    var taken := CharactersOfOthers(room, account.id);
    OthersAreKnown(room, origins, account.id);
    ResolvedIsFree(records, account.id, request, taken, draw, origins);
    MoreOriginsKeepSound(room, origins, draw);
    var character := ResolveCharacter(records, account.id, request, taken, draw).value;
    SeatingKeepsSound(room, Recorded(origins, draw), draw.playerId, SeatOf(account, character), account.id);
  }

  lemma ComeBackKeepsSound(room: Room, records: seq<Record>, account: Account, player: string, draw: Draw,
                           origins: map<string, Origin>)
    requires IsSound(room, origins) && AreKnown(records, origins) && IsFresh(draw, room, origins)
    requires player in room.players && room.players[player].account == Some(account.id)
    ensures IsSound(ComeBack(room, records, account, player, draw), Recorded(origins, draw))
  {
    var taken := CharactersOfOthers(room, account.id);
    OthersAreKnown(room, origins, account.id);
    PickedIsFree(records, taken, draw, origins, account.id);
    MoreOriginsKeepSound(room, origins, draw);
    var upgraded := PickStarter(records, taken, draw);
    if upgraded.Some? {
      var seat := room.players[player].(characterId := Some(upgraded.value.id), selected := upgraded);
      forall p | p in room.players && p != player
        ensures room.players[p].account != Some(account.id)
             && Text.Lower(room.players[p].name) != Text.Lower(seat.name)
      {
        assert Differ(room.players[p], room.players[player]);
      }
      SeatingKeepsSound(room, Recorded(origins, draw), player, seat, account.id);
    }
  }

  lemma SelectKeepsSound(room: Room, player: string, id: string, record: Option<Record>, origins: map<string, Origin>)
    requires IsSound(room, origins) && SelectCharacter(room, player, id, record).Success?
    requires record.Some? && record.value.id == id && IsKnown(record.value, origins)
    ensures IsSound(SelectCharacter(room, player, id, record).value, origins)
  {
    var next := SelectCharacter(room, player, id, record).value;
    var seat := next.players[player];
    forall p | p in room.players && p != player ensures Differ(room.players[p], seat) && Differ(seat, room.players[p]) {
      var other := room.players[p];
      assert Differ(other, room.players[player]) && Differ(room.players[player], other);
      assert HoldsKnown(other, origins);
      assert other.selected.Some? && other.selected.value.id == id ==> IsTakenByAnother(room, player, id);
    }
  }

  lemma ResetKeepsSound(room: Room, host: string, origins: map<string, Origin>)
    requires IsSound(room, origins)
    ensures IsSound(Reset(room, host), origins)
  {
  }

  // ----- Runs -----

  /** The room, the stored characters, and every character id ever used. */
  datatype World = World(room: Room, records: seq<Record>, origins: map<string, Origin>)

  datatype Step =
    | Join(account: Account, request: Option<string>, draw: Draw)
    | Select(player: string, id: string, loaded: Option<Record>)
    | ResetTo(host: string)
    | SetPhase(phase: Phase)
    | Store(record: Record)
    | Delete(id: string)

  /** Stored characters are new ones or rewritten with the same owner; a loaded one may be gone by now. */
  predicate Enabled(w: World, step: Step) {
    match step
    case Join(_, _, draw) => IsFresh(draw, w.room, w.origins)
    case Select(_, id, record) => record.Some? ==> record.value.id == id && IsKnown(record.value, w.origins)
    case Store(record) => record.id !in w.origins || IsKnown(record, w.origins)
    case _ => true
  }

  ghost predicate Steps(w: World, step: Step, next: World) {
    match step
    case Join(account, request, draw) =>
      && next.records == w.records && next.origins == Recorded(w.origins, draw)
      && (if HasSeat(w.room, account.id) then
            exists player :: player in w.room.players && w.room.players[player].account == Some(account.id)
                          && next.room == ComeBack(w.room, w.records, account, player, draw)
          else
            var joined := JoinAsNew(w.room, w.records, account, request, draw);
            next.room == if joined.Success? then joined.value else w.room)
    case Select(player, id, record) =>
      var selected := SelectCharacter(w.room, player, id, record);
      next == w.(room := if selected.Success? then selected.value else w.room)
    case ResetTo(host) => next == w.(room := Reset(w.room, host))
    case SetPhase(phase) => next == w.(room := w.room.(phase := phase))
    case Store(record) =>
      next == w.(records := w.records + [record],
                 origins := if record.id in w.origins then w.origins
                            else
                              var origin := if record.owner.Some? then OwnedBy(record.owner.value) else Starter;
                              w.origins[record.id := origin])
    case Delete(id) => next == w.(records := Keep(w.records, (r: Record) => r.id != id))
  }

  ghost predicate Inv(w: World) {
    IsSound(w.room, w.origins) && AreKnown(w.records, w.origins)
  }

  lemma JoinKeepsInv(w: World, step: Step, next: World)
    requires Inv(w) && step.Join? && Enabled(w, step) && Steps(w, step, next)
    ensures Inv(next)
  {
    var account := step.account;
    assert AreKnown(next.records, next.origins) by {
      forall r | r in w.records ensures IsKnown(r, next.origins) {
        assert IsKnown(r, w.origins);
      }
    }
    if HasSeat(w.room, account.id) {
      var player :| player in w.room.players && w.room.players[player].account == Some(account.id)
                 && next.room == ComeBack(w.room, w.records, account, player, step.draw);
      ComeBackKeepsSound(w.room, w.records, account, player, step.draw, w.origins);
    } else if JoinAsNew(w.room, w.records, account, step.request, step.draw).Success? {
      JoinKeepsSound(w.room, w.records, account, step.request, step.draw, w.origins);
    } else {
      MoreOriginsKeepSound(w.room, w.origins, step.draw);
    }
  }

  lemma StoreKeepsInv(w: World, step: Step, next: World)
    requires Inv(w) && step.Store? && Enabled(w, step) && Steps(w, step, next)
    ensures Inv(next)
  {
    forall r | r in next.records ensures IsKnown(r, next.origins) {
      if r in w.records {
        assert IsKnown(r, w.origins);
      }
    }
    forall p | p in w.room.players ensures HoldsKnown(w.room.players[p], next.origins) {
      assert HoldsKnown(w.room.players[p], w.origins);
    }
  }

  lemma StepKeepsInv(w: World, step: Step, next: World)
    requires Inv(w) && Enabled(w, step) && Steps(w, step, next)
    ensures Inv(next)
  {
    match step
    case Join(_, _, _) => JoinKeepsInv(w, step, next);
    case Select(player, id, record) =>
      if SelectCharacter(w.room, player, id, record).Success? {
        SelectKeepsSound(w.room, player, id, record, w.origins);
      }
    case ResetTo(host) => ResetKeepsSound(w.room, host, w.origins);
    case SetPhase(_) =>
    case Store(_) => StoreKeepsInv(w, step, next);
    case Delete(_) =>
  }

  predicate WasCreatedBy(w: World, before: map<string, Origin>, account: Account, request: Option<string>, draw: Draw) {
    && AreKnown(w.records, before) && draw.characterId !in before && w.origins == Recorded(before, draw)
    && Create(w.records, account, request, draw) == Success(w.room)
  }

  /** A workshop just created, with its creator's seat or as an empty lobby. */
  ghost predicate IsCreated(w: World) {
    || (AreKnown(w.records, w.origins) && w.room == Room(Lobby, map[]))
    || exists before, account, request, draw :: WasCreatedBy(w, before, account, request, draw)
  }

  lemma CreatedIsSound(w: World)
    requires IsCreated(w)
    ensures Inv(w)
  {
    if !(AreKnown(w.records, w.origins) && w.room == Room(Lobby, map[])) {
      var before, account, request, draw :| WasCreatedBy(w, before, account, request, draw);
      CreateIsSound(w.records, account, request, draw, before);
      forall r | r in w.records ensures IsKnown(r, w.origins) {
        assert IsKnown(r, before);
      }
    }
  }

  ghost predicate IsRun(run: seq<World>, steps: seq<Step>) {
    && |run| == |steps| + 1 && IsCreated(run[0])
    && forall i {:trigger steps[i]} :: 0 <= i < |steps| ==>
         Enabled(run[i], steps[i]) && Steps(run[i], steps[i], run[i+1])
  }

  /** Every session reached keeps one seat per account, distinct names and distinct characters. */
  lemma {:induction false} RunKeepsInv(run: seq<World>, steps: seq<Step>)
    requires IsRun(run, steps)
    ensures forall i :: 0 <= i < |run| ==> Inv(run[i])
  {
    if |steps| == 0 {
      CreatedIsSound(run[0]);
    } else {
      var last := |steps| - 1;
      RunKeepsInv(run[..|run| - 1], steps[..last]);
      assert run[..|run| - 1][last] == run[last];
      StepKeepsInv(run[last], steps[last], run[last + 1]);
      forall i | 0 <= i < |run| ensures Inv(run[i]) {
        if i < |run| - 1 {
          assert run[i] == run[..|run| - 1][i];
        }
      }
    }
  }
}
