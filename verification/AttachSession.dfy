/** Attaching a new websocket connection to a player's seat, with its undo on every failure.

`Replica` holds what the server keeps for this: the local registry, the shared store, the outbound
senders, the heartbeats and the session cache.  Each outside call may fail, as `Faults` says. */
module AttachSession {
  import opened Wrappers
  import opened Connections

  /** The part of a session that attaching reads and writes. */
  datatype Presence = Presence(players: set<string>, connected: set<string>, revision: nat) {
    /** Marks a player connected and counts the change. */
    function Connect(player: string): Presence {
      Presence(players, connected + {player}, revision + 1)
    }
  }

  /** Which outside calls succeed, and whether the displaced socket dies while it is being restored. */
  datatype Faults = Faults(claimOk: bool, queueOk: bool, sendOk: bool, leaseActive: bool, saveOk: bool,
                           releaseOk: bool, restoreOk: bool, displacedDies: bool)
  {
    /** The store calls of the undo succeed and the displaced socket stays open meanwhile. */
    predicate UndoWorks() {
      releaseOk && restoreOk && !displacedDies
    }
  }

  datatype AttachError =
    | WorkshopNotFound
    | InvalidIdentity
    | ClaimFailed
    | ConnectionClosed
    | LeaseLost
    | SaveFailed
    | RestoreFailed

  /** The persisted session with the presence that the store's live rows show. */
  function Load(persisted: Presence, store: Store, code: string, now: int): Presence {
    persisted.(connected := set p | p in persisted.players && HasLiveRow(store, Seat(code, p), now))
  }

  predicate HasLiveRow(store: Store, seat: Seat, now: int) {
    exists c :: c in store.rows && store.rows[c].seat == seat && store.IsLive(c, now)
  }

  class Replica {
    const id: ReplicaId
    var registry: Registry
    var store: Store
    var senders: set<ConnId>
    var heartbeats: set<ConnId>
    var retiredHere: set<ConnId>
    var sessions: map<string, Presence>
    var persisted: map<string, Presence>

    constructor (id: ReplicaId, registry: Registry, store: Store, senders: set<ConnId>,
                 persisted: map<string, Presence>)
      requires registry.Consistent() && store.Consistent()
      ensures Valid() && this.id == id && this.registry == registry && this.store == store
      ensures this.senders == senders && this.persisted == persisted
      ensures heartbeats == {} && retiredHere == {} && sessions == map[]
    {
      this.id := id;
      this.registry, this.store, this.senders, this.persisted := registry, store, senders, persisted;
      heartbeats, retiredHere, sessions := {}, {}, map[];
    }

    ghost predicate Valid()
      reads this
    {
      registry.Consistent() && store.Consistent()
    }

    /** A connection that the socket loop has just named and given a sender. */
    ghost predicate IsNewConnection(conn: ConnId)
      reads this
    {
      && conn in senders && conn !in heartbeats
      && conn !in registry.byId && conn !in store.rows && conn !in store.retired
    }

    /** The connection holds its seat here: row, registration and heartbeat. */
    ghost predicate IsSeated(conn: ConnId, seat: Seat)
      reads this
    {
      && conn in store.rows && store.rows[conn].seat == seat && store.rows[conn].replica == id
      && conn in registry.byId && registry.byId[conn] == seat
      && conn in heartbeats
    }

    method ReloadCachedSession(code: string, now: int) returns (found: bool)
      modifies this`sessions
      ensures found <==> code in persisted
      ensures found ==> sessions == old(sessions)[code := Load(persisted[code], store, code, now)]
      ensures !found ==> sessions == old(sessions) - {code}
    {
      found := code in persisted;
      sessions := if found then sessions[code := Load(persisted[code], store, code, now)] else sessions - {code};
    }

    /** Gives a displaced connection its row, its registration and its heartbeat back. */
    method RestoreReplacedRegistration(replaced: Registration, now: int, faults: Faults) returns (ok: bool)
      requires Valid()
      modifies this`store, this`registry, this`heartbeats, this`senders
      ensures Valid()
      ensures senders == old(senders) || (faults.displacedDies && senders == old(senders) - {replaced.conn})
      ensures ok <==> faults.restoreOk || (replaced.replica == id && replaced.conn !in old(senders))
      ensures forall c :: c != replaced.conn && c !in old(store).rows ==> c !in store.rows
      ensures forall c :: c != replaced.conn && c !in old(registry).byId ==> c !in registry.byId
      ensures forall c :: c != replaced.conn ==> (c in heartbeats <==> c in old(heartbeats))
      ensures (faults.restoreOk && replaced.replica == id && replaced.conn in old(senders) && !faults.displacedDies
               && IsRestorable(old(store), replaced, now)) ==> IsSeated(replaced.conn, replaced.seat)
      ensures !IsRestorable(old(store), replaced, now) || replaced.replica != id ==> registry == old(registry)
    {
      var isLocal := replaced.replica == id;
      if isLocal && replaced.conn !in senders {
        return true;
      }
      if !faults.restoreOk {
        return false;
      }
      RestoreGivesTheSeatBack(store, replaced, now);
      var (next, restored) := store.Restore(replaced, now);
      store := next;
      if restored && isLocal {
        AttachIsExclusive(registry, replaced.seat, replaced.conn);
        registry := registry.Attach(replaced.seat, replaced.conn).0;
        heartbeats := heartbeats + {replaced.conn};
        if faults.displacedDies {
          senders := senders - {replaced.conn};
        }
        if replaced.conn !in senders {
          heartbeats := heartbeats - {replaced.conn};
          DetachForgets(registry, replaced.conn);
          registry := registry.Detach(replaced.conn);
          ReleaseKeepsConsistencyExactly(store, replaced.conn, id);
          store := store.Release(replaced.conn, id).0;
        }
      }
      return true;
    }

    /** Takes the row of a connection of this replica away, if the store answers. */
    method ReleaseOwn(conn: ConnId, ok: bool)
      requires Valid() && (conn in store.rows ==> store.rows[conn].replica == id)
      modifies this`store
      ensures Valid()
      ensures store == if ok then old(store).Release(conn, id).0 else old(store)
    {
      ReleaseKeepsConsistencyExactly(store, conn, id);
      if ok {
        store := store.Release(conn, id).0;
      }
    }

    /** The undo that every failure after the claim runs: release, forget, restore, put the session back. */
    method Undo(conn: ConnId, victim: Option<Registration>, code: string, before: Presence, now: int, faults: Faults)
      returns (ok: bool)
      requires Valid() && conn in store.rows && store.rows[conn].replica == id
      requires victim.Some? ==> victim.value.conn != conn
      modifies this`store, this`registry, this`heartbeats, this`senders, this`sessions
      ensures Valid()
      ensures conn !in senders && conn !in registry.byId && conn !in heartbeats
      ensures faults.releaseOk ==> conn !in store.rows
      ensures ok <==>
                || victim.None? || faults.restoreOk
                || (victim.value.replica == id && victim.value.conn !in old(senders))
      ensures !faults.displacedDies ==> senders == old(senders) - {conn}
      ensures forall c :: (victim.Some? ==> c != victim.value.conn) && c !in old(registry).byId ==> c !in registry.byId
      ensures sessions == if ok then old(sessions)[code := before] else old(sessions)
      ensures victim.None? ==> registry == old(registry).Detach(conn)
      ensures victim.Some? && faults.releaseOk ==>
                var v, released := victim.value, old(store).Release(conn, id).0;
                && ((faults.restoreOk && v.replica == id && v.conn in old(senders) && !faults.displacedDies
                     && IsRestorable(released, v, now)) ==> IsSeated(v.conn, v.seat))
                && (!IsRestorable(released, v, now) || v.replica != id ==> registry == old(registry).Detach(conn))
    {
      ReleaseKeepsConsistencyExactly(store, conn, id);
      ReleaseOwn(conn, faults.releaseOk);
      heartbeats := heartbeats - {conn};
      DetachForgets(registry, conn);
      registry := registry.Detach(conn);
      ok := true;
      if victim.Some? {
        ok := RestoreReplacedRegistration(victim.value, now, faults);
      }
      if ok {
        sessions := sessions[code := before];
      }
      senders := senders - {conn};
    }

    /** Why attaching fails once the connection is in the local registry, if it does. */
    static function FailureAfterAttach(wasConnected: bool, faults: Faults): Option<AttachError> {
      if !faults.sendOk then Some(ConnectionClosed)
      else if !wasConnected && !faults.leaseActive then Some(LeaseLost)
      else if !wasConnected && !faults.saveOk then Some(SaveFailed)
      else None
    }

    /** Seats the new connection here; the result is whom a failure has to restore. */
    method AttachHere(seat: Seat, conn: ConnId, replaced: Option<Registration>)
      returns (victim: Option<Registration>)
      requires Valid() && conn !in registry.byId
      modifies this`registry
      ensures Valid() && conn in registry.byId && registry.byId[conn] == seat
      ensures replaced.Some? ==> victim == replaced
      ensures replaced.None? ==>
                victim == (if seat in old(registry).bySeat then Some(Registration(seat, old(registry).bySeat[seat], id))
                           else None)
      ensures replaced.None? && victim.Some? ==> victim.value.conn != conn
      ensures seat in old(registry).bySeat ==> old(registry).bySeat[seat] !in registry.byId
    {
      AttachIsExclusive(registry, seat, conn);
      var (attached, displaced) := registry.Attach(seat, conn);
      registry := attached;
      victim :=
        if replaced.Some? then replaced
        else if displaced.Some? then Some(Registration(seat, displaced.value, id))
        else None;
    }

    /** Drops the displaced connection for good and starts the heartbeat of the new one. */
    method CommitAttach(seat: Seat, conn: ConnId, replaced: Option<Registration>)
      requires Valid() && conn in store.rows && store.rows[conn].seat == seat && store.rows[conn].replica == id
      requires conn in registry.byId && registry.byId[conn] == seat
      requires replaced.Some? ==> replaced.value.conn != conn
      modifies this`registry, this`heartbeats, this`retiredHere
      ensures Valid() && IsSeated(conn, seat)
      ensures replaced.Some? && replaced.value.replica == id ==>
                && replaced.value.conn !in registry.byId && replaced.value.conn !in heartbeats
                && replaced.value.conn in retiredHere
    {
      if replaced.Some? && replaced.value.replica == id {
        heartbeats := heartbeats - {replaced.value.conn};
        retiredHere := retiredHere + {replaced.value.conn};
        DetachForgets(registry, replaced.value.conn);
        registry := registry.Detach(replaced.value.conn);
      }
      heartbeats := heartbeats + {conn};
    }

    /** The session of the seat as the reload shows it, once it was changed to show the player connected. */
    static function Entered(loaded: Presence, player: string): Presence {
      if player in loaded.connected then loaded else loaded.Connect(player)
    }

    /** Takes the seat in the store, and stops the heartbeat of a displaced local connection. */
    method ClaimSeat(seat: Seat, conn: ConnId, claimAt: int, undoAt: int) returns (replaced: Option<Registration>)
      requires Valid() && conn !in store.rows && conn !in store.retired && conn !in registry.byId
      modifies this`store, this`heartbeats
      ensures Valid() && conn in store.rows && store.rows[conn] == StoreRow(seat, id, claimAt)
      ensures conn !in old(heartbeats) ==> conn !in heartbeats
      ensures replaced == (if HasLiveHolder(old(store), seat, claimAt)
                           then var v := old(store).bySeat[seat];
                                Some(Registration(seat, v, old(store).rows[v].replica))
                           else None)
      ensures replaced.Some? ==>
                replaced.value.conn != conn && IsRestorable(store.Release(conn, id).0, replaced.value, undoAt)
      ensures replaced.None? ==> forall v :: v != conn ==>
                (IsRestorable(store.Release(conn, id).0, Registration(seat, v, id), undoAt) <==>
                 v in old(store).retired && old(store).retired[v] == id)
    {
      var own := Registration(seat, conn, id);
      ClaimTakesTheSeat(store, own, claimAt);
      forall v | v != conn
        ensures store.Claim(own, claimAt).value.1.None? ==>
                  var released := store.Claim(own, claimAt).value.0.Release(conn, id).0;
                  (IsRestorable(released, Registration(seat, v, id), undoAt) <==>
                   v in store.retired && store.retired[v] == id)
      {
        ReleasedClaimIsUndoable(store, own, claimAt, Registration(seat, v, id), undoAt);
      }
      var (claimed, displaced) := store.Claim(own, claimAt).value;
      replaced := displaced;
      if replaced.Some? {
        ReleasedClaimIsUndoable(store, own, claimAt, replaced.value, undoAt);
      }
      store := claimed;
      if replaced.Some? && replaced.value.replica == id {
        heartbeats := heartbeats - {replaced.value.conn};
      }
    }

    /** All: the new connection is seated, and a player who was away is saved as connected. */
    twostate predicate Established(seat: Seat, conn: ConnId, saved: bool)
      reads this
    {
      && IsSeated(conn, seat) && conn in senders && senders == old(senders)
      && sessions == old(sessions) && seat.code in sessions
      && persisted == if saved then old(persisted)[seat.code := sessions[seat.code]] else old(persisted)
    }

    /** Nothing: the session is put back, nothing is saved, the new connection is gone. */
    twostate predicate Undone(seat: Seat, conn: ConnId, loaded: Presence, error: AttachError, faults: Faults)
      reads this
    {
      && (error == RestoreFailed ==> !faults.restoreOk)
      && persisted == old(persisted)
      && conn !in senders && conn !in registry.byId && conn !in heartbeats
      && (!faults.displacedDies ==> senders == old(senders) - {conn})
      && (faults.releaseOk ==> conn !in store.rows)
      && (error != RestoreFailed ==> sessions == old(sessions)[seat.code := loaded])
    }

    /** What the new connection needs once it has claimed its seat. */
    ghost predicate OwnsRowOnly(seat: Seat, conn: ConnId)
      reads this
    {
      && Valid() && conn in store.rows && store.rows[conn].seat == seat && store.rows[conn].replica == id
      && conn in senders && conn !in registry.byId && conn !in heartbeats && seat.code in sessions
    }

    /** From the first message on: register here, wait for it to be sent, save, or undo it all. */
    method Establish(seat: Seat, conn: ConnId, replaced: Option<Registration>, loaded: Presence, undoAt: int,
                     faults: Faults)
      returns (r: Result<bool, AttachError>)
      requires OwnsRowOnly(seat, conn)
      requires replaced.Some? ==> replaced.value.conn != conn && replaced.value.seat == seat
      modifies this
      ensures Valid()
      ensures r.Success? <==> FailureAfterAttach(seat.player in loaded.connected, faults).None?
      ensures r.Success? ==> r.value == (seat.player !in loaded.connected) && Established(seat, conn, r.value)
      ensures r.Failure? ==>
                && (r.error == RestoreFailed ||
                    Some(r.error) == FailureAfterAttach(seat.player in loaded.connected, faults))
                && Undone(seat, conn, loaded, r.error, faults)
      ensures r.Failure? && replaced.Some? && faults.UndoWorks() ==>
                RestoredIfPossible(seat, conn, replaced.value, undoAt)
      ensures r.Failure? && faults.UndoWorks() && EvictsOpen(old(registry), old(senders), seat) ==>
                var v, released := old(registry).bySeat[seat], old(store).Release(conn, id).0;
                v in registry.byId <==>
                  if replaced.Some?
                  then replaced == Some(Registration(seat, v, id)) && IsRestorable(released, replaced.value, undoAt)
                  else IsRestorable(released, Registration(seat, v, id), undoAt)
    {
      var wasConnected := seat.player in loaded.connected;
      var victim := AttachHere(seat, conn, replaced);
      var failure := FailureAfterAttach(wasConnected, faults);
      if failure.Some? {
        var ok := Undo(conn, victim, seat.code, loaded, undoAt, faults);
        return Failure(if ok then failure.value else RestoreFailed);
      }
      if !wasConnected {
        persisted := persisted[seat.code := sessions[seat.code]];
      }
      CommitAttach(seat, conn, replaced);
      return Success(!wasConnected);
    }

    /** A displaced connection of this replica whose sender is alive is seated again. */
    twostate predicate RestoredIfPossible(seat: Seat, conn: ConnId, replaced: Registration, undoAt: int)
      reads this
    {
      (replaced.replica == id && replaced.conn in old(senders)
       && IsRestorable(old(store).Release(conn, id).0, replaced, undoAt)) ==> IsSeated(replaced.conn, seat)
    }

    /** A connection with an open socket is in the local registry on this seat, so attaching evicts it. */
    static ghost predicate EvictsOpen(r: Registry, open: set<ConnId>, seat: Seat) {
      seat in r.bySeat && r.bySeat[seat] in open
    }

    /** What decides whether the undo seats an evicted local connection again.  If the store shows a live
    holder, the undo restores that holder and nobody else, so the evicted connection comes back only as
    that holder; if the store shows none, it comes back only if this replica had retired it before. */
    ghost predicate ComesBack(s: Store, seat: Seat, evicted: ConnId, now: int) {
      if HasLiveHolder(s, seat, now) then s.bySeat[seat] == evicted && s.rows[evicted].replica == id
      else evicted in s.retired && s.retired[evicted] == id
    }

    /** Claims the seat and attaches, or undoes it all. */
    method ClaimAndEstablish(seat: Seat, conn: ConnId, loaded: Presence, claimAt: int, undoAt: int, faults: Faults)
      returns (r: Result<bool, AttachError>)
      requires Valid() && IsNewConnection(conn) && seat.code in sessions
      modifies this
      ensures Valid()
      ensures r.Success? <==> faults.queueOk && FailureAfterAttach(seat.player in loaded.connected, faults).None?
      ensures r.Success? ==> r.value == (seat.player !in loaded.connected) && Established(seat, conn, r.value)
      ensures r.Failure? ==>
                && (r.error == RestoreFailed ||
                    Some(r.error) == if faults.queueOk then FailureAfterAttach(seat.player in loaded.connected, faults)
                                     else Some(ConnectionClosed))
                && Undone(seat, conn, loaded, r.error, faults)
      ensures r.Failure? && faults.UndoWorks() && HeldHere(old(store), seat, claimAt) ==>
                (old(store).bySeat[seat] in old(senders) ==> IsSeated(old(store).bySeat[seat], seat))
      ensures r.Failure? && faults.UndoWorks() && faults.queueOk && EvictsOpen(old(registry), old(senders), seat) ==>
                var v := old(registry).bySeat[seat];
                v in registry.byId <==> ComesBack(old(store), seat, v, claimAt)
    {
      var replaced := ClaimSeat(seat, conn, claimAt, undoAt);
      if !faults.queueOk {
        var ok := Undo(conn, replaced, seat.code, loaded, undoAt, faults);
        return Failure(if ok then ConnectionClosed else RestoreFailed);
      }
      r := Establish(seat, conn, replaced, loaded, undoAt, faults);
    }

    /** Reloads the session and marks the player connected; the result is the session as loaded. */
    method EnterSession(seat: Seat, now: int) returns (r: Result<Presence, AttachError>)
      modifies this`sessions
      ensures r == Failure(WorkshopNotFound) <==> seat.code !in persisted
      ensures r == Failure(InvalidIdentity) <==> seat.code in persisted && seat.player !in persisted[seat.code].players
      ensures r.Failure? ==> r.error in {WorkshopNotFound, InvalidIdentity}
      ensures r.Failure? && seat.code in persisted ==>
                sessions == old(sessions)[seat.code := Load(persisted[seat.code], store, seat.code, now)]
      ensures r.Success? ==>
                && r.value == Load(persisted[seat.code], store, seat.code, now) && seat.player in r.value.players
                && sessions == old(sessions)[seat.code := Entered(r.value, seat.player)]
    {
      var found := ReloadCachedSession(seat.code, now);
      if !found {
        return Failure(WorkshopNotFound);
      }
      var loaded := sessions[seat.code];
      if seat.player !in loaded.players {
        return Failure(InvalidIdentity);
      }
      sessions := sessions[seat.code := Entered(loaded, seat.player)];
      return Success(loaded);
    }

    /** What stops an attach, if anything does; a failing undo then reports its own error instead. */
    static ghost function FirstFailure(persisted: map<string, Presence>, s: Store, seat: Seat, now: int,
                                       faults: Faults): Option<AttachError> {
      if seat.code !in persisted then Some(WorkshopNotFound)
      else if seat.player !in persisted[seat.code].players then Some(InvalidIdentity)
      else if !faults.claimOk then Some(ClaimFailed)
      else if !faults.queueOk then Some(ConnectionClosed)
      else FailureAfterAttach(HasLiveRow(s, seat, now), faults)
    }

    /** Attaching a new connection.  The identity is authorised and the session lease is held; the three
    instants are those of the reload, of the claim and of the undo. */
    method AttachWsSession(seat: Seat, conn: ConnId, reloadAt: int, claimAt: int, undoAt: int, faults: Faults)
      returns (r: Result<bool, AttachError>)
      requires Valid() && IsNewConnection(conn) && reloadAt <= claimAt <= undoAt
      modifies this
      ensures Valid()
      ensures r.Success? <==> FirstFailure(old(persisted), old(store), seat, reloadAt, faults).None?
      ensures r.Failure? ==>
                Some(r.error) == FirstFailure(old(persisted), old(store), seat, reloadAt, faults)
                || (r.error == RestoreFailed && faults.claimOk && !faults.restoreOk)
      // All: the new connection is the only one of its seat, here and in the store.
      ensures r.Success? ==>
                && IsSeated(conn, seat) && conn in senders
                && (forall c :: c in registry.byId && registry.byId[c] == seat ==> c == conn)
                && (forall c :: c in store.rows && store.rows[c].seat == seat ==> c == conn)
      ensures r.Success? ==>
                var loaded := Load(old(persisted)[seat.code], old(store), seat.code, reloadAt);
                && r.value == (seat.player !in loaded.connected) && seat.player in loaded.players
                && sessions == old(sessions)[seat.code := Entered(loaded, seat.player)]
                && persisted == (if r.value then old(persisted)[seat.code := sessions[seat.code]] else old(persisted))
      // Nothing: the session is as loaded, nothing is saved, the new connection is gone.
      ensures r.Failure? ==>
                && persisted == old(persisted)
                && conn !in registry.byId && conn !in heartbeats && (faults.releaseOk ==> conn !in store.rows)
      ensures r.Failure? && r.error !in {WorkshopNotFound, InvalidIdentity} ==> conn !in senders
      ensures r.Failure? && r.error !in {WorkshopNotFound, RestoreFailed} ==>
                sessions == old(sessions)[seat.code := Load(old(persisted)[seat.code], old(store), seat.code, reloadAt)]
      // The live connection that the claim displaced is seated again.
      ensures r.Failure? && r.error in {ConnectionClosed, LeaseLost, SaveFailed} && faults.UndoWorks() ==>
                (HeldHere(old(store), seat, claimAt) && old(store).bySeat[seat] in old(senders) ==>
                   IsSeated(old(store).bySeat[seat], seat))
      // A connection with an open socket that the local registry gave up comes back in these cases only.
      ensures r.Failure? && r.error in {ConnectionClosed, LeaseLost, SaveFailed} && faults.UndoWorks() && faults.queueOk
                && EvictsOpen(old(registry), old(senders), seat) ==>
                var v := old(registry).bySeat[seat];
                && v in senders
                && (v in registry.byId <==> ComesBack(old(store), seat, v, claimAt))
      // A reconnect is saved only when nobody was connected: those undos have nobody live to restore.
      ensures r.Failure? && r.error in {LeaseLost, SaveFailed} ==> !HasLiveHolder(old(store), seat, claimAt)
    {
      var entry := EnterSession(seat, reloadAt);
      if entry.Failure? {
        return Failure(entry.error);
      }
      var loaded := entry.value;
      if !faults.claimOk {
        sessions := sessions[seat.code := loaded];
        senders := senders - {conn};
        return Failure(ClaimFailed);
      }
      r := ClaimAndEstablish(seat, conn, loaded, claimAt, undoAt, faults);
      if r.Failure? && r.error in {LeaseLost, SaveFailed} {
        NoLiveRowNoHolder(old(store), seat, reloadAt, claimAt);
      }
    }

    /** The seat is held by a live connection of this replica. */
    ghost predicate HeldHere(s: Store, seat: Seat, now: int) {
      HasLiveHolder(s, seat, now) && s.rows[s.bySeat[seat]].replica == id
    }
  }

  ghost predicate HasLiveHolder(s: Store, seat: Seat, now: int) {
    seat in s.bySeat && s.IsLive(s.bySeat[seat], now)
  }

  lemma NoLiveRowNoHolder(s: Store, seat: Seat, earlier: int, later: int)
    requires s.Consistent() && earlier <= later && !HasLiveRow(s, seat, earlier)
    ensures !HasLiveHolder(s, seat, later)
  {
    if HasLiveHolder(s, seat, later) {
      assert s.IsLive(s.bySeat[seat], earlier);
    }
  }

  /** The undo does not bring every evicted connection back: one whose row had expired, or whose seat
  another replica holds in the store, stays open and is in no registry. */
  method EvictedSocketIsForgotten(heldElsewhere: bool) returns (replica: Replica, r: Result<bool, AttachError>)
    ensures fresh(replica) && r == Failure(ConnectionClosed)
    ensures "old" in replica.senders && "old" !in replica.registry.byId
  {
    var seat := Seat("482913", "player");
    var registry := Registry(map["old" := seat], map[seat := "old"]);
    var store := if heldElsewhere
      then Store(map["other" := StoreRow(seat, "elsewhere", 20)], map[seat := "other"], map[])
      else Store(map["old" := StoreRow(seat, "here", 0)], map[seat := "old"], map[]);
    replica := new Replica("here", registry, store, {"old", "new"},
                           map[seat.code := Presence({seat.player}, {}, 0)]);
    r := replica.AttachWsSession(seat, "new", 20, 20, 21, Faults(true, true, false, true, true, true, true, false));
  }
}
