/** The two tables of websocket connections: the registry of one replica, and the shared store.

Each keeps a map from connections to seats and one from seats to connections.  `Consistent` says that
the two are inverse, so that a seat has at most one connection; the lemmas say which operations keep
it and what each does to the connections. */
module Connections {
  import opened Wrappers

  type ConnId = string
  type ReplicaId = string

  datatype Seat = Seat(code: string, player: string)

  function Lookup<K, V>(m: map<K, V>, k: K): Option<V> {
    if k in m then Some(m[k]) else None
  }

  // ---- The registry of one replica ----

  datatype Registry = Registry(byId: map<ConnId, Seat>, bySeat: map<Seat, ConnId>) {
    ghost predicate Consistent() {
      && (forall c :: c in byId ==> byId[c] in bySeat && bySeat[byId[c]] == c)
      && (forall s :: s in bySeat ==> bySeat[s] in byId && byId[bySeat[s]] == s)
    }

    /** Seats a connection; the second result is the connection it displaced. */
    function Attach(seat: Seat, conn: ConnId): (Registry, Option<ConnId>) {
      var seats := if conn in byId && byId[conn] != seat then bySeat - {byId[conn]} else bySeat;
      var previous := Lookup(seats, seat);
      var ids := if previous.Some? then byId - {previous.value} else byId;
      (Registry(ids[conn := seat], seats[seat := conn]),
       if previous == Some(conn) then None else previous)
    }

    function Detach(conn: ConnId): Registry {
      if conn in byId then Registry(byId - {conn}, bySeat - {byId[conn]}) else this
    }
  }

  /** Attaching seats the connection, unseats the seat's previous holder, and touches nobody else. */
  lemma AttachIsExclusive(r: Registry, seat: Seat, conn: ConnId)
    requires r.Consistent()
    ensures var (t, displaced) := r.Attach(seat, conn);
            && t.Consistent()
            && t.byId == (map c | c in r.byId && r.byId[c] != seat :: r.byId[c])[conn := seat]
            && displaced == (if seat in r.bySeat && r.bySeat[seat] != conn then Some(r.bySeat[seat]) else None)
  {
    var (t, displaced) := r.Attach(seat, conn);
    var others := map c | c in r.byId && r.byId[c] != seat :: r.byId[c];
    forall c ensures c in t.byId <==> c in others[conn := seat] {
      if c in r.byId && c != conn {
        assert r.byId[c] in r.bySeat && r.bySeat[r.byId[c]] == c;
      }
    }
    assert t.byId == others[conn := seat];
    forall c | c in t.byId ensures t.byId[c] in t.bySeat && t.bySeat[t.byId[c]] == c {
      if c != conn {
        assert r.byId[c] in r.bySeat && r.bySeat[r.byId[c]] == c;
      }
    }
  }

  lemma DetachForgets(r: Registry, conn: ConnId)
    requires r.Consistent()
    ensures r.Detach(conn).Consistent() && r.Detach(conn).byId == r.byId - {conn}
  {
  }

  // ---- The store that all replicas share ----

  const REALTIME_CONNECTION_TTL_SECONDS: int := 15

  datatype Registration = Registration(seat: Seat, conn: ConnId, replica: ReplicaId)

  datatype StoreRow = StoreRow(seat: Seat, replica: ReplicaId, updatedAt: int)

  datatype ClaimError = RetiredConnection

  datatype Store = Store(rows: map<ConnId, StoreRow>, bySeat: map<Seat, ConnId>,
                         retired: map<ConnId, ReplicaId>) {
    ghost predicate Consistent() {
      && (forall c :: c in rows ==> rows[c].seat in bySeat && bySeat[rows[c].seat] == c)
      && (forall s :: s in bySeat ==> bySeat[s] in rows && rows[bySeat[s]].seat == s)
    }

    function RowsElsewhere(seat: Seat): map<ConnId, StoreRow> {
      map c | c in rows && rows[c].seat != seat :: rows[c]
    }

    predicate IsLive(conn: ConnId, now: int) {
      conn in rows && rows[conn].updatedAt > now - REALTIME_CONNECTION_TTL_SECONDS
    }

    /** Forgets the rows whose heartbeat is too old. */
    function DropStale(now: int): Store {
      var stale := set c | c in rows && !IsLive(c, now);
      var staleSeats := set c | c in stale :: rows[c].seat;
      this.(rows := rows - stale, bySeat := bySeat - staleSeats)
    }

    /** Writes the row of a connection; the seat's previous holder is retired. */
    function Put(r: Registration, now: int): (Store, Option<Registration>) {
      var seats := if r.conn in rows && rows[r.conn].seat != r.seat then bySeat - {rows[r.conn].seat} else bySeat;
      var previous := Lookup(seats, r.seat);
      var replaced :=
        if previous.Some? && previous.value != r.conn && previous.value in rows
        then Some(Registration(rows[previous.value].seat, previous.value, rows[previous.value].replica))
        else None;
      var kept := if replaced.Some? then rows - {replaced.value.conn} else rows;
      (Store(kept[r.conn := StoreRow(r.seat, r.replica, now)], seats[r.seat := r.conn],
             if replaced.Some? then retired[replaced.value.conn := replaced.value.replica] else retired),
       replaced)
    }

    function Claim(r: Registration, now: int): Result<(Store, Option<Registration>), ClaimError> {
      var pruned := DropStale(now);
      if r.conn in pruned.retired then Failure(RetiredConnection) else Success(pruned.Put(r, now))
    }

    /** Gives a retired connection its row back, unless somebody else holds the seat. */
    function Restore(r: Registration, now: int): (Store, bool) {
      var pruned := DropStale(now);
      var current := Lookup(pruned.bySeat, r.seat);
      if current.Some? && current.value != r.conn then (pruned, false)
      else if Lookup(pruned.retired, r.conn) != Some(r.replica) then (pruned, false)
      else (pruned.(retired := pruned.retired - {r.conn}).Put(r, now).0, true)
    }

    function Release(conn: ConnId, replica: ReplicaId): (Store, Option<Registration>) {
      if conn !in rows then (this, None)
      else if rows[conn].replica != replica then (this.(rows := rows - {conn}), None)
      else (this.(rows := rows - {conn}, bySeat := bySeat - {rows[conn].seat}),
            Some(Registration(rows[conn].seat, conn, replica)))
    }

    function TakeRetired(conn: ConnId, replica: ReplicaId): (Store, bool) {
      if Lookup(retired, conn) == Some(replica) then (this.(retired := retired - {conn}), true)
      else (this, false)
    }
  }

  lemma DropStaleForgetsTheStale(s: Store, now: int)
    requires s.Consistent()
    ensures s.DropStale(now).Consistent() && s.DropStale(now).retired == s.retired
    ensures s.DropStale(now).rows == map c | c in s.rows && s.IsLive(c, now) :: s.rows[c]
  {
    var t := s.DropStale(now);
    var stale := set c | c in s.rows && !s.IsLive(c, now);
    forall c | c in t.rows
      ensures t.rows[c].seat in t.bySeat && t.bySeat[t.rows[c].seat] == c
    {
    }
    forall seat | seat in t.bySeat
      ensures t.bySeat[seat] in t.rows && t.rows[t.bySeat[seat]].seat == seat
    {
      assert s.rows[s.bySeat[seat]].seat == seat;
    }
  }

  lemma PutKeepsConsistency(s: Store, r: Registration, now: int)
    requires s.Consistent()
    ensures s.Put(r, now).0.Consistent()
  {
    var t := s.Put(r, now).0;
    forall c | c in t.rows
      ensures t.rows[c].seat in t.bySeat && t.bySeat[t.rows[c].seat] == c
    {
      assert c == r.conn || (c in s.rows && t.rows[c] == s.rows[c]);
    }
    forall seat | seat in t.bySeat
      ensures t.bySeat[seat] in t.rows && t.rows[t.bySeat[seat]].seat == seat
    {
      assert seat == r.seat || (seat in s.bySeat && t.bySeat[seat] == s.bySeat[seat]);
    }
  }

  lemma PutIsExclusive(s: Store, r: Registration, now: int)
    requires s.Consistent()
    ensures var (t, replaced) := s.Put(r, now);
            && t.Consistent()
            && t.rows == s.RowsElsewhere(r.seat)[r.conn := StoreRow(r.seat, r.replica, now)]
            && if r.seat in s.bySeat && s.bySeat[r.seat] != r.conn then
                 var c := s.bySeat[r.seat];
                 && replaced == Some(Registration(r.seat, c, s.rows[c].replica))
                 && t.retired == s.retired[c := s.rows[c].replica]
               else replaced.None? && t.retired == s.retired
  {
    PutKeepsConsistency(s, r, now);
    var t := s.Put(r, now).0;
    forall c
      ensures c in t.rows <==> c == r.conn || (c in s.rows && s.rows[c].seat != r.seat)
    {
    }
  }

  /** A release keeps the two tables inverse exactly when the row is the caller's own, or absent. */
  lemma ReleaseKeepsConsistencyExactly(s: Store, conn: ConnId, replica: ReplicaId)
    requires s.Consistent()
    ensures s.Release(conn, replica).0.Consistent() <==> conn !in s.rows || s.rows[conn].replica == replica
    ensures s.Release(conn, replica).0.rows == s.rows - {conn}
    ensures s.Release(conn, replica).0.retired == s.retired
    ensures s.Release(conn, replica).1.Some? <==> conn in s.rows && s.rows[conn].replica == replica
  {
    if conn in s.rows && s.rows[conn].replica != replica {
      var t := s.Release(conn, replica).0;
      assert s.rows[conn].seat in t.bySeat && t.bySeat[s.rows[conn].seat] !in t.rows;
    }
  }

  /** What a claim does: the seat's live holder is retired, every stale row goes, the rest stays. */
  lemma ClaimTakesTheSeat(s: Store, r: Registration, now: int)
    requires s.Consistent() && r.conn !in s.retired
    ensures s.Claim(r, now).Success?
    ensures var (t, replaced) := s.Claim(r, now).value;
            && t.Consistent()
            && t.rows == s.DropStale(now).RowsElsewhere(r.seat)[r.conn := StoreRow(r.seat, r.replica, now)]
            && if r.seat in s.bySeat && s.bySeat[r.seat] != r.conn && s.IsLive(s.bySeat[r.seat], now) then
                 var c := s.bySeat[r.seat];
                 && replaced == Some(Registration(r.seat, c, s.rows[c].replica))
                 && t.retired == s.retired[c := s.rows[c].replica]
               else replaced.None? && t.retired == s.retired
  {
    DropStaleForgetsTheStale(s, now);
    PutIsExclusive(s.DropStale(now), r, now);
    SeatAfterDropStale(s, r.seat, now);
  }

  lemma SeatAfterDropStale(s: Store, seat: Seat, now: int)
    requires s.Consistent()
    ensures seat in s.DropStale(now).bySeat <==> seat in s.bySeat && s.IsLive(s.bySeat[seat], now)
    ensures seat in s.DropStale(now).bySeat ==> s.DropStale(now).bySeat[seat] == s.bySeat[seat]
  {
    DropStaleForgetsTheStale(s, now);
    if seat in s.bySeat && s.IsLive(s.bySeat[seat], now) {
      assert s.bySeat[seat] in s.DropStale(now).rows;
    }
  }

  /** The connection is retired by its own replica and no other live connection holds the seat. */
  ghost predicate IsRestorable(s: Store, r: Registration, now: int) {
    && r.conn in s.retired && s.retired[r.conn] == r.replica
    && (r.seat in s.bySeat && s.IsLive(s.bySeat[r.seat], now) ==> s.bySeat[r.seat] == r.conn)
  }

  /** What a restore does: it succeeds exactly when the connection is restorable. */
  lemma RestoreGivesTheSeatBack(s: Store, r: Registration, now: int)
    requires s.Consistent()
    ensures var (t, restored) := s.Restore(r, now);
            && t.Consistent()
            && (restored <==> IsRestorable(s, r, now))
            && (restored ==> r.conn in t.rows && t.rows[r.conn] == StoreRow(r.seat, r.replica, now)
                             && t.retired == s.retired - {r.conn})
            && (!restored ==> t.retired == s.retired)
            && (forall c :: c != r.conn ==> (c in t.rows <==> c in s.rows && s.IsLive(c, now)))
            && (forall c :: c != r.conn && c in t.rows ==> t.rows[c] == s.rows[c])
  {
    var pruned := s.DropStale(now);
    DropStaleForgetsTheStale(s, now);
    SeatAfterDropStale(s, r.seat, now);
    PutIsExclusive(pruned.(retired := pruned.retired - {r.conn}), r, now);
  }

  /** Releasing a claim makes the connection it displaced restorable; when it displaced none, a
  connection is restorable exactly when its own replica had retired it before. */
  lemma ReleasedClaimIsUndoable(s: Store, r: Registration, claimAt: int, v: Registration, undoAt: int)
    requires s.Consistent() && r.conn !in s.retired && v.seat == r.seat && v.conn != r.conn
    ensures s.Claim(r, claimAt).Success?
    ensures var (t, replaced) := s.Claim(r, claimAt).value;
            var released := t.Release(r.conn, r.replica).0;
            IsRestorable(released, v, undoAt) <==>
              if replaced.Some? && replaced.value.conn == v.conn then replaced.value.replica == v.replica
              else v.conn in s.retired && s.retired[v.conn] == v.replica
  {
    ClaimTakesTheSeat(s, r, claimAt);
  }
}
