/** The write lease of one session code, over any number of replicas and tasks.

Every attempt has a lease id of its own.  The store keeps at most one row: the id that owns the lease
and the instant it expires.  An attempt that was granted is active until its guard is dropped or a
renewal fails.  `ExclusiveExactly` says for which timings at most one lease is ever active. */
module SessionLease {
  import opened Wrappers

  /** Milliseconds.  `rtt` bounds a store call, `late` how late a timer may fire. */
  datatype Timing = Timing(ttl: nat, rtt: nat, late: nat) {
    function RenewInterval(): nat {
      ttl / 2
    }

    predicate IsFastEnough() {
      2 * rtt + late < ttl - ttl / 2
    }
  }

  const SESSION_LEASE_TTL: nat := 5000
  const SESSION_LEASE_TIMEOUT: nat := 2000
  const SESSION_LEASE_RETRY_DELAY: nat := 25

  type LeaseId = nat

  datatype Row = Row(owner: LeaseId, expires: nat)

  /** Where one attempt stands.  `sent` is when its latest call left, which is also when the expiry it
  asks for was computed; `expires` is the expiry it last wrote. */
  datatype Phase =
    | Idle
    | Acquiring(sent: nat)
    | Answered(sent: nat, granted: bool)
    | Sleeping(since: nat, expires: nat)
    | Renewing(sent: nat, expires: nat)
    | Renewed(sent: nat, ok: bool)
    | Closed
  {
    /** The flag that handlers test before they write. */
    predicate IsActive() {
      Sleeping? || Renewing? || Renewed?
    }

    /** The instant by which the environment must have moved this attempt on. */
    function Deadline(timing: Timing): Option<nat> {
      match this
      case Idle => None
      case Closed => None
      case Acquiring(sent) => Some(sent + timing.rtt)
      case Answered(sent, _) => Some(sent + timing.rtt)
      case Sleeping(since, _) => Some(since + timing.RenewInterval() + timing.late)
      case Renewing(sent, _) => Some(sent + timing.rtt)
      case Renewed(sent, _) => Some(sent + timing.rtt)
    }
  }

  datatype State = State(now: nat, row: Option<Row>, attempts: map<LeaseId, Phase>) {
    function PhaseOf(id: LeaseId): Phase {
      if id in attempts then attempts[id] else Idle
    }

    function Put(id: LeaseId, phase: Phase): State {
      this.(attempts := attempts[id := phase])
    }

    /** The store grants a free row, an expired one, or the caller's own. */
    predicate Grants(id: LeaseId) {
      row.None? || row.value.owner == id || row.value.expires <= now
    }

    predicate Owns(id: LeaseId) {
      row.Some? && row.value.owner == id
    }
  }

  datatype Straggler = LateAcquire(expires: nat) | LateRenew(expires: nat) | LateRelease

  datatype Step =
    | Tick(elapsed: nat)
    | SendAcquire(id: LeaseId)
    | StoreAcquire(id: LeaseId)
    | ReceiveGrant(id: LeaseId)
    | AbandonAcquire(id: LeaseId)
    | TimerFires(id: LeaseId)
    | StoreRenew(id: LeaseId)
    | ReceiveRenewal(id: LeaseId, delivered: bool)
    | RenewalFails(id: LeaseId)
    | Drop(id: LeaseId)
    | StoreLate(id: LeaseId, call: Straggler)

  ghost predicate Enabled(timing: Timing, s: State, step: Step) {
    match step
    case Tick(elapsed) =>
      forall id :: id in s.attempts ==>
        var deadline := s.attempts[id].Deadline(timing);
        deadline.Some? ==> s.now + elapsed <= deadline.value
    case SendAcquire(id) => s.PhaseOf(id).Idle?
    case StoreAcquire(id) => s.PhaseOf(id).Acquiring?
    case ReceiveGrant(id) => s.PhaseOf(id).Answered?
    case AbandonAcquire(id) => s.PhaseOf(id).Idle? || s.PhaseOf(id).Acquiring? || s.PhaseOf(id).Answered?
    case TimerFires(id) =>
      s.PhaseOf(id).Sleeping? && s.PhaseOf(id).since + timing.RenewInterval() <= s.now
    case StoreRenew(id) => s.PhaseOf(id).Renewing?
    case ReceiveRenewal(id, _) => s.PhaseOf(id).Renewed?
    case RenewalFails(id) => s.PhaseOf(id).Renewing?
    case Drop(id) => s.PhaseOf(id).IsActive()
    case StoreLate(id, _) => s.PhaseOf(id).Closed?
  }

  /** A call of a closed attempt that reaches the store late. */
  function StoreLateCall(s: State, id: LeaseId, call: Straggler): State {
    match call
    case LateAcquire(expires) => if s.Grants(id) then s.(row := Some(Row(id, expires))) else s
    case LateRenew(expires) => if s.Owns(id) then s.(row := Some(Row(id, expires))) else s
    case LateRelease => if s.Owns(id) then s.(row := None) else s
  }

  ghost function Next(timing: Timing, s: State, step: Step): State
    requires Enabled(timing, s, step)
  {
    match step
    case Tick(elapsed) => s.(now := s.now + elapsed)
    case SendAcquire(id) => s.Put(id, Acquiring(s.now))
    case StoreAcquire(id) =>
      var sent := s.PhaseOf(id).sent;
      if s.Grants(id) then s.Put(id, Answered(sent, true)).(row := Some(Row(id, sent + timing.ttl)))
      else s.Put(id, Answered(sent, false))
    case ReceiveGrant(id) =>
      var answer := s.PhaseOf(id);
      s.Put(id, if answer.granted then Sleeping(s.now, answer.sent + timing.ttl) else Idle)
    case AbandonAcquire(id) => s.Put(id, Closed)
    case TimerFires(id) => s.Put(id, Renewing(s.now, s.PhaseOf(id).expires))
    case StoreRenew(id) =>
      var sent := s.PhaseOf(id).sent;
      if s.Owns(id) then s.Put(id, Renewed(sent, true)).(row := Some(Row(id, sent + timing.ttl)))
      else s.Put(id, Renewed(sent, false))
    case ReceiveRenewal(id, delivered) =>
      var answer := s.PhaseOf(id);
      s.Put(id, if answer.ok && delivered then Sleeping(s.now, answer.sent + timing.ttl) else Closed)
    case RenewalFails(id) => s.Put(id, Closed)
    case Drop(id) => s.Put(id, Closed)
    case StoreLate(id, call) => StoreLateCall(s, id, call)
  }

  // ---- Runs ----

  ghost predicate Runs(timing: Timing, s: State, steps: seq<Step>, t: State)
    decreases |steps|
  {
    if steps == [] then s == t
    else
      var before := steps[..|steps|-1];
      exists mid :: Runs(timing, s, before, mid) && Enabled(timing, mid, steps[|steps|-1])
                    && t == Next(timing, mid, steps[|steps|-1])
  }

  ghost predicate IsInitial(s: State) {
    s.row.None? && s.attempts == map[]
  }

  ghost predicate Reachable(timing: Timing, s: State) {
    exists start, steps :: IsInitial(start) && Runs(timing, start, steps, s)
  }

  ghost predicate Exclusive(s: State) {
    forall i, j :: s.PhaseOf(i).IsActive() && s.PhaseOf(j).IsActive() ==> i == j
  }

  // ---- Safety when the timing is fast enough ----

  /** What is known of one attempt: an active one owns the row, and the row has time left. */
  ghost predicate AttemptInv(timing: Timing, s: State, id: LeaseId) {
    match s.PhaseOf(id)
    case Idle => true
    case Closed => true
    case Acquiring(sent) => sent <= s.now <= sent + timing.rtt
    case Answered(sent, granted) =>
      && sent <= s.now <= sent + timing.rtt
      && (granted ==> s.row == Some(Row(id, sent + timing.ttl)))
    case Sleeping(since, expires) =>
      && since <= s.now <= since + timing.RenewInterval() + timing.late
      && since + timing.ttl <= expires + timing.rtt
      && s.row == Some(Row(id, expires))
    case Renewing(sent, expires) =>
      && sent <= s.now <= sent + timing.rtt
      && sent + timing.ttl <= expires + timing.rtt + timing.RenewInterval() + timing.late
      && s.row == Some(Row(id, expires))
    case Renewed(sent, ok) =>
      && sent <= s.now <= sent + timing.rtt
      && ok && s.row == Some(Row(id, sent + timing.ttl))
  }

  ghost predicate Inv(timing: Timing, s: State) {
    forall id :: AttemptInv(timing, s, id)
  }

  predicate HoldsRow(phase: Phase) {
    phase.IsActive() || (phase.Answered? && phase.granted)
  }

  /** Nobody else is granted the row while one attempt holds it. */
  lemma HolderKeepsOthersOut(timing: Timing, s: State, holder: LeaseId, other: LeaseId)
    requires timing.IsFastEnough() && Inv(timing, s)
    requires HoldsRow(s.PhaseOf(holder)) && other != holder
    ensures !s.Grants(other) && !s.Owns(other)
  {
    assert AttemptInv(timing, s, holder);
  }

  lemma StepKeepsOwnAttempt(timing: Timing, s: State, step: Step)
    requires timing.IsFastEnough() && Inv(timing, s) && Enabled(timing, s, step) && !step.Tick?
    ensures AttemptInv(timing, Next(timing, s, step), step.id)
  {
    assert AttemptInv(timing, s, step.id);
  }

  lemma StepKeepsOtherAttempt(timing: Timing, s: State, step: Step, id: LeaseId)
    requires timing.IsFastEnough() && Inv(timing, s) && Enabled(timing, s, step)
    requires step.Tick? || step.id != id
    ensures AttemptInv(timing, Next(timing, s, step), id)
  {
    assert AttemptInv(timing, s, id);
    assert Next(timing, s, step).PhaseOf(id) == s.PhaseOf(id);
    if !step.Tick? && HoldsRow(s.PhaseOf(id)) {
      HolderKeepsOthersOut(timing, s, id, step.id);
    }
  }

  lemma StepKeepsInv(timing: Timing, s: State, step: Step)
    requires timing.IsFastEnough() && Inv(timing, s) && Enabled(timing, s, step)
    ensures Inv(timing, Next(timing, s, step))
  {
    forall id
      ensures AttemptInv(timing, Next(timing, s, step), id)
    {
      if !step.Tick? && step.id == id {
        StepKeepsOwnAttempt(timing, s, step);
      } else {
        StepKeepsOtherAttempt(timing, s, step, id);
      }
    }
  }

  lemma {:induction false} RunKeepsInv(timing: Timing, s: State, steps: seq<Step>, t: State)
    requires timing.IsFastEnough() && IsInitial(s) && Runs(timing, s, steps, t)
    ensures Inv(timing, t)
    decreases |steps|
  {
    if steps != [] {
      var before := steps[..|steps|-1];
      var mid :| Runs(timing, s, before, mid) && Enabled(timing, mid, steps[|steps|-1])
                 && t == Next(timing, mid, steps[|steps|-1]);
      RunKeepsInv(timing, s, before, mid);
      StepKeepsInv(timing, mid, steps[|steps|-1]);
    }
  }

  lemma InvIsExclusive(timing: Timing, s: State)
    requires Inv(timing, s)
    ensures Exclusive(s)
  {
    forall i, j | s.PhaseOf(i).IsActive() && s.PhaseOf(j).IsActive()
      ensures i == j
    {
      assert AttemptInv(timing, s, i) && AttemptInv(timing, s, j);
    }
  }

  /** With a fast enough timing the store never refuses a renewal of an active lease. */
  lemma RenewalIsNeverRefused(timing: Timing, s: State, id: LeaseId)
    requires timing.IsFastEnough() && Reachable(timing, s) && s.PhaseOf(id).IsActive()
    ensures s.Owns(id) && s.now < s.row.value.expires
    ensures s.PhaseOf(id).Renewed? ==> s.PhaseOf(id).ok
  {
    var start, steps :| IsInitial(start) && Runs(timing, start, steps, s);
    RunKeepsInv(timing, start, steps, s);
    assert AttemptInv(timing, s, id);
  }

  // ---- A run with two active leases when it is not ----

  lemma StepStaysReachable(timing: Timing, s: State, step: Step)
    requires Reachable(timing, s) && Enabled(timing, s, step)
    ensures Reachable(timing, Next(timing, s, step))
  {
    var start, steps :| IsInitial(start) && Runs(timing, start, steps, s);
    var longer := steps + [step];
    assert longer[..|longer|-1] == steps;
    assert Runs(timing, start, longer, Next(timing, s, step));
  }

  /** Attempt 0 holds a row that has just run out; attempt 1 is granted it. */
  lemma SecondAttemptTakesOver(timing: Timing, s: State) returns (t: State)
    requires Reachable(timing, s) && s.PhaseOf(0).IsActive() && s.PhaseOf(1).Idle?
    requires s.row.Some? && s.row.value.expires <= s.now
    ensures Reachable(timing, t) && !Exclusive(t)
  {
    StepStaysReachable(timing, s, SendAcquire(1));
    var sent := Next(timing, s, SendAcquire(1));
    StepStaysReachable(timing, sent, StoreAcquire(1));
    var stored := Next(timing, sent, StoreAcquire(1));
    StepStaysReachable(timing, stored, ReceiveGrant(1));
    t := Next(timing, stored, ReceiveGrant(1));
    assert t.PhaseOf(0).IsActive() && t.PhaseOf(1).IsActive();
  }

  /** The first attempt is granted at 0 and hears of it after `delay`. */
  lemma FirstAttemptIsGranted(timing: Timing, delay: nat) returns (s: State)
    requires delay <= timing.rtt
    ensures Reachable(timing, s)
    ensures s == State(delay, Some(Row(0, timing.ttl)), map[0 := Sleeping(delay, timing.ttl)])
  {
    var start := State(0, None, map[]);
    assert Runs(timing, start, [], start);
    StepStaysReachable(timing, start, SendAcquire(0));
    var sent := Next(timing, start, SendAcquire(0));
    StepStaysReachable(timing, sent, StoreAcquire(0));
    var stored := Next(timing, sent, StoreAcquire(0));
    assert stored.attempts == map[0 := Answered(0, true)];
    StepStaysReachable(timing, stored, Tick(delay));
    var waited := Next(timing, stored, Tick(delay));
    StepStaysReachable(timing, waited, ReceiveGrant(0));
    s := Next(timing, waited, ReceiveGrant(0));
  }

  lemma SlowTimingBreaksExclusion(timing: Timing) returns (t: State)
    requires !timing.IsFastEnough()
    ensures Reachable(timing, t) && !Exclusive(t)
  {
    if timing.rtt >= timing.ttl {
      var s := FirstAttemptIsGranted(timing, timing.ttl);
      t := SecondAttemptTakesOver(timing, s);
      return;
    }
    var s := FirstAttemptIsGranted(timing, timing.rtt);
    var nap := timing.RenewInterval() + timing.late;
    if timing.rtt + nap >= timing.ttl {
      var tick := Tick(timing.ttl - timing.rtt);
      StepStaysReachable(timing, s, tick);
      t := SecondAttemptTakesOver(timing, Next(timing, s, tick));
      return;
    }
    StepStaysReachable(timing, s, Tick(nap));
    var woken := Next(timing, s, Tick(nap));
    StepStaysReachable(timing, woken, TimerFires(0));
    var renewing := Next(timing, woken, TimerFires(0));
    var tick := Tick(timing.ttl - renewing.now);
    StepStaysReachable(timing, renewing, tick);
    t := SecondAttemptTakesOver(timing, Next(timing, renewing, tick));
  }

  /** At most one lease is active in every reachable state exactly when twice the store round trip
  plus the timer lateness stays below the part of the lease that is left after a renewal interval. */
  lemma ExclusiveExactly(timing: Timing)
    ensures (forall s :: Reachable(timing, s) ==> Exclusive(s)) <==> timing.IsFastEnough()
  {
    if timing.IsFastEnough() {
      forall s | Reachable(timing, s)
        ensures Exclusive(s)
      {
        var start, steps :| IsInitial(start) && Runs(timing, start, steps, s);
        RunKeepsInv(timing, start, steps, s);
        InvIsExclusive(timing, s);
      }
    } else {
      var t := SlowTimingBreaksExclusion(timing);
    }
  }

  /** The deployed lease: five seconds, renewed every two and a half. */
  lemma DeployedLeaseIsExclusive(rtt: nat, late: nat, s: State)
    requires 2 * rtt + late < 2500 && Reachable(Timing(SESSION_LEASE_TTL, rtt, late), s)
    ensures Exclusive(s)
  {
    ExclusiveExactly(Timing(SESSION_LEASE_TTL, rtt, late));
  }

  // ---- The acquisition loop ----

  datatype StoreAnswer = Granted | Refused | Unavailable

  datatype AcquireError = LeaseTimeout | StoreFailed

  /** How the store answers the k-th call, how long that takes, and how much a pause overshoots. */
  datatype Environment = Environment(answer: nat -> StoreAnswer, latency: nat -> nat, oversleep: nat -> nat)

  /** When the answer to attempt `k` is compared with the deadline, counted from the start. */
  function CheckedAt(env: Environment, k: nat): (t: nat)
    ensures t >= SESSION_LEASE_RETRY_DELAY * k
  {
    if k == 0 then env.latency(0)
    else CheckedAt(env, k - 1) + SESSION_LEASE_RETRY_DELAY + env.oversleep(k - 1) + env.latency(k)
  }

  /** Attempt `k` was refused before the deadline, so another one follows. */
  ghost predicate IsRetried(env: Environment, k: nat) {
    env.answer(k).Refused? && CheckedAt(env, k) < SESSION_LEASE_TIMEOUT
  }

  /** Asks until the store grants, the store fails, or a refusal arrives past the deadline. */
  method Acquire(env: Environment, id: LeaseId) returns (r: Result<LeaseId, AcquireError>, attempts: nat)
    ensures 1 <= attempts <= 81
    ensures !IsRetried(env, attempts - 1) && forall k: nat :: k < attempts - 1 ==> IsRetried(env, k)
    ensures match env.answer(attempts - 1)
            case Granted => r == Success(id)
            case Unavailable => r == Failure(StoreFailed)
            case Refused => r == Failure(LeaseTimeout)
  {
    attempts := 0;
    var now := 0;
    while true
      invariant attempts <= 80 && now + env.latency(attempts) == CheckedAt(env, attempts)
      invariant forall k: nat :: k < attempts ==> IsRetried(env, k)
      decreases 80 - attempts
    {
      var answer := env.answer(attempts);
      now := now + env.latency(attempts);
      attempts := attempts + 1;
      match answer {
        case Granted => return Success(id), attempts;
        case Unavailable => return Failure(StoreFailed), attempts;
        case Refused =>
      }
      if now >= SESSION_LEASE_TIMEOUT {
        return Failure(LeaseTimeout), attempts;
      }
      now := now + SESSION_LEASE_RETRY_DELAY + env.oversleep(attempts - 1);
    }
  }

  /** The bound of 81 is met: a store that refuses at once is asked exactly that often. */
  lemma InstantRefusalsReachTheBound(env: Environment, k: nat)
    requires forall j: nat :: env.latency(j) == 0 && env.oversleep(j) == 0
    ensures CheckedAt(env, k) < SESSION_LEASE_TIMEOUT <==> k < 80
  {
    ZeroEnvironmentClock(env, k);
  }

  lemma {:induction false} ZeroEnvironmentClock(env: Environment, k: nat)
    requires forall j: nat :: env.latency(j) == 0 && env.oversleep(j) == 0
    ensures CheckedAt(env, k) == SESSION_LEASE_RETRY_DELAY * k
  {
    if k > 0 {
      ZeroEnvironmentClock(env, k - 1);
    }
  }
}
