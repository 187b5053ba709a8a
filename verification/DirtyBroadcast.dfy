/** Debounced broadcasts: marking a session dirty, and draining the dirty set later.

A mark inserts the code under the lock and notes whether the set was empty; only then it spawns a
delayed drain, outside the lock.  A drain takes the whole set at once and broadcasts code by code,
reading each session when its turn comes. */
module DirtyBroadcast {

  type Code = string

  /** A mark or a broadcast, with the instant of the insertion or of the snapshot. */
  datatype Note = Note(code: Code, at: nat)

  /** `spawning` counts marks that have decided to schedule a drain but have not spawned it, `sleeping`
  drains that wait, `running` the drains at work and `sending` what each still has to send; the rest is
  history. */
  datatype State = State(clock: nat, dirty: set<Code>, spawning: nat, sleeping: nat,
                         running: set<nat>, sending: set<(nat, Code)>,
                         marks: set<Note>, broadcasts: set<Note>, markCount: nat, drainCount: nat)

  datatype Step = Mark(code: Code) | Spawn | Take(drain: nat) | Broadcast(drain: nat, code: Code) | Finish(drain: nat)

  function Jobs(drain: nat, codes: set<Code>): set<(nat, Code)> {
    set c | c in codes :: (drain, c)
  }

  predicate Enabled(s: State, step: Step) {
    match step
    case Mark(_) => true
    case Spawn => s.spawning > 0
    case Take(drain) => s.sleeping > 0 && drain !in s.running
    case Broadcast(drain, code) => (drain, code) in s.sending
    case Finish(drain) => drain in s.running && forall job :: job in s.sending ==> job.0 != drain
  }

  function Next(s: State, step: Step): State
    requires Enabled(s, step)
  {
    var now := s.clock + 1;
    match step
    case Mark(code) =>
      s.(clock := now, dirty := s.dirty + {code}, spawning := s.spawning + (if s.dirty == {} then 1 else 0),
         marks := s.marks + {Note(code, now)}, markCount := s.markCount + 1)
    case Spawn => s.(clock := now, spawning := s.spawning - 1, sleeping := s.sleeping + 1)
    case Take(drain) =>
      s.(clock := now, dirty := {}, sleeping := s.sleeping - 1,
         running := s.running + {drain}, sending := s.sending + Jobs(drain, s.dirty),
         drainCount := s.drainCount + 1)
    case Broadcast(drain, code) =>
      s.(clock := now, sending := s.sending - {(drain, code)},
         broadcasts := s.broadcasts + {Note(code, now)})
    case Finish(drain) => s.(clock := now, running := s.running - {drain})
  }

  predicate IsInitial(s: State) {
    s == State(s.clock, {}, 0, 0, {}, {}, {}, {}, 0, 0)
  }

  ghost predicate IsRun(run: seq<State>, steps: seq<Step>) {
    && |run| == |steps| + 1 && IsInitial(run[0])
    && forall i {:trigger steps[i]} :: 0 <= i < |steps| ==>
         Enabled(run[i], steps[i]) && run[i+1] == Next(run[i], steps[i])
  }

  /** A mark is still to be sent, or was sent from a snapshot read after it. */
  ghost predicate IsCovered(s: State, mark: Note) {
    || mark.code in s.dirty
    || (exists drain :: (drain, mark.code) in s.sending)
    || IsSent(s, mark)
  }

  /** Exactly one drain is scheduled while something is dirty, and none otherwise. */
  ghost predicate Inv(s: State) {
    && (s.dirty != {} <==> s.spawning + s.sleeping == 1)
    && s.spawning + s.sleeping <= 1
    && s.drainCount + s.spawning + s.sleeping <= s.markCount
    && (forall mark :: mark in s.marks ==> mark.at <= s.clock && IsCovered(s, mark))
    && (forall job :: job in s.sending ==> job.0 in s.running)
  }

  lemma StepKeepsInv(s: State, step: Step)
    requires Inv(s) && Enabled(s, step)
    ensures Inv(Next(s, step))
  {
    var t := Next(s, step);
    forall mark | mark in t.marks
      ensures IsCovered(t, mark)
    {
      if mark in s.marks && IsCovered(s, mark) {
        StepKeepsCover(s, step, mark);
      }
    }
  }

  lemma StepKeepsCover(s: State, step: Step, mark: Note)
    requires Enabled(s, step) && mark.at <= s.clock && IsCovered(s, mark)
    ensures IsCovered(Next(s, step), mark)
  {
    var t := Next(s, step);
    if sent :| sent in s.broadcasts && sent.code == mark.code && sent.at > mark.at {
      assert sent in t.broadcasts;
    } else if drain :| (drain, mark.code) in s.sending {
      if step == Broadcast(drain, mark.code) {
        assert Note(mark.code, t.clock) in t.broadcasts;
      } else {
        assert (drain, mark.code) in t.sending;
      }
    } else if step.Take? {
      assert (step.drain, mark.code) in t.sending;
    }
  }

  lemma {:induction false} RunKeepsInv(run: seq<State>, steps: seq<Step>, i: nat)
    requires IsRun(run, steps) && i <= |steps|
    ensures Inv(run[i])
  {
    if i > 0 {
      RunKeepsInv(run, steps, i - 1);
      StepKeepsInv(run[i-1], steps[i-1]);
    }
  }

  predicate IsQuiet(s: State) {
    s.spawning == 0 && s.sleeping == 0 && s.running == {}
  }

  /** The mark was followed by a broadcast of its code whose snapshot was read after it. */
  predicate IsSent(s: State, mark: Note) {
    exists sent :: sent in s.broadcasts && sent.code == mark.code && sent.at > mark.at
  }

  lemma QuietMarksAreSent(s: State)
    requires Inv(s) && IsQuiet(s)
    ensures forall mark :: mark in s.marks ==> IsSent(s, mark)
  {
    forall mark | mark in s.marks
      ensures IsSent(s, mark)
    {
      assert IsCovered(s, mark);
    }
  }

  /** No lost broadcast: in every reachable state something is dirty exactly when one drain is scheduled
  that has not taken it, drains never outnumber marks, and once every spawned drain has finished, each
  mark has been followed by a broadcast of its code whose snapshot was read after it. */
  lemma NoMarkIsLost(run: seq<State>, steps: seq<Step>, i: nat)
    requires IsRun(run, steps) && i <= |steps|
    ensures run[i].dirty != {} <==> run[i].spawning + run[i].sleeping == 1
    ensures run[i].spawning + run[i].sleeping <= 1 && run[i].drainCount <= run[i].markCount
    ensures IsQuiet(run[i]) ==> forall mark :: mark in run[i].marks ==> IsSent(run[i], mark)
  {
    RunKeepsInv(run, steps, i);
    if IsQuiet(run[i]) {
      QuietMarksAreSent(run[i]);
    }
  }

  // ---- Drains come to rest ----

  function RemainingWork(s: State): nat {
    3 * s.spawning + 2 * s.sleeping + |s.dirty| + |s.running| + |s.sending|
  }

  lemma {:induction false} OneJobPerCode(drain: nat, codes: set<Code>)
    ensures |Jobs(drain, codes)| == |codes|
  {
    if c :| c in codes {
      OneJobPerCode(drain, codes - {c});
      assert Jobs(drain, codes) == Jobs(drain, codes - {c}) + {(drain, c)};
    }
  }

  lemma WorkShrinks(s: State, step: Step)
    requires Inv(s) && Enabled(s, step) && !step.Mark?
    ensures RemainingWork(Next(s, step)) < RemainingWork(s)
  {
    if step.Take? {
      OneJobPerCode(step.drain, s.dirty);
      assert s.sending !! Jobs(step.drain, s.dirty);
    }
  }

  lemma UnusedDrain(running: set<nat>) returns (drain: nat)
    ensures drain !in running
  {
    drain := 0;
    var seen := {};
    while drain in running
      invariant seen <= running && forall d :: d in seen <==> 0 <= d < drain
      decreases running - seen
    {
      seen := seen + {drain};
      drain := drain + 1;
    }
  }

  /** While the state is not quiet some step other than a mark can be taken. */
  lemma WorkCanGoOn(s: State) returns (step: Step)
    requires Inv(s) && !IsQuiet(s)
    ensures Enabled(s, step) && !step.Mark?
  {
    if s.spawning > 0 {
      step := Spawn;
    } else if s.sleeping > 0 {
      var drain := UnusedDrain(s.running);
      step := Take(drain);
    } else if job :| job in s.sending {
      step := Broadcast(job.0, job.1);
    } else {
      var drain :| drain in s.running;
      step := Finish(drain);
    }
  }

  /** Some step other than a mark leads from one state to the other. */
  ghost predicate IsWorkStep(s: State, t: State) {
    exists step: Step :: !step.Mark? && Enabled(s, step) && t == Next(s, step)
  }

  ghost predicate WorksAt(run: seq<State>, i: nat) {
    i < |run| - 1 && IsWorkStep(run[i], run[i+1])
  }

  /** A stretch of a run without marks, in any order of its steps. */
  ghost predicate IsWorkRun(run: seq<State>) {
    |run| > 0 && forall i {:trigger WorksAt(run, i)} :: 0 <= i < |run| - 1 ==> WorksAt(run, i)
  }

  lemma WorkStepShrinks(s: State, t: State)
    requires Inv(s) && IsWorkStep(s, t)
    ensures Inv(t) && t.marks == s.marks && RemainingWork(t) < RemainingWork(s)
  {
    var step: Step :| !step.Mark? && Enabled(s, step) && t == Next(s, step);
    WorkShrinks(s, step);
    StepKeepsInv(s, step);
  }

  lemma {:induction false} WorkRunShrinks(run: seq<State>, k: nat)
    requires IsWorkRun(run) && Inv(run[0]) && k < |run|
    ensures Inv(run[k]) && run[k].marks == run[0].marks
    ensures RemainingWork(run[k]) + k <= RemainingWork(run[0])
  {
    if k > 0 {
      WorkRunShrinks(run, k - 1);
      assert WorksAt(run, k - 1);
      WorkStepShrinks(run[k-1], run[k]);
    }
  }

  lemma QuietHasNoWork(s: State)
    requires Inv(s)
    ensures IsQuiet(s) <==> forall t :: !IsWorkStep(s, t)
  {
    if IsQuiet(s) {
      assert s.sending == {};
    } else {
      var step := WorkCanGoOn(s);
      assert IsWorkStep(s, Next(s, step));
    }
  }

  /** Left alone, the spawned drains finish: whatever the order of their steps there are at most so many,
  they can go on exactly until all is quiet, and then every mark was followed by a broadcast. */
  lemma DrainsComeToRest(run: seq<State>)
    requires IsWorkRun(run) && Inv(run[0])
    ensures |run| - 1 <= RemainingWork(run[0])
    ensures var last := run[|run|-1];
            && (IsQuiet(last) <==> forall t :: !IsWorkStep(last, t))
            && (IsQuiet(last) ==> forall mark :: mark in run[0].marks ==> IsSent(last, mark))
  {
    var last := run[|run|-1];
    WorkRunShrinks(run, |run| - 1);
    QuietHasNoWork(last);
    if IsQuiet(last) {
      QuietMarksAreSent(last);
    }
  }

  // ---- The two operations in place ----

  /** The dirty set, the stored and the cached version of each session, and what was sent, in order. */
  class Broadcaster {
    var dirty: set<Code>
    const store: map<Code, nat>
    var sessions: map<Code, nat>
    var sent: seq<(Code, nat)>

    constructor (store: map<Code, nat>, sessions: map<Code, nat>)
      ensures dirty == {} && this.store == store && this.sessions == sessions && sent == []
    {
      this.dirty, this.store, this.sessions, this.sent := {}, store, sessions, [];
    }

    method MarkSessionDirty(code: Code) returns (shouldScheduleDrain: bool)
      modifies this`dirty
      ensures dirty == old(dirty) + {code}
      ensures shouldScheduleDrain <==> old(dirty) == {}
    {
      shouldScheduleDrain := dirty == {};
      dirty := dirty + {code};
    }

    /** Keeps a cached session as it is and loads another one, if it is stored and can be read. */
    method EnsureSessionCached(code: Code, readable: bool) returns (isCached: bool)
      modifies this`sessions
      ensures isCached <==> code in old(sessions) || (code in store && readable)
      ensures sessions == if isCached && code !in old(sessions) then old(sessions)[code := store[code]]
                          else old(sessions)
    {
      isCached := code in sessions;
      if !isCached && code in store && readable {
        sessions := sessions[code := store[code]];
        isCached := true;
      }
    }

    /** Sends a session as it is cached, or else as it can be loaded. */
    method BroadcastSessionState(code: Code, readable: bool)
      modifies this`sessions, this`sent
      ensures sessions == WithLoaded(store, old(sessions), {code}, if readable then {} else {code})
      ensures sent == if code in sessions then old(sent) + [(code, sessions[code])] else old(sent)
    {
      var isCached := EnsureSessionCached(code, readable);
      if isCached {
        sent := sent + [(code, sessions[code])];
      }
    }

    /** Sends every dirty session once.  One that is neither cached nor stored, or cannot be read, is dropped. */
    method DrainDirtySessionsOnce(unreadable: set<Code>)
      modifies this`dirty, this`sessions, this`sent
      ensures dirty == {}
      ensures sessions == WithLoaded(store, old(sessions), old(dirty), unreadable)
      ensures old(sent) <= sent && IsBatch(sent[|old(sent)|..], old(dirty), sessions)
    {
      var codes := dirty;
      dirty := {};
      ghost var done: set<Code>, batch: seq<(Code, nat)> := {}, [];
      while codes != {}
        invariant dirty == {} && done + codes == old(dirty) && done !! codes && sent == old(sent) + batch
        invariant sessions == WithLoaded(store, old(sessions), done, unreadable)
        invariant IsBatch(batch, done, sessions)
      {
        var code :| code in codes;
        codes := codes - {code};
        ghost var before := sessions;
        BroadcastSessionState(code, code !in unreadable);
        LoadedOneByOne(store, old(sessions), done, code, unreadable);
        BatchGrows(batch, done, before, sessions, code);
        batch := if code in sessions then batch + [(code, sessions[code])] else batch;
        done := done + {code};
      }
      assert done == old(dirty) && sent[|old(sent)|..] == batch;
    }
  }

  /** What is cached once these sessions were looked up: what was, and what could be loaded. */
  function WithLoaded(store: map<Code, nat>, cached: map<Code, nat>, codes: set<Code>, unreadable: set<Code>)
    : map<Code, nat>
  {
    (map c | c in codes && c in store && c !in unreadable :: store[c]) + cached
  }

  lemma LoadedOneByOne(store: map<Code, nat>, cached: map<Code, nat>, codes: set<Code>, code: Code,
                       unreadable: set<Code>)
    ensures WithLoaded(store, WithLoaded(store, cached, codes, unreadable), {code},
                       if code in unreadable then {code} else {})
            == WithLoaded(store, cached, codes + {code}, unreadable)
  {
  }

  /** Each of these sessions that is cached is sent once, at its cached version, and nothing else is. */
  ghost predicate IsBatch(batch: seq<(Code, nat)>, codes: set<Code>, sessions: map<Code, nat>) {
    && (forall i, j :: 0 <= i < j < |batch| ==> batch[i].0 != batch[j].0)
    && (forall code, version :: (code, version) in batch <==>
          code in codes && code in sessions && version == sessions[code])
  }

  lemma BatchGrows(batch: seq<(Code, nat)>, codes: set<Code>, before: map<Code, nat>, after: map<Code, nat>,
                   code: Code)
    requires IsBatch(batch, codes, before) && code !in codes
    requires forall c :: c in codes ==> (c in before <==> c in after) && (c in before ==> before[c] == after[c])
    ensures IsBatch(if code in after then batch + [(code, after[code])] else batch, codes + {code}, after)
  {
    forall i | 0 <= i < |batch| ensures batch[i].0 in codes {
      assert (batch[i].0, batch[i].1) in batch;
    }
  }
}
