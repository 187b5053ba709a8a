/** Counting votes twice: what each client is shown, and what the judge's bundle holds. */
module Voting {
  import opened SessionCommit
  import opened Workshop
  import opened Wrappers

  datatype VoteResult = VoteResult(dragon: string, votes: nat)

  datatype VotingView = VotingView(eligibleCount: nat, submittedCount: nat, ownVote: Option<string>,
                                   revealed: bool, results: Option<seq<VoteResult>>)

  // ----- Counting -----

  ghost function Voters(votes: map<string, string>, dragon: string): set<string> {
    set p | p in votes && votes[p] == dragon
  }

  function CountIn(counts: map<string, nat>, dragon: string): nat {
    if dragon in counts then counts[dragon] else 0
  }

  ghost function VotersOutside(votes: map<string, string>, rest: set<string>, dragon: string): set<string> {
    set p | p in votes && p !in rest && votes[p] == dragon
  }

  /** The counts are right for the votes outside `rest`. */
  ghost predicate HasCounted(votes: map<string, string>, rest: set<string>, counts: map<string, nat>) {
    && (forall dragon :: CountIn(counts, dragon) == |VotersOutside(votes, rest, dragon)|)
    && (forall p :: p in votes && p !in rest ==> votes[p] in counts)
    && (forall dragon :: dragon in counts ==> counts[dragon] > 0)
  }

  lemma OneVoteMore(votes: map<string, string>, rest: set<string>, p: string, dragon: string)
    requires p in rest && p in votes
    ensures |VotersOutside(votes, rest - {p}, dragon)|
         == |VotersOutside(votes, rest, dragon)| + (if dragon == votes[p] then 1 else 0)
  {
    var before, after := VotersOutside(votes, rest, dragon), VotersOutside(votes, rest - {p}, dragon);
    if dragon == votes[p] {
      assert after == before + {p};
    } else {
      assert after == before;
    }
  }

  lemma CountingOneVote(votes: map<string, string>, rest: set<string>, counts: map<string, nat>, p: string)
    requires HasCounted(votes, rest, counts) && p in rest && p in votes
    ensures HasCounted(votes, rest - {p}, counts[votes[p] := CountIn(counts, votes[p]) + 1])
  {
    var next := counts[votes[p] := CountIn(counts, votes[p]) + 1];
    forall dragon ensures CountIn(next, dragon) == |VotersOutside(votes, rest - {p}, dragon)| {
      OneVoteMore(votes, rest, p, dragon);
      assert CountIn(counts, dragon) == |VotersOutside(votes, rest, dragon)|;
    }
  }

  lemma CountingIsComplete(votes: map<string, string>, counts: map<string, nat>)
    requires HasCounted(votes, {}, counts)
    ensures forall dragon :: CountIn(counts, dragon) == |Voters(votes, dragon)|
    ensures counts.Keys == votes.Values
  {
    forall dragon ensures CountIn(counts, dragon) == |Voters(votes, dragon)| {
      assert VotersOutside(votes, {}, dragon) == Voters(votes, dragon);
    }
    forall dragon | dragon in counts ensures dragon in votes.Values {
      assert Voters(votes, dragon) != {};
      var p :| p in Voters(votes, dragon);
    }
  }

  /** The tally, vote by vote, in any order. */
  method TallyVotes(votes: map<string, string>) returns (counts: map<string, nat>)
    ensures forall dragon :: CountIn(counts, dragon) == |Voters(votes, dragon)|
    ensures counts.Keys == votes.Values
  {
    counts := map[];
    var rest := votes.Keys;
    forall dragon ensures |VotersOutside(votes, rest, dragon)| == 0 {
      assert VotersOutside(votes, rest, dragon) == {};
    }
    while rest != {}
      invariant rest <= votes.Keys && HasCounted(votes, rest, counts)
      decreases rest
    {
      var p :| p in rest;
      CountingOneVote(votes, rest, counts, p);
      counts := counts[votes[p] := CountIn(counts, votes[p]) + 1];
      rest := rest - {p};
    }
    CountingIsComplete(votes, counts);
  }

  // ----- What a client sees -----

  ghost function Results(ballot: Ballot, dragons: seq<string>): seq<VoteResult> {
    seq(|dragons|, i requires 0 <= i < |dragons| => VoteResult(dragons[i], |Voters(ballot.votes, dragons[i])|))
  }

  ghost function ViewFor(ballot: Option<Ballot>, dragons: seq<string>, player: string): Option<VotingView> {
    if ballot.None? then None
    else
      var b := ballot.value;
      Some(VotingView(|b.eligible|, |b.votes|, if player in b.votes then Some(b.votes[player]) else None, b.revealed,
                      if b.revealed && b.eligible != {} then Some(Results(b, dragons)) else None))
  }

  /** `dragons` are the dragon keys of the session, in key order. */
  method ClientVotingState(ballot: Option<Ballot>, dragons: seq<string>, player: string)
    returns (view: Option<VotingView>)
    ensures view == ViewFor(ballot, dragons, player)
  {
    if ballot.None? {
      return None;
    }
    var voting := ballot.value;
    var counts := TallyVotes(voting.votes);
    var results := None;
    if voting.revealed && voting.eligible != {} {
      results := Some(seq(|dragons|, i requires 0 <= i < |dragons| =>
        VoteResult(dragons[i], CountIn(counts, dragons[i]))));
      assert results.value == Results(voting, dragons);
    }
    view := Some(VotingView(|voting.eligible|, |voting.votes|,
                            if player in voting.votes then Some(voting.votes[player]) else None,
                            voting.revealed, results));
  }

  /** The judge's creative vote counts, by the ids the dragons carry. */
  method JudgeVoteCounts(ballot: Option<Ballot>, ids: seq<string>) returns (tally: seq<VoteResult>)
    ensures |tally| == |ids|
    ensures forall i :: 0 <= i < |ids| ==>
              tally[i] == VoteResult(ids[i], if ballot.None? then 0 else |Voters(ballot.value.votes, ids[i])|)
  {
    var counts: map<string, nat> := map[];
    if ballot.Some? {
      counts := TallyVotes(ballot.value.votes);
    }
    tally := seq(|ids|, i requires 0 <= i < |ids| => VoteResult(ids[i], CountIn(counts, ids[i])));
  }

  // ----- Conservation -----

  function SumOfVotes(results: seq<VoteResult>): nat {
    if results == [] then 0 else results[0].votes + SumOfVotes(results[1..])
  }

  lemma {:induction false} ResultsCountNamedVotes(ballot: Ballot, dragons: seq<string>)
    requires IsDistinct(dragons)
    ensures SumOfVotes(Results(ballot, dragons)) == |set p | p in ballot.votes && ballot.votes[p] in dragons|
  {
    var votes := ballot.votes;
    if dragons == [] {
      assert (set p | p in votes && votes[p] in dragons) == {};
    } else {
      var rest := set p | p in votes && votes[p] in dragons[1..];
      ResultsCountNamedVotes(ballot, dragons[1..]);
      assert Results(ballot, dragons)[1..] == Results(ballot, dragons[1..]);
      assert dragons[0] !in dragons[1..];
      assert (set p | p in votes && votes[p] in dragons) == Voters(votes, dragons[0]) + rest;
    }
  }

  /** The shown results add up to the number of votes exactly when every vote names a shown dragon. */
  lemma ResultsAddUpExactly(ballot: Ballot, dragons: seq<string>, player: string)
    requires IsDistinct(dragons) && ballot.revealed && ballot.eligible != {}
    ensures var view := ViewFor(Some(ballot), dragons, player).value;
            && SumOfVotes(view.results.value) <= view.submittedCount
            && (SumOfVotes(view.results.value) == view.submittedCount <==>
                  forall p :: p in ballot.votes ==> ballot.votes[p] in dragons)
  {
    ResultsCountNamedVotes(ballot, dragons);
    var named := set p | p in ballot.votes && ballot.votes[p] in dragons;
    assert named <= ballot.votes.Keys && |ballot.votes.Keys| == |ballot.votes|;
    Subsets(named, ballot.votes.Keys);
  }

  lemma Subsets(a: set<string>, b: set<string>)
    requires a <= b
    ensures |a| <= |b| && (|a| == |b| <==> a == b)
  {
    assert b == a + (b - a);
  }

  /** The client lists results under the keys of the dragons, the judge under their ids: the two lists are
  equal exactly when every dragon's id is its key. */
  lemma ClientAndJudgeAgreeExactly(ballot: Ballot, keys: seq<string>, ids: seq<string>, tally: seq<VoteResult>)
    requires |keys| == |ids| == |tally|
    requires forall i :: 0 <= i < |ids| ==> tally[i] == VoteResult(ids[i], |Voters(ballot.votes, ids[i])|)
    ensures keys == ids ==> Results(ballot, keys) == tally
    ensures Results(ballot, keys) == tally ==> keys == ids
  {
    if Results(ballot, keys) == tally {
      forall i | 0 <= i < |keys| ensures keys[i] == ids[i] {
        assert Results(ballot, keys)[i] == tally[i];
      }
    }
  }

  /** Until the reveal a player cannot tell two ballots apart that have as many votes and the same own vote. */
  lemma HiddenVotesDoNotShow(a: Ballot, b: Ballot, dragons: seq<string>, player: string)
    requires a.eligible == b.eligible && !a.revealed && !b.revealed
    ensures ViewFor(Some(a), dragons, player) == ViewFor(Some(b), dragons, player) <==>
            && |a.votes| == |b.votes|
            && (player in a.votes <==> player in b.votes)
            && (player in a.votes ==> a.votes[player] == b.votes[player])
  {
  }

  // ----- Votes over a whole session -----

  /** Votes come from eligible players and name dragons others designed. */
  ghost predicate VotesFit(ballot: Option<Ballot>, dragons: map<string, Dragon>) {
    ballot.Some? ==>
      forall p :: p in ballot.value.votes ==>
        && p in ballot.value.eligible
        && ballot.value.votes[p] in dragons
        && dragons[ballot.value.votes[p]].originalOwner != p
  }

  ghost predicate IsSound<C>(w: Workshop<C>) {
    VotesFit(w.ballot, w.dragons)
  }

  function After<C>(outcome: Outcome<C>): Session<C> {
    if outcome.Refused? then outcome.left else outcome.next
  }

  lemma BallotOpsKeepVotesSound<C>(w: Workshop<C>, player: string, dragon: string)
    requires IsSound(w)
    ensures w.SubmitVote(player, dragon).Some? ==> IsSound(w.SubmitVote(player, dragon).value)
    ensures w.RevealVotingResults().Some? ==> IsSound(w.RevealVotingResults().value)
    ensures w.FinalizeVoting().Some? ==> IsSound(w.FinalizeVoting().value)
    ensures w.EnterVoting().Some? ==> IsSound(w.EnterVoting().value)
  {
  }

  lemma NoteOpsKeepVotesSound<C>(rules: Rules<C>, w: Workshop<C>, player: string, tags: seq<string>,
                                 connected: set<string>, afterDeadline: bool)
    requires IsSound(w)
    ensures w.SaveTags(player, tags).Some? ==> IsSound(w.SaveTags(player, tags).value)
    ensures IsSound(w.EnterPhase2(rules, connected, afterDeadline).0)
  {
  }

  lemma AwardKeepsVotesSound<C>(rules: Rules<C>, s: Session<C>)
    requires IsSound(s.workshop)
    ensures IsSound(After(AwardAndVote(rules, s)).workshop)
  {
    BallotOpsKeepVotesSound(s.workshop.AwardPhaseEnd(rules), "", "");
  }

  lemma CommandKeepsVotesSound<C>(rules: Rules<C>, s: Session<C>, player: string, command: Command, overdue: bool)
    requires IsSound(s.workshop)
    ensures IsSound(After(DoCommand(rules, s, player, command, overdue)).workshop)
  {
    BallotOpsKeepVotesSound(s.workshop, player, if command.SubmitVote? then command.dragon else "");
    var tags := if command.SubmitTags? then command.tags else [];
    NoteOpsKeepVotesSound(rules, s.workshop, player, tags, s.connected, overdue);
    AwardKeepsVotesSound(rules, s);
  }

  lemma AdvanceKeepsVotesSound<C>(rules: Rules<C>, s: Session<C>, overdue: bool)
    requires IsSound(s.workshop)
    ensures IsSound(After(DoAdvance(rules, s, overdue)).workshop)
  {
    NoteOpsKeepVotesSound(rules, s.workshop, "", [], s.connected, true);
    AwardKeepsVotesSound(rules, s);
  }

  lemma TaskKeepsVotesSound<C>(rules: Rules<C>, s: Session<C>, task: Task)
    requires IsSound(s.workshop)
    ensures IsSound(After(Perform(rules, s, task)).workshop)
  {
    if task.RunCommand? {
      CommandKeepsVotesSound(rules, s, task.player, task.command, task.overdue);
    } else if task.AdvanceOverdue? {
      AdvanceKeepsVotesSound(rules, s, task.overdue);
    }
  }

  /** The session after these tasks, refused or not. */
  function AfterTasks<C>(rules: Rules<C>, s: Session<C>, tasks: seq<Task>): Session<C>
    decreases |tasks|
  {
    if tasks == [] then s else After(Perform(rules, AfterTasks(rules, s, tasks[..|tasks| - 1]), tasks[|tasks| - 1]))
  }

  lemma {:induction false} TasksKeepVotesSound<C>(rules: Rules<C>, s: Session<C>, tasks: seq<Task>)
    requires IsSound(s.workshop)
    ensures IsSound(AfterTasks(rules, s, tasks).workshop)
    decreases |tasks|
  {
    if tasks != [] {
      TasksKeepVotesSound(rules, s, tasks[..|tasks| - 1]);
      TaskKeepsVotesSound(rules, AfterTasks(rules, s, tasks[..|tasks| - 1]), tasks[|tasks| - 1]);
    }
  }

  /** Whatever happened to a session that began without a ballot, results add up to the votes cast. */
  lemma EveryVoteIsShown<C>(rules: Rules<C>, s: Session<C>, tasks: seq<Task>, dragons: seq<string>, player: string)
    requires s.workshop.ballot.None?
    requires var w := AfterTasks(rules, s, tasks).workshop;
             && IsDistinct(dragons) && (forall d :: d in dragons <==> d in w.dragons)
             && ViewFor(w.ballot, dragons, player).Some? && ViewFor(w.ballot, dragons, player).value.results.Some?
    ensures var view := ViewFor(AfterTasks(rules, s, tasks).workshop.ballot, dragons, player).value;
            SumOfVotes(view.results.value) == view.submittedCount
  {
    TasksKeepVotesSound(rules, s, tasks);
    ResultsAddUpExactly(AfterTasks(rules, s, tasks).workshop.ballot.value, dragons, player);
  }
}
