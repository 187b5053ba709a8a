/** Grouping the recorded actions of the second phase by dragon for the judge. */
module ActionTraces {
  import opened MachineInts
  import opened Workshop
  import opened Wrappers

  /** A recorded artifact; each payload field is there only if the stored JSON holds it in its type. */
  datatype Artifact = Artifact(isAction: bool, phase: Phase, player: Option<string>, createdAt: string,
                               dragon: Option<string>, actionType: Option<string>, actionValue: Option<string>,
                               hunger: Option<int>, energy: Option<int>, happiness: Option<int>,
                               wasCorrect: Option<bool>, blockedReason: Option<string>)

  datatype Stats = Stats(hunger: int, energy: int, happiness: int)

  datatype Trace = Trace(player: string, playerName: string, phase: Phase, actionType: string,
                         actionValue: Option<string>, createdAt: string, stats: Option<Stats>,
                         wasCorrect: Option<bool>, blockReason: Option<string>)

  predicate IsTraced(a: Artifact) {
    a.isAction && a.phase == Phase2 && a.dragon.Some?
  }

  /** `names` are the players still in the session. */
  function ToTrace(names: map<string, string>, a: Artifact): Trace {
    Trace(a.player.GetOr("unknown"),
          if a.player.Some? && a.player.value in names then names[a.player.value] else "Unknown",
          a.phase, a.actionType.GetOr("unknown"), a.actionValue, a.createdAt,
          if a.hunger.Some? && a.energy.Some? && a.happiness.Some?
          then Some(Stats(ToI32(a.hunger.value), ToI32(a.energy.value), ToI32(a.happiness.value))) else None,
          a.wasCorrect, a.blockedReason)
  }

  /** The traces of one dragon, in the order they were recorded. */
  function TracesOf(names: map<string, string>, artifacts: seq<Artifact>, dragon: string): seq<Trace> {
    if artifacts == [] then []
    else
      var last := artifacts[|artifacts| - 1];
      TracesOf(names, artifacts[..|artifacts| - 1], dragon)
      + (if IsTraced(last) && last.dragon.value == dragon then [ToTrace(names, last)] else [])
  }

  /** The map holds the non-empty lists, and only those. */
  ghost predicate HoldsTraces(names: map<string, string>, artifacts: seq<Artifact>, traces: map<string, seq<Trace>>) {
    && (forall d :: d in traces <==> TracesOf(names, artifacts, d) != [])
    && (forall d :: d in traces ==> traces[d] == TracesOf(names, artifacts, d))
  }

  lemma OneArtifactMore(names: map<string, string>, artifacts: seq<Artifact>, i: nat, d: string)
    requires i < |artifacts|
    ensures TracesOf(names, artifacts[..i + 1], d) ==
              TracesOf(names, artifacts[..i], d)
              + (if IsTraced(artifacts[i]) && artifacts[i].dragon.value == d then [ToTrace(names, artifacts[i])]
                 else [])
  {
    assert artifacts[..i + 1][..i] == artifacts[..i];
  }

  method BuildTraces(names: map<string, string>, artifacts: seq<Artifact>) returns (traces: map<string, seq<Trace>>)
    ensures HoldsTraces(names, artifacts, traces)
  {
    traces := map[];
    for i := 0 to |artifacts|
      invariant HoldsTraces(names, artifacts[..i], traces)
    {
      var artifact := artifacts[i];
      forall d ensures TracesOf(names, artifacts[..i + 1], d) ==
                         TracesOf(names, artifacts[..i], d)
                         + (if IsTraced(artifact) && artifact.dragon.value == d then [ToTrace(names, artifact)] else [])
      {
        OneArtifactMore(names, artifacts, i, d);
      }
      if !artifact.isAction || artifact.phase != Phase2 || artifact.dragon.None? {
        continue;
      }
      var dragon := artifact.dragon.value;
      var earlier := if dragon in traces then traces[dragon] else [];
      traces := traces[dragon := earlier + [ToTrace(names, artifact)]];
    }
    assert artifacts[..|artifacts|] == artifacts;
  }

  /** How many traced artifacts of the dragon precede position `j`. */
  function Rank(artifacts: seq<Artifact>, j: nat, dragon: string): nat
    requires j <= |artifacts|
  {
    if j == 0 then 0
    else Rank(artifacts, j - 1, dragon)
         + (if IsTraced(artifacts[j - 1]) && artifacts[j - 1].dragon.value == dragon then 1 else 0)
  }

  lemma {:induction false} RankOfPrefix(artifacts: seq<Artifact>, k: nat, j: nat, dragon: string)
    requires j <= k <= |artifacts|
    ensures Rank(artifacts[..k], j, dragon) == Rank(artifacts, j, dragon)
  {
    if j > 0 {
      RankOfPrefix(artifacts, k, j - 1, dragon);
    }
  }

  /** Every traced action appears in its dragon's list, at its rank; nothing else does, so order is kept. */
  lemma {:induction false} TraceIsAtItsRank(names: map<string, string>, artifacts: seq<Artifact>, j: nat)
    requires j < |artifacts| && IsTraced(artifacts[j])
    ensures var dragon := artifacts[j].dragon.value;
            && Rank(artifacts, j, dragon) < |TracesOf(names, artifacts, dragon)|
            && TracesOf(names, artifacts, dragon)[Rank(artifacts, j, dragon)] == ToTrace(names, artifacts[j])
  {
    var n, dragon := |artifacts| - 1, artifacts[j].dragon.value;
    RankIsLength(names, artifacts, n, dragon);
    if j < n {
      TraceIsAtItsRank(names, artifacts[..n], j);
      RankOfPrefix(artifacts, n, j, dragon);
    }
  }

  lemma {:induction false} RankIsLength(names: map<string, string>, artifacts: seq<Artifact>, j: nat, dragon: string)
    requires j <= |artifacts|
    ensures |TracesOf(names, artifacts[..j], dragon)| == Rank(artifacts, j, dragon)
  {
    if j > 0 {
      RankIsLength(names, artifacts, j - 1, dragon);
      assert artifacts[..j][..j - 1] == artifacts[..j - 1];
    }
  }

  predicate IsEntry(artifacts: seq<Artifact>, j: nat, dragon: string, rank: nat)
    requires j < |artifacts|
  {
    IsTraced(artifacts[j]) && artifacts[j].dragon.value == dragon && Rank(artifacts, j, dragon) == rank
  }

  lemma {:induction false} RankGrows(artifacts: seq<Artifact>, i: nat, j: nat, dragon: string)
    requires i <= j <= |artifacts|
    ensures Rank(artifacts, i, dragon) <= Rank(artifacts, j, dragon)
  {
    if i < j {
      RankGrows(artifacts, i, j - 1, dragon);
    }
  }

  lemma {:induction false} EntryHasAction(names: map<string, string>, artifacts: seq<Artifact>, dragon: string, k: nat)
    returns (j: nat)
    requires k < |TracesOf(names, artifacts, dragon)|
    ensures j < |artifacts| && IsEntry(artifacts, j, dragon, k)
  {
    var n := |artifacts| - 1;
    RankIsLength(names, artifacts, n, dragon);
    if k < Rank(artifacts, n, dragon) {
      j := EntryHasAction(names, artifacts[..n], dragon, k);
      RankOfPrefix(artifacts, n, j, dragon);
    } else {
      j := n;
    }
  }

  /** Each entry of a dragon's list comes from exactly one recorded action. */
  lemma EntryHasOneAction(names: map<string, string>, artifacts: seq<Artifact>, dragon: string, k: nat) returns (j: nat)
    requires k < |TracesOf(names, artifacts, dragon)|
    ensures j < |artifacts| && IsEntry(artifacts, j, dragon, k)
    ensures TracesOf(names, artifacts, dragon)[k] == ToTrace(names, artifacts[j])
    ensures forall i :: 0 <= i < |artifacts| && IsEntry(artifacts, i, dragon, k) ==> i == j
  {
    j := EntryHasAction(names, artifacts, dragon, k);
    TraceIsAtItsRank(names, artifacts, j);
    forall i | 0 <= i < |artifacts| && IsEntry(artifacts, i, dragon, k) ensures i == j {
      if i < j {
        RankGrows(artifacts, i + 1, j, dragon);
      } else if j < i {
        RankGrows(artifacts, j + 1, i, dragon);
      }
    }
  }
}
