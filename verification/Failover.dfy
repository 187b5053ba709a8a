/** Trying the providers in turn, for the judge or for images, from a starting point that moves on with
every request.  Image answers are never unreadable. */
module Failover {
  import opened Generations
  import opened MachineInts
  import opened Wrappers

  const TWO_64: nat := 0x1_0000_0000_0000_0000

  /** What one attempt brings: an answer, one that cannot be read, an error that lets the next provider
  try, or one that does not. */
  datatype Reply = Answered(value: string) | Unreadable(error: string) | Transient(error: string) | Fatal(error: string)

  datatype Outcome = Done(value: string) | Failed(error: string) | Exhausted(providers: nat, lastError: string)
                   | NotConfigured

  predicate FailsOver(reply: Reply) {
    reply.Unreadable? || reply.Transient?
  }

  /** The provider of an attempt; the sum is a machine word that wraps at `word`. */
  function AttemptIndex(word: nat, providers: nat, start: nat, offset: nat): (index: nat)
    requires word > 0 && providers > 0
    ensures index < providers
  {
    ((start + offset) % word) % providers
  }

  function AttemptIndices(word: nat, providers: nat, start: nat): (indices: seq<nat>)
    requires word > 0
    ensures |indices| == providers && forall i :: 0 <= i < providers ==> indices[i] < providers
  {
    seq(providers, i requires 0 <= i < providers => AttemptIndex(word, providers, start, i))
  }

  /** One round: the first answer or fatal error ends it.  `replies` is what each attempt brings. */
  method TryProviders(providers: nat, start: nat, replies: nat -> Reply) returns (outcome: Outcome, tried: seq<nat>)
    ensures outcome.NotConfigured? <==> providers == 0
    ensures tried <= AttemptIndices(TWO_64, providers, start)
    ensures forall i :: 0 <= i < |tried| - 1 ==> FailsOver(replies(i))
    ensures outcome.Done? ==> |tried| > 0 && replies(|tried| - 1) == Answered(outcome.value)
    ensures outcome.Failed? ==> |tried| > 0 && replies(|tried| - 1) == Fatal(outcome.error)
    ensures outcome.Exhausted? ==>
              && |tried| == providers == outcome.providers && FailsOver(replies(providers - 1))
              && replies(providers - 1).error == outcome.lastError
  {
    tried := [];
    if providers == 0 {
      return NotConfigured, tried;
    }
    var indices := AttemptIndices(TWO_64, providers, start);
    var lastError := "";
    for i := 0 to providers
      invariant tried == indices[..i]
      invariant forall j :: 0 <= j < i ==> FailsOver(replies(j))
      invariant i > 0 ==> lastError == replies(i - 1).error
    {
      tried := tried + [indices[i]];
      assert tried == indices[..i + 1];
      match replies(i) {
        case Answered(value) => return Done(value), tried;
        case Unreadable(error) => lastError := error;
        case Transient(error) => lastError := error;
        case Fatal(error) => return Failed(error), tried;
      }
    }
    outcome := Exhausted(providers, lastError);
  }

  // ----- Which providers a round reaches -----

  lemma WordWraps(word: nat, n: nat)
    requires word > 0 && n < 2 * word
    ensures n % word == if n < word then n else n - word
  {
    if n < word {
      QuotientIs(n, word, 0, n);
    } else {
      QuotientIs(n, word, 1, n - word);
    }
  }

  /** The round neither wraps nor notices that it does. */
  predicate IsEven(word: nat, providers: nat, start: nat)
    requires providers > 0
  {
    start + providers <= word || word % providers == 0
  }

  lemma EvenRoundIgnoresTheWord(word: nat, providers: nat, start: nat, offset: nat)
    requires 0 < providers <= word && start < word && offset < providers && IsEven(word, providers, start)
    ensures AttemptIndex(word, providers, start, offset) == (start + offset) % providers
  {
    WordWraps(word, start + offset);
    if start + offset >= word {
      DistanceIsMultipleExactly(start + offset - word, start + offset, providers);
    }
  }

  lemma ShortDistanceIsNoMultiple(d: nat, m: nat)
    requires 0 < d < m
    ensures d % m != 0
  {
    QuotientIs(d, m, 0, d);
  }

  lemma EvenRoundIsDistinct(word: nat, providers: nat, start: nat)
    requires 0 < providers <= word && start < word && IsEven(word, providers, start)
    ensures IsDistinct(AttemptIndices(word, providers, start))
  {
    var indices := AttemptIndices(word, providers, start);
    forall i, j | 0 <= i < j < |indices| ensures indices[i] != indices[j] {
      EvenRoundIgnoresTheWord(word, providers, start, i);
      EvenRoundIgnoresTheWord(word, providers, start, j);
      DistanceIsMultipleExactly(start + i, start + j, providers);
      ShortDistanceIsNoMultiple(j - i, providers);
    }
  }

  /** Two attempts, one before the counter wraps and one after it, that ask for the same provider. */
  lemma WrapRepeats(word: nat, providers: nat, start: nat, i: nat, rounds: nat, index: nat)
    requires 0 < providers <= word && start < word && start + i < word && index < providers
    requires start + i == rounds * providers + index
    ensures AttemptIndex(word, providers, start, i) == index
    ensures AttemptIndex(word, providers, start, word - start + index) == index
  {
    WordWraps(word, start + i);
    QuotientIs(start + i, providers, rounds, index);
    WordWraps(word, word + index);
    QuotientIs(index, providers, 0, index);
  }

  /** A round that wraps unevenly asks some provider twice: before the wrap and after it. */
  lemma UnevenRoundRepeats(word: nat, providers: nat, start: nat) returns (i: nat, j: nat)
    requires 0 < providers <= word && start < word && !IsEven(word, providers, start)
    ensures i < j < providers && AttemptIndex(word, providers, start, i) == AttemptIndex(word, providers, start, j)
  {
    var left, rest, rounds := word - start, word % providers, word / providers;
    assert word == rounds * providers + rest;
    var index;
    if rest <= providers - left {
      i, index := left - 1, rest - 1;
    } else if rest >= left {
      i, index := 0, rest - left;
    } else {
      i, index := left - rest, 0;
    }
    j := left + index;
    WrapRepeats(word, providers, start, i, rounds, index);
  }

  /** A round asks every provider once exactly when the counter does not wrap within it, or the number of
  providers divides 2^64. */
  lemma RoundIsFairExactly(providers: nat, start: nat)
    requires 0 < providers <= TWO_64 && start < TWO_64
    ensures IsDistinct(AttemptIndices(TWO_64, providers, start)) <==> IsEven(TWO_64, providers, start)
  {
    RoundIsFairFor(TWO_64, providers, start);
  }

  /** Three providers, and a counter that is about to wrap: one of them is asked twice. */
  lemma UnevenRoundExists()
    ensures AttemptIndex(TWO_64, 3, TWO_64 - 1, 0) == AttemptIndex(TWO_64, 3, TWO_64 - 1, 1) == 0
    ensures !IsDistinct(AttemptIndices(TWO_64, 3, TWO_64 - 1))
  {
    WrapRepeats(TWO_64, 3, TWO_64 - 1, 0, (TWO_64 - 1) / 3, 0);
    var indices := AttemptIndices(TWO_64, 3, TWO_64 - 1);
    assert indices[0] == indices[1];
  }

  lemma RoundIsFairFor(word: nat, providers: nat, start: nat)
    requires 0 < providers <= word && start < word
    ensures IsDistinct(AttemptIndices(word, providers, start)) <==> IsEven(word, providers, start)
  {
    if IsEven(word, providers, start) {
      EvenRoundIsDistinct(word, providers, start);
    } else {
      var i, j := UnevenRoundRepeats(word, providers, start);
      assert AttemptIndices(word, providers, start)[i] == AttemptIndices(word, providers, start)[j];
    }
  }

  lemma EvenRoundAsksAt(word: nat, providers: nat, start: nat, offset: nat, rounds: nat, index: nat)
    requires 0 < providers <= word && start < word && offset < providers && IsEven(word, providers, start)
    requires index < providers && start + offset == rounds * providers + index
    ensures AttemptIndex(word, providers, start, offset) == index
  {
    QuotientIs(start + offset, providers, rounds, index);
    EvenRoundIgnoresTheWord(word, providers, start, offset);
  }

  /** A fair round reaches every provider. */
  lemma FairRoundReaches(word: nat, providers: nat, start: nat, index: nat) returns (offset: nat)
    requires 0 < providers <= word && start < word && IsEven(word, providers, start) && index < providers
    ensures offset < providers && AttemptIndex(word, providers, start, offset) == index
  {
    var rounds, rest := start / providers, start % providers;
    assert start == rounds * providers + rest;
    if index >= rest {
      offset := index - rest;
      EvenRoundAsksAt(word, providers, start, offset, rounds, index);
    } else {
      offset := index + providers - rest;
      Distribute(rounds, 1, providers);
      EvenRoundAsksAt(word, providers, start, offset, rounds + 1, index);
    }
  }

  /** If every provider always replies alike, a fair round cannot exhaust them all while one would answer. */
  lemma FairRoundFindsTheAnswer(providers: nat, start: nat, replyOf: nat -> Reply, good: nat)
    requires 0 < providers <= TWO_64 && start < TWO_64 && IsEven(TWO_64, providers, start)
    requires good < providers && replyOf(good).Answered?
    ensures exists i :: 0 <= i < providers && !FailsOver(replyOf(AttemptIndex(TWO_64, providers, start, i)))
  {
    var i := FairRoundReaches(TWO_64, providers, start, good);
  }
}
