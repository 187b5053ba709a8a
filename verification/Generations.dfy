/** Generation counters of the browser client: unsigned 64-bit, bumped before use, never 0 after a bump. */
module Generations {
  import opened MachineInts

  const U64_MAX: nat := 0xFFFF_FFFF_FFFF_FFFF

  type U64 = x: int | 0 <= x <= U64_MAX

  /** A checked increment that starts again at 1 on overflow; the final floor of 1 never applies. */
  function Bump(counter: nat, max: nat): (next: nat)
    requires counter <= max && max > 1
    ensures 1 <= next <= max && next != counter
  {
    if counter == max then 1 else counter + 1
  }

  /** The counter after `count` bumps from its initial value 0. */
  function CounterAfter(count: nat, max: nat): (counter: nat)
    requires max > 1
    ensures counter <= max
  {
    if count == 0 then 0 else Bump(CounterAfter(count - 1, max), max)
  }

  function NextGeneration(generation: U64): (next: U64)
    ensures next >= 1 && next != generation
  {
    Bump(generation, U64_MAX)
  }

  function GenerationAfter(count: nat): U64 {
    CounterAfter(count, U64_MAX)
  }

  lemma {:induction false} CounterCyclesThroughNonZero(count: nat, max: nat)
    requires count >= 1 && max > 1
    ensures CounterAfter(count, max) == (count - 1) % max + 1
  {
    if count == 1 {
      assert CounterAfter(0, max) == 0;
      QuotientIs(0, max, 0, 0);
    } else {
      CounterCyclesThroughNonZero(count - 1, max);
      RemainderSteps(count - 2, max);
    }
  }

  lemma RemainderSteps(n: nat, m: nat)
    requires m > 0
    ensures (n + 1) % m == (if n % m + 1 == m then 0 else n % m + 1)
  {
    var q, r := n / m, n % m;
    assert n == q * m + r;
    if r + 1 == m {
      assert n + 1 == (q + 1) * m;
      QuotientIs(n + 1, m, q + 1, 0);
    } else {
      QuotientIs(n + 1, m, q, r + 1);
    }
  }

  lemma Distribute(a: nat, b: nat, m: nat)
    ensures (a + b) * m == a * m + b * m
  {
  }

  lemma DistanceIsMultipleExactly(a: nat, b: nat, m: nat)
    requires m > 0 && a <= b
    ensures a % m == b % m <==> (b - a) % m == 0
  {
    var q, r := a / m, a % m;
    var k, d := (b - a) / m, (b - a) % m;
    assert a == q * m + r && b - a == k * m + d;
    Distribute(q, k, m);
    if r + d < m {
      QuotientIs(b, m, q + k, r + d);
    } else {
      Distribute(q + k, 1, m);
      QuotientIs(b, m, q + k + 1, r + d - m);
    }
  }

  lemma SameCounterExactly(a: nat, b: nat, max: nat)
    requires 1 <= a <= b && max > 1
    ensures CounterAfter(a, max) == CounterAfter(b, max) <==> (b - a) % max == 0
  {
    CounterCyclesThroughNonZero(a, max);
    CounterCyclesThroughNonZero(b, max);
    DistanceIsMultipleExactly(a - 1, b - 1, max);
  }

  /** Two generations of one counter coincide exactly when the counter went round between them. */
  lemma SameGenerationExactly(a: nat, b: nat)
    requires 1 <= a <= b
    ensures GenerationAfter(a) == GenerationAfter(b) <==> (b - a) % U64_MAX == 0
  {
    SameCounterExactly(a, b, U64_MAX);
  }

  /** No generation comes back within 2^64 - 2 bumps. */
  lemma GenerationsDiffer(a: nat, b: nat)
    requires 1 <= a < b && b - a < U64_MAX
    ensures GenerationAfter(a) != GenerationAfter(b)
  {
    SameGenerationExactly(a, b);
  }
}
