/** The local judge's care and observation scores. */
module LocalJudge {
  import opened MachineInts
  import Text

  // ----- Care -----

  /** The recorded care of one dragon; every count is a signed 32-bit number. */
  datatype Care = Care(totalActions: int, correctActions: int, hunger: int, energy: int, happiness: int,
                       lowestHappiness: int, wrongFood: int, wrongPlay: int, wrongSleep: int,
                       penaltyStacks: int, cooldownViolations: int)

  function Clamp(n: int, low: int, high: int): (r: int)
    requires low <= high
    ensures low <= r <= high && (low <= n <= high ==> r == n)
  {
    if n < low then low else if n > high then high else n
  }

  function AtLeastZero(n: int): nat {
    if n < 0 then 0 else n
  }

  function RecoveryScore(happiness: int, lowest: int): int {
    var final := Clamp(happiness, 0, 100);
    var delta := final - Clamp(lowest, 0, 100);
    if delta >= 25 && final >= 70 then 5
    else if delta >= 15 && final >= 55 then 4
    else if delta >= 10 && final >= 45 then 3
    else if delta > 0 then 2
    else if final >= lowest then 1
    else 0
  }

  function StatAverage(c: Care): int {
    (Clamp(c.hunger, 0, 100) + Clamp(c.energy, 0, 100) + Clamp(c.happiness, 0, 100)) / 3
  }

  function ActionShare(c: Care): int {
    var total := AtLeastZero(c.totalActions);
    if total == 0 then 0 else Clamp(c.correctActions, 0, total) * 50 / total
  }

  function MistakeScore(c: Care): int {
    Clamp(15 - AtLeastZero(c.wrongFood) * 4 - AtLeastZero(c.wrongPlay) * 4 - AtLeastZero(c.wrongSleep) * 4
          - AtLeastZero(c.penaltyStacks) * 2, 0, 15)
  }

  function CooldownScore(c: Care): int {
    Clamp(10 - AtLeastZero(c.cooldownViolations) * 2, 0, 10)
  }

  /** The sum that is clamped to the care score, without overflow. */
  function CareSum(c: Care): int {
    ActionShare(c) + StatAverage(c) / 5 + MistakeScore(c) + CooldownScore(c)
    + RecoveryScore(c.happiness, c.lowestHappiness)
  }

  function ActionShare32(c: Care): int {
    var total := AtLeastZero(c.totalActions);
    if total == 0 then 0 else TruncatedDiv(ToI32(Clamp(c.correctActions, 0, total) * 50), total)
  }

  /** What each kind of mistake takes off, in the order it is taken. */
  function Deductions(c: Care): seq<nat> {
    [AtLeastZero(c.wrongFood) * 4, AtLeastZero(c.wrongPlay) * 4, AtLeastZero(c.wrongSleep) * 4,
     AtLeastZero(c.penaltyStacks) * 2]
  }

  function MistakeScore32(c: Care): int {
    Clamp(Deduct32(15, Deductions(c)), 0, 15)
  }

  function CooldownScore32(c: Care): int {
    Clamp(ToI32(10 - ToI32(AtLeastZero(c.cooldownViolations) * 2)), 0, 10)
  }

  /** The same with every product and difference cut to 32 bits. */
  function CareSum32(c: Care): int {
    ActionShare32(c) + StatAverage(c) / 5 + MistakeScore32(c) + CooldownScore32(c)
    + RecoveryScore(c.happiness, c.lowestHappiness)
  }

  lemma ShareIsBounded(part: int, total: int)
    requires 0 <= part <= total && total > 0
    ensures 0 <= part * 50 / total <= 50
  {
    QuotientIsMonotone(0, part * 50, total);
    QuotientIsMonotone(part * 50, total * 50, total);
    assert total * 50 / total == 50;
  }

  lemma QuotientIsMonotone(a: int, b: int, d: int)
    requires 0 <= a <= b && d > 0
    ensures 0 <= a / d <= b / d
  {
    var qa, qb := a / d, b / d;
    assert a == qa * d + a % d && b == qb * d + b % d;
    if qb < qa {
      ProductIsMonotone(qb + 1, qa, d);
    }
  }

  lemma ProductIsMonotone(a: int, b: int, d: int)
    requires a <= b && d > 0
    ensures a * d <= b * d
  {
    assert (b - a) * d >= 0;
  }

  /** The care sum is a score out of 100 before it is clamped. */
  lemma CareSumNeedsNoClamp(c: Care)
    ensures 0 <= CareSum(c) <= 100
  {
    var total := AtLeastZero(c.totalActions);
    if total > 0 {
      ShareIsBounded(Clamp(c.correctActions, 0, total), total);
    }
  }

  /** As many actions and the same lowest point, and in nothing worse. */
  predicate IsNoWorse(better: Care, worse: Care) {
    && better.totalActions == worse.totalActions && better.lowestHappiness == worse.lowestHappiness
    && better.correctActions >= worse.correctActions
    && better.hunger >= worse.hunger && better.energy >= worse.energy && better.happiness >= worse.happiness
    && better.wrongFood <= worse.wrongFood && better.wrongPlay <= worse.wrongPlay
    && better.wrongSleep <= worse.wrongSleep
    && better.penaltyStacks <= worse.penaltyStacks && better.cooldownViolations <= worse.cooldownViolations
  }

  lemma RecoveryRises(more: int, less: int, lowest: int)
    requires more >= less
    ensures RecoveryScore(more, lowest) >= RecoveryScore(less, lowest)
  {
  }

  /** The care sum never falls with correct actions or final stats, nor with fewer mistakes, penalties and
  cooldown violations. */
  lemma BetterCareScoresNoLess(better: Care, worse: Care)
    requires IsNoWorse(better, worse)
    ensures CareSum(better) >= CareSum(worse)
  {
    ShareRises(better, worse);
    RecoveryRises(better.happiness, worse.happiness, better.lowestHappiness);
    assert MistakeScore(better) >= MistakeScore(worse) && CooldownScore(better) >= CooldownScore(worse);
    assert StatAverage(better) >= StatAverage(worse);
  }

  lemma ShareRises(better: Care, worse: Care)
    requires better.totalActions == worse.totalActions && better.correctActions >= worse.correctActions
    ensures ActionShare(better) >= ActionShare(worse)
  {
    var total := AtLeastZero(better.totalActions);
    if total > 0 {
      var less, more := Clamp(worse.correctActions, 0, total), Clamp(better.correctActions, 0, total);
      QuotientIsMonotone(less * 50, more * 50, total);
    }
  }

  // ----- Overflow -----

  const MOST_CORRECT: int := 42_949_672

  /** The fields are signed 32-bit numbers. */
  predicate FitsWord(c: Care) {
    && c.totalActions < TWO_31 && c.correctActions < TWO_31 && c.cooldownViolations < TWO_31
    && c.wrongFood < TWO_31 && c.wrongPlay < TWO_31 && c.wrongSleep < TWO_31 && c.penaltyStacks < TWO_31
  }

  lemma WrappedIsAWordLower(n: int)
    requires n >= TWO_31
    ensures ToI32(n) <= n - TWO_32
  {
    var words := (n - ToI32(n)) / TWO_32;
    assert n - ToI32(n) == words * TWO_32;
  }

  lemma WordLowerIsLess(high: int, low: int, total: int)
    requires 0 < total < TWO_31 <= high && low <= high - TWO_32
    ensures TruncatedDiv(low, total) < high / total
  {
    QuotientIs(total, total, 1, 0);
    QuotientIsMonotone(total, high, total);
    if low >= 0 {
      assert high == high / total * total + high % total;
      QuotientIs(high - total, total, high / total - 1, high % total);
      QuotientIsMonotone(low, high - total, total);
    } else {
      QuotientIsMonotone(0, -low, total);
    }
  }

  /** The share of correct actions is right exactly up to this many of them. */
  lemma ShareIsRightExactly(c: Care)
    requires FitsWord(c)
    ensures ActionShare32(c) == ActionShare(c) <==>
            Clamp(c.correctActions, 0, AtLeastZero(c.totalActions)) <= MOST_CORRECT
  {
    var total := AtLeastZero(c.totalActions);
    var product := Clamp(c.correctActions, 0, total) * 50;
    if total > 0 && product >= TWO_31 {
      WrappedIsAWordLower(product);
      WordLowerIsLess(product, ToI32(product), total);
    }
  }

  /** One correct action past the bound, of as many, and a perfect share of 50 becomes -49. */
  lemma PerfectCareOverflows(c: Care)
    requires c.totalActions == c.correctActions == MOST_CORRECT + 1
    ensures ActionShare32(c) == -49 && ActionShare(c) == 50
  {
    var total := MOST_CORRECT + 1;
    assert total * 50 - TWO_32 == -2_147_483_646;
    SameLowBits(total * 50, total * 50 - TWO_32, 1);
    QuotientIs(2_147_483_646, total, 49, 42_949_669);
    QuotientIs(total * 50, total, 50, 0);
  }

  /** The cooldown score is right exactly up to 2^30 + 5 violations: the last six wrap twice. */
  lemma CooldownIsRightExactly(c: Care)
    requires FitsWord(c)
    ensures CooldownScore32(c) == CooldownScore(c) <==> c.cooldownViolations <= 0x4000_0005
  {
    var twice := AtLeastZero(c.cooldownViolations) * 2;
    WrappingIsOnce(10, twice);
    if 10 - twice < -TWO_31 {
      SameLowBits(10 - twice, 10 - twice + TWO_32, -1);
    }
  }

  lemma DeductionsSum(c: Care)
    ensures MistakeScore(c) == Clamp(15 - Sum(Deductions(c)), 0, 15)
  {
    var all := Deductions(c);
    SumOfFour(all[0], all[1], all[2], all[3]);
    assert all == [all[0], all[1], all[2], all[3]];
  }

  /** The mistake score is right exactly when the deduction is at most 15, or its low 32 bits lie between 15
  and 2^31 + 15. */
  lemma MistakesAreRightExactly(c: Care)
    ensures MistakeScore32(c) == MistakeScore(c) <==>
            Sum(Deductions(c)) <= 15 || 15 <= Sum(Deductions(c)) % TWO_32 <= TWO_31 + 15
  {
    var deduction := Sum(Deductions(c));
    var low, words := deduction % TWO_32, deduction / TWO_32;
    DeductionsSum(c);
    DeductionsWrapOnce(15, Deductions(c));
    assert deduction == words * TWO_32 + low;
    if low <= TWO_31 + 15 {
      SameLowBits(15 - deduction, 15 - low, -words);
    } else {
      SameLowBits(15 - deduction, 15 - low + TWO_32, -words - 1);
    }
  }

  /** Six violations past the bound of the cooldown score, and a mistake deduction of 2^31 + 16, wrap to scores
  that are not 0. */
  lemma WorstCareOverflows(c: Care)
    requires FitsWord(c) && c.cooldownViolations == 0x4000_0006
    requires c.wrongFood == 0x2000_0004 && c.wrongPlay <= 0 && c.wrongSleep <= 0 && c.penaltyStacks <= 0
    ensures CooldownScore(c) == 0 && CooldownScore32(c) == 10
    ensures MistakeScore(c) == 0 && MistakeScore32(c) == 15
  {
    SameLowBits(10 - 0x8000_000C, 10 - 0x8000_000C + TWO_32, -1);
    WrappingIsOnce(10, 0x8000_000C);
    DeductionsWrapOnce(15, Deductions(c));
    DeductionsSum(c);
    SumOfFour(0x8000_0010, 0, 0, 0);
    SameLowBits(15 - 0x8000_0010, 15 - 0x8000_0010 + TWO_32, -1);
  }

  /** With every term right the 32-bit sum is the care sum. */
  lemma RightTermsAddUp(c: Care)
    requires FitsWord(c) && Clamp(c.correctActions, 0, AtLeastZero(c.totalActions)) <= MOST_CORRECT
    requires c.cooldownViolations <= 0x4000_0005
    requires Sum(Deductions(c)) <= 15 || 15 <= Sum(Deductions(c)) % TWO_32 <= TWO_31 + 15
    ensures CareSum32(c) == CareSum(c)
  {
    ShareIsRightExactly(c);
    CooldownIsRightExactly(c);
    MistakesAreRightExactly(c);
  }

  // ----- Observation -----

  datatype ActiveTime = Day | Night
  datatype FoodType = Meat | Fruit | Fish
  datatype PlayType = Fetch | Puzzle | Music

  datatype Handover = Handover(observations: seq<string>, tags: seq<string>,
                               activeTime: ActiveTime, food: FoodType, play: PlayType)

  function TimeKeyword(time: ActiveTime): string {
    match time case Day => "day" case Night => "night"
  }

  function FoodKeyword(food: FoodType): string {
    match food case Meat => "meat" case Fruit => "fruit" case Fish => "fish"
  }

  function PlayKeyword(play: PlayType): string {
    match play case Fetch => "fetch" case Puzzle => "puzzle" case Music => "music"
  }

  function Join(notes: seq<string>): string {
    if |notes| == 0 then "" else if |notes| == 1 then notes[0] else notes[0] + " " + Join(notes[1..])
  }

  predicate Contains(text: string, word: string) {
    exists i :: 0 <= i <= |text| - |word| && IsAt(text, word, i)
  }

  predicate IsAt(text: string, word: string, i: nat)
    requires i <= |text| - |word|
  {
    text[i..i + |word|] == word
  }

  function CountFilled(notes: seq<string>): nat {
    if notes == [] then 0 else (if Text.Trim(notes[0]) == "" then 0 else 1) + CountFilled(notes[1..])
  }

  function Hit(h: Handover, word: string): nat {
    if Contains(Text.Lower(Join(h.observations + h.tags)), word) then 1 else 0
  }

  function Hits(h: Handover): nat {
    Hit(h, TimeKeyword(h.activeTime)) + Hit(h, FoodKeyword(h.food)) + Hit(h, PlayKeyword(h.play))
  }

  function Completeness(entries: nat): nat {
    if entries == 0 then 0 else if entries == 1 then 5 else if entries == 2 then 10
    else if entries == 3 then 14 else if entries == 4 then 17 else 20
  }

  function Clarity(observations: nat, tags: nat): nat {
    if observations >= 2 && tags >= 2 then 15
    else if observations + tags >= 3 then 10
    else if observations + tags >= 1 then 5
    else 0
  }

  function AtMost(n: nat, limit: nat): nat {
    if n > limit then limit else n
  }

  function ScoreOf(hits: nat, observations: nat, tags: nat): nat {
    AtMost(hits * 8, 40) + AtMost(tags * 8, 24) + (if tags > 0 then 1 else 0)
    + Completeness(observations + tags) + Clarity(observations, tags)
  }

  function ObservationSum(h: Handover): nat {
    ScoreOf(Hits(h), CountFilled(h.observations), CountFilled(h.tags))
  }

  /** The observation score never exceeds 84, and reaches it exactly with all three habits named, three tags
  filled in and at least two observations. */
  lemma ObservationIsAtMost84(h: Handover)
    ensures ObservationSum(h) <= 84
    ensures ObservationSum(h) == 84 <==> Hits(h) == 3 && CountFilled(h.tags) >= 3 && CountFilled(h.observations) >= 2
  {
  }

  lemma LowerOfJoined(a: string, b: string)
    ensures Text.Lower(a + " " + b) == Text.Lower(a) + " " + Text.Lower(b)
  {
  }

  lemma SlicesOfJoined(a: string, b: string, i: nat, n: nat)
    ensures i + n <= |a| ==> (a + " " + b)[i..i + n] == a[i..i + n]
    ensures i + n <= |b| ==> (a + " " + b)[|a| + 1 + i..|a| + 1 + i + n] == b[i..i + n]
  {
    var text := a + " " + b;
    if i + n <= |b| {
      var inText, inB := text[|a| + 1 + i..|a| + 1 + i + n], b[i..i + n];
      forall k | 0 <= k < n ensures inText[k] == inB[k] {
        assert text[|a| + 1 + i + k] == b[i + k];
      }
    }
  }

  lemma JoinedWordIsOnOneSide(a: string, b: string, word: string, i: nat)
    requires ' ' !in word && word != "" && i + |word| <= |a + " " + b| && IsAt(a + " " + b, word, i)
    ensures Contains(a, word) || Contains(b, word)
  {
    if i + |word| <= |a| {
      SlicesOfJoined(a, b, i, |word|);
      assert IsAt(a, word, i);
    } else if i > |a| {
      SlicesOfJoined(a, b, i - |a| - 1, |word|);
      assert IsAt(b, word, i - |a| - 1);
    } else {
      SpaceIsInside(a, b, i, |word|);
    }
  }

  lemma WordIsOnOneSide(a: string, b: string, word: string)
    requires ' ' !in word && word != ""
    ensures Contains(a + " " + b, word) <==> Contains(a, word) || Contains(b, word)
  {
    var text, n := a + " " + b, |word|;
    if Contains(text, word) {
      var i :| 0 <= i <= |text| - n && IsAt(text, word, i);
      JoinedWordIsOnOneSide(a, b, word, i);
    }
    if Contains(a, word) {
      var i :| 0 <= i <= |a| - n && IsAt(a, word, i);
      SlicesOfJoined(a, b, i, n);
      assert IsAt(text, word, i);
    }
    if Contains(b, word) {
      var i :| 0 <= i <= |b| - n && IsAt(b, word, i);
      SlicesOfJoined(a, b, i, n);
      assert IsAt(text, word, |a| + 1 + i);
    }
  }

  lemma SpaceIsInside(a: string, b: string, i: nat, n: nat)
    requires i <= |a| < i + n <= |a| + 1 + |b|
    ensures ' ' in (a + " " + b)[i..i + n]
  {
    assert (a + " " + b)[i..i + n][|a| - i] == ' ';
  }

  /** A word is found in the joined notes exactly when one note has it: joining neither makes nor breaks a word. */
  lemma {:induction false} WordIsInOneNote(notes: seq<string>, word: string)
    requires ' ' !in word && word != ""
    ensures Contains(Text.Lower(Join(notes)), word) <==>
            exists note :: note in notes && Contains(Text.Lower(note), word)
  {
    if |notes| == 1 {
      assert notes[0] in notes;
    } else if |notes| > 1 {
      WordIsInOneNote(notes[1..], word);
      LowerOfJoined(notes[0], Join(notes[1..]));
      WordIsOnOneSide(Text.Lower(notes[0]), Text.Lower(Join(notes[1..])), word);
      assert notes == [notes[0]] + notes[1..];
    }
  }

  lemma MoreNotesHitNoLess(more: Handover, less: Handover, word: string)
    requires ' ' !in word && word != ""
    requires forall note :: note in less.observations + less.tags ==> note in more.observations + more.tags
    ensures Hit(more, word) >= Hit(less, word)
  {
    WordIsInOneNote(more.observations + more.tags, word);
    WordIsInOneNote(less.observations + less.tags, word);
  }

  lemma ScoreRises(hits: nat, observations: nat, tags: nat, fewerHits: nat, fewerObservations: nat, fewerTags: nat)
    requires fewerHits <= hits && fewerObservations <= observations && fewerTags <= tags
    ensures ScoreOf(fewerHits, fewerObservations, fewerTags) <= ScoreOf(hits, observations, tags)
  {
  }

  lemma MoreNotesHitMore(more: Handover, less: Handover)
    requires more.activeTime == less.activeTime && more.food == less.food && more.play == less.play
    requires forall note :: note in less.observations + less.tags ==> note in more.observations + more.tags
    ensures Hits(more) >= Hits(less)
  {
    MoreNotesHitNoLess(more, less, TimeKeyword(less.activeTime));
    MoreNotesHitNoLess(more, less, FoodKeyword(less.food));
    MoreNotesHitNoLess(more, less, PlayKeyword(less.play));
  }

  /** Handing over more notes about the same dragon never lowers the observation score. */
  lemma MoreNotesScoreNoLess(more: Handover, less: Handover)
    requires more.activeTime == less.activeTime && more.food == less.food && more.play == less.play
    requires forall note :: note in less.observations + less.tags ==> note in more.observations + more.tags
    requires CountFilled(more.observations) >= CountFilled(less.observations)
    requires CountFilled(more.tags) >= CountFilled(less.tags)
    ensures ObservationSum(more) >= ObservationSum(less)
  {
    MoreNotesHitMore(more, less);
    ScoreRises(Hits(more), CountFilled(more.observations), CountFilled(more.tags),
               Hits(less), CountFilled(less.observations), CountFilled(less.tags));
  }
}
