/**
 * The scoring done when a typed attempt is submitted: accuracy, words per
 * minute, time taken, and the feedback tier with its message.
 *
 * The game shows each figure with two decimals (`toFixed(2)`) and compares the
 * tier thresholds against those rounded figures, so every figure here is an
 * integer number of hundredths, rounded half up.
 */
module Scoring {
  import opened JsStrings

  datatype Tier = Best | Good | Fair | Poor | Mismatch

  /** What one submission produces; all three figures are in hundredths. */
  datatype Score = Score(accuracy: int, wpm: int, timeTaken: int, tier: Tier)

  /**
   * How many typed characters equal the sample character at the same position;
   * a typed position past the end of the sample never matches.
   */
  function CorrectChars(input: string, text: string): (n: nat)
    ensures n <= |input| && n <= |text|
    decreases |input|
  {
    if input == [] then 0
    else
      var last := |input| - 1;
      CorrectChars(input[..last], text) + (if last < |text| && input[last] == text[last] then 1 else 0)
  }

  /** The positions at which the typed text agrees with the sample. */
  ghost function MatchPositions(input: string, text: string): set<nat> {
    set i: nat | i < |input| && i < |text| && input[i] == text[i]
  }

  /** The count is the number of agreeing positions. */
  lemma {:induction false} CorrectCharsCountsMatches(input: string, text: string)
    ensures CorrectChars(input, text) == |MatchPositions(input, text)|
    decreases |input|
  {
    if input == [] {
      assert MatchPositions(input, text) == {};
    } else {
      var last := |input| - 1;
      var prefix := input[..last];
      CorrectCharsCountsMatches(prefix, text);
      var before := MatchPositions(prefix, text);
      assert last !in before;
      if last < |text| && input[last] == text[last] {
        assert MatchPositions(input, text) == before + {last};
      } else {
        assert MatchPositions(input, text) == before;
      }
    }
  }

  /** A correctly typed beginning of the sample has every character right. */
  lemma {:induction false} CorrectPrefixAllCorrect(input: string, text: string)
    requires |input| <= |text| && input == text[..|input|]
    ensures CorrectChars(input, text) == |input|
    decreases |input|
  {
    if input != [] {
      var last := |input| - 1;
      assert input[..last] == text[..last];
      CorrectPrefixAllCorrect(input[..last], text);
    }
  }

  /** Characters typed beyond the sample's end add nothing to the count. */
  lemma {:induction false} CorrectCharsIgnoresOverrun(input: string, text: string)
    requires |input| >= |text|
    ensures CorrectChars(input, text) == CorrectChars(input[..|text|], text)
    decreases |input|
  {
    if |input| > |text| {
      var last := |input| - 1;
      assert input[..last][..|text|] == input[..|text|];
      CorrectCharsIgnoresOverrun(input[..last], text);
    } else {
      assert input[..|text|] == input;
    }
  }

  /**
   * `num / den` rounded to the nearest integer, halves rounded up: the result
   * lies within one half of the exact quotient, and a tie goes up.
   */
  function RoundHalfUp(num: nat, den: nat): (r: nat)
    requires den > 0
    ensures 2 * r * den <= 2 * num + den < 2 * (r + 1) * den
  {
    var x, d := 2 * num + den, 2 * den;
    var q := x / d;
    assert x == q * d + x % d;
    assert 2 * q * den == q * d && 2 * (q + 1) * den == q * d + d;
    q
  }

  /** A rounded figure reaches a threshold exactly when the exact value reaches the threshold less one half. */
  lemma RoundedAtLeast(num: nat, den: nat, k: nat)
    requires den > 0
    ensures RoundHalfUp(num, den) >= k <==> 2 * num + den >= 2 * k * den
  {
    var r := RoundHalfUp(num, den);
    if r >= k {
      assert r * den >= k * den;
    } else {
      assert (r + 1) * den <= k * den;
    }
  }

  /** The typed text's accuracy in hundredths of a percent, `correct / typed * 100` rounded. */
  function Accuracy(input: string, text: string): (r: nat)
    requires |input| > 0
    ensures r <= 10000
    ensures CorrectChars(input, text) == |input| ==> r == 10000
    ensures CorrectChars(input, text) == 0 ==> r == 0
  {
    var c := CorrectChars(input, text);
    RoundedAtLeast(c * 10000, |input|, 10001);
    RoundedAtLeast(c * 10000, |input|, 10000);
    RoundedAtLeast(c * 10000, |input|, 1);
    RoundHalfUp(c * 10000, |input|)
  }

  /** The figure reaches 90.00 exactly when the exact accuracy reaches 89.995%. */
  lemma AccuracyAtLeastNinety(input: string, text: string)
    requires |input| > 0
    ensures Accuracy(input, text) >= 9000 <==> 20000 * CorrectChars(input, text) + |input| >= 18000 * |input|
  {
    RoundedAtLeast(CorrectChars(input, text) * 10000, |input|, 9000);
  }

  /**
   * Words per minute in hundredths: `words / (elapsedMs / 60000)` rounded, and
   * 0 when no positive time has elapsed.
   */
  function Wpm(words: nat, elapsedMs: int): (r: nat)
    ensures elapsedMs <= 0 ==> r == 0
  {
    if elapsedMs > 0 then RoundHalfUp(words * 6000000, elapsedMs) else 0
  }

  /** For a positive time, the figure is the exact words per minute to the nearest hundredth. */
  lemma WpmIsWordsPerMinute(words: nat, elapsedMs: int)
    requires elapsedMs > 0
    ensures var r := Wpm(words, elapsedMs);
      2 * r * elapsedMs <= 2 * (words * 6000000) + elapsedMs < 2 * (r + 1) * elapsedMs
  {
  }

  /** The figure reaches 10.00 exactly when the exact words per minute reach 9.995. */
  lemma WpmAtLeastTen(words: nat, elapsedMs: int)
    requires elapsedMs > 0
    ensures Wpm(words, elapsedMs) >= 1000 <==> 12000000 * words + elapsedMs >= 2000 * elapsedMs
  {
    RoundedAtLeast(words * 6000000, elapsedMs, 1000);
  }

  /** Elapsed seconds in hundredths, rounded half away from zero as `toFixed` does. */
  function TimeTaken(elapsedMs: int): (r: int)
    ensures elapsedMs >= 0 ==> 0 <= r && 20 * r <= 2 * elapsedMs + 10 < 20 * (r + 1)
    ensures elapsedMs < 0 ==> r <= 0 && 20 * -r <= -2 * elapsedMs + 10 < 20 * (-r + 1)
  {
    if elapsedMs >= 0 then RoundHalfUp(elapsedMs, 10) as int else -(RoundHalfUp(-elapsedMs, 10) as int)
  }

  /** The number of words in the sample: the pieces of `text.split(' ')`. */
  function WordCount(text: string): (n: nat)
    ensures n == CountSpaces(text) + 1
  {
    SplitCountIsSpacesPlusOne(text);
    |SplitOnSpace(text)|
  }

  /**
   * The feedback tier. `matched` says whether the trimmed attempt equals the
   * trimmed sample; `accuracy` and `wpm` are in hundredths. The top tier needs
   * wpm of at least 10, the two middle tiers need more than 10.
   */
  function Classify(matched: bool, accuracy: int, wpm: int): (t: Tier)
    ensures InBand(t, matched, accuracy, wpm)
  {
    if !matched then Mismatch
    else if accuracy >= 9000 && wpm >= 1000 then Best
    else if accuracy >= 8000 && accuracy < 9000 && wpm > 1000 then Good
    else if accuracy >= 6000 && accuracy < 8000 && wpm > 1000 then Fair
    else Poor
  }

  /** The five tiers as a table of disjoint conditions, one per tier. */
  predicate InBand(t: Tier, matched: bool, accuracy: int, wpm: int) {
    match t
    case Mismatch => !matched
    case Best => matched && 9000 <= accuracy && 1000 <= wpm
    case Good => matched && 8000 <= accuracy < 9000 && 1000 < wpm
    case Fair => matched && 6000 <= accuracy < 8000 && 1000 < wpm
    case Poor =>
      && matched
      && !(9000 <= accuracy && 1000 <= wpm)
      && !(8000 <= accuracy < 9000 && 1000 < wpm)
      && !(6000 <= accuracy < 8000 && 1000 < wpm)
  }

  /** Every submission falls in exactly one band, and that is the tier chosen. */
  lemma ClassifyPicksTheOneBand(matched: bool, accuracy: int, wpm: int, t: Tier)
    ensures Classify(matched, accuracy, wpm) == t <==> InBand(t, matched, accuracy, wpm)
  {
  }

  /**
   * The asymmetric wpm thresholds: at exactly 10 wpm, 90% accuracy earns the
   * top tier while 80% to 90% falls through to the lowest matched tier.
   */
  lemma TenWpmBoundary(accuracy: int)
    ensures accuracy >= 9000 ==> Classify(true, accuracy, 1000) == Best
    ensures 8000 <= accuracy < 9000 ==> Classify(true, accuracy, 1000) == Poor
  {
  }

  /** The feedback line: an emoji, a space and a message. */
  function FeedbackMessage(t: Tier): (s: string)
    ensures |s| > 0
  {
    match t
    case Best => "\U{1F31F} Excellent! You\U{2019}re a pro!"
    case Good => "\U{1F60A} Great job! Keep practicing!"
    case Fair => "\U{1F610} Good effort, but there\U{2019}s room for improvement!"
    case Poor => "\U{1F61F} Don\U{2019}t worry, keep practicing and you\U{2019}ll get better!"
    case Mismatch => "\U{1F615} Oops! You missed some parts. Try again!"
  }

  /** Each tier has its own message, so the feedback shown identifies the tier. */
  lemma FeedbackIdentifiesTier(t1: Tier, t2: Tier)
    requires FeedbackMessage(t1) == FeedbackMessage(t2)
    ensures t1 == t2
  {
    assert FeedbackMessage(t1)[0] == FeedbackMessage(t2)[0];
  }

  /**
   * Scores one submission of `input` against the sample `text` after
   * `elapsedMs` milliseconds. The attempt must be non-empty, as the submit
   * button is disabled otherwise.
   */
  function Evaluate(text: string, input: string, elapsedMs: int): (r: Score)
    requires |input| > 0
    ensures 0 <= r.accuracy <= 10000 && 0 <= r.wpm
    ensures r.tier == Mismatch <==> Trim(input) != Trim(text)
    ensures elapsedMs <= 0 ==> r.wpm == 0 && r.tier in {Poor, Mismatch}
    ensures r.tier == Best ==> r.accuracy >= 9000 && r.wpm >= 1000
    ensures r.tier in {Good, Fair} ==> r.wpm > 1000
  {
    var accuracy := Accuracy(input, text);
    var wpm := Wpm(WordCount(text), elapsedMs);
    Score(accuracy, wpm, TimeTaken(elapsedMs), Classify(Trim(input) == Trim(text), accuracy, wpm))
  }

  /** Typing the sample exactly gives 100.00% accuracy. */
  lemma ExactCopyIsFullyAccurate(text: string, elapsedMs: int)
    requires |text| > 0
    ensures Evaluate(text, text, elapsedMs).accuracy == 10000
    ensures Evaluate(text, text, elapsedMs).tier != Mismatch
  {
    assert text[..|text|] == text;
    CorrectPrefixAllCorrect(text, text);
  }

  /**
   * In exact terms: a matched attempt with accuracy of at least 90% and at
   * least 10 words per minute earns the top tier.
   */
  lemma ExactThresholdsEarnBest(text: string, input: string, elapsedMs: int)
    requires |input| > 0 && Trim(input) == Trim(text) && elapsedMs > 0
    requires CorrectChars(input, text) * 100 >= 90 * |input|
    requires WordCount(text) * 60000 >= 10 * elapsedMs
    ensures Evaluate(text, input, elapsedMs).tier == Best
  {
    AccuracyAtLeastNinety(input, text);
    WpmAtLeastTen(WordCount(text), elapsedMs);
  }

  /**
   * An attempt that stops one visible character short of the sample never
   * matches it, however good its figures.
   */
  lemma MissingLastCharacterMismatches(input: string, c: char, elapsedMs: int)
    requires |input| > 0 && !IsWhitespace(c)
    ensures Evaluate(input + [c], input, elapsedMs).tier == Mismatch
  {
    TrimKeepsFinalVisibleCharacter(input, c);
  }

  /** An exact copy typed at no less than 10 words per minute earns the top tier. */
  lemma ExactCopyAtTenWpmIsBest(text: string, elapsedMs: int)
    requires |text| > 0 && elapsedMs > 0
    requires WordCount(text) * 60000 >= 10 * elapsedMs
    ensures Evaluate(text, text, elapsedMs) == Score(10000, Wpm(WordCount(text), elapsedMs), TimeTaken(elapsedMs), Best)
  {
    ExactCopyIsFullyAccurate(text, elapsedMs);
    ExactThresholdsEarnBest(text, text, elapsedMs);
  }

  /**
   * The tiers compare rounded figures: an accuracy of 89.996% shows as 90.00
   * and passes the 90% threshold.
   */
  lemma RoundingReachesTopAccuracy()
    ensures 22499 * 100 < 90 * 25000
    ensures RoundHalfUp(22499 * 10000, 25000) == 9000
  {
    RoundedAtLeast(22499 * 10000, 25000, 9000);
    RoundedAtLeast(22499 * 10000, 25000, 9001);
  }
}
