/**
 * The pure arithmetic of the quiz: the table of expected level sizes and pass
 * marks, the effective pass mark of a level that holds fewer questions than
 * expected, the overall percentage of the final summary and the clock text.
 *
 * The source computes these with floating point (`Math.ceil`, `Math.round`);
 * here they are exact integer ceiling and half-up rounding.
 */
module QuizRules {
  import opened Wrappers

  /** Seconds on the clock at the start of every question. */
  const QUESTION_TIME: nat := 15

  /** The number of levels of a subject. */
  const LEVEL_COUNT: nat := 3

  /** The configured question count (`size`) and pass mark (`pass`) of a level. */
  datatype LevelRule = LevelRule(size: nat, pass: nat)

  /** The `EXPECTED` table, looked up by level number (`level1` .. `level3`). */
  function Expected(level: int): (r: Option<LevelRule>)
    ensures r.Some? <==> 1 <= level <= LEVEL_COUNT
    ensures r.Some? ==> 0 < r.value.pass <= r.value.size
  {
    if level == 1 then Some(LevelRule(50, 45))
    else if level == 2 then Some(LevelRule(60, 55))
    else if level == 3 then Some(LevelRule(80, 75))
    else None
  }

  /** a / b rounded up to an integer. */
  function CeilDiv(a: nat, b: nat): nat
    requires b > 0
  {
    (a + b - 1) / b
  }

  /** CeilDiv gives the least integer at or above a / b. */
  lemma CeilDivIsCeiling(a: nat, b: nat)
    requires b > 0
    ensures CeilDiv(a, b) * b >= a
    ensures CeilDiv(a, b) == 0 || (CeilDiv(a, b) - 1) * b < a
  {
    var q := CeilDiv(a, b);
    assert q * b + (a + b - 1) % b == a + b - 1;
  }

  function Max(a: nat, b: nat): nat { if a < b then b else a }

  /**
   * The size and pass mark in force for a level holding `count` questions:
   * its table entry, or else the count itself with a pass mark of 70% rounded up.
   */
  function RuleFor(level: int, count: nat): LevelRule
  {
    match Expected(level)
    case Some(rule) => rule
    case None => LevelRule(count, CeilDiv(7 * count, 10))
  }

  /** The rule in force never asks for more than its size; the fallback asks for at least 70%. */
  lemma RuleForBounds(level: int, count: nat)
    ensures RuleFor(level, count).pass <= RuleFor(level, count).size
    ensures Expected(level).None? ==>
      RuleFor(level, count).size == count && RuleFor(level, count).pass * 10 >= 7 * count
  {
    CeilDivIsCeiling(7 * count, 10);
  }

  /**
   * The effective pass mark of a level holding `count` questions: when the
   * level is shorter than its configured size the pass mark is scaled down in
   * proportion and rounded up, but never below 1.
   */
  function Required(level: int, count: nat): nat
  {
    var rule := RuleFor(level, count);
    if count < rule.size then Max(1, CeilDiv(rule.pass * count, rule.size)) else rule.pass
  }

  /**
   * A short level's pass mark is the least integer, but at least 1, that is no
   * smaller than pass * count / size; a full level's is the configured one.
   */
  lemma RequiredIsScaledCeiling(level: int, count: nat)
    ensures var rule, r := RuleFor(level, count), Required(level, count);
      if count < rule.size then
        1 <= r && r * rule.size >= rule.pass * count
        && (r == 1 || (r - 1) * rule.size < rule.pass * count)
      else r == rule.pass
  {
    var rule := RuleFor(level, count);
    if count < rule.size {
      CeilDivIsCeiling(rule.pass * count, rule.size);
    }
  }

  /** A level result passes when the score reaches the effective pass mark. */
  predicate Passes(level: int, score: nat, count: nat) {
    score >= Required(level, count)
  }

  lemma MulLeft(a: nat, b: nat, c: nat)
    requires a <= b
    ensures a * c <= b * c
  {}

  /**
   * Scaling never makes a non-empty level unpassable nor trivial: the effective
   * pass mark lies between 1 and the number of questions the level holds.
   */
  lemma RequiredWithinLevel(level: int, count: nat)
    requires count > 0
    ensures 1 <= Required(level, count) <= count
  {
    var rule := RuleFor(level, count);
    var r := Required(level, count);
    RuleForBounds(level, count);
    RequiredIsScaledCeiling(level, count);
    if count < rule.size {
      if r > count {
        // then (r - 1) * size >= count * size >= pass * count, against the ceiling
        MulLeft(count, r - 1, rule.size);
        MulLeft(rule.pass, rule.size, count);
        assert false;
      }
    } else if Expected(level).None? {
      assert rule.pass * 10 >= 7 * count;
    }
  }

  /** A perfect score always passes a non-empty level. */
  lemma PerfectScorePasses(level: int, count: nat)
    requires count > 0
    ensures Passes(level, count, count)
  {
    RequiredWithinLevel(level, count);
  }

  /** Scaling only ever lowers the configured pass mark. */
  lemma RequiredAtMostPass(level: int, count: nat)
    ensures Required(level, count) <= RuleFor(level, count).pass
  {
    var rule := RuleFor(level, count);
    var r := Required(level, count);
    RuleForBounds(level, count);
    RequiredIsScaledCeiling(level, count);
    if count < rule.size && r > rule.pass {
      if Expected(level).None? {
        assert false;
      }
      MulLeft(rule.pass, r - 1, rule.size);
      MulLeft(count, rule.size, rule.pass);
      assert false;
    }
  }

  /** A level with more questions does not have a lower effective pass mark. */
  lemma RequiredMonotone(level: int, small: nat, large: nat)
    requires small <= large
    ensures Required(level, small) <= Required(level, large)
  {
    var r1, r2 := Required(level, small), Required(level, large);
    RuleForBounds(level, small);
    RuleForBounds(level, large);
    RequiredIsScaledCeiling(level, small);
    RequiredIsScaledCeiling(level, large);
    if Expected(level).Some? {
      var rule := Expected(level).value;
      RequiredAtMostPass(level, small);
      if large < rule.size && r1 > r2 {
        MulLeft(r2, r1 - 1, rule.size);
        MulLeft(small, large, rule.pass);
        assert false;
      }
    }
  }

  /** The overall percentage, `Math.round(correct / total * 100)`, rounded half up. */
  function Percent(correct: nat, total: nat): nat
    requires total > 0
  {
    (200 * correct + total) / (2 * total)
  }

  /** Percent is 100 * correct / total rounded to the nearest integer, halves upwards. */
  lemma PercentIsRounded(correct: nat, total: nat)
    requires total > 0
    ensures var p := Percent(correct, total);
      2 * total * p <= 200 * correct + total < 2 * total * (p + 1)
  {
    var d, p := 2 * total, Percent(correct, total);
    assert p * d + (200 * correct + total) % d == 200 * correct + total;
  }

  /** A percentage of a fraction at most one is at most 100; all correct gives exactly 100, none 0. */
  lemma PercentBounds(correct: nat, total: nat)
    requires 0 < total && correct <= total
    ensures Percent(correct, total) <= 100
    ensures correct == total ==> Percent(correct, total) == 100
    ensures correct == 0 ==> Percent(correct, total) == 0
  {
    var p := Percent(correct, total);
    PercentIsRounded(correct, total);
    if p > 100 {
      MulLeft(101, p, 2 * total);
      assert false;
    }
    if correct == total && p < 100 {
      MulLeft(p + 1, 100, 2 * total);
      assert false;
    }
    if correct == 0 && p > 0 {
      MulLeft(1, p, 2 * total);
      assert false;
    }
  }

  // ----- the clock text -----

  predicate IsDigit(c: char) { '0' <= c <= '9' }

  function DigitChar(d: nat): (c: char)
    requires d < 10
    ensures IsDigit(c)
  {
    ('0' as int + d) as char
  }

  function DigitValue(c: char): nat
    requires IsDigit(c)
  {
    c as int - '0' as int
  }

  predicate AllDigits(s: string) { forall i :: 0 <= i < |s| ==> IsDigit(s[i]) }

  /** The value of a string of decimal digits. */
  function ParseNat(s: string): nat
    requires AllDigits(s)
  {
    if s == [] then 0 else 10 * ParseNat(s[..|s| - 1]) + DigitValue(s[|s| - 1])
  }

  /** JavaScript's decimal text of a non-negative integer below 10^21 (larger ones print in exponent form). */
  function NatString(n: nat): string
  {
    if n < 10 then [DigitChar(n)] else NatString(n / 10) + [DigitChar(n % 10)]
  }

  /** JavaScript's decimal text of an integer of magnitude below 10^21, as template interpolation `${i}` gives it. */
  function IntString(i: int): string
  {
    if i < 0 then "-" + NatString(-i) else NatString(i)
  }

  /** The text of an integer is its digits, without a leading zero, and reads back as the integer. */
  lemma {:induction false} NatStringRoundTrip(n: nat)
    ensures NatString(n) != [] && AllDigits(NatString(n))
    ensures ParseNat(NatString(n)) == n
    ensures NatString(n)[0] == '0' ==> n == 0
    ensures |NatString(n)| == 1 <==> n < 10
  {
    var s := NatString(n);
    if n >= 10 {
      NatStringRoundTrip(n / 10);
      var t := NatString(n / 10);
      assert s == t + [DigitChar(n % 10)];
      assert s[..|s| - 1] == t;
    }
  }

  /** The timer text: `00:0s` below ten seconds, `00:s` otherwise. */
  function FormatTime(s: int): string
  {
    if s < 10 then "00:0" + IntString(s) else "00:" + IntString(s)
  }

  /**
   * Every value the countdown shows (from QUESTION_TIME down to 0) gives five
   * characters "00:" followed by two digits that read back as the seconds.
   */
  lemma {:induction false} FormatTimeClock(s: int)
    requires 0 <= s <= QUESTION_TIME
    ensures |FormatTime(s)| == 5 && FormatTime(s)[..3] == "00:"
    ensures AllDigits(FormatTime(s)[3..]) && ParseNat(FormatTime(s)[3..]) == s
  {
    var r := FormatTime(s);
    NatStringRoundTrip(s);
    if s < 10 {
      assert r[3..] == ['0'] + NatString(s);
      assert |NatString(s)| == 1;
      var d := r[3..];
      assert d[..1] == ['0'];
    } else {
      assert r[3..] == NatString(s);
      NatStringRoundTrip(s / 10);
    }
  }

  /** The effective pass marks worked out for a few level sizes. */
  lemma ScalingExamples()
    ensures Required(1, 30) == 27 && Passes(1, 27, 30) && !Passes(1, 26, 30)
    ensures Required(1, 1) == 1
    ensures Required(1, 50) == 45 && Required(1, 70) == 45
    ensures Required(3, 1) == 1 && Required(2, 30) == 28
  {}
}
