/**
 * Score arithmetic of src/utils/scoring.js: the percentage of correct
 * answers rounded to two decimals, and the mean of completed attempts'
 * scores. Numbers are exact rationals; the rounding that
 * Number.prototype.toFixed(2) and Math.round perform is written out.
 */
module Scoring {
  import opened Common

  /** Math.round: nearest integer, halves rounded up. */
  function MathRound(x: real): (r: int)
    ensures r as real - 1.0 / 2.0 <= x < r as real + 1.0 / 2.0
  {
    (x + 1.0 / 2.0).Floor
  }

  /**
   * parseFloat(x.toFixed(2)) on the exact value x: the nearest multiple of
   * 1/100, halves rounded away from zero.
   */
  function Round2(x: real): (r: real)
    ensures x >= 0.0 ==> r >= 0.0 && r - 1.0 / 200.0 <= x < r + 1.0 / 200.0
    ensures x < 0.0 ==> r <= 0.0 && r - 1.0 / 200.0 < x <= r + 1.0 / 200.0
    ensures (r * 100.0).Floor as real == r * 100.0
  {
    if x >= 0.0 then Hundredths((x * 100.0 + 1.0 / 2.0).Floor)
    else Hundredths(-(-x * 100.0 + 1.0 / 2.0).Floor)
  }

  /** k hundredths: a value with at most two decimals. */
  function Hundredths(k: int): (r: real)
    ensures r * 100.0 == k as real
    ensures (r * 100.0).Floor == k
  {
    k as real / 100.0
  }

  /** A value between two whole numbers still lies between them after Round2. */
  lemma Round2Between(x: real, lo: int, hi: int)
    requires lo as real <= x <= hi as real
    requires 0 <= lo
    ensures lo as real <= Round2(x) <= hi as real
  {
    var k := (x * 100.0 + 1.0 / 2.0).Floor;
    assert lo * 100 <= k <= hi * 100;
  }

  /** Round2 does not reverse the order of two non-negative values. */
  lemma Round2Monotone(x: real, y: real)
    requires 0.0 <= x <= y
    ensures Round2(x) <= Round2(y)
  {
    var a := (x * 100.0 + 1.0 / 2.0).Floor;
    var b := (y * 100.0 + 1.0 / 2.0).Floor;
    assert a <= b;
  }

  /** calculateScore: the percentage correct/total, two decimals; 0 when there is nothing to grade. */
  function CalculateScore(correct: int, total: int): (r: real)
    ensures total == 0 ==> r == 0.0
    ensures 0 <= correct <= total && total > 0 ==> 0.0 <= r <= 100.0
    ensures total != 0 && correct as real / total as real >= 0.0 ==>
      r - 1.0 / 200.0 <= correct as real / total as real * 100.0 < r + 1.0 / 200.0
    ensures (r * 100.0).Floor as real == r * 100.0
  {
    if total == 0 then 0.0
    else
      var x := correct as real / total as real * 100.0;
      if 0 <= correct <= total then
        assert x <= 100.0 by {
          assert correct as real / total as real <= 1.0;
        }
        Round2Between(x, 0, 100);
        Round2(x)
      else Round2(x)
  }

  /** The score of a graded attempt: Math.round of calculateScore. */
  function AttemptScore(correct: int, total: int): int
  {
    MathRound(CalculateScore(correct, total))
  }

  /**
   * With no more correct answers than questions the score is a percentage:
   * between 0 and 100, exactly 100 for a perfect attempt and 0 for none.
   */
  lemma ScoreIsPercentage(correct: int, total: int)
    requires 0 <= correct <= total
    ensures 0.0 <= CalculateScore(correct, total) <= 100.0
    ensures 0 <= AttemptScore(correct, total) <= 100
    ensures total > 0 && correct == total ==> AttemptScore(correct, total) == 100
    ensures correct == 0 ==> AttemptScore(correct, total) == 0
  {
    if total > 0 {
      var x := correct as real / total as real * 100.0;
      assert x <= 100.0 by {
        assert correct as real / total as real <= 1.0;
      }
      Round2Between(x, 0, 100);
      if correct == total {
        var t := total as real;
        assert t / t == 1.0;
        assert correct as real == t;
        assert x == 100.0;
        Round2Between(x, 100, 100);
      }
      if correct == 0 {
        Round2Between(x, 0, 0);
      }
    }
  }

  /** More correct answers never give a lower score. */
  lemma ScoreMonotone(c1: int, c2: int, total: int)
    requires 0 <= c1 <= c2 && 0 < total
    ensures CalculateScore(c1, total) <= CalculateScore(c2, total)
    ensures AttemptScore(c1, total) <= AttemptScore(c2, total)
  {
    var x := c1 as real / total as real * 100.0;
    var y := c2 as real / total as real * 100.0;
    assert x <= y by {
      assert c1 as real / total as real <= c2 as real / total as real;
    }
    Round2Monotone(x, y);
  }

  /** A missing totalScore adds nothing to a sum (JavaScript's acc + null). */
  function ScoreValue(s: Option<int>): int
  {
    match s
      case None => 0
      case Some(v) => v
  }

  function ScoreSum(scores: seq<Option<int>>): int
  {
    if |scores| == 0 then 0 else ScoreSum(scores[..|scores| - 1]) + ScoreValue(scores[|scores| - 1])
  }

  /** calculateAverageScore: the mean score rounded to two decimals; 0 for no attempts. */
  function CalculateAverageScore(scores: seq<Option<int>>): (r: real)
    ensures |scores| == 0 ==> r == 0.0
    ensures |scores| > 0 ==>
      var mean := ScoreSum(scores) as real / |scores| as real;
      && (mean >= 0.0 ==> r - 1.0 / 200.0 <= mean < r + 1.0 / 200.0)
      && (mean < 0.0 ==> r - 1.0 / 200.0 < mean <= r + 1.0 / 200.0)
    ensures (r * 100.0).Floor as real == r * 100.0
  {
    if |scores| == 0 then 0.0 else Round2(ScoreSum(scores) as real / |scores| as real)
  }

  lemma {:induction false} ScoreSumBounds(scores: seq<Option<int>>, lo: int, hi: int)
    requires forall i :: 0 <= i < |scores| ==> lo <= ScoreValue(scores[i]) <= hi
    ensures |scores| * lo <= ScoreSum(scores) <= |scores| * hi
    decreases |scores|
  {
    if |scores| > 0 {
      ScoreSumBounds(scores[..|scores| - 1], lo, hi);
    }
  }

  /** A rounded mean of n values in [lo, hi] (given by the bounds on their sum) stays in [lo, hi]. */
  lemma MeanBetween(total: int, n: int, lo: int, hi: int)
    requires n > 0 && 0 <= lo
    requires n * lo <= total <= n * hi
    ensures lo as real <= Round2(total as real / n as real) <= hi as real
  {
    var m := total as real / n as real;
    assert m * n as real == total as real;
    assert lo as real <= m by {
      assert lo as real * n as real <= total as real;
      RealMulMonotone(m, lo as real, n as real);
    }
    assert m <= hi as real by {
      assert hi as real * n as real >= total as real;
      RealMulMonotone(hi as real, m, n as real);
    }
    Round2Between(m, lo, hi);
  }

  /** Dividing by a positive real keeps order: if a < b then a * n < b * n. */
  lemma RealMulMonotone(a: real, b: real, n: real)
    requires n > 0.0 && b * n <= a * n
    ensures b <= a
  {
    assert a * n - b * n == (a - b) * n;
  }

  /** The average of scores in [lo, hi] stays in [lo, hi]. */
  lemma AverageBetween(scores: seq<Option<int>>, lo: int, hi: int)
    requires |scores| > 0 && 0 <= lo
    requires forall i :: 0 <= i < |scores| ==> lo <= ScoreValue(scores[i]) <= hi
    ensures lo as real <= CalculateAverageScore(scores) <= hi as real
  {
    ScoreSumBounds(scores, lo, hi);
    MeanBetween(ScoreSum(scores), |scores|, lo, hi);
  }

  /** The averages stated for two and three completed attempts. */
  lemma AverageExamples()
    ensures CalculateAverageScore([Some(80), Some(60)]) == 70.0
    ensures CalculateAverageScore([Some(80), Some(60), Some(100)]) == 80.0
  {
    assert ScoreSum([Some(80), Some(60)]) == 140 by {
      assert [Some(80), Some(60)][..1] == [Some(80)];
    }
    assert ScoreSum([Some(80), Some(60), Some(100)]) == 240 by {
      assert [Some(80), Some(60), Some(100)][..2] == [Some(80), Some(60)];
      assert [Some(80), Some(60)][..1] == [Some(80)];
    }
  }
}
