/**
 * The pure scoring rules of front/src/App.jsx: whether an answer is correct,
 * the points a correct answer earns, and the accuracy percentage shown at the end.
 */
module Scoring {
  import opened Wrappers

  /** The countdown length of one question, in seconds. */
  const QuestionSeconds: nat := 30

  /** `index !== null && index === currentQ.correctAnswer`: None stands for the timeout's null. */
  function IsCorrect(index: Option<int>, correctAnswer: int): (r: bool)
    ensures r <==> index == Some(correctAnswer)
  {
    index.Some? && index.value == correctAnswer
  }

  /** A timeout is never a correct answer. */
  lemma TimeoutIsWrong(correctAnswer: int)
    ensures !IsCorrect(None, correctAnswer)
  {
  }

  /** The difficulty multiplier as the source writes it: 2 for "hard", 1.5 for "medium", 1 otherwise. */
  function Multiplier(difficulty: string): real {
    if difficulty == "hard" then 2.0 else if difficulty == "medium" then 1.5 else 1.0
  }

  /** 100 + 50 per streak step + floor(5 * timeLeft): the points before the multiplier. */
  function BasePoints(streak: nat, timeLeft: nat): (b: nat)
    ensures b >= 100
  {
    100 + streak * 50 + 5 * timeLeft
  }

  /**
   * floor(base * multiplier) in integer arithmetic: the base is an integer, so
   * floor(base * 1.5) is (3 * base) / 2 exactly.
   */
  function Points(streak: nat, timeLeft: nat, difficulty: string): nat {
    var base := BasePoints(streak, timeLeft);
    if difficulty == "hard" then 2 * base
    else if difficulty == "medium" then (3 * base) / 2
    else base
  }

  /** The integer formula equals Math.floor((100 + streak*50 + floor(timeLeft*5)) * multiplier) on exact reals. */
  lemma PointsIsFlooredProduct(streak: nat, timeLeft: nat, difficulty: string)
    ensures Points(streak, timeLeft, difficulty) == ((BasePoints(streak, timeLeft) as real) * Multiplier(difficulty)).Floor
  {
    var b := BasePoints(streak, timeLeft);
    if difficulty != "hard" && difficulty == "medium" {
      var p := (3 * b) / 2;
      assert 2 * p <= 3 * b < 2 * p + 2;
      assert (p as real) <= (b as real) * 1.5 < (p as real) + 1.0;
    }
  }

  /** A correct answer is worth at least 100 points, and never less than the base. */
  lemma PointsAtLeastBase(streak: nat, timeLeft: nat, difficulty: string)
    ensures Points(streak, timeLeft, difficulty) >= BasePoints(streak, timeLeft) >= 100
  {
  }

  /** More streak or more time left never earns fewer points. */
  lemma PointsMonotone(streak: nat, timeLeft: nat, streak': nat, timeLeft': nat, difficulty: string)
    requires streak <= streak' && timeLeft <= timeLeft'
    ensures Points(streak, timeLeft, difficulty) <= Points(streak', timeLeft', difficulty)
  {
  }

  /** The concrete case streak 2, 10 seconds left, "hard": (100 + 100 + 50) * 2 = 500. */
  lemma PointsExample()
    ensures Points(2, 10, "hard") == 500 && Points(2, 10, "medium") == 375 && Points(2, 10, "easy") == 250
  {
  }

  /**
   * Math.round(correct / total * 100), or 0 with no questions. Math.round rounds
   * halves up, i.e. floor(x + 1/2); on exact rationals that is (200c + n) div 2n.
   */
  function Accuracy(correctAnswers: nat, total: nat): nat {
    if total > 0 then (200 * correctAnswers + total) / (2 * total) else 0
  }

  /** Integer division is the floor of real division. */
  lemma FloorOfQuotient(a: int, d: int)
    requires d > 0
    ensures ((a as real) / (d as real)).Floor == a / d
  {
    var q, dr := a / d, d as real;
    var y := (a as real) / dr;
    assert d * q <= a < d * q + d;
    assert ((d * q) as real) == (q as real) * dr;
    assert ((d * q + d) as real) == (q as real + 1.0) * dr;
    assert y * dr == a as real;
    LeFromScaled(q as real, y, dr);
    LtFromScaled(y, q as real + 1.0, dr);
  }

  lemma LeFromScaled(x: real, y: real, d: real)
    requires d > 0.0 && x * d <= y * d
    ensures x <= y
  {
    assert (y - x) * d >= 0.0;
  }

  lemma LtFromScaled(x: real, y: real, d: real)
    requires d > 0.0 && x * d < y * d
    ensures x < y
  {
    assert (y - x) * d > 0.0;
  }

  /** The quotient is the one multiple that brackets the dividend. */
  lemma DivBetween(a: int, d: int, q: int)
    requires d > 0 && d * q <= a < d * q + d
    ensures a / d == q
  {
    DivBelow(a, d, q + 1);
    DivAtLeast(a, d, q);
  }

  /** A dividend of at least d * k has a quotient of at least k. */
  lemma DivAtLeast(a: int, d: int, k: int)
    requires d > 0 && d * k <= a
    ensures k <= a / d
  {
    var r := a / d;
    assert d * (r + 1 - k) > 0;
  }

  /** A dividend below d * k has a quotient below k. */
  lemma DivBelow(a: int, d: int, k: int)
    requires d > 0 && a < d * k
    ensures a / d < k
  {
    var r := a / d;
    assert d * (k - r) > 0;
  }

  /** The integer formula is the half-up rounding of the exact percentage. */
  lemma AccuracyIsRoundedPercentage(correctAnswers: nat, total: nat)
    requires total > 0
    ensures Accuracy(correctAnswers, total)
         == ((correctAnswers as real) / (total as real) * 100.0 + 0.5).Floor
  {
    var c, n := correctAnswers as real, total as real;
    var x := c / n * 100.0 + 0.5;
    assert x == (200.0 * c + n) / (2.0 * n);
    FloorOfQuotient(200 * correctAnswers + total, 2 * total);
  }

  /** With at most as many correct answers as questions the accuracy is a percentage. */
  lemma AccuracyBounds(correctAnswers: nat, total: nat)
    requires correctAnswers <= total
    ensures Accuracy(correctAnswers, total) <= 100
    ensures total > 0 && correctAnswers == total ==> Accuracy(correctAnswers, total) == 100
    ensures correctAnswers == 0 ==> Accuracy(correctAnswers, total) == 0
  {
    if total > 0 {
      var n := total;
      DivBelow(200 * correctAnswers + n, 2 * n, 101);
      if correctAnswers == n {
        DivBetween(201 * n, 2 * n, 100);
      }
      if correctAnswers == 0 {
        DivBetween(n, 2 * n, 0);
      }
    }
  }
}
