/**
 * The session statistics of front/src/App.jsx as values: the effect of one
 * accepted answer (handleAnswerSelect) and the history-based meaning of the
 * streak, the best streak and the correct-answer count.
 */
module Session {
  import opened Wrappers
  import opened Questions
  import opened Scoring

  /** score, streak, maxStreak, correctAnswers, wrongAnswers, totalTime and answerHistory. */
  datatype Stats = Stats(
    score: nat,
    streak: nat,
    maxStreak: nat,
    correctAnswers: nat,
    wrongAnswers: nat,
    totalTime: nat,
    answerHistory: seq<AnswerRecord>)

  /** The statistics of a session that has not answered anything yet. */
  predicate IsEmpty(s: Stats) {
    && s.score == 0 && s.streak == 0 && s.maxStreak == 0
    && s.correctAnswers == 0 && s.wrongAnswers == 0 && s.totalTime == 0
    && |s.answerHistory| == 0
  }

  function Max(a: nat, b: nat): nat { if a >= b then a else b }

  /** The history entry for answering question `q` with `index` (None: timeout). */
  function RecordOf(q: Question, index: Option<int>): (r: AnswerRecord)
    ensures r.userAnswer == index && r.correctAnswer == q.correctAnswer
    ensures r.isCorrect <==> index == Some(q.correctAnswer)
  {
    AnswerRecord(q.question, q.options, index, q.correctAnswer, IsCorrect(index, q.correctAnswer), q.difficulty)
  }

  /** An entry records question `q` faithfully, with correctness computed from its own user answer. */
  predicate RecordMatches(r: AnswerRecord, q: Question) {
    r == RecordOf(q, r.userAnswer)
  }

  /**
   * One accepted submission at `timeLeft` seconds left: the time spent is added,
   * one entry appended; a correct answer earns Points and extends the streak,
   * anything else (a timeout included) breaks it and counts as wrong.
   */
  function Submit(s: Stats, q: Question, index: Option<int>, timeLeft: nat): Stats
    requires timeLeft <= QuestionSeconds
  {
    var logged := s.(totalTime := s.totalTime + (QuestionSeconds - timeLeft),
                     answerHistory := s.answerHistory + [RecordOf(q, index)]);
    if IsCorrect(index, q.correctAnswer) then
      logged.(score := s.score + Points(s.streak, timeLeft, q.difficulty),
              streak := s.streak + 1,
              maxStreak := Max(s.maxStreak, s.streak + 1),
              correctAnswers := s.correctAnswers + 1)
    else
      logged.(streak := 0, wrongAnswers := s.wrongAnswers + 1)
  }

  // ---------------------------------------------------------------------------
  // What the counters mean in terms of the history
  // ---------------------------------------------------------------------------

  function CountCorrect(h: seq<AnswerRecord>): (n: nat)
    ensures n <= |h|
  {
    if h == [] then 0 else CountCorrect(h[..|h| - 1]) + (if h[|h| - 1].isCorrect then 1 else 0)
  }

  /** The number of correct answers at the end of the history. */
  function TrailingRun(h: seq<AnswerRecord>): (n: nat)
    ensures n <= |h|
  {
    if h == [] then 0 else if h[|h| - 1].isCorrect then TrailingRun(h[..|h| - 1]) + 1 else 0
  }

  /** Exactly the last TrailingRun(h) entries are correct: the one before them, if any, is not. */
  lemma {:induction false} TrailingRunIsSuffix(h: seq<AnswerRecord>)
    ensures AllCorrect(h, |h| - TrailingRun(h), |h|)
    ensures TrailingRun(h) < |h| ==> !h[|h| - TrailingRun(h) - 1].isCorrect
    decreases |h|
  {
    if h != [] && h[|h| - 1].isCorrect {
      var p := h[..|h| - 1];
      TrailingRunIsSuffix(p);
      assert forall k :: 0 <= k < |p| ==> p[k] == h[k];
    }
  }

  /** The longest run of consecutive correct answers anywhere in the history. */
  function LongestRun(h: seq<AnswerRecord>): (n: nat)
    ensures TrailingRun(h) <= n <= |h|
  {
    if h == [] then 0 else Max(LongestRun(h[..|h| - 1]), TrailingRun(h))
  }

  predicate AllCorrect(h: seq<AnswerRecord>, i: int, j: int)
    requires 0 <= i <= j <= |h|
  {
    forall k :: i <= k < j ==> h[k].isCorrect
  }

  /** A correct run ending at the end of the history is no longer than TrailingRun. */
  lemma TrailingRunIsMaximal(h: seq<AnswerRecord>, i: nat)
    requires i <= |h| && AllCorrect(h, i, |h|)
    ensures |h| - i <= TrailingRun(h)
  {
    TrailingRunIsSuffix(h);
  }

  /** LongestRun is an upper bound of every run of correct answers, and some run reaches it. */
  lemma {:induction false} LongestRunIsLongest(h: seq<AnswerRecord>, i: nat, j: nat)
    requires i <= j <= |h| && AllCorrect(h, i, j)
    ensures j - i <= LongestRun(h)
    decreases |h|
  {
    if j == |h| {
      TrailingRunIsMaximal(h, i);
    } else {
      var p := h[..|h| - 1];
      assert AllCorrect(p, i, j) by {
        forall k | i <= k < j ensures p[k].isCorrect { assert p[k] == h[k]; }
      }
      LongestRunIsLongest(p, i, j);
    }
  }

  lemma {:induction false} LongestRunIsReached(h: seq<AnswerRecord>)
    ensures exists i, j :: 0 <= i <= j <= |h| && j - i == LongestRun(h) && AllCorrect(h, i, j)
    decreases |h|
  {
    if h == [] {
      assert AllCorrect(h, 0, 0);
    } else {
      var p := h[..|h| - 1];
      if LongestRun(h) == TrailingRun(h) {
        TrailingRunIsSuffix(h);
      } else {
        LongestRunIsReached(p);
        var i, j :| 0 <= i <= j <= |p| && j - i == LongestRun(p) && AllCorrect(p, i, j);
        assert AllCorrect(h, i, j) by {
          forall k | i <= k < j ensures h[k].isCorrect { assert p[k] == h[k]; }
        }
      }
    }
  }

  /** The counters agree with the history they summarise. */
  ghost predicate Consistent(s: Stats) {
    && s.streak == TrailingRun(s.answerHistory)
    && s.maxStreak == LongestRun(s.answerHistory)
    && s.correctAnswers == CountCorrect(s.answerHistory)
    && s.wrongAnswers == |s.answerHistory| - s.correctAnswers
    && s.score >= 100 * s.correctAnswers
    && s.totalTime <= QuestionSeconds * |s.answerHistory|
  }

  lemma EmptyIsConsistent(s: Stats)
    requires IsEmpty(s)
    ensures Consistent(s)
  {
  }

  /** In consistent statistics the best streak is at least the current one, and the current streak never exceeds the correct count, which never exceeds the history length. */
  lemma ConsistentBounds(s: Stats)
    requires Consistent(s)
    ensures s.maxStreak >= s.streak
    ensures s.streak <= s.correctAnswers <= |s.answerHistory|
  {
    TrailingRunCounted(s.answerHistory);
  }

  lemma {:induction false} TrailingRunCounted(h: seq<AnswerRecord>)
    ensures TrailingRun(h) <= CountCorrect(h)
    decreases |h|
  {
    if h != [] {
      TrailingRunCounted(h[..|h| - 1]);
    }
  }

  // ---------------------------------------------------------------------------
  // What one submission does
  // ---------------------------------------------------------------------------

  /** Exactly one entry is appended, earlier entries untouched, and 30 - timeLeft seconds are added. */
  lemma SubmitAppendsOneRecord(s: Stats, q: Question, index: Option<int>, timeLeft: nat)
    requires timeLeft <= QuestionSeconds
    ensures var t := Submit(s, q, index, timeLeft);
      && t.answerHistory == s.answerHistory + [RecordOf(q, index)]
      && |t.answerHistory| == |s.answerHistory| + 1
      && t.totalTime == s.totalTime + (QuestionSeconds - timeLeft) <= s.totalTime + QuestionSeconds
  {
  }

  /** A correct answer raises the score by Points (at least 100), extends the streak and counts as correct. */
  lemma SubmitCorrect(s: Stats, q: Question, index: Option<int>, timeLeft: nat)
    requires timeLeft <= QuestionSeconds && index == Some(q.correctAnswer)
    ensures var t := Submit(s, q, index, timeLeft);
      && t.score == s.score + Points(s.streak, timeLeft, q.difficulty) >= s.score + 100
      && t.streak == s.streak + 1
      && t.maxStreak == Max(s.maxStreak, s.streak + 1)
      && t.correctAnswers == s.correctAnswers + 1
      && t.wrongAnswers == s.wrongAnswers
  {
    PointsAtLeastBase(s.streak, timeLeft, q.difficulty);
  }

  /** A wrong answer or a timeout resets the streak and counts as wrong; score, best streak and correct count stay. */
  lemma SubmitWrong(s: Stats, q: Question, index: Option<int>, timeLeft: nat)
    requires timeLeft <= QuestionSeconds && index != Some(q.correctAnswer)
    ensures var t := Submit(s, q, index, timeLeft);
      && t.score == s.score
      && t.streak == 0
      && t.maxStreak == s.maxStreak
      && t.correctAnswers == s.correctAnswers
      && t.wrongAnswers == s.wrongAnswers + 1
  {
  }

  /** The score never decreases and the best streak never decreases. */
  lemma SubmitMonotone(s: Stats, q: Question, index: Option<int>, timeLeft: nat)
    requires timeLeft <= QuestionSeconds
    ensures Submit(s, q, index, timeLeft).score >= s.score
    ensures Submit(s, q, index, timeLeft).maxStreak >= s.maxStreak
  {
  }

  /** A submission keeps the counters in agreement with the (longer) history. */
  lemma SubmitKeepsConsistent(s: Stats, q: Question, index: Option<int>, timeLeft: nat)
    requires timeLeft <= QuestionSeconds && Consistent(s)
    ensures Consistent(Submit(s, q, index, timeLeft))
  {
    var h := s.answerHistory;
    var h' := h + [RecordOf(q, index)];
    assert h'[..|h'| - 1] == h;
    PointsAtLeastBase(s.streak, timeLeft, q.difficulty);
  }
}
