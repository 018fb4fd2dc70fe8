/**
 * The KnowledgeQuest component of front/src/App.jsx as a state machine:
 * phases start -> topic -> loading -> playing -> results -> start, the
 * one-second countdown, the single scoring entry point handleAnswerSelect,
 * the delayed move to the next question, and the reset. The game scene it
 * drives through `gameRef` is the `scene` field (present exactly while playing).
 * React's asynchronous state batching and timers are replaced by sequential
 * method calls, one per timer callback or event.
 */
module App {
  import opened Wrappers
  import opened Questions
  import opened Scoring
  import opened Session
  import Config
  import QuizScene
  import TopicScreen

  datatype Phase = Start | Topic | Loading | Playing | Results

  /** Entry i of the history records question i, and there is at most one entry per question. */
  ghost predicate HistoryMatches(h: seq<AnswerRecord>, qs: seq<Question>) {
    |h| <= |qs| && forall i :: 0 <= i < |h| ==> RecordMatches(h[i], qs[i])
  }

  /**
   * The session values agree with each other: the clock is within one
   * question's time, the counters summarise the history, nothing is answered
   * before play, and while playing the history has one entry per question
   * reached (counting the current one once its feedback shows).
   */
  ghost predicate SessionAgrees(phase: Phase, questions: seq<Question>, index: nat, stats: Stats, timeLeft: nat, showFeedback: bool) {
    && timeLeft <= QuestionSeconds
    && Consistent(stats)
    && (phase == Start || phase == Topic || phase == Loading ==>
          IsEmpty(stats) && index == 0 && !showFeedback)
    && (phase == Playing || phase == Results ==>
          && index < |questions|
          && HistoryMatches(stats.answerHistory, questions))
    && (phase == Playing ==> index == |stats.answerHistory| - (if showFeedback then 1 else 0))
    && (phase == Results ==>
          showFeedback && index == |questions| - 1 && |stats.answerHistory| == |questions|)
  }

  /** Empty statistics on a full clock agree with the start screen. */
  lemma StartAgrees(stats: Stats)
    requires IsEmpty(stats)
    ensures SessionAgrees(Start, [], 0, stats, QuestionSeconds, false)
  {
    EmptyIsConsistent(stats);
  }

  /** Scoring the current question while playing keeps the session values in agreement. */
  lemma AnswerKeepsAgreement(questions: seq<Question>, index: nat, stats: Stats, timeLeft: nat, answer: Option<int>)
    requires SessionAgrees(Playing, questions, index, stats, timeLeft, false)
    ensures SessionAgrees(Playing, questions, index, Submit(stats, questions[index], answer, timeLeft), timeLeft, true)
  {
    SubmitKeepsConsistent(stats, questions[index], answer, timeLeft);
    SubmitMatchesQuestion(stats, questions, answer, timeLeft);
  }

  /** Answering the question the history has reached keeps every entry on its own question. */
  lemma SubmitMatchesQuestion(s: Stats, qs: seq<Question>, index: Option<int>, timeLeft: nat)
    requires timeLeft <= QuestionSeconds
    requires HistoryMatches(s.answerHistory, qs) && |s.answerHistory| < |qs|
    ensures HistoryMatches(Submit(s, qs[|s.answerHistory|], index, timeLeft).answerHistory, qs)
  {
    var h := s.answerHistory;
    var h' := Submit(s, qs[|h|], index, timeLeft).answerHistory;
    SubmitAppendsOneRecord(s, qs[|h|], index, timeLeft);
    forall i | 0 <= i < |h'| ensures RecordMatches(h'[i], qs[i]) {
      if i < |h| {
        assert h'[i] == h[i];
      }
    }
  }

  /** The body of the POST /questions request. */
  datatype QuestionRequest = QuestionRequest(topic: string, questionCount: CountArg)

  class Quest {
    var phase: Phase
    var topic: string
    var questionCount: string
    var questions: seq<Question>
    var currentQuestionIndex: nat
    /**
     * The seven scoring hooks (score, streak, maxStreak, correctAnswers,
     * wrongAnswers, totalTime, answerHistory). React applies the setters one
     * handler calls in a single render, so they change together.
     */
    var stats: Stats
    var timeLeft: nat
    var showFeedback: bool
    /** gameRef.current: the mounted game scene, null outside the playing phase. */
    var scene: QuizScene.Scene?

    /**
     * Everything but the agreement of the two answer locks. The count field only
     * ever holds an accepted count: its writers are the topic screen's handler
     * (which keeps TopicScreen.AcceptedCount) and the reset.
     */
    ghost predicate Core()
      reads this, (if scene == null then {} else {scene})`boxes, (if scene == null then {} else {scene})`canCollide
    {
      && SessionAgrees(phase, questions, currentQuestionIndex, stats, timeLeft, showFeedback)
      && TopicScreen.AcceptedCount(questionCount)
      && (phase == Playing <==> scene != null)
      && (phase == Playing ==> scene.Valid())
    }

    /** The state the app mounts in: the start screen, nothing typed, asked or answered. */
    ghost predicate Initial()
      reads this
    {
      && phase == Start && topic == "" && questionCount == "" && questions == []
      && currentQuestionIndex == 0 && IsEmpty(stats)
      && timeLeft == QuestionSeconds && !showFeedback && scene == null
    }

    /**
     * The session invariant. While playing, the scene's collision lock is armed
     * exactly when no feedback is showing, so the two locks agree.
     */
    ghost predicate Valid()
      reads this, (if scene == null then {} else {scene})`boxes, (if scene == null then {} else {scene})`canCollide
    {
      Core() && (phase == Playing ==> scene.canCollide == !showFeedback)
    }

    constructor ()
      ensures Valid() && Initial()
    {
      phase := Start;
      topic, questionCount := "", "";
      questions := [];
      currentQuestionIndex := 0;
      stats := Session.Stats(0, 0, 0, 0, 0, 0, []);
      timeLeft := QuestionSeconds;
      showFeedback := false;
      scene := null;
    }

    /** The start screen's button. */
    method OpenTopics()
      requires Valid() && phase == Start
      modifies this`phase
      ensures Valid() && phase == Topic
    {
      phase := Topic;
    }

    /**
     * The topic screen's start button: `topic && generateQuestions(topic)`, with
     * `topic` and `questionCount` holding what the screen has set (the count
     * through its handler, so an accepted count). With a topic the phase becomes
     * loading and the request to send is returned (count: the typed text, or 7
     * when empty); without one nothing happens. The topic screen renders with
     * `isLoading={false}`, so the press moves to loading exactly when the
     * button is enabled.
     */
    method GenerateQuestions(topicText: string, countText: string) returns (request: Option<QuestionRequest>)
      requires Valid() && phase == Topic
      requires TopicScreen.AcceptedCount(countText)
      modifies this`phase, this`topic, this`questionCount
      ensures Valid()
      ensures topic == topicText && questionCount == countText
      ensures phase == Loading <==> !TopicScreen.StartDisabled(topicText, false)
      ensures topicText == "" ==> request == None && phase == Topic
      ensures topicText != "" ==> request == Some(QuestionRequest(topicText, RequestedCount(countText))) && phase == Loading
      ensures request.Some? ==> TopicScreen.RequestedCountIsValid(request.value.questionCount)
    {
      topic, questionCount := topicText, countText;
      if topicText == "" {
        return None;
      }
      phase := Loading;
      TopicScreen.AcceptedCountRequest(countText);
      request := Some(QuestionRequest(topicText, RequestedCount(countText)));
    }

    /**
     * The end of the request. `parsed` is the `questions` list that JSON.parse
     * found in the cleaned reply (CleanReply), or None when the call, the reply
     * text or the parse failed; then the fallback set is used. Either way the
     * game starts: playing, 30 seconds, the scene mounted on the first question.
     */
    method ReceiveQuestions(parsed: Option<seq<Question>>)
      requires Valid() && phase == Loading
      requires parsed.Some? ==> |parsed.value| > 0
      modifies this`phase, this`questions, this`timeLeft, this`scene
      ensures Valid()
      ensures questions == (if parsed.Some? then parsed.value else FallbackQuestions())
      ensures phase == Playing && timeLeft == QuestionSeconds && IsEmpty(stats)
      ensures currentQuestionIndex == 0 && !showFeedback
      ensures scene != null && fresh(scene) && scene.currentQuestion == Some(questions[0]) && scene.canCollide
      ensures |scene.boxes| == |questions[0].options|
      ensures forall i :: 0 <= i < |scene.boxes| ==> scene.boxes[i].text == questions[0].options[i]
      ensures scene.x == QuizScene.StartX && scene.y == QuizScene.StartY && scene.velocityX == 0 && scene.velocityY == 0
    {
      questions := if parsed.Some? then parsed.value else FallbackQuestions();
      phase := Playing;
      timeLeft := QuestionSeconds;
      scene := new QuizScene.Scene(Some(questions[0]));
    }

    /**
     * One run of the timer effect: while playing with no feedback showing, one
     * second passes; at 0 the timeout submits a null answer.
     */
    method TimerTick()
      requires Valid()
      modifies this`timeLeft, this`stats, this`showFeedback, (if scene == null then {} else {scene})`canCollide
      ensures Valid()
      ensures old(phase == Playing && !showFeedback && timeLeft > 0) ==>
        timeLeft == old(timeLeft) - 1 && stats == old(stats) && !showFeedback
      ensures old(phase == Playing && !showFeedback && timeLeft == 0) ==>
        stats == Submit(old(stats), questions[currentQuestionIndex], None, 0) && showFeedback && timeLeft == 0
      ensures old(phase != Playing || showFeedback) ==>
        stats == old(stats) && timeLeft == old(timeLeft) && showFeedback == old(showFeedback)
    {
      if phase == Playing && !showFeedback && timeLeft > 0 {
        timeLeft := timeLeft - 1;
      } else if timeLeft == 0 && !showFeedback && phase == Playing {
        AnswerSelect(None);
      }
    }

    /**
     * handleAnswerSelect: ignored while feedback shows; otherwise the time spent
     * is added, feedback shown (disarming the scene), one entry appended and the
     * answer scored (Submit).
     */
    method AnswerSelect(index: Option<int>)
      requires Core() && phase == Playing && (showFeedback ==> !scene.canCollide)
      modifies this`stats, this`showFeedback, scene`canCollide
      ensures Valid()
      ensures old(showFeedback) ==> stats == old(stats) && showFeedback && scene.canCollide == old(scene.canCollide)
      ensures !old(showFeedback) ==>
        stats == Submit(old(stats), questions[currentQuestionIndex], index, timeLeft) && showFeedback
    {
      if showFeedback {
        return;
      }
      var currentQ := questions[currentQuestionIndex];
      var isCorrect := IsCorrect(index, currentQ.correctAnswer);
      AnswerKeepsAgreement(questions, currentQuestionIndex, stats, timeLeft, index);
      showFeedback := true;
      scene.ShowFeedback(index, isCorrect);
      stats := Submit(stats, currentQ, index, timeLeft);
    }

    /**
     * The scene reports an overlap with box `box` (handleAnswerCollision with
     * onAnswerSelect = handleAnswerSelect): the first one while armed submits
     * that box's index, any other does nothing.
     */
    method Collide(box: nat)
      requires Valid() && phase == Playing && box < |scene.boxes|
      modifies this`stats, this`showFeedback, scene`canCollide
      ensures Valid() && scene == old(scene) && phase == Playing
      ensures questions == old(questions) && currentQuestionIndex == old(currentQuestionIndex) && timeLeft == old(timeLeft)
      ensures old(showFeedback) ==> stats == old(stats) && showFeedback
      ensures !old(showFeedback) ==>
        stats == Submit(old(stats), questions[currentQuestionIndex], Some(box), timeLeft) && showFeedback
    {
      var selected := scene.HandleAnswerCollision(box);
      if selected.Some? {
        AnswerSelect(selected);
      }
    }

    /**
     * The overlaps Phaser finds in one frame, in the order Phaser reports
     * them: the first one submits its box, the lock ignores the rest.
     */
    method ReportOverlaps(overlapping: seq<nat>)
      requires Valid() && phase == Playing && !showFeedback
      requires forall k :: 0 <= k < |overlapping| ==> overlapping[k] < |scene.boxes|
      modifies this`stats, this`showFeedback, scene`canCollide
      ensures Valid()
      ensures overlapping == [] ==> stats == old(stats) && !showFeedback
      ensures overlapping != [] ==>
        stats == Submit(old(stats), questions[currentQuestionIndex], Some(overlapping[0]), timeLeft) && showFeedback
    {
      ghost var before := stats;
      var k := 0;
      while k < |overlapping|
        invariant 0 <= k <= |overlapping|
        invariant Valid()
        invariant k == 0 ==> stats == before && !showFeedback
        invariant k > 0 ==> stats == Submit(before, questions[currentQuestionIndex], Some(overlapping[0]), timeLeft) && showFeedback
      {
        Collide(overlapping[k]);
        k := k + 1;
      }
    }

    /**
     * One engine frame while playing: the scene is paused while feedback shows;
     * otherwise the overlaps found this frame are reported, then update()
     * applies the keys.
     */
    method Frame(keys: QuizScene.Keys, touchingDown: bool, overlapping: seq<nat>)
      requires Valid() && phase == Playing
      requires forall k :: 0 <= k < |overlapping| ==> overlapping[k] < |scene.boxes|
      modifies this`stats, this`showFeedback, scene`canCollide, scene`velocityX, scene`velocityY, scene`flipX
      ensures scene == old(scene) && scene != null && phase == Playing && Valid()
      ensures questions == old(questions) && currentQuestionIndex == old(currentQuestionIndex) && timeLeft == old(timeLeft)
      ensures topic == old(topic) && questionCount == old(questionCount)
      ensures scene.boxes == old(scene.boxes) && scene.x == old(scene.x) && scene.y == old(scene.y)
      ensures old(showFeedback) ==> stats == old(stats) && showFeedback
      ensures old(showFeedback) || overlapping != [] ==>
        && scene.velocityX == old(scene.velocityX) && scene.velocityY == old(scene.velocityY)
        && scene.flipX == old(scene.flipX)
      ensures !old(showFeedback) && overlapping == [] ==>
        && stats == old(stats) && !showFeedback
        && scene.velocityX == QuizScene.HorizontalVelocity(keys)
        && scene.flipX == (if QuizScene.LeftPressed(keys) then true else if QuizScene.RightPressed(keys) then false else old(scene.flipX))
        && scene.velocityY == (if QuizScene.JumpPressed(keys) && touchingDown then Config.JUMP_VELOCITY else old(scene.velocityY))
      ensures !old(showFeedback) && overlapping != [] ==>
        stats == Submit(old(stats), questions[currentQuestionIndex], Some(overlapping[0]), timeLeft) && showFeedback
    {
      if showFeedback {
        return;
      }
      ReportOverlaps(overlapping);
      scene.Update(keys, touchingDown);
    }

    /**
     * The callback scheduled 2000 ms after an accepted submission: the next
     * question with a fresh 30 seconds, the player reset and the boxes
     * relabelled; after the last question, the results.
     */
    method AdvanceAfterFeedback()
      requires Valid() && phase == Playing && showFeedback
      modifies this`phase, this`currentQuestionIndex, this`showFeedback, this`timeLeft, this`scene, scene
      ensures Valid() && stats == old(stats) && questions == old(questions)
      ensures topic == old(topic) && questionCount == old(questionCount)
      ensures old(currentQuestionIndex) < |questions| - 1 ==>
        && phase == Playing && currentQuestionIndex == old(currentQuestionIndex) + 1
        && !showFeedback && timeLeft == QuestionSeconds
        && scene == old(scene) && scene.canCollide
        && scene.x == QuizScene.StartX && scene.y == QuizScene.StartY
        && scene.velocityX == 0 && scene.velocityY == 0 && scene.flipX == old(scene.flipX)
        && scene.currentQuestion == Some(questions[currentQuestionIndex])
        && |scene.boxes| == |old(scene.boxes)|
        && forall i :: 0 <= i < |scene.boxes| ==>
             scene.boxes[i] == QuizScene.Relabelled(old(scene.boxes)[i], i, QuizScene.OptionsOf(Some(questions[currentQuestionIndex])))
      ensures old(currentQuestionIndex) >= |questions| - 1 ==>
        && phase == Results && currentQuestionIndex == old(currentQuestionIndex) && scene == null
        && |stats.answerHistory| == |questions| && timeLeft == old(timeLeft)
    {
      if currentQuestionIndex < |questions| - 1 {
        currentQuestionIndex := currentQuestionIndex + 1;
        showFeedback := false;
        timeLeft := QuestionSeconds;
        scene.ResetPlayer();
        // the question prop changed: PhaserGame's effect calls updateQuestion
        scene.UpdateQuestion(Some(questions[currentQuestionIndex]));
      } else {
        phase := Results;
        // the results screen unmounts PhaserGame and destroys the game
        scene := null;
      }
    }

    /** The results screen's play-again button: every field back to its initial value. */
    method ResetGame()
      requires Valid() && phase == Results
      modifies this
      ensures Valid() && Initial()
    {
      var empty := Session.Stats(0, 0, 0, 0, 0, 0, []);
      StartAgrees(empty);
      phase := Start;
      topic, questionCount := "", "";
      questions := [];
      currentQuestionIndex := 0;
      stats := empty;
      showFeedback := false;
      timeLeft := QuestionSeconds;
    }

    /** The accuracy the results screen receives. */
    function ResultAccuracy(): (a: nat)
      reads this
      requires Core() && phase == Results
      ensures a <= 100
      ensures a == ((stats.correctAnswers as real) / (|questions| as real) * 100.0 + 0.5).Floor
    {
      ConsistentBounds(stats);
      AccuracyBounds(stats.correctAnswers, |questions|);
      AccuracyIsRoundedPercentage(stats.correctAnswers, |questions|);
      Accuracy(stats.correctAnswers, |questions|)
    }
  }

  /**
   * A collision and the timeout racing for the same question, in either order:
   * exactly one entry is appended, the one of whichever came first.
   */
  method CollisionAndTimeout(game: Quest, box: nat, collisionFirst: bool)
    requires game.Valid() && game.phase == Playing && !game.showFeedback && game.timeLeft == 0
    requires box < |game.scene.boxes|
    modifies game, game.scene
    ensures game.Valid() && game.showFeedback
    ensures game.stats.answerHistory == old(game.stats.answerHistory)
      + [RecordOf(old(game.questions[game.currentQuestionIndex]), if collisionFirst then Some(box) else None)]
  {
    ghost var q := game.questions[game.currentQuestionIndex];
    ghost var s := game.stats;
    if collisionFirst {
      game.Collide(box);
      game.TimerTick();
      SubmitAppendsOneRecord(s, q, Some(box), 0);
    } else {
      game.TimerTick();
      game.Collide(box);
      SubmitAppendsOneRecord(s, q, None, 0);
    }
  }
}
