# Knowledge Quest — a verified model of the game logic

Knowledge Quest is a browser quiz game. A topic is sent to a question
service. The player then steers an avatar into one of four answer boxes
before a 30-second countdown ends. A correct answer scores points that grow
with the streak, the time left and the difficulty. At the end a results
screen shows the accuracy, a badge and a review of every answer.

This project models the deterministic logic of the game in Dafny and proves
properties of it:

- `App.Quest` (app.dfy) is the `KnowledgeQuest` component of
  `front/src/App.jsx` as a class:
  - the phases start → topic → loading → playing → results → start;
  - the one-second countdown, whose expiry submits a null answer;
  - the single scoring entry point `handleAnswerSelect`;
  - the delayed advance to the next question or to the results;
  - the reset.

  The mounted game scene is its `scene` field. The class invariant `Valid`
  ties the session counters to the answer history and keeps the count field
  an accepted count. It also ties the React `showFeedback` lock to the
  scene's `canCollide` lock; that agreement rests on each handler's state
  updates taking effect at once (see "Left out").
- `Session` (session.dfy) holds the seven scoring hooks as one value. It
  defines the effect of one accepted answer (`Submit`) and what the
  counters mean in terms of the history: correct count, current streak and
  longest streak.
- `Scoring` (scoring.dfy) holds correctness, the points formula and the
  accuracy percentage. The points and the accuracy are each proved equal to
  the source's floating-point formula evaluated on exact reals.
- `Questions` (questions.dfy) holds:
  - the question records;
  - the stripping of markdown code fences from the service reply;
  - the `|| 7` default count;
  - the fallback question set.
- `QuizScene.Scene` (quiz_scene.dfy) is the Phaser scene of
  `front/src/game/scenes/QuizScene.js`, minus the engine:
  - the answer-box layout;
  - the collision lock;
  - the keyboard rules of `update`;
  - resetting the player;
  - relabelling the boxes.

  Its constants are in `Config` (config.dfy, from `front/src/game/config.js`).
- `TopicScreen` (topic_screen.dfy) holds:
  - the question-count field's change handler, as a function and as a
    class method;
  - the enable condition of the start button.

  The handler uses `JsText.ParseInt` (js_text.dfy), which models
  `parseInt(value, 10)` as section 19.2.5 of ECMA-262 describes it: skip
  white space, read an optional sign, read the longest digit prefix, and
  give NaN when there are no digits.
- `ResultsScreen` (results_screen.dfy) holds the badge thresholds, the
  particle positions and the text of the review table's cells.

Two properties span the modules:

- `App.CollisionAndTimeout`: a collision and the timeout that race for the
  same question append exactly one history entry, in either order, when
  each event's state updates take effect before the next event.
- `TopicScreen.OnCountChangeKeepsAccepted`: the count field only ever holds
  the empty text or text that `parseInt` reads as 1..20. `App.Quest` keeps
  this in its invariant, and `App.Quest.GenerateQuestions` proves from it
  that the request asks for 7 questions or for text that reads as 1..20.

## Model

| member | source | states |
|---|---|---|
| `Questions.FallbackQuestions` | front/src/App.jsx:110-130 | The fallback set has three well-formed questions, whose correct options are "Paris", "Mars" and "Au". |
| `Questions.StripFencesKeepsPlainText` | front/src/App.jsx:100 | Text without backticks passes through the fence removal unchanged. |
| `Questions.StripFencesLeavesNoFence` | front/src/App.jsx:100 | After the replacement no three consecutive backticks remain, not even ones that a deletion brings together. |
| `Questions.StripFencesUnwraps` | front/src/App.jsx:100 | A reply made of an opening fence tagged json, a body without backticks and a closing fence yields exactly the body. |
| `Questions.CleanReplyUnwraps` | front/src/App.jsx:100 | The cleaned text handed to JSON.parse for a fenced JSON block is the trimmed body. |
| `JsText.TrimStart` | front/src/App.jsx:100 | The result is a suffix of the input. Everything removed is white space, and the result does not start with white space. |
| `JsText.TrimEnd` | front/src/App.jsx:100 | The result is a prefix of the input. Everything removed is white space, and the result does not end with white space. |
| `JsText.TrimIsWhiteSpaceFreeSlice` | front/src/App.jsx:100 | `trim()` keeps one contiguous slice and removes only white space on either side. |
| `JsText.TrimLeavesNoEdgeSpace` | front/src/App.jsx:100 | The trimmed text neither starts nor ends with white space. |
| `JsText.LeadingSpaces` | front/src/components/screens/TopicScreen.jsx:105 | The count of leading characters skipped before the sign covers only white space and stops at the first other character. |
| `JsText.DigitPrefix` | front/src/components/screens/TopicScreen.jsx:105 | The result is the longest all-digit prefix: a prefix made of digits, followed by the end of the text or a non-digit. |
| `JsText.ParseDigits` | front/src/components/screens/TopicScreen.jsx:105 | The digit reading gives a number exactly when the text starts with a decimal digit. |
| `JsText.ParseDigitsDecimal` | front/src/components/screens/TopicScreen.jsx:105 | The decimal text of n, followed by a non-digit or nothing, reads back as n. |
| `JsText.ParseIntDecimal` | front/src/components/screens/TopicScreen.jsx:105 | `parseInt` of the decimal text of n, followed by a non-digit or nothing, is n. Trailing junk is ignored. |
| `JsText.ParseIntNegative` | front/src/components/screens/TopicScreen.jsx:105 | A leading minus sign negates the value read. |
| `JsText.ParseIntSkipsWhiteSpace` | front/src/components/screens/TopicScreen.jsx:105 | Leading white space does not change the result of `parseInt`. |
| `JsText.ParseIntNaN` | front/src/components/screens/TopicScreen.jsx:105-109 | Text that is empty, or starts with something other than white space, a sign or a digit, gives NaN. |
| `Scoring.TimeoutIsWrong` | front/src/App.jsx:147 | The timeout's null answer is never correct. |
| `Scoring.BasePoints` | front/src/App.jsx:166-170 | Before the multiplier, a correct answer is worth at least 100 points. |
| `Scoring.PointsIsFlooredProduct` | front/src/App.jsx:166-170 | The integer points equal `Math.floor((100 + streak*50 + floor(timeLeft*5)) * m)` on exact reals, with m = 2 for hard, 1.5 for medium and 1 otherwise. |
| `Scoring.PointsAtLeastBase` | front/src/App.jsx:166-170 | The points are never below the base, so never below 100. |
| `Scoring.PointsMonotone` | front/src/App.jsx:166-170 | A longer streak or more time left never earns fewer points. |
| `Scoring.PointsExample` | front/src/App.jsx:166-170 | Streak 2 with 10 s left earns 500 (hard), 375 (medium) and 250 (easy). |
| `Scoring.AccuracyIsRoundedPercentage` | front/src/App.jsx:253-255 | The integer accuracy equals `Math.round(correct / total * 100)`, rounding halves up, computed on exact reals. |
| `Scoring.AccuracyBounds` | front/src/App.jsx:253-255 | The accuracy is at most 100. It is 100 when every answer is correct and 0 when none is. |
| `Session.CountCorrect` | front/src/App.jsx:175 | There are never more correct answers than entries. |
| `Session.TrailingRun` | front/src/App.jsx:173-184 | The current streak never exceeds the history length. |
| `Session.TrailingRunIsSuffix` | front/src/App.jsx:173-184 | Exactly the last `TrailingRun` entries are correct, and the entry before them, if any, is wrong. |
| `Session.TrailingRunIsMaximal` | front/src/App.jsx:173-184 | No run of correct answers that ends the history is longer than the current streak. |
| `Session.LongestRun` | front/src/App.jsx:174 | The best streak lies between the current streak and the history length. |
| `Session.LongestRunIsLongest` | front/src/App.jsx:174 | Every run of consecutive correct answers is at most the best streak. |
| `Session.LongestRunIsReached` | front/src/App.jsx:174 | Some run of consecutive correct answers is as long as the best streak. |
| `Session.EmptyIsConsistent` | front/src/App.jsx:207-223 | The reset statistics agree with the empty history. |
| `Session.ConsistentBounds` | front/src/App.jsx:172-186 | The best streak is at least the current streak. The current streak is at most the correct count, which is at most the number of entries. |
| `Session.TrailingRunCounted` | front/src/App.jsx:173-175 | Every answer in the current streak is counted as correct. |
| `Session.SubmitAppendsOneRecord` | front/src/App.jsx:142-157 | A submission appends exactly one entry, leaves earlier entries untouched and adds 30 − timeLeft (at most 30) seconds to the total time. |
| `Session.SubmitCorrect` | front/src/App.jsx:164-175 | A correct answer adds `Points` (at least 100) to the score, increments the streak, sets the best streak to max(best, streak + 1) and increments the correct count. The wrong count is unchanged. |
| `Session.SubmitWrong` | front/src/App.jsx:183-186 | A wrong answer or a timeout resets the streak and increments the wrong count. The score, best streak and correct count are unchanged. |
| `Session.SubmitMonotone` | front/src/App.jsx:164-186 | Neither the score nor the best streak ever decreases. |
| `Session.SubmitKeepsConsistent` | front/src/App.jsx:139-186 | After a submission the counters still agree with the history: streak, best streak and correct count as computed from it, wrong count = entries − correct, score ≥ 100 per correct answer, total time ≤ 30 s per entry. |
| `QuizScene.BoxSpacing` | front/src/game/scenes/QuizScene.js:191-195 | Neighbouring box centres are one box width plus one gap apart, leaving a gap of 25 between boxes. |
| `QuizScene.RowIsCentred` | front/src/game/scenes/QuizScene.js:191-195 | The row is centred in the canvas: centre 0 (202.5) plus centre 3 (997.5) equals the width. |
| `QuizScene.BoxOnCanvas` | front/src/game/scenes/QuizScene.js:191-196 | A box lies within the canvas exactly when its index is 0..3, so a fifth option would be drawn off screen. |
| `QuizScene.CreatedBoxesOnCanvas` | front/src/game/scenes/QuizScene.js:185-196 | A well-formed question, or no question (labels A–D), gives exactly four boxes, and each of them lies inside the canvas. |
| `QuizScene.DownKeyIgnored` | front/src/game/scenes/QuizScene.js:335-343 | The S key is bound (as `down`) but no movement rule reads it: toggling it changes neither the horizontal velocity nor jumping. |
| `QuizScene.StartPosition` | front/src/game/scenes/QuizScene.js:273-274 | The player starts at (600, 436): centred horizontally and standing on the ground. |
| `QuizScene.Scene.constructor` | front/src/game/scenes/QuizScene.js:28-32 | After init and create: the collision lock is armed, there is one box per option in row order with that option's text, and the player stands at the start at rest. |
| `QuizScene.Scene.CreateAnswerBoxes` | front/src/game/scenes/QuizScene.js:185-196 | Box i gets answer index i, the i-th centre of the row, the platform height and option i's text. |
| `QuizScene.Scene.HandleAnswerCollision` | front/src/game/scenes/QuizScene.js:367-380 | The first overlap while armed disarms the lock and reports that box's index. Any overlap while disarmed reports nothing. |
| `QuizScene.Scene.Update` | front/src/game/scenes/QuizScene.js:441-466 | While disarmed nothing changes. While armed, the horizontal velocity is −400 with a left key (←, A, Q) held, else 400 with a right key (→, D), else 0; the sprite faces the pressed direction, and a jump key sets vertical velocity −600 only when touching down. |
| `QuizScene.Scene.ResetPlayer` | front/src/game/scenes/QuizScene.js:506-517 | The player is back at (600, 436) with zero velocity, and collisions are re-armed. |
| `QuizScene.Scene.UpdateQuestion` | front/src/game/scenes/QuizScene.js:522-539 | The lock is re-armed. Box i's text becomes option i when that option is present and non-empty; other texts stay. The player is reset. |
| `QuizScene.Scene.ShowFeedback` | front/src/game/scenes/QuizScene.js:544-548 | Collisions are disarmed for any answer index, null included. |
| `App.SubmitMatchesQuestion` | front/src/App.jsx:146-157 | Answering the question the history has reached keeps entry i on question i, with at most one entry per question. |
| `App.AnswerKeepsAgreement` | front/src/App.jsx:139-187 | Scoring the current question while playing keeps the session values in agreement, now with feedback showing and one more entry. |
| `App.StartAgrees` | front/src/App.jsx:207-223 | Empty statistics on a full 30 s clock are a valid start-screen session. |
| `App.Quest.constructor` | front/src/App.jsx:49-67 | The app mounts on the start screen with an empty session, 30 s on the clock and no scene. |
| `App.Quest.OpenTopics` | front/src/App.jsx:229 | The start button moves from start to topic. |
| `App.Quest.GenerateQuestions` | front/src/App.jsx:83-91 | The count field must hold an accepted count. The press moves to loading exactly when the start button (rendered with `isLoading={false}`) is enabled, that is, when a topic is given; otherwise nothing happens. The request carries the topic and `RequestedCount` of the count, which is 7 or text that `parseInt` reads as 1..20. |
| `App.Quest.ReceiveQuestions` | front/src/App.jsx:87-135 | The parsed question list is used, or the fallback set when the call, the reply text or `JSON.parse` threw. The game is then playing with 30 s, an empty session and a new scene armed on question 0: one box per option of question 0 carrying its text, and the player at rest at the start. |
| `App.Quest.TimerTick` | front/src/App.jsx:73-80 | While playing with no feedback, a tick takes exactly one second. At 0 it submits a null answer once. Otherwise nothing changes. |
| `App.Quest.AnswerSelect` | front/src/App.jsx:139-187 | While feedback shows nothing changes. Otherwise the statistics become `Submit` of the current question, feedback shows and the scene is disarmed. The invariant is kept. |
| `App.Quest.Collide` | front/src/game/scenes/QuizScene.js:367-380 | A collision while armed submits that box's index through `handleAnswerSelect`. Any other collision changes nothing. |
| `App.Quest.ReportOverlaps` | front/src/game/scenes/QuizScene.js:354-361 | Of the overlaps reported in one frame, the first is scored with its box index and the rest are ignored; with none, nothing is scored. |
| `App.Quest.Frame` | front/src/game/scenes/QuizScene.js:441-466 | While feedback shows nothing changes. With overlaps only the first one is scored and the player's velocity and facing stay. With none, nothing is scored and the keys set the horizontal velocity, the facing and a jump from the ground. The clock, the questions, the index, the topic, the count, the boxes and the position never change. |
| `App.Quest.AdvanceAfterFeedback` | front/src/App.jsx:190-203 | Before the last question: the index increments, feedback clears, the clock resets to 30, the player is back at the start at rest with its facing kept, and the same boxes are kept with box i relabelled to option i of the new question. After the last question: the results, with one entry per question and the clock as it was. The score, questions, topic and count never change. |
| `App.Quest.ResetGame` | front/src/App.jsx:207-223 | Every field returns to the value the app mounted with. |
| `App.Quest.ResultAccuracy` | front/src/App.jsx:253-255 | The accuracy passed to the results screen is at most 100 and equals the rounded percentage of correct answers. |
| `App.CollisionAndTimeout` | front/src/App.jsx:73-80 | A collision and the timeout that race for one question append exactly one history entry, namely the one for whichever came first. |
| `TopicScreen.ParseIntOneAndTwenty` | front/src/components/screens/TopicScreen.jsx:112-116 | The stored texts "1" and "20" read back as 1 and 20. |
| `TopicScreen.StoredCountIsClamped` | front/src/components/screens/TopicScreen.jsx:99-120 | Empty input clears the field. Unreadable input changes nothing. A readable number is stored as text that `parseInt` reads as that number clamped to 1..20. |
| `TopicScreen.OnCountChangeKeepsAccepted` | front/src/components/screens/TopicScreen.jsx:95-121 | The field only ever holds "" or text that `parseInt` reads as 1..20. |
| `TopicScreen.AcceptedCountRequest` | front/src/App.jsx:88-91 | For an accepted count, the count sent (the number 7 for an empty field) is 7 or text that `parseInt` reads as 1..20, and a non-empty count is sent as its own text. |
| `TopicScreen.ErrorMessage` | front/src/components/screens/TopicScreen.jsx:99-119 | The error is set above 20, cleared for 1..20 or empty input, and left alone below 1. |
| `TopicScreen.CountInput.constructor` | front/src/components/screens/TopicScreen.jsx:88 | The field starts empty with no error (App's `questionCount` is also '' at App.jsx:51), which is an accepted count. |
| `TopicScreen.CountInput.Change` | front/src/components/screens/TopicScreen.jsx:95-121 | The two fields become `OnCountChange` of the input and the old fields, and an accepted count stays accepted. |
| `TopicScreen.CountInput.ClearError` | front/src/components/screens/TopicScreen.jsx:114 | The delayed callback clears the error. |
| `ResultsScreen.BadgeIsGreatestReachedThreshold` | front/src/components/screens/ResultsScreen.jsx:7-47 | The chosen badge is one of BADGES whose threshold the accuracy reaches, and no reached threshold is higher. |
| `ResultsScreen.BadgeIsMonotone` | front/src/components/screens/ResultsScreen.jsx:42-47 | A higher accuracy never earns a lower badge. |
| `ResultsScreen.ShowParticles` | front/src/components/screens/ResultsScreen.jsx:57 | The celebration particles show exactly when the badge is not bronze. |
| `ResultsScreen.ParticleAt` | front/src/components/screens/ResultsScreen.jsx:19-22 | Left and top are percentages in 0..99, and the duration is 3..6 s. |
| `ResultsScreen.GenerateParticlePositions` | front/src/components/screens/ResultsScreen.jsx:15-26 | The loop yields `count` positions, and position i is `ParticleAt(i)`. |
| `ResultsScreen.AffineModHundredInjective` | front/src/components/screens/ResultsScreen.jsx:19-20 | i ↦ (c·i + a) mod 100 is one-to-one on 0..99 when c is invertible modulo 100. |
| `ResultsScreen.ParticlesAreSpread` | front/src/components/screens/ResultsScreen.jsx:19-20 | No two of the first hundred particles share a left offset, and no two share a top offset. |
| `ResultsScreen.ReviewOfRecordedAnswer` | front/src/components/screens/ResultsScreen.jsx:159-162 | A timeout reads "No Answer" and a chosen box shows its option text. On a correct row both answer cells show the correct option. |

## Left out

- Phaser's physics (gravity, bounce, world bounds, the ground collider and overlap detection) is not modelled. Overlaps and `body.touching.down` are inputs to `App.Quest.Frame`, and positions change only through `resetPlayer`.
- Visuals are not modelled: graphics, tweens, glow, particle bursts, box flashes, all JSX markup and CSS.
- Random choices are not modelled: the Lyra messages picked with `Math.random` and the random orbs of the start and topic screens. `lyraMessage` is not part of the state.
- The network is not modelled: the POST to `/questions`, the proxy, the back end and `JSON.parse`. `App.Quest.GenerateQuestions` returns the request body. `App.Quest.ReceiveQuestions` receives the parsed question list, or None when the call, the reply text or `JSON.parse` threw. The cleaning of the reply text is `Questions.CleanReply`.
- App.Quest.ReceiveQuestions: a reply that parses as JSON but has no `questions` array is not modelled. No exception is thrown inside the try, so `setQuestions(undefined)` runs, the phase becomes playing and the render at App.jsx:272 throws reading `.length`, with no fallback. Question records with a malformed shape (not four options, a bad correct index) are not modelled either: the parsed list is taken as given.
- App.Quest.ReceiveQuestions: requires a non-empty list. With an empty `questions` array the source fails at the timeout (`questions[0]` is undefined), and the model does not follow it there.
- App.CollisionAndTimeout: the at-most-once result rests on every handler's state updates taking effect at once, before the next event. In the source the timeout path (App.jsx:77-78, with the guard at App.jsx:140) tests only the rendered `showFeedback`, never the scene's `canCollide`. A collision sets `canCollide` at once but `showFeedback` only at React's next render, so an overlap handled between the commit of `timeLeft` 0 and the timer effect's run could plausibly be scored twice. The model does not capture that interleaving.
- React's asynchronous, batched state updates, stale closures and `setTimeout` are not modelled. Each timer callback and each event is one sequential method call. The seven scoring hooks that one handler sets together form one `Stats` value.
- PhaserGame.jsx is not part of this model: its pause/resume of the scene and its rebinding of callbacks. The pause while feedback shows appears only as `App.Quest.Frame` doing nothing then.
- The 2000 ms advance calls `resetPlayer` and then, through the question prop, `updateQuestion`. The scene is not remounted. On reaching the results the scene is simply dropped.
- Lives and fast-fall are advertised in the UI, but no logic implements them, so they are not modelled.
- JsText.ParseInt: reads a minus zero ("-0") as 0, where JavaScript gives −0. Both are below 1 and handled alike by the count field. Integers are unbounded, so very long digit strings do not lose precision as JavaScript numbers do.
- ResultsScreen.GenerateParticlePositions: the float `delay` field, `(i * 0.25) % 5`, is left out because it only drives the animation.
- Scoring.Accuracy: is computed on exact rationals, not in IEEE-754 doubles; the rounding error of the division is not modelled.
- The presentation-only components are not modelled: StartScreen, LoadingScreen, the sidebars, StatsBar, QuestionDisplay and LyraMessage.
