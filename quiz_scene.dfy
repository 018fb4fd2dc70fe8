/**
 * The game scene of front/src/game/scenes/QuizScene.js, without the engine:
 * the answer-box layout, the collision lock `canCollide`, the keyboard rules of
 * update(), resetting the player and relabelling the boxes between questions.
 * Phaser's physics (gravity, overlap tests, `body.touching.down`) is outside
 * the model: overlaps and ground contact arrive as inputs.
 */
module QuizScene {
  import opened Wrappers
  import opened Config
  import opened Questions

  // ---------------------------------------------------------------------------
  // Answer-box layout (createAnswerBoxes)
  // ---------------------------------------------------------------------------

  /** The x centre of box i: the row of four boxes and three gaps is centred in the canvas. */
  function BoxCentreX(i: int): real {
    (WIDTH - (ANSWER_BOX_WIDTH * 4 + ANSWER_BOX_GAP * 3)) as real / 2.0
      + ANSWER_BOX_WIDTH as real / 2.0
      + ((ANSWER_BOX_WIDTH + ANSWER_BOX_GAP) * i) as real
  }

  function BoxLeft(i: int): real { BoxCentreX(i) - ANSWER_BOX_WIDTH as real / 2.0 }

  function BoxRight(i: int): real { BoxCentreX(i) + ANSWER_BOX_WIDTH as real / 2.0 }

  /** Neighbouring centres are one box width plus one gap apart, leaving exactly the gap between the boxes. */
  lemma BoxSpacing(i: int)
    ensures BoxCentreX(i + 1) - BoxCentreX(i) == (ANSWER_BOX_WIDTH + ANSWER_BOX_GAP) as real
    ensures BoxLeft(i + 1) - BoxRight(i) == ANSWER_BOX_GAP as real > 0.0
  {
  }

  /** The row is centred: the first and last of the four centres are symmetric about the middle. */
  lemma RowIsCentred()
    ensures BoxCentreX(0) + BoxCentreX(ANSWER_BOX_COUNT - 1) == WIDTH as real
    ensures BoxCentreX(0) == 202.5 && BoxCentreX(3) == 997.5
  {
  }

  /** Exactly the boxes 0..3 lie inside the canvas; a fifth option would be drawn past the right edge. */
  lemma BoxOnCanvas(i: int)
    ensures 0.0 <= BoxLeft(i) && BoxRight(i) <= WIDTH as real <==> 0 <= i < ANSWER_BOX_COUNT
  {
  }

  /** A hitbox of the answer group: its answer index, its centre and the option text in its container. */
  datatype AnswerBox = AnswerBox(answerIndex: nat, x: real, y: real, text: string)

  const DefaultOptions: seq<string> := ["A", "B", "C", "D"]

  /** `question?.options || ['A', 'B', 'C', 'D']` (an options array, even an empty one, is truthy). */
  function OptionsOf(question: Option<Question>): (options: seq<string>)
    ensures question.None? ==> options == DefaultOptions
    ensures question.Some? ==> options == question.value.options
  {
    if question.Some? then question.value.options else DefaultOptions
  }

  /**
   * The boxes create() lays out for a well-formed question, or for the default
   * labels, are exactly four, and every one of them lies inside the canvas.
   */
  lemma CreatedBoxesOnCanvas(question: Option<Question>)
    requires question.Some? ==> WellFormed(question.value)
    ensures |OptionsOf(question)| == ANSWER_BOX_COUNT
    ensures forall i :: 0 <= i < |OptionsOf(question)| ==> 0.0 <= BoxLeft(i) && BoxRight(i) <= WIDTH as real
  {
    forall i | 0 <= i < |OptionsOf(question)|
      ensures 0.0 <= BoxLeft(i) && BoxRight(i) <= WIDTH as real
    {
      BoxOnCanvas(i);
    }
  }

  /** The text box i shows after updateQuestion: the new option when it is present and non-empty (truthy). */
  function Relabelled(b: AnswerBox, i: nat, options: seq<string>): AnswerBox {
    if i < |options| && options[i] != "" then b.(text := options[i]) else b
  }

  // ---------------------------------------------------------------------------
  // Keyboard rules (update)
  // ---------------------------------------------------------------------------

  /** The keys the scene reads: cursor keys, W A S D, Space and the AZERTY keys Q and Z. */
  datatype Keys = Keys(
    left: bool, right: bool, up: bool,
    w: bool, a: bool, s: bool, d: bool,
    space: bool, q: bool, z: bool)

  predicate LeftPressed(k: Keys) { k.left || k.a || k.q }

  predicate RightPressed(k: Keys) { k.right || k.d }

  predicate JumpPressed(k: Keys) { k.up || k.w || k.space || k.z }

  /** The horizontal velocity update() sets: left wins over right, no direction stops the player. */
  function HorizontalVelocity(k: Keys): (v: int)
    ensures v == -PLAYER_SPEED <==> LeftPressed(k)
    ensures v == PLAYER_SPEED <==> !LeftPressed(k) && RightPressed(k)
    ensures v == 0 <==> !LeftPressed(k) && !RightPressed(k)
  {
    if LeftPressed(k) then -PLAYER_SPEED else if RightPressed(k) then PLAYER_SPEED else 0
  }

  /** The S key (bound as `down`) plays no part in movement. */
  lemma DownKeyIgnored(k: Keys)
    ensures HorizontalVelocity(k.(s := !k.s)) == HorizontalVelocity(k)
    ensures JumpPressed(k.(s := !k.s)) == JumpPressed(k)
  {
  }

  // ---------------------------------------------------------------------------
  // The player's start position (createPlayer, resetPlayer)
  // ---------------------------------------------------------------------------

  const StartX: int := WIDTH / 2
  const StartY: int := HEIGHT - GROUND_HEIGHT - PLAYER_SIZE / 2

  /** The player starts horizontally centred, standing on the ground: (600, 436). */
  lemma StartPosition()
    ensures StartX == 600 && StartY == 436
    ensures 2 * StartX == WIDTH
    ensures StartY + PLAYER_SIZE / 2 == HEIGHT - GROUND_HEIGHT && PLAYER_SIZE % 2 == 0
  {
  }

  // ---------------------------------------------------------------------------
  // The scene
  // ---------------------------------------------------------------------------

  class Scene {
    var currentQuestion: Option<Question>
    var canCollide: bool
    /** answerBoxes.getChildren(), in creation order. */
    var boxes: seq<AnswerBox>
    var x: int
    var y: int
    var velocityX: int
    var velocityY: int
    var flipX: bool

    /** Box i keeps answer index i and its place in the row; only the texts change after create(). */
    ghost predicate Valid()
      reads this`boxes
    {
      forall i :: 0 <= i < |boxes| ==>
        boxes[i].answerIndex == i && boxes[i].x == BoxCentreX(i) && boxes[i].y == PLATFORM_Y as real
    }

    /**
     * The scene after Phaser has run init({question, onAnswerSelect}) and create():
     * collisions armed, one box per option laid out in the row, the player at the start.
     */
    constructor (question: Option<Question>)
      ensures Valid()
      ensures currentQuestion == question && canCollide
      ensures |boxes| == |OptionsOf(question)|
      ensures forall i :: 0 <= i < |boxes| ==> boxes[i].text == OptionsOf(question)[i]
      ensures x == StartX && y == StartY && velocityX == 0 && velocityY == 0 && !flipX
    {
      currentQuestion := question;
      canCollide := true;
      boxes := [];
      x, y := StartX, StartY;
      velocityX, velocityY := 0, 0;
      flipX := false;
      new;
      CreateAnswerBoxes();
    }

    /** createAnswerBoxes: one hitbox per option of the current question (or A..D), in order. */
    method CreateAnswerBoxes()
      modifies this`boxes
      ensures Valid()
      ensures |boxes| == |OptionsOf(currentQuestion)|
      ensures forall i :: 0 <= i < |boxes| ==> boxes[i].text == OptionsOf(currentQuestion)[i]
    {
      var options := OptionsOf(currentQuestion);
      var created: seq<AnswerBox> := [];
      var index := 0;
      while index < |options|
        invariant 0 <= index <= |options| && |created| == index
        invariant forall i :: 0 <= i < index ==>
          created[i] == AnswerBox(i, BoxCentreX(i), PLATFORM_Y as real, options[i])
      {
        created := created + [AnswerBox(index, BoxCentreX(index), PLATFORM_Y as real, options[index])];
        index := index + 1;
      }
      boxes := created;
    }

    /**
     * handleAnswerCollision: the first overlap while armed disarms the lock and
     * reports the box's answer index; any later overlap reports nothing.
     */
    method HandleAnswerCollision(box: nat) returns (selected: Option<int>)
      requires Valid() && box < |boxes|
      modifies this`canCollide
      ensures !canCollide
      ensures selected == (if old(canCollide) then Some(box) else None)
    {
      if !canCollide {
        return None;
      }
      canCollide := false;
      selected := Some(boxes[box].answerIndex);
    }

    /**
     * update(): nothing happens while disarmed; otherwise the held keys set the
     * horizontal velocity and facing, and a jump key starts a jump only from the ground.
     */
    method Update(keys: Keys, touchingDown: bool)
      modifies this`velocityX, this`velocityY, this`flipX
      ensures !canCollide ==> velocityX == old(velocityX) && velocityY == old(velocityY) && flipX == old(flipX)
      ensures canCollide ==> velocityX == HorizontalVelocity(keys)
      ensures canCollide ==> flipX == (if LeftPressed(keys) then true else if RightPressed(keys) then false else old(flipX))
      ensures canCollide ==> velocityY == (if JumpPressed(keys) && touchingDown then JUMP_VELOCITY else old(velocityY))
    {
      if !canCollide {
        return;
      }
      if LeftPressed(keys) {
        velocityX := -PLAYER_SPEED;
        flipX := true;
      } else if RightPressed(keys) {
        velocityX := PLAYER_SPEED;
        flipX := false;
      } else {
        velocityX := 0;
      }
      if JumpPressed(keys) && touchingDown {
        velocityY := JUMP_VELOCITY;
      }
    }

    /** resetPlayer: back to the start position at rest, collisions re-armed. */
    method ResetPlayer()
      modifies this`x, this`y, this`velocityX, this`velocityY, this`canCollide
      ensures x == StartX && y == StartY && velocityX == 0 && velocityY == 0
      ensures canCollide
    {
      x, y := StartX, StartY;
      velocityX, velocityY := 0, 0;
      canCollide := true;
    }

    /**
     * updateQuestion: remember the question, re-arm, relabel every box that has a
     * (non-empty) option at its index, keep the other texts, then reset the player.
     */
    method UpdateQuestion(question: Option<Question>)
      requires Valid()
      modifies this
      ensures Valid()
      ensures currentQuestion == question && canCollide
      ensures |boxes| == |old(boxes)|
      ensures forall i :: 0 <= i < |boxes| ==> boxes[i] == Relabelled(old(boxes)[i], i, OptionsOf(question))
      ensures x == StartX && y == StartY && velocityX == 0 && velocityY == 0
      ensures flipX == old(flipX)
    {
      currentQuestion := question;
      canCollide := true;
      var options := OptionsOf(question);
      var index := 0;
      while index < |boxes|
        invariant 0 <= index <= |boxes| == |old(boxes)|
        invariant forall i :: 0 <= i < index ==> boxes[i] == Relabelled(old(boxes)[i], i, options)
        invariant forall i :: index <= i < |boxes| ==> boxes[i] == old(boxes)[i]
        invariant currentQuestion == question && flipX == old(flipX)
      {
        if index < |options| && options[index] != "" {
          boxes := boxes[index := boxes[index].(text := options[index])];
        }
        index := index + 1;
      }
      ResetPlayer();
    }

    /** showFeedback: disarms collisions first, whatever the answer index (null included). */
    method ShowFeedback(answerIndex: Option<int>, isCorrect: bool)
      modifies this`canCollide
      ensures !canCollide
    {
      canCollide := false;
    }
  }
}
