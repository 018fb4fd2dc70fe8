/**
 * The logic of front/src/components/screens/ResultsScreen.jsx: the badge
 * chosen by accuracy, whether the celebration particles show, the fixed
 * particle positions and the text of a review row's answer cells.
 */
module ResultsScreen {
  import opened Wrappers
  import opened Questions
  import Session

  // ---------------------------------------------------------------------------
  // Badges
  // ---------------------------------------------------------------------------

  datatype Badge = Diamond | Gold | Silver | Bronze

  /** The `minAccuracy` of each entry of BADGES. */
  function MinAccuracy(b: Badge): nat {
    match b
    case Diamond => 90
    case Gold => 80
    case Silver => 70
    case Bronze => 0
  }

  /** The entries of BADGES, in declaration order. */
  const Badges: seq<Badge> := [Diamond, Gold, Silver, Bronze]

  /** The badge memo: a chain of threshold tests from the highest down. */
  function BadgeFor(accuracy: int): Badge {
    if accuracy >= 90 then Diamond
    else if accuracy >= 80 then Gold
    else if accuracy >= 70 then Silver
    else Bronze
  }

  /**
   * The chosen badge is the one of BADGES with the greatest threshold the
   * accuracy reaches (for an accuracy of at least 0, the range App produces).
   */
  lemma BadgeIsGreatestReachedThreshold(accuracy: int)
    requires accuracy >= 0
    ensures BadgeFor(accuracy) in Badges && MinAccuracy(BadgeFor(accuracy)) <= accuracy
    ensures forall b :: b in Badges && MinAccuracy(b) <= accuracy ==> MinAccuracy(b) <= MinAccuracy(BadgeFor(accuracy))
  {
  }

  /** Badges ordered from bronze (0) up to diamond (3). */
  function Rank(b: Badge): nat {
    match b
    case Bronze => 0
    case Silver => 1
    case Gold => 2
    case Diamond => 3
  }

  /** A higher accuracy never earns a lower badge. */
  lemma BadgeIsMonotone(a: int, b: int)
    requires a <= b
    ensures Rank(BadgeFor(a)) <= Rank(BadgeFor(b))
    ensures MinAccuracy(BadgeFor(a)) <= MinAccuracy(BadgeFor(b))
  {
  }

  /** `accuracy >= 70 && PARTICLE_POSITIONS.map(...)`: the particles show exactly when the badge is not bronze. */
  function ShowParticles(accuracy: int): (show: bool)
    ensures show <==> BadgeFor(accuracy) != Bronze
  {
    accuracy >= 70
  }

  // ---------------------------------------------------------------------------
  // Particle positions
  // ---------------------------------------------------------------------------

  /** The integer fields of one generated position: left and top in percent, duration in seconds. */
  datatype Particle = Particle(left: nat, top: nat, duration: nat)

  function ParticleAt(i: nat): (p: Particle)
    ensures p.left < 100 && p.top < 100
    ensures 3 <= p.duration <= 6
  {
    Particle((i * 37 + 13) % 100, (i * 23 + 7) % 100, 3 + i % 4)
  }

  /** generateParticlePositions(count): one position per index, in order. */
  method GenerateParticlePositions(count: nat) returns (positions: seq<Particle>)
    ensures |positions| == count
    ensures forall i :: 0 <= i < count ==> positions[i] == ParticleAt(i)
  {
    positions := [];
    var i := 0;
    while i < count
      invariant 0 <= i <= count && |positions| == i
      invariant forall k :: 0 <= k < i ==> positions[k] == ParticleAt(k)
    {
      positions := positions + [Particle((i * 37 + 13) % 100, (i * 23 + 7) % 100, 3 + i % 4)];
      i := i + 1;
    }
  }

  /** With `c` invertible modulo 100 (c * inv leaves 1), i -> (c*i + a) % 100 is one-to-one on 0..99. */
  lemma AffineModHundredInjective(c: int, inv: int, a: int, i: nat, j: nat)
    requires (c * inv) % 100 == 1
    requires i < 100 && j < 100
    ensures (i * c + a) % 100 == (j * c + a) % 100 ==> i == j
  {
    if (i * c + a) % 100 == (j * c + a) % 100 {
      AffineModHundredCancels(c, inv, a, i, j);
    }
  }

  lemma AffineModHundredCancels(c: int, inv: int, a: int, i: nat, j: nat)
    requires (c * inv) % 100 == 1
    requires i < 100 && j < 100
    requires (i * c + a) % 100 == (j * c + a) % 100
    ensures i == j
  {
    var d := i - j;
    var k := (i * c + a) / 100 - (j * c + a) / 100;
    assert c * d == 100 * k;
    var m := (c * inv) / 100;
    assert c * inv == 100 * m + 1;
    calc {
      d;
      == (c * inv - 100 * m) * d;
      == inv * (c * d) - 100 * m * d;
      == { assert c * d == 100 * k; } inv * (100 * k) - 100 * m * d;
      == 100 * (inv * k - m * d);
    }
    var q := inv * k - m * d;
    assert d == 100 * q;
  }

  /** Among the first hundred positions no two particles share a left offset, nor a top offset. */
  lemma ParticlesAreSpread(i: nat, j: nat)
    requires i < 100 && j < 100 && i != j
    ensures ParticleAt(i).left != ParticleAt(j).left
    ensures ParticleAt(i).top != ParticleAt(j).top
  {
    AffineModHundredInjective(37, 73, 13, i, j);
    AffineModHundredInjective(23, 87, 7, i, j);
  }

  // ---------------------------------------------------------------------------
  // The review table
  // ---------------------------------------------------------------------------

  /**
   * The "Your Answer" cell: 'No Answer' after a timeout, otherwise the chosen
   * option; an index with no option renders as nothing (undefined).
   */
  function ReviewAnswer(r: AnswerRecord): string {
    match r.userAnswer
    case None => "No Answer"
    case Some(i) => if 0 <= i < |r.options| then r.options[i] else ""
  }

  /** The "Correct" cell: the option at the correct index, nothing when there is none. */
  function ReviewCorrect(r: AnswerRecord): string {
    if 0 <= r.correctAnswer < |r.options| then r.options[r.correctAnswer] else ""
  }

  /**
   * For an entry recorded by the game (Session.RecordOf): a timeout reads
   * 'No Answer', a chosen box shows its option text, and on a correct row the
   * two answer cells show the same text.
   */
  lemma ReviewOfRecordedAnswer(q: Question, index: Option<int>)
    requires WellFormed(q)
    requires index.Some? ==> 0 <= index.value < 4
    ensures index.None? ==> ReviewAnswer(Session.RecordOf(q, index)) == "No Answer"
    ensures index.Some? ==> ReviewAnswer(Session.RecordOf(q, index)) == q.options[index.value]
    ensures Session.RecordOf(q, index).isCorrect ==>
      ReviewAnswer(Session.RecordOf(q, index)) == ReviewCorrect(Session.RecordOf(q, index)) == q.options[q.correctAnswer]
  {
  }
}
