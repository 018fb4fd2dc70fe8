/**
 * What the game consumes from the question service (front/src/App.jsx,
 * generateQuestions): the question records, the cleaning of the service's
 * reply text before JSON parsing, the count sent with the request and the
 * fixed fallback set used when the service call, the reply text or the
 * JSON parse throws.
 */
module Questions {
  import opened Wrappers
  import JsText

  /** One quiz question as the service returns it; `difficulty` is free text ("easy", "medium", "hard"). */
  datatype Question = Question(question: string, options: seq<string>, correctAnswer: int, difficulty: string)

  /** One entry of the answer history; `userAnswer` is None for a timeout. */
  datatype AnswerRecord = AnswerRecord(
    question: string,
    options: seq<string>,
    userAnswer: Option<int>,
    correctAnswer: int,
    isCorrect: bool,
    difficulty: string)

  /** The shape the request to the service asks for: four options, an index among them, a known difficulty. */
  predicate WellFormed(q: Question) {
    && |q.options| == 4
    && 0 <= q.correctAnswer < 4
    && (q.difficulty == "easy" || q.difficulty == "medium" || q.difficulty == "hard")
  }

  /** The demo questions used when the service call, the reply or its parsing fails. */
  function FallbackQuestions(): (qs: seq<Question>)
    ensures |qs| == 3 && forall i :: 0 <= i < |qs| ==> WellFormed(qs[i])
    ensures WellFormed(qs[0]) && qs[0].options[qs[0].correctAnswer] == "Paris"
    ensures WellFormed(qs[1]) && qs[1].options[qs[1].correctAnswer] == "Mars"
    ensures WellFormed(qs[2]) && qs[2].options[qs[2].correctAnswer] == "Au"
  {
    [ Question("What is the capital of France?", ["London", "Paris", "Berlin", "Madrid"], 1, "easy"),
      Question("Which planet is known as the Red Planet?", ["Venus", "Jupiter", "Mars", "Saturn"], 2, "easy"),
      Question("What is the chemical symbol for gold?", ["Go", "Gd", "Au", "Ag"], 2, "medium") ]
  }

  /** The `questionCount` field of the request body: the text the player typed, or the number 7 when empty. */
  datatype CountArg = CountText(text: string) | CountNumber(n: int)

  function RequestedCount(questionCount: string): (r: CountArg)
    ensures r == CountNumber(7) <==> questionCount == ""
    ensures questionCount != "" ==> r == CountText(questionCount)
  {
    if questionCount == "" then CountNumber(7) else CountText(questionCount)
  }

  // ---------------------------------------------------------------------------
  // Removing markdown code fences: rawText.replace(/```json|```/g, '').trim()
  // ---------------------------------------------------------------------------

  const JsonFence: string := "```json"
  const Fence: string := "```"

  /** Three backticks start at position i. */
  predicate FenceAt(s: string, i: int) {
    0 <= i && i + 3 <= |s| && s[i] == '`' && s[i + 1] == '`' && s[i + 2] == '`'
  }

  predicate NoFence(s: string) {
    forall i :: 0 <= i < |s| ==> !FenceAt(s, i)
  }

  predicate NoBacktick(s: string) {
    forall i :: 0 <= i < |s| ==> s[i] != '`'
  }

  /**
   * The global regular-expression replacement: scanning left to right, at each
   * position the alternative "```json" is tried before "```"; a match is
   * deleted and scanning resumes after it, any other character is kept.
   */
  function StripFences(s: string): string
    decreases |s|
  {
    if |s| >= 7 && s[..7] == JsonFence then StripFences(s[7..])
    else if |s| >= 3 && s[..3] == Fence then StripFences(s[3..])
    else if s == [] then []
    else [s[0]] + StripFences(s[1..])
  }

  /** The text handed to JSON.parse. */
  function CleanReply(rawText: string): string {
    JsText.Trim(StripFences(rawText))
  }

  /** A string that does not start with a backtick keeps its first character. */
  lemma KeepsFirst(t: string)
    requires t != [] && t[0] != '`'
    ensures StripFences(t) == [t[0]] + StripFences(t[1..])
  {
    assert t[..|t|][0] == t[0];
  }

  /** Text without backticks passes through unchanged. */
  lemma {:induction false} StripFencesKeepsPlainText(s: string)
    requires NoBacktick(s)
    ensures StripFences(s) == s
    decreases |s|
  {
    if s != [] {
      KeepsFirst(s);
      StripFencesKeepsPlainText(s[1..]);
    }
  }

  /** No three backticks survive the replacement, not even ones brought together by a deletion. */
  lemma {:induction false} StripFencesLeavesNoFence(s: string)
    ensures NoFence(StripFences(s))
    decreases |s|
  {
    if |s| >= 7 && s[..7] == JsonFence {
      StripFencesLeavesNoFence(s[7..]);
    } else if |s| >= 3 && s[..3] == Fence {
      StripFencesLeavesNoFence(s[3..]);
    } else if s != [] {
      var rest := StripFences(s[1..]);
      StripFencesLeavesNoFence(s[1..]);
      var r := StripFences(s);
      assert r == [s[0]] + rest;
      if s[0] == '`' {
        // s does not start with three backticks, so the kept text after s[0] does not start with two
        assert !(|s| >= 3 && s[1] == '`' && s[2] == '`');
        if |s| >= 2 {
          if s[1] == '`' {
            var t := s[1..];
            assert !(|t| >= 3 && t[..3] == Fence);
            assert !(|t| >= 7 && t[..7] == JsonFence);
            assert rest == [s[1]] + StripFences(t[1..]);
            if |s| >= 3 {
              KeepsFirst(s[2..]);
              assert t[1..] == s[2..];
              assert rest[1] == s[2];
            }
          } else {
            KeepsFirst(s[1..]);
          }
        }
      }
      forall i | 0 <= i < |r| ensures !FenceAt(r, i) {
        if i > 0 {
          assert !FenceAt(rest, i - 1);
        }
      }
    }
  }

  /** A reply wrapped as a ```json block yields exactly its body. */
  lemma StripFencesUnwraps(body: string)
    requires NoBacktick(body)
    ensures StripFences(JsonFence + body + Fence) == body
  {
    var s := JsonFence + body + Fence;
    assert s[..7] == JsonFence;
    assert s[7..] == body + Fence;
    StripFencesOfPlainThenFence(body);
  }

  lemma {:induction false} StripFencesOfPlainThenFence(body: string)
    requires NoBacktick(body)
    ensures StripFences(body + Fence) == body
    decreases |body|
  {
    var s := body + Fence;
    if body == [] {
      assert s[..3] == Fence && s[3..] == [];
    } else {
      KeepsFirst(s);
      assert s[1..] == body[1..] + Fence;
      StripFencesOfPlainThenFence(body[1..]);
    }
  }

  /** The cleaned reply of a fenced JSON block is the trimmed block body. */
  lemma CleanReplyUnwraps(body: string)
    requires NoBacktick(body)
    ensures CleanReply(JsonFence + body + Fence) == JsText.Trim(body)
  {
    StripFencesUnwraps(body);
  }
}
