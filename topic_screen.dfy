/**
 * The question-count field of front/src/components/screens/TopicScreen.jsx:
 * handleQuestionCountChange clamps what is typed to 1..20 through
 * parseInt(value, 10), and the start button's enable condition.
 */
module TopicScreen {
  import opened Wrappers
  import opened JsText
  import opened Questions

  const MaxCount: nat := 20
  const MaxCountError: string := "Maximum 20 questions allowed"

  /** A count the field may hold: empty (the default 7 applies), or text parseInt reads as 1..20. */
  predicate AcceptedCount(s: string) {
    s == "" || (ParseInt(s).Some? && 1 <= ParseInt(s).value <= MaxCount)
  }

  /** The two pieces of state the handler writes: the questionCount prop and inputError. */
  datatype CountField = CountField(questionCount: string, inputError: string)

  /** The handler's effect on `f` when the input reports `value`. */
  function OnCountChange(value: string, f: CountField): CountField {
    if value == "" then CountField("", "")
    else match ParseInt(value)
      case None => f
      case Some(n) =>
        if n > MaxCount as int then CountField("20", MaxCountError)
        else if n < 1 then f.(questionCount := "1")
        else CountField(value, "")
  }

  /** The typed number clamped to 1..20. */
  function Clamp(n: int): (c: int)
    ensures 1 <= c <= MaxCount
    ensures 1 <= n <= MaxCount ==> c == n
    ensures n > MaxCount ==> c == MaxCount
    ensures n < 1 ==> c == 1
  {
    if n > MaxCount then MaxCount else if n < 1 then 1 else n
  }

  lemma ParseIntOneAndTwenty()
    ensures ParseInt("1") == Some(1) && ParseInt("20") == Some(20)
  {
    DecimalOneAndTwenty();
    ParseIntDecimal(1, "");
    ParseIntDecimal(20, "");
  }

  lemma DecimalOneAndTwenty()
    ensures Decimal(1) + "" == "1" && Decimal(20) + "" == "20"
  {
    assert DigitChar(0) == '0' && DigitChar(1) == '1' && DigitChar(2) == '2';
    assert Decimal(20) == Decimal(2) + [DigitChar(0)];
  }

  /**
   * Whatever is typed, a count that parseInt reads is stored as text that
   * parseInt reads back as that number clamped to 1..20; empty text clears
   * the field; unreadable text leaves it alone.
   */
  lemma StoredCountIsClamped(value: string, f: CountField)
    ensures value == "" ==> OnCountChange(value, f).questionCount == ""
    ensures value != "" && ParseInt(value).None? ==> OnCountChange(value, f) == f
    ensures value != "" && ParseInt(value).Some? ==>
      ParseInt(OnCountChange(value, f).questionCount) == Some(Clamp(ParseInt(value).value))
  {
    if value != "" && ParseInt(value).Some? {
      var n := ParseInt(value).value;
      var r := OnCountChange(value, f);
      ParseIntOneAndTwenty();
      if n > MaxCount as int {
        assert r.questionCount == "20";
      } else if n < 1 {
        assert r.questionCount == "1";
      } else {
        assert r.questionCount == value;
      }
    }
  }

  /** The field only ever holds an accepted count: the handler keeps AcceptedCount. */
  lemma OnCountChangeKeepsAccepted(value: string, f: CountField)
    requires AcceptedCount(f.questionCount)
    ensures AcceptedCount(OnCountChange(value, f).questionCount)
  {
    StoredCountIsClamped(value, f);
  }

  /**
   * The error message: set when the typed number is over 20, cleared by an
   * accepted number or by emptying the field, left as it was otherwise (a
   * number below 1 is raised to 1 silently).
   */
  lemma ErrorMessage(value: string, f: CountField)
    ensures value == "" ==> OnCountChange(value, f).inputError == ""
    ensures value != "" && ParseInt(value).Some? ==>
      var n := ParseInt(value).value;
      && (n > MaxCount as int ==> OnCountChange(value, f).inputError == MaxCountError)
      && (1 <= n <= MaxCount as int ==> OnCountChange(value, f).inputError == "")
      && (n < 1 ==> OnCountChange(value, f).inputError == f.inputError)
  {
  }

  /**
   * The count a request may carry: the default number 7, or text that
   * parseInt reads as a number in 1..20.
   */
  predicate RequestedCountIsValid(c: CountArg) {
    c == CountNumber(7) || (c.CountText? && ParseInt(c.text).Some? && 1 <= ParseInt(c.text).value <= MaxCount)
  }

  /** A field holding an accepted count sends 7 or text that reads as 1..20, never anything else. */
  lemma AcceptedCountRequest(s: string)
    requires AcceptedCount(s)
    ensures RequestedCountIsValid(RequestedCount(s))
    ensures s != "" ==> RequestedCount(s) == CountText(s)
  {
  }

  /** The start button: disabled without a topic or while loading. */
  function StartDisabled(topic: string, isLoading: bool): (disabled: bool)
    ensures !disabled <==> topic != "" && !isLoading
  {
    topic == "" || isLoading
  }

  /** The number input's state, as TopicScreen keeps it. */
  class CountInput {
    var questionCount: string
    var inputError: string

    ghost predicate Valid()
      reads this
    {
      AcceptedCount(questionCount)
    }

    /** App's initial questionCount is '' and the screen's inputError is ''. */
    constructor ()
      ensures questionCount == "" && inputError == "" && Valid()
    {
      questionCount, inputError := "", "";
    }

    /** handleQuestionCountChange with e.target.value == value. */
    method Change(value: string)
      modifies this
      ensures CountField(questionCount, inputError) == OnCountChange(value, old(CountField(questionCount, inputError)))
      ensures old(Valid()) ==> Valid()
    {
      ghost var before := CountField(questionCount, inputError);
      if value == "" {
        questionCount := "";
        inputError := "";
        return;
      }
      var parsed := ParseInt(value);
      if parsed.None? {
        return;
      }
      var n := parsed.value;
      if n > MaxCount as int {
        questionCount := "20";
        inputError := MaxCountError;
      } else if n < 1 {
        questionCount := "1";
      } else {
        questionCount := value;
        inputError := "";
      }
      if AcceptedCount(before.questionCount) {
        OnCountChangeKeepsAccepted(value, before);
      }
    }

    /** The callback scheduled 2000 ms after the over-limit message. */
    method ClearError()
      modifies this`inputError
      ensures inputError == ""
    {
      inputError := "";
    }
  }
}
