/** The quiz-taking component: scoring, the countdown, navigation between
    questions, the submission payload and the `MM:SS` clock. The answers are a
    map from question id to the index of the chosen option. Calls to the
    submit mutation are recorded with the answers they were given; the request
    itself and the results screen's rendering lie outside this model. */
module QuizInterface {
  import opened Wrappers
  import opened Schema
  import Seqs
  import Text
  import JsMath

  type Answers = map<int, int>

  // ------------------------------------------------------------- scoring

  /** `userAnswers[question.id] === question.correctAnswer`: an unanswered
      question is never correct. */
  predicate AnsweredCorrectly(q: Question, answers: Answers) {
    q.id in answers && answers[q.id] == q.correctAnswer
  }

  /** The number of questions answered correctly. */
  function Score(qs: seq<Question>, answers: Answers): (n: nat)
    ensures n <= |qs|
  {
    if qs == [] then 0
    else Score(qs[..|qs| - 1], answers) + (if AnsweredCorrectly(qs[|qs| - 1], answers) then 1 else 0)
  }

  /** The positions of the correctly answered questions. */
  function CorrectPositions(qs: seq<Question>, answers: Answers): set<int> {
    set i | 0 <= i < |qs| && AnsweredCorrectly(qs[i], answers)
  }

  /** The score counts exactly the correctly answered questions. */
  lemma {:induction false} ScoreCountsCorrect(qs: seq<Question>, answers: Answers)
    ensures Score(qs, answers) == |CorrectPositions(qs, answers)|
  {
    if qs != [] {
      var init := qs[..|qs| - 1];
      var last := |qs| - 1;
      ScoreCountsCorrect(init, answers);
      var before := CorrectPositions(init, answers);
      if AnsweredCorrectly(qs[last], answers) {
        assert CorrectPositions(qs, answers) == before + {last};
        assert last !in before;
      } else {
        assert CorrectPositions(qs, answers) == before;
      }
    }
  }

  /** With no answers the score is 0. */
  lemma {:induction false} ScoreOfNoAnswers(qs: seq<Question>)
    ensures Score(qs, map[]) == 0
  {
    if qs != [] {
      ScoreOfNoAnswers(qs[..|qs| - 1]);
    }
  }

  /** A question without an answer adds nothing to the score. */
  lemma ScoreIgnoresUnanswered(qs: seq<Question>, q: Question, answers: Answers)
    requires q.id !in answers
    ensures Score(qs + [q], answers) == Score(qs, answers)
  {
    assert (qs + [q])[..|qs|] == qs;
  }

  /** An answer for an id no question has leaves the score as it was. */
  lemma {:induction false} ScoreIgnoresOtherIds(qs: seq<Question>, answers: Answers, id: int, choice: int)
    requires forall i :: 0 <= i < |qs| ==> qs[i].id != id
    ensures Score(qs, answers[id := choice]) == Score(qs, answers)
  {
    if qs != [] {
      ScoreIgnoresOtherIds(qs[..|qs| - 1], answers, id, choice);
    }
  }

  /** Answering every question correctly gives full marks. */
  lemma {:induction false} ScoreAllCorrect(qs: seq<Question>, answers: Answers)
    requires forall i :: 0 <= i < |qs| ==> AnsweredCorrectly(qs[i], answers)
    ensures Score(qs, answers) == |qs|
  {
    if qs != [] {
      ScoreAllCorrect(qs[..|qs| - 1], answers);
    }
  }

  /** The percentage on the results screen, `Math.round(score / length * 100)`.
      An empty quiz would divide by zero there. */
  function Percentage(qs: seq<Question>, answers: Answers): (p: int)
    requires |qs| > 0
    ensures 0 <= p <= 100
  {
    JsMath.PercentBounds(Score(qs, answers), |qs|);
    JsMath.Percent(Score(qs, answers), |qs|)
  }

  /** All answers correct shows 100%. */
  lemma PercentageAllCorrect(qs: seq<Question>, answers: Answers)
    requires |qs| > 0
    requires forall i :: 0 <= i < |qs| ==> AnsweredCorrectly(qs[i], answers)
    ensures Percentage(qs, answers) == 100
  {
    ScoreAllCorrect(qs, answers);
    assert |qs| as real / |qs| as real * 100.0 == 100.0;
    JsMath.RoundOfInt(100);
  }

  /** No answers shows 0%. */
  lemma PercentageNoAnswers(qs: seq<Question>)
    requires |qs| > 0
    ensures Percentage(qs, map[]) == 0
  {
    ScoreOfNoAnswers(qs);
    JsMath.RoundOfInt(0);
  }

  // ------------------------------------------------------------ countdown

  /** The state update the interval applies every second. */
  function NextTime(prev: int): (next: int)
    ensures next >= 0
    ensures prev > 1 ==> next == prev - 1
    ensures prev <= 1 ==> next == 0
  {
    if prev <= 1 then 0 else prev - 1
  }

  /** A tick submits exactly when the previous time was at most 1. */
  predicate TickSubmits(prev: int) {
    prev <= 1
  }

  /** The remaining time after `n` ticks from `t`. */
  function TimeAfter(t: int, n: nat): int {
    if n == 0 then t else NextTime(TimeAfter(t, n - 1))
  }

  /** How many of the first `n` ticks from `t` submit. */
  function SubmitsIn(t: int, n: nat): nat {
    if n == 0 then 0 else SubmitsIn(t, n - 1) + (if TickSubmits(TimeAfter(t, n - 1)) then 1 else 0)
  }

  /** From `t` seconds, the first `t - 1` ticks count down without submitting. */
  lemma {:induction false} CountdownBeforeSubmit(t: int, n: nat)
    requires n < t
    ensures TimeAfter(t, n) == t - n
    ensures SubmitsIn(t, n) == 0
  {
    if n > 0 {
      CountdownBeforeSubmit(t, n - 1);
    }
  }

  /** From `t >= 1` seconds, tick `t` submits and so does every tick after it,
      since the interval is never cleared while the quiz is open: `n` ticks
      submit `n - t + 1` times. */
  lemma {:induction false} SubmitsRepeatedly(t: int, n: nat)
    requires t >= 1 && n >= t
    ensures TimeAfter(t, n) == 0
    ensures SubmitsIn(t, n) == n - t + 1
  {
    if n == t {
      CountdownBeforeSubmit(t, n - 1);
    } else {
      SubmitsRepeatedly(t, n - 1);
    }
  }

  /** A one-minute quiz: 59 ticks count down, tick 60 submits, tick 61 submits again. */
  lemma OneMinuteQuiz()
    ensures SubmitsIn(60, 59) == 0 && TimeAfter(60, 59) == 1
    ensures SubmitsIn(60, 60) == 1 && TimeAfter(60, 60) == 0
    ensures SubmitsIn(60, 61) == 2
  {
    CountdownBeforeSubmit(60, 59);
    SubmitsRepeatedly(60, 60);
    SubmitsRepeatedly(60, 61);
  }

  // ---------------------------------------------------------------- clock

  /** JavaScript's `a % b` for `b > 0`: the sign follows `a`. */
  function JsRemainder(a: int, b: int): (r: int)
    requires b > 0
    ensures a >= 0 ==> r == a % b
    ensures a < 0 ==> r == -((-a) % b)
  {
    if a >= 0 then a % b else -((-a) % b)
  }

  /** `String(n).padStart(2, '0')`. */
  function Pad2(n: int): string {
    Text.PadStart(Text.IntToString(n), 2, '0')
  }

  /** A non-negative number padded to two places is digits only, denotes the
      number, and is exactly two long below 100. */
  lemma Pad2Digits(n: nat)
    ensures |Pad2(n)| >= 2 && Text.AllDigits(Pad2(n)) && Text.DigitsValue(Pad2(n)) == n
    ensures n < 100 ==> |Pad2(n)| == 2
  {
    var s := Text.NatToString(n);
    var r := Text.PadStart(s, 2, '0');
    assert Pad2(n) == r;
    Text.LeadingZerosValue(|r| - |s|, s);
    Text.NatToStringValue(n);
    NatToStringShort(n);
  }

  /** `formatTime`: whole minutes and remaining seconds, each padded to two
      places, joined by a colon. For a negative count the minutes round down
      and the seconds keep the sign, as JavaScript's `%` does. */
  function FormatTime(seconds: int): string {
    Pad2(seconds / 60) + ":" + Pad2(JsRemainder(seconds, 60))
  }

  /** A number below 100 has at most two digits. */
  lemma NatToStringShort(n: nat)
    ensures n < 100 ==> |Text.NatToString(n)| <= 2
  {
    if 10 <= n < 100 {
      assert Text.NatToString(n) == Text.NatToString(n / 10) + [Text.DigitChar(n % 10)];
    }
  }

  /** Reads an `MM:SS` clock back as a number of seconds. */
  function ParseClock(t: string): (r: Option<int>)
    ensures r.Some? ==> r.value >= 0
  {
    var parts := Text.Split(t, ':');
    if |parts| == 2 && Text.AllDigits(parts[0]) && Text.AllDigits(parts[1]) &&
       parts[0] != [] && parts[1] != []
    then Some(60 * Text.DigitsValue(parts[0]) + Text.DigitsValue(parts[1]))
    else None
  }

  /** Two digit strings joined by a colon read back as 60 times the first
      plus the second. */
  lemma ParseClockOf(mm: string, ss: string, minutes: nat, secs: nat)
    requires mm != [] && ss != [] && Text.AllDigits(mm) && Text.AllDigits(ss)
    requires Text.DigitsValue(mm) == minutes && Text.DigitsValue(ss) == secs
    ensures ParseClock(mm + ":" + ss) == Some(60 * minutes + secs)
  {
    assert ':' !in mm && ':' !in ss;
    Text.SplitPair(mm, ss, ':');
    assert mm + ":" + ss == mm + [':'] + ss;
  }

  /** The clock loses nothing: 60 times the minutes plus the seconds is the
      input, and the seconds take exactly two places after the colon. */
  lemma FormatTimeRoundTrip(seconds: nat)
    ensures ParseClock(FormatTime(seconds)) == Some(seconds)
    ensures |FormatTime(seconds)| >= 5 && FormatTime(seconds)[|FormatTime(seconds)| - 3] == ':'
  {
    var minutes, secs := seconds / 60, seconds % 60;
    assert JsRemainder(seconds, 60) == secs;
    var mm, ss := Pad2(minutes), Pad2(secs);
    Pad2Digits(minutes);
    Pad2Digits(secs);
    var r := mm + ":" + ss;
    assert FormatTime(seconds) == r;
    ParseClockOf(mm, ss, minutes, secs);
    var p := ParseClock(r);
    assert p.Some? && p.value == seconds;
    assert r[|mm|] == ':';
  }

  // -------------------------------------------------------------- payload

  /** `quiz.questions.find(q => q.id === questionId)?.correctAnswer === answer`. */
  function RecordCorrect(qs: seq<Question>, questionId: int, answer: int): (c: bool)
    ensures c ==> exists i :: 0 <= i < |qs| && qs[i].id == questionId && qs[i].correctAnswer == answer
    ensures (forall i :: 0 <= i < |qs| ==> qs[i].id != questionId) ==> !c
  {
    match Seqs.Find(qs, (q: Question) => q.id == questionId)
    case None => false
    case Some(q) => q.correctAnswer == answer
  }

  /** With distinct question ids, a record is correct exactly when the question
      with that id has the chosen option as its correct answer. */
  lemma RecordCorrectDistinct(qs: seq<Question>, j: int, answer: int)
    requires forall a, b :: 0 <= a < b < |qs| ==> qs[a].id != qs[b].id
    requires 0 <= j < |qs|
    ensures RecordCorrect(qs, qs[j].id, answer) <==> qs[j].correctAnswer == answer
  {
    var f := Seqs.Find(qs, (q: Question) => q.id == qs[j].id);
    assert f.Some?;
  }

  /** The body the submit mutation sends. */
  datatype Submission = Submission(quizId: string, score: int, totalQuestions: int,
                                   answers: seq<AnswerRecord>)

  /** One answered question as the payload reports it. */
  predicate Reports(qs: seq<Question>, answers: Answers, rec: AnswerRecord) {
    && rec.questionId in answers
    && rec.answer == answers[rec.questionId]
    && rec.correct == RecordCorrect(qs, rec.questionId, rec.answer)
  }

  function QuestionIds(records: seq<AnswerRecord>): (ids: seq<int>)
    ensures |ids| == |records| && forall i :: 0 <= i < |ids| ==> ids[i] == records[i].questionId
  {
    seq(|records|, i requires 0 <= i < |records| => records[i].questionId)
  }

  /** One record per key, in the order of `keys`. */
  function Records(qs: seq<Question>, answers: Answers, keys: seq<int>): (records: seq<AnswerRecord>)
    requires forall i :: 0 <= i < |keys| ==> keys[i] in answers
    ensures QuestionIds(records) == keys
    ensures forall i :: 0 <= i < |records| ==> Reports(qs, answers, records[i])
  {
    var records := seq(|keys|, i requires 0 <= i < |keys| =>
                         AnswerRecord(keys[i], answers[keys[i]], RecordCorrect(qs, keys[i], answers[keys[i]])));
    assert QuestionIds(records) == keys;
    records
  }

  /** `mutationFn`: the score, the number of questions (answered or not), and
      one record per answered question id, in ascending id order. */
  ghost function BuildSubmission(quizId: string, quiz: Quiz, answers: Answers): (s: Submission)
    ensures s.quizId == quizId
    ensures s.score == Score(quiz.questions, answers)
    ensures s.totalQuestions == |quiz.questions|
    ensures |s.answers| == |answers|
    ensures forall i :: 0 <= i < |s.answers| ==> Reports(quiz.questions, answers, s.answers[i])
    ensures Seqs.Lists(QuestionIds(s.answers), answers.Keys)
    ensures Seqs.StrictlyAscending(QuestionIds(s.answers))
  {
    var keys := Seqs.AscendingKeys(answers.Keys);
    assert forall i :: 0 <= i < |keys| ==> keys[i] in answers;
    Submission(quizId, Score(quiz.questions, answers), |quiz.questions|, Records(quiz.questions, answers, keys))
  }

  // -------------------------------------------------------------- session

  /** The component's state. `captured` is the answer map the interval's
      closure saw when the timer effect last ran; `submissions` lists the
      answer maps passed to the submit mutation, oldest first. */
  class QuizSession {
    const quizId: string
    var quiz: Option<Quiz>
    var currentQuestion: int
    var answers: Answers
    var timeRemaining: int
    var showResults: bool
    var captured: Answers
    var submissions: seq<Answers>
    var closeRequests: nat

    /** The index points at a question of the loaded quiz. */
    predicate OnAQuestion()
      reads this
    {
      quiz.Some? && 0 <= currentQuestion < |quiz.value.questions|
    }

    /** The initial state: nothing loaded, nothing answered. */
    constructor (quizId: string)
      ensures this.quizId == quizId && quiz.None?
      ensures currentQuestion == 0 && answers == map[] && timeRemaining == 0 && !showResults
      ensures captured == map[] && submissions == [] && closeRequests == 0
    {
      this.quizId := quizId;
      quiz := None;
      currentQuestion := 0;
      answers := map[];
      timeRemaining := 0;
      showResults := false;
      captured := map[];
      submissions := [];
      closeRequests := 0;
    }

    /** The quiz arrives while the component is open, so the timer effect runs:
        the countdown starts at the time limit in seconds, and the interval's
        closure captures the answers as they are now. */
    method Load(q: Quiz)
      modifies this
      ensures quiz == Some(q) && timeRemaining == q.timeLimit * 60 && captured == answers
      ensures answers == old(answers) && currentQuestion == old(currentQuestion)
      ensures showResults == old(showResults) && submissions == old(submissions)
      ensures closeRequests == old(closeRequests)
    {
      quiz := Some(q);
      timeRemaining := q.timeLimit * 60;
      captured := answers;
    }

    /** One interval tick. At 1 second or less it submits the captured answers,
        not the latest ones, and the time becomes 0; every later tick submits again. */
    method Tick()
      requires quiz.Some?
      modifies this
      ensures timeRemaining == NextTime(old(timeRemaining)) && timeRemaining >= 0
      ensures TickSubmits(old(timeRemaining)) ==> submissions == old(submissions) + [captured]
      ensures !TickSubmits(old(timeRemaining)) ==> submissions == old(submissions)
      ensures quiz == old(quiz) && answers == old(answers) && captured == old(captured)
      ensures currentQuestion == old(currentQuestion) && showResults == old(showResults)
      ensures closeRequests == old(closeRequests)
    {
      if timeRemaining <= 1 {
        submissions := submissions + [captured];
      }
      timeRemaining := NextTime(timeRemaining);
    }

    /** `calculateScore`: 0 without a quiz, else the number of questions whose
        answer is the correct one. */
    method CalculateScore(userAnswers: Answers) returns (correct: int)
      ensures quiz.None? ==> correct == 0
      ensures quiz.Some? ==> correct == Score(quiz.value.questions, userAnswers)
      ensures quiz.Some? ==> 0 <= correct <= |quiz.value.questions|
    {
      if quiz.None? {
        return 0;
      }
      var questions := quiz.value.questions;
      correct := 0;
      var i := 0;
      while i < |questions|
        invariant 0 <= i <= |questions|
        invariant correct == Score(questions[..i], userAnswers)
      {
        var question := questions[i];
        if question.id in userAnswers && userAnswers[question.id] == question.correctAnswer {
          correct := correct + 1;
        }
        assert questions[..i + 1][..i] == questions[..i];
        i := i + 1;
      }
      assert questions[..i] == questions;
    }

    /** `handleAnswerSelect`: the chosen option replaces any earlier choice for
        that question; every other entry stays. The captured map is not touched. */
    method SelectAnswer(questionId: int, answerIndex: int)
      modifies this
      ensures answers == old(answers)[questionId := answerIndex]
      ensures forall id :: id != questionId && id in old(answers) ==> id in answers && answers[id] == old(answers)[id]
      ensures quiz == old(quiz) && currentQuestion == old(currentQuestion)
      ensures timeRemaining == old(timeRemaining) && showResults == old(showResults)
      ensures captured == old(captured) && submissions == old(submissions)
      ensures closeRequests == old(closeRequests)
    {
      answers := answers[questionId := answerIndex];
    }

    /** `nextQuestion`: moves on only below the last question. */
    method NextQuestion()
      requires quiz.Some?
      modifies this
      ensures old(currentQuestion) < |old(quiz).value.questions| - 1 ==> currentQuestion == old(currentQuestion) + 1
      ensures old(currentQuestion) >= |old(quiz).value.questions| - 1 ==> currentQuestion == old(currentQuestion)
      ensures old(OnAQuestion()) ==> OnAQuestion()
      ensures quiz == old(quiz) && answers == old(answers) && timeRemaining == old(timeRemaining)
      ensures showResults == old(showResults) && captured == old(captured)
      ensures submissions == old(submissions) && closeRequests == old(closeRequests)
    {
      if currentQuestion < |quiz.value.questions| - 1 {
        currentQuestion := currentQuestion + 1;
      }
    }

    /** `previousQuestion`: moves back only above the first question. */
    method PreviousQuestion()
      modifies this
      ensures old(currentQuestion) > 0 ==> currentQuestion == old(currentQuestion) - 1
      ensures old(currentQuestion) <= 0 ==> currentQuestion == old(currentQuestion)
      ensures old(OnAQuestion()) ==> OnAQuestion()
      ensures quiz == old(quiz) && answers == old(answers) && timeRemaining == old(timeRemaining)
      ensures showResults == old(showResults) && captured == old(captured)
      ensures submissions == old(submissions) && closeRequests == old(closeRequests)
    {
      if currentQuestion > 0 {
        currentQuestion := currentQuestion - 1;
      }
    }

    /** `finishQuiz`: submits the current answers. */
    method FinishQuiz()
      modifies this
      ensures submissions == old(submissions) + [old(answers)]
      ensures quiz == old(quiz) && answers == old(answers) && timeRemaining == old(timeRemaining)
      ensures currentQuestion == old(currentQuestion) && showResults == old(showResults)
      ensures captured == old(captured) && closeRequests == old(closeRequests)
    {
      submissions := submissions + [answers];
    }

    /** The mutation's `onSuccess`: the results are shown. */
    method SubmitSucceeded()
      modifies this
      ensures showResults
      ensures quiz == old(quiz) && answers == old(answers) && timeRemaining == old(timeRemaining)
      ensures currentQuestion == old(currentQuestion) && captured == old(captured)
      ensures submissions == old(submissions) && closeRequests == old(closeRequests)
    {
      showResults := true;
    }

    /** `handleClose`: asks the parent to close, then goes back to the first
        question, forgets the answers and hides the results. The remaining time
        and the captured answers are left as they were. */
    method HandleClose()
      modifies this
      ensures closeRequests == old(closeRequests) + 1
      ensures currentQuestion == 0 && answers == map[] && !showResults
      ensures timeRemaining == old(timeRemaining) && captured == old(captured)
      ensures quiz == old(quiz) && submissions == old(submissions)
    {
      closeRequests := closeRequests + 1;
      currentQuestion := 0;
      answers := map[];
      showResults := false;
    }

    /** The percentage on the results screen. */
    function ResultPercentage(): (p: int)
      reads this
      requires quiz.Some? && |quiz.value.questions| > 0
      ensures 0 <= p <= 100
      ensures answers == map[] ==> p == 0
    {
      if answers == map[] then
        PercentageNoAnswers(quiz.value.questions);
        Percentage(quiz.value.questions, answers)
      else Percentage(quiz.value.questions, answers)
    }
  }
}
