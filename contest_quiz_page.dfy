/** `ContestQuizPage.jsx`: the contest page's answer state, its grading and
    submission, the countdown and the `m:ss` timer text. The clock is a
    parameter (`now`, `start`) and one interval firing is one `Tick`. */
module ContestQuizPage {
  import opened Common
  import opened Text
  import opened Store
  import opened ContestRoutes

  /** The fields of a contest question the page grades with. */
  datatype QuizQuestion = QuizQuestion(id: Id, correctAnswer: int)

  /** The `answers` state: question id to the chosen option index. */
  type Answers = map<Id, int>

  /** `answers[q._id] === q.correctAnswer`: a question without an answer
      never matches. */
  predicate RightAnswer(q: QuizQuestion, answers: Answers) {
    q.id in answers && answers[q.id] == q.correctAnswer
  }

  // ---------------------------------------------------------------------
  // Grading

  /** The questions answered correctly, counted over the question list. */
  function CorrectCountOf(questions: seq<QuizQuestion>, answers: Answers): (n: nat)
    ensures n <= |questions|
  {
    if questions == [] then 0
    else CorrectCountOf(questions[..|questions| - 1], answers)
         + (if RightAnswer(questions[|questions| - 1], answers) then 1 else 0)
  }

  /** The count is the number of questions exactly when every question is
      answered correctly, and zero exactly when none is. */
  lemma {:induction false} CorrectCountExtremes(questions: seq<QuizQuestion>, answers: Answers)
    ensures CorrectCountOf(questions, answers) == |questions| <==>
              forall i :: 0 <= i < |questions| ==> RightAnswer(questions[i], answers)
    ensures CorrectCountOf(questions, answers) == 0 <==>
              forall i :: 0 <= i < |questions| ==> !RightAnswer(questions[i], answers)
  {
    if questions != [] {
      var init := questions[..|questions| - 1];
      CorrectCountExtremes(init, answers);
      assert forall i :: 0 <= i < |init| ==> init[i] == questions[i];
    }
  }

  /** With no answer recorded, nothing counts. */
  lemma NoAnswersNoScore(questions: seq<QuizQuestion>)
    ensures CorrectCountOf(questions, map[]) == 0
  {
    CorrectCountExtremes(questions, map[]);
  }

  /** The `questions.forEach` counter. */
  method CountCorrect(questions: seq<QuizQuestion>, answers: Answers) returns (correctCount: nat)
    ensures correctCount == CorrectCountOf(questions, answers)
    ensures correctCount <= |questions|
  {
    correctCount := 0;
    var i := 0;
    while i < |questions|
      invariant 0 <= i <= |questions|
      invariant correctCount == CorrectCountOf(questions[..i], answers)
    {
      assert questions[..i + 1][..i] == questions[..i];
      var q := questions[i];
      if q.id in answers && answers[q.id] == q.correctAnswer {
        correctCount := correctCount + 1;
      }
      i := i + 1;
    }
    assert questions[..i] == questions;
  }

  /** `Math.floor((Date.now() - start) / 1000)`, in whole seconds. */
  function ElapsedSeconds(now: int, start: int): (secs: int)
    ensures 1000 * secs <= now - start < 1000 * (secs + 1)
  {
    (now - start) / 1000
  }

  /** `contest.marksPerQuestion || 1`: a zero falls back to one. */
  function MarksOr(marks: int): (m: int)
    ensures m != 0
    ensures marks != 0 ==> m == marks
  {
    if marks == 0 then 1 else marks
  }

  /** The JSON body the page posts to the submit endpoint. */
  datatype ContestPayload = ContestPayload(
    studentId: Option<Id>, score: int, timeTaken: int, negativeMarking: real, totalQuestions: nat)

  /** What the page then shows: the correct count, not the weighted score. */
  datatype ShownResult = ShownResult(score: nat, total: nat, timeTaken: int, status: string)

  /** `handleSubmit`: grades the answers, builds the payload and the result
      shown; `status` is the one the server answers with. */
  method HandleSubmit(questions: seq<QuizQuestion>, answers: Answers, contest: Contest, userId: Option<Id>,
                      start: int, now: int, status: string)
    returns (payload: ContestPayload, shown: ShownResult)
    ensures var n := CorrectCountOf(questions, answers);
            && payload == ContestPayload(userId, n * MarksOr(contest.marksPerQuestion), ElapsedSeconds(now, start),
                                         contest.negativeMarking, |questions|)
            && shown == ShownResult(n, |questions|, ElapsedSeconds(now, start), status)
    ensures 0 <= shown.score <= shown.total
  {
    var timeTaken := (now - start) / 1000;
    var correctCount := CountCorrect(questions, answers);
    payload := ContestPayload(userId, correctCount * MarksOr(contest.marksPerQuestion), timeTaken,
                              contest.negativeMarking, |questions|);
    shown := ShownResult(correctCount, |questions|, timeTaken, status);
  }

  // ---------------------------------------------------------------------
  // What the server makes of the payload

  /** The student id as the server reads it: the signed-in user's id is
      the text of an id `ObjectId(...)` accepts; no user sends no key. */
  function SentId(uid: Option<Id>): Option<RawId> {
    if uid.Some? then Some(ObjectIdText(uid.value)) else None
  }

  /** The submission the server reads from the payload: the student id,
      and no `answers` key, since the payload carries none. */
  function ServerView(p: ContestPayload): (s: Submission)
    ensures s.studentId == SentId(p.studentId) && s.answers.None?
    ensures p.studentId.Some? ==> Truthy(s.studentId) && s.studentId.value.id == p.studentId.value
  {
    Submission(SentId(p.studentId), None)
  }

  /** Whatever the page sends, the server grades no answer: the tally is
      empty and its score is zero. */
  lemma ClientSubmissionScoresZero(contests: seq<Contest>, questions: seq<Question>, k: nat, p: ContestPayload)
    requires k < |contests|
    ensures SubmissionTally(contests, questions, k, ServerView(p)) == Tally(0.0, 0, 0, [])
  {
  }

  /** The entry the server keeps for a page submission has score zero, no
      graded answers, and the time taken it held before (none on a new
      entry): the page's `score` and `timeTaken` are discarded. */
  lemma ClientSubmissionStored(lb: seq<Entry>, contests: seq<Contest>, questions: seq<Question>, k: nat,
                               p: ContestPayload, contest: Id, now: Time, newId: Id)
    requires k < |contests| && p.studentId.Some?
    ensures var t := SubmissionTally(contests, questions, k, ServerView(p));
            var r := Submitted(lb, contest, p.studentId.value, RealMax(t.score, 0.0), t.processed, now, newId);
            var j := FindEntry(r, contest, p.studentId.value);
            && j.Some?
            && r[j.value].score == 0.0 && r[j.value].answers == []
            && r[j.value].timeTaken == (match FindEntry(lb, contest, p.studentId.value)
                                        case Some(i) => lb[i].timeTaken
                                        case None => None)
  {
    ClientSubmissionScoresZero(contests, questions, k, p);
    SubmittedEntry(lb, contest, p.studentId.value, 0.0, [], now, newId);
  }

  /** The answer list the page evidently means to send: one answer per
      question, -1 where none was chosen (the server's own default). */
  function AnswerList(questions: seq<QuizQuestion>, answers: Answers): (r: seq<ContestAnswer>)
    ensures |r| == |questions|
    ensures forall i :: 0 <= i < |r| ==>
              r[i].questionId == Some(questions[i].id)
              && r[i].selectedOption == (if questions[i].id in answers then answers[questions[i].id] else -1)
  {
    if questions == [] then []
    else
      var q := questions[|questions| - 1];
      AnswerList(questions[..|questions| - 1], answers)
        + [ContestAnswer(Some(q.id), if q.id in answers then answers[q.id] else -1)]
  }

  /** The server's question map agrees with the page's questions. */
  predicate Agrees(qmap: map<Id, Question>, questions: seq<QuizQuestion>) {
    forall i :: 0 <= i < |questions| ==>
      questions[i].id in qmap && qmap[questions[i].id].correctAnswer == questions[i].correctAnswer
  }

  /** The corrected submission: the payload's student id and the answers. */
  function CorrectedSubmission(p: ContestPayload, questions: seq<QuizQuestion>, answers: Answers): (s: Submission)
    ensures s.studentId == SentId(p.studentId) && s.answers == Some(AnswerList(questions, answers))
  {
    Submission(SentId(p.studentId), Some(AnswerList(questions, answers)))
  }

  /** Sending the answers, the server counts as correct exactly the
      questions the page counts (correct options being indices, never -1). */
  lemma {:induction false} CorrectedSubmissionAgrees(qmap: map<Id, Question>, questions: seq<QuizQuestion>,
                                                     answers: Answers, marks: int, negative: real)
    requires Agrees(qmap, questions)
    requires forall i :: 0 <= i < |questions| ==> questions[i].correctAnswer >= 0
    ensures TallyOf(qmap, AnswerList(questions, answers), marks, negative).correct == CorrectCountOf(questions, answers)
  {
    if questions != [] {
      var init := questions[..|questions| - 1];
      var q := questions[|questions| - 1];
      assert Agrees(qmap, init) by {
        assert forall i :: 0 <= i < |init| ==> init[i] == questions[i];
      }
      CorrectedSubmissionAgrees(qmap, init, answers, marks, negative);
      var a := ContestAnswer(Some(q.id), if q.id in answers then answers[q.id] else -1);
      assert AnswerList(questions, answers) == AnswerList(init, answers) + [a];
      assert q.id in qmap && qmap[q.id].correctAnswer == q.correctAnswer >= 0;
      TallyCorrectSnoc(qmap, AnswerList(init, answers), a, marks, negative);
    }
  }

  /** One more answer to a known question counts as correct exactly when
      its option is the question's correct one. */
  lemma TallyCorrectSnoc(qmap: map<Id, Question>, list: seq<ContestAnswer>, a: ContestAnswer, marks: int, negative: real)
    requires Known(qmap, a)
    ensures TallyOf(qmap, list + [a], marks, negative).correct
            == TallyOf(qmap, list, marks, negative).correct
               + (if a.selectedOption == qmap[a.questionId.value].correctAnswer then 1 else 0)
  {
    assert (list + [a])[..|list|] == list;
  }

  /** Without negative marking, the server's score for the corrected
      submission is the score the page computes. */
  lemma CorrectedSubmissionScore(qmap: map<Id, Question>, questions: seq<QuizQuestion>, answers: Answers, marks: int)
    requires Agrees(qmap, questions)
    requires forall i :: 0 <= i < |questions| ==> questions[i].correctAnswer >= 0
    ensures TallyOf(qmap, AnswerList(questions, answers), marks, 0.0).score
            == (CorrectCountOf(questions, answers) * marks) as real
  {
    var list := AnswerList(questions, answers);
    CorrectedSubmissionAgrees(qmap, questions, answers, marks, 0.0);
    TallyWithoutPenalty(qmap, list, marks);
  }

  /** With no penalty the server's score is its correct count times the
      marks. */
  lemma TallyWithoutPenalty(qmap: map<Id, Question>, list: seq<ContestAnswer>, marks: int)
    ensures TallyOf(qmap, list, marks, 0.0).score == (TallyOf(qmap, list, marks, 0.0).correct * marks) as real
  {
    var t := TallyOf(qmap, list, marks, 0.0);
    TallyScore(qmap, list, marks, 0.0);
    TimesIsProduct(t.correct, marks as real);
    TimesIsProduct(t.wrong, 0.0);
    ScoreWithoutPenalty(t.correct, t.wrong, marks);
  }

  /** With no penalty the score is the correct count times the marks. */
  lemma ScoreWithoutPenalty(correct: nat, wrong: nat, marks: int)
    ensures correct as real * marks as real - wrong as real * 0.0 == (correct * marks) as real
  {
  }

  // ---------------------------------------------------------------------
  // Countdown

  /** One interval firing: at one second or less the timer stops at zero
      (and the page submits), otherwise it counts down by one. */
  function Step(t: int): (r: int)
    ensures r >= 0 && (t >= 1 ==> r < t)
  {
    if t <= 1 then 0 else t - 1
  }

  /** The timer after `n` firings from `t`. */
  function Ticks(t: int, n: nat): int {
    if n == 0 then t else Step(Ticks(t, n - 1))
  }

  /** From `t` seconds the timer reads `t - n` after `n < t` firings and
      reaches zero at firing `t`, where the automatic submission happens. */
  lemma {:induction false} CountdownReachesZero(t: int, n: nat)
    requires t > 0 && n <= t
    ensures n < t ==> Ticks(t, n) == t - n
    ensures n == t ==> Ticks(t, n) == 0
  {
    if n > 0 {
      CountdownReachesZero(t, n - 1);
    }
  }

  /** The page's contest state. */
  class ContestQuiz {
    var answers: Answers
    /** `null` until the contest is loaded. */
    var timeLeft: Option<int>
    /** How many times the countdown has submitted. */
    var autoSubmits: nat

    constructor ()
      ensures answers == map[] && timeLeft == None && autoSubmits == 0
    {
      answers := map[];
      timeLeft := None;
      autoSubmits := 0;
    }

    /** The interval runs only while the timer holds a positive value. */
    predicate Running()
      reads this
    {
      timeLeft.Some? && timeLeft.value > 0
    }

    /** The load effect: `durationMinutes * 60` seconds. */
    method Load(durationMinutes: int)
      modifies this`timeLeft
      ensures timeLeft == Some(durationMinutes * 60)
    {
      timeLeft := Some(durationMinutes * 60);
    }

    /** `handleChange(qid, val)`: only that question's entry changes. */
    method HandleChange(qid: Id, val: int)
      modifies this`answers
      ensures answers == old(answers)[qid := val]
      ensures answers.Keys == old(answers.Keys) + {qid}
      ensures forall k :: k in old(answers) && k != qid ==> answers[k] == old(answers[k])
    {
      answers := answers[qid := val];
    }

    /** One firing of the interval. */
    method Tick()
      modifies this`timeLeft, this`autoSubmits
      ensures !old(Running()) ==> timeLeft == old(timeLeft) && autoSubmits == old(autoSubmits)
      ensures old(Running()) ==> timeLeft == Some(Step(old(timeLeft.value)))
      ensures old(Running()) ==> autoSubmits == old(autoSubmits) + (if old(timeLeft.value) <= 1 then 1 else 0)
    {
      if timeLeft.None? || timeLeft.value <= 0 {
        return;
      }
      var prev := timeLeft.value;
      if prev <= 1 {
        autoSubmits := autoSubmits + 1;
        timeLeft := Some(0);
      } else {
        timeLeft := Some(prev - 1);
      }
    }
  }

  // ---------------------------------------------------------------------
  // Timer text

  /** JavaScript's `%`: the remainder takes the sign of the dividend. */
  function JsRem(a: int, b: int): (r: int)
    requires b > 0
    ensures a >= 0 ==> r == a % b
    ensures -b < r < b
  {
    if a >= 0 then a % b else -((-a) % b)
  }

  /** `String.prototype.padStart(2, '0')`. */
  function PadStart2(s: string): (r: string)
    ensures |s| >= 2 ==> r == s
    ensures |s| < 2 ==> |r| == 2 && r[2 - |s|..] == s && forall i :: 0 <= i < 2 - |s| ==> r[i] == '0'
    decreases 2 - |s|
  {
    if |s| >= 2 then s else PadStart2("0" + s)
  }

  /** `formatTime(seconds)`: minutes, a colon, seconds padded to two digits. */
  function FormatTime(seconds: int): string {
    IntToString(seconds / 60) + [':'] + PadStart2(IntToString(JsRem(seconds, 60)))
  }

  predicate AllDigits(s: string) {
    forall i :: 0 <= i < |s| ==> IsDigit(s[i])
  }

  /** The value of a two-digit field. */
  function FieldValue(f: string): nat
    requires |f| == 2 && IsDigit(f[0]) && IsDigit(f[1])
  {
    10 * DigitValue(f[0]) + DigitValue(f[1])
  }

  /** Reading an `m:ss` text back as a number of seconds. */
  function ReadTime(text: string): Option<int> {
    if |text| < 4 || text[|text| - 3] != ':' then None
    else
      var mins, secs := text[..|text| - 3], text[|text| - 2..];
      if AllDigits(mins) && IsDigit(secs[0]) && IsDigit(secs[1])
      then Some(DigitsValue(mins) * 60 + FieldValue(secs))
      else None
  }

  /** The seconds field: two digits whose value is the number. */
  lemma SecondsField(n: nat)
    requires n < 60
    ensures var f := PadStart2(NatToString(n));
            |f| == 2 && IsDigit(f[0]) && IsDigit(f[1]) && FieldValue(f) == n
  {
    if n < 10 {
      assert NatToString(n) == [DigitChar(n)];
    } else {
      assert NatToString(n / 10) == [DigitChar(n / 10)];
    }
  }

  /** An `m:ss` text made of a digit run and a two-digit field reads back. */
  lemma ReadTimeOf(mins: string, secs: string)
    requires |mins| >= 1 && AllDigits(mins) && |secs| == 2 && IsDigit(secs[0]) && IsDigit(secs[1])
    ensures ReadTime(mins + [':'] + secs) == Some(DigitsValue(mins) * 60 + FieldValue(secs))
  {
    var text := mins + [':'] + secs;
    assert |text| == |mins| + 3;
    assert text[|text| - 3] == ':';
    assert text[..|text| - 3] == mins;
    assert text[|text| - 2..] == secs;
    ReadTimeParts(text, mins, secs);
  }

  /** A text whose colon, minutes and seconds fields are known reads as
      those fields. */
  lemma ReadTimeParts(text: string, mins: string, secs: string)
    requires |text| >= 4 && text[|text| - 3] == ':'
    requires text[..|text| - 3] == mins && text[|text| - 2..] == secs
    requires AllDigits(mins) && |secs| == 2 && IsDigit(secs[0]) && IsDigit(secs[1])
    ensures ReadTime(text) == Some(DigitsValue(mins) * 60 + FieldValue(secs))
  {
  }

  lemma FormatTimeOfNat(seconds: int)
    requires seconds >= 0
    ensures FormatTime(seconds) == NatToString(seconds / 60) + [':'] + PadStart2(NatToString(seconds % 60))
  {
    assert JsRem(seconds, 60) == seconds % 60;
  }

  /** For a non-negative count the text ends in two seconds digits below 60
      and reads back as the count. */
  lemma FormatTimeRoundTrip(seconds: int)
    requires seconds >= 0
    ensures var text := FormatTime(seconds);
            && ReadTime(text) == Some(seconds)
            && FieldValue(text[|text| - 2..]) < 60
  {
    var mins := NatToString(seconds / 60);
    var secs := PadStart2(NatToString(seconds % 60));
    FormatTimeOfNat(seconds);
    NatToStringRoundTrip(seconds / 60);
    SecondsField(seconds % 60);
    ReadTimeOf(mins, secs);
    var text := mins + [':'] + secs;
    assert text[|text| - 2..] == secs;
  }
}
