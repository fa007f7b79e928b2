/**
 * The mock-interview page: questions are loaded once, the candidate starts
 * the interview, answers the questions one at a time (each answer is
 * evaluated and appended to a transcript together with the time spent on
 * it), and after the last question sees the results, from where the
 * interview can be restarted.
 *
 * The page's state hooks are the fields of `Interview`; its handlers are the
 * methods. Toasts are recorded as events. Whether a backend call fails is a
 * parameter, since the mock service never fails but the page handles the
 * failure.
 */
module MockInterview {
  import opened Wrappers
  import opened Text
  import opened Domain
  import GeminiApi

  /** One answered question. */
  datatype AnswerResult = AnswerResult(
    question: string,
    answer: string,
    timeSpent: nat,
    evaluation: string,
    improvementPoints: seq<string>,
    score: real)

  /** The result recorded for `answer` to `question`, as evaluated by the service. */
  function ResultOf(question: string, answer: string, timeSpent: nat): (r: AnswerResult)
    ensures r.question == question && r.answer == answer && r.timeSpent == timeSpent
    ensures r.score == GeminiApi.LengthScore(Utf16Length(answer)) && 0.5 <= r.score <= 0.95
  {
    var e := GeminiApi.EvaluateAnswer(question, answer);
    AnswerResult(question, answer, timeSpent, e.evaluation, e.improvementPoints, e.score)
  }

  // ---------------------------------------------------------------------------
  // Pure helpers

  /** The time spent over a transcript. */
  function TotalTime(results: seq<AnswerResult>): nat {
    if results == [] then 0
    else TotalTime(results[..|results| - 1]) + results[|results| - 1].timeSpent
  }

  /** `answerResults.reduce((sum, result) => sum + result.score, 0)` */
  function SumScores(results: seq<AnswerResult>): real {
    if results == [] then 0.0
    else SumScores(results[..|results| - 1]) + results[|results| - 1].score
  }

  /** `getAverageScore()`: 0 for no answers, otherwise the mean score. */
  function AverageScore(results: seq<AnswerResult>): (avg: real)
    ensures results == [] ==> avg == 0.0
    ensures results != [] ==> avg * |results| as real == SumScores(results)
  {
    if |results| == 0 then 0.0 else SumScores(results) / |results| as real
  }

  /** The sum of `n` scores between `lo` and `hi` lies between `n * lo` and `n * hi`. */
  lemma {:induction false} SumScoresBounds(results: seq<AnswerResult>, lo: real, hi: real)
    requires forall j :: 0 <= j < |results| ==> lo <= results[j].score <= hi
    ensures |results| as real * lo <= SumScores(results) <= |results| as real * hi
  {
    if results != [] {
      var n := |results| - 1;
      SumScoresBounds(results[..n], lo, hi);
      assert lo <= results[n].score <= hi;
    }
  }

  /** The average lies between the least and the greatest score. */
  lemma AverageWithinBounds(results: seq<AnswerResult>, lo: real, hi: real)
    requires results != []
    requires forall j :: 0 <= j < |results| ==> lo <= results[j].score <= hi
    ensures lo <= AverageScore(results) <= hi
  {
    SumScoresBounds(results, lo, hi);
  }

  /** `formatTime(seconds)`: the minutes, a colon, and the seconds as exactly two digits. */
  function FormatTime(seconds: nat): (t: string)
    ensures |t| >= 4 && t[|t| - 3] == ':'
    ensures t[..|t| - 3] == Decimal(seconds / 60)
    ensures forall i :: 0 <= i < |t| && i != |t| - 3 ==> IsDigit(t[i])
    ensures DecimalValue(t[..|t| - 3]) == seconds / 60
    ensures DecimalValue(t[|t| - 2..]) == seconds % 60
    ensures t[|t| - 2] == '0' <==> seconds % 60 < 10
  {
    var minutes, rem := seconds / 60, seconds % 60;
    var s := TwoDigits(rem);
    DecimalRoundTrip(minutes);
    var t := Decimal(minutes) + ":" + s;
    assert t[..|t| - 3] == Decimal(minutes) && t[|t| - 2..] == s;
    t
  }

  /** The seconds of `formatTime`: `remainingSeconds`, with a leading "0" below 10. */
  function TwoDigits(rem: nat): (s: string)
    requires rem < 60
    ensures |s| == 2 && IsDigit(s[0]) && IsDigit(s[1])
    ensures DecimalValue(s) == rem
    ensures s[0] == '0' <==> rem < 10
  {
    DecimalRoundTrip(rem);
    if rem < 10 then
      var s := "0" + Decimal(rem);
      assert s[..1] == "0" && s[..1][..0] == [];
      s
    else Decimal(rem)
  }

  const GreenScore: string := "text-green-600"
  const AmberScore: string := "text-amber-600"
  const RedScore: string := "text-red-600"

  /** `getScoreColor(score)`: green from 0.8, amber from 0.6, red below. */
  function ScoreColor(score: real): (c: string)
    ensures c == GreenScore <==> score >= 0.8
    ensures c == AmberScore <==> 0.6 <= score < 0.8
    ensures c == RedScore <==> score < 0.6
  {
    assert GreenScore[5] == 'g' && AmberScore[5] == 'a' && RedScore[5] == 'r';
    if score >= 0.8 then GreenScore
    else if score >= 0.6 then AmberScore
    else RedScore
  }

  /**
   * The colour an evaluated answer is shown in depends on its length alone:
   * green from 80 UTF-16 code units, amber from 60 to 79, red below 60.
   */
  lemma AnswerColor(question: string, answer: string)
    ensures var length := Utf16Length(answer);
            var c := ScoreColor(GeminiApi.EvaluateAnswer(question, answer).score);
            && (c == GreenScore <==> length >= 80)
            && (c == AmberScore <==> 60 <= length < 80)
            && (c == RedScore <==> length < 60)
  {
    var length := Utf16Length(answer);
    GeminiApi.LengthScoreShape(length, length);
  }

  /** Every score in a transcript of evaluated answers lies in [0.5, 0.95], and so does their average. */
  lemma TranscriptAverage(results: seq<AnswerResult>)
    requires results != []
    requires forall j :: 0 <= j < |results| ==>
               results[j] == ResultOf(results[j].question, results[j].answer, results[j].timeSpent)
    ensures 0.5 <= AverageScore(results) <= 0.95
  {
    AverageWithinBounds(results, 0.5, 0.95);
  }

  /** A transcript of evaluated answers, one per question answered so far, in question order. */
  predicate Transcript(questions: seq<InterviewQuestion>, results: seq<AnswerResult>) {
    && |results| <= |questions|
    && forall j :: 0 <= j < |results| ==>
         results[j] == ResultOf(questions[j].question, results[j].answer, results[j].timeSpent)
  }

  /** Appending the evaluated answer to the next question keeps a transcript, and adds its time. */
  lemma TranscriptAppend(questions: seq<InterviewQuestion>, results: seq<AnswerResult>, r: AnswerResult)
    requires Transcript(questions, results) && |results| < |questions|
    requires r == ResultOf(questions[|results|].question, r.answer, r.timeSpent)
    ensures Transcript(questions, results + [r])
    ensures TotalTime(results + [r]) == TotalTime(results) + r.timeSpent
  {
    var longer := results + [r];
    assert longer[..|results|] == results;
    forall j | 0 <= j < |longer|
      ensures longer[j] == ResultOf(questions[j].question, longer[j].answer, longer[j].timeSpent)
    {
      if j < |results| {
        assert longer[j] == results[j];
      } else {
        assert j == |results| && longer[j] == r;
      }
    }
  }

  // ---------------------------------------------------------------------------
  // The page

  const LoadQuestionsError: string := "Đã xảy ra lỗi khi tải câu hỏi phỏng vấn. Vui lòng thử lại."
  const EvaluateAnswerError: string := "Đã xảy ra lỗi khi đánh giá câu trả lời. Vui lòng thử lại."

  class Interview {
    var questions: seq<InterviewQuestion>
    var currentQuestionIndex: nat
    var isLoading: bool
    var interviewStarted: bool
    var interviewFinished: bool
    var answerResults: seq<AnswerResult>
    var totalTime: nat
    var events: seq<Event>

    /**
     * The states the page moves through: loading, ready, answering question
     * `currentQuestionIndex`, and finished. The transcript holds one
     * evaluated answer per question answered so far, in question order.
     */
    predicate Valid()
      reads this
    {
      && (interviewStarted ==> !isLoading)
      && (interviewFinished ==> interviewStarted)
      && (!interviewStarted ==> currentQuestionIndex == 0 && answerResults == [] && !interviewFinished)
      && (questions == [] ==> currentQuestionIndex == 0 && answerResults == [] && !interviewFinished)
      && (questions != [] ==> currentQuestionIndex < |questions|)
      && (interviewFinished ==> |answerResults| == |questions| && currentQuestionIndex == |questions| - 1)
      && (!interviewFinished ==> |answerResults| == currentQuestionIndex)
      && Transcript(questions, answerResults)
      && totalTime == TotalTime(answerResults)
    }

    /** The page as mounted: loading, no questions, nothing answered. */
    constructor ()
      ensures Valid()
      ensures isLoading && questions == [] && !interviewStarted && !interviewFinished
      ensures currentQuestionIndex == 0 && answerResults == [] && totalTime == 0 && events == []
    {
      questions := [];
      currentQuestionIndex := 0;
      isLoading := true;
      interviewStarted := false;
      interviewFinished := false;
      answerResults := [];
      totalTime := 0;
      events := [];
    }

    /**
     * The mount effect `fetchQuestions`: the general questions whether or not
     * interview data is stored; on failure an error toast and no questions.
     * Loading ends either way.
     */
    method FetchQuestions(store: Store, fetchFails: bool)
      requires Valid() && isLoading && questions == []
      modifies this
      ensures Valid() && !isLoading
      ensures !fetchFails ==> questions == GeminiApi.GetInterviewQuestions("general") && events == old(events)
      ensures fetchFails ==> questions == [] && events == old(events) + [ToastError(LoadQuestionsError)]
      ensures interviewStarted == old(interviewStarted) && interviewFinished == old(interviewFinished)
      ensures currentQuestionIndex == old(currentQuestionIndex) && answerResults == old(answerResults)
      ensures totalTime == old(totalTime)
    {
      if fetchFails {
        events := events + [ToastError(LoadQuestionsError)];
        isLoading := false;
        return;
      }
      if ResumeSectionsForInterviewKey !in store {
        questions := GeminiApi.GetInterviewQuestions("general");
      } else {
        questions := GeminiApi.GetInterviewQuestions("general");
      }
      isLoading := false;
    }

    /** `startInterview`, from the ready screen: only `interviewStarted` changes. */
    method StartInterview()
      requires Valid() && !isLoading && !interviewStarted
      modifies this
      ensures Valid() && interviewStarted
      ensures questions == old(questions) && currentQuestionIndex == old(currentQuestionIndex)
      ensures isLoading == old(isLoading) && interviewFinished == old(interviewFinished)
      ensures answerResults == old(answerResults) && totalTime == old(totalTime) && events == old(events)
    {
      interviewStarted := true;
    }

    /**
     * `handleAnswerSubmit(answer, timeSpent)` while a question is shown. The
     * evaluated answer is appended to the transcript and its time to the
     * total; the next question is shown, or after the last one the interview
     * finishes. If the evaluation fails (or there is no current question to
     * read) an error toast is the only change, so the same question can be
     * answered again.
     */
    method HandleAnswerSubmit(answer: string, timeSpent: nat, evaluationFails: bool)
      requires Valid() && interviewStarted && !interviewFinished
      modifies this
      ensures Valid()
      ensures questions == old(questions) && isLoading == old(isLoading) && interviewStarted == old(interviewStarted)
      ensures !evaluationFails && old(currentQuestionIndex) < |questions| ==>
                && answerResults == old(answerResults)
                     + [ResultOf(questions[old(currentQuestionIndex)].question, answer, timeSpent)]
                && totalTime == old(totalTime) + timeSpent
                && events == old(events)
                && (old(currentQuestionIndex) < |questions| - 1 ==>
                      currentQuestionIndex == old(currentQuestionIndex) + 1 && !interviewFinished)
                && (old(currentQuestionIndex) == |questions| - 1 ==>
                      currentQuestionIndex == old(currentQuestionIndex) && interviewFinished)
      ensures evaluationFails || old(currentQuestionIndex) >= |questions| ==>
                && answerResults == old(answerResults) && totalTime == old(totalTime)
                && currentQuestionIndex == old(currentQuestionIndex) && interviewFinished == old(interviewFinished)
                && events == old(events) + [ToastError(EvaluateAnswerError)]
    {
      if evaluationFails || currentQuestionIndex >= |questions| {
        events := events + [ToastError(EvaluateAnswerError)];
        return;
      }
      var result := ResultOf(questions[currentQuestionIndex].question, answer, timeSpent);
      TranscriptAppend(questions, answerResults, result);
      answerResults := answerResults + [result];
      totalTime := totalTime + timeSpent;
      if currentQuestionIndex < |questions| - 1 {
        currentQuestionIndex := currentQuestionIndex + 1;
      } else {
        interviewFinished := true;
      }
    }

    /** The "Thử lại" button: back to the ready screen with an empty transcript; the questions stay. */
    method Restart()
      requires Valid()
      modifies this
      ensures Valid()
      ensures !interviewStarted && !interviewFinished && currentQuestionIndex == 0
      ensures answerResults == [] && totalTime == 0
      ensures questions == old(questions) && isLoading == old(isLoading) && events == old(events)
    {
      interviewStarted := false;
      interviewFinished := false;
      currentQuestionIndex := 0;
      answerResults := [];
      totalTime := 0;
    }
  }
}
