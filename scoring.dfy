/** Grading a submission against the stored questions (the loop of
    submit_quiz in backend/server.py). The specification functions read the
    answers from the last one back, the way the loop's accumulators grow. */
module Scoring {
  import opened QuizTypes

  /** The first stored question with the given id, as its index: the server's
      `next((q for q in questions if q["id"] == id), None)`. */
  function FirstMatch(questions: seq<Question>, id: string): (r: Option<nat>)
    ensures r.Some? ==> r.value < |questions| && questions[r.value].id == id
    ensures r.Some? ==> forall j :: 0 <= j < r.value ==> questions[j].id != id
    ensures r.None? <==> forall j :: 0 <= j < |questions| ==> questions[j].id != id
  {
    if questions == [] then None
    else if questions[0].id == id then Some(0)
    else match FirstMatch(questions[1..], id)
      case None => None
      case Some(k) => Some(k + 1)
  }

  /** The answer is to some stored question. */
  predicate Matches(questions: seq<Question>, a: Answer) {
    FirstMatch(questions, a.questionId).Some?
  }

  /** The stored question an answer is graded against. */
  function MatchOf(questions: seq<Question>, a: Answer): Question
    requires Matches(questions, a)
  {
    questions[FirstMatch(questions, a.questionId).value]
  }

  /** The result entry for answer a to question q. */
  function Grade(q: Question, a: Answer): ResultEntry {
    var isCorrect := q.correct == a.selected;
    ResultEntry(a.questionId, q.text, q.options, a.selected, q.correct, isCorrect,
                if isCorrect then q.points else 0, q.explanation, a.timeTaken)
  }

  /** The `results` list: one entry per answer that matches a stored question,
      in submission order. */
  function Results(questions: seq<Question>, answers: seq<Answer>): seq<ResultEntry> {
    if answers == [] then []
    else
      var a := answers[|answers| - 1];
      var earlier := Results(questions, answers[..|answers| - 1]);
      if Matches(questions, a) then earlier + [Grade(MatchOf(questions, a), a)] else earlier
  }

  /** total_score: the points of the matched question, summed over the answers
      that match a stored question and select its correct option. */
  function Score(questions: seq<Question>, answers: seq<Answer>): int {
    if answers == [] then 0
    else
      var a := answers[|answers| - 1];
      Score(questions, answers[..|answers| - 1])
        + (if Matches(questions, a) && MatchOf(questions, a).correct == a.selected
           then MatchOf(questions, a).points else 0)
  }

  /** correct_count: the number of answers that match a stored question and
      select its correct option. */
  function CorrectCount(questions: seq<Question>, answers: seq<Answer>): nat {
    if answers == [] then 0
    else
      var a := answers[|answers| - 1];
      CorrectCount(questions, answers[..|answers| - 1])
        + (if Matches(questions, a) && MatchOf(questions, a).correct == a.selected then 1 else 0)
  }

  /** Sum of the points_earned fields of a results list. */
  function EarnedTotal(results: seq<ResultEntry>): int {
    if results == [] then 0 else EarnedTotal(results[..|results| - 1]) + results[|results| - 1].pointsEarned
  }

  /** Number of entries of a results list marked correct. */
  function CountCorrect(results: seq<ResultEntry>): nat {
    if results == [] then 0
    else CountCorrect(results[..|results| - 1]) + (if results[|results| - 1].isCorrect then 1 else 0)
  }

  /** The positions (in the submission) of the answers that match a stored question. */
  function MatchedPositions(questions: seq<Question>, answers: seq<Answer>): seq<nat> {
    if answers == [] then []
    else
      var earlier := MatchedPositions(questions, answers[..|answers| - 1]);
      if Matches(questions, answers[|answers| - 1]) then earlier + [|answers| - 1] else earlier
  }

  /** Entry e reports answer a to stored question q: the answer's id, choice
      and time copied unchanged, the question's text, options, key and
      explanation, correctness by comparing indices, and the question's points
      exactly when correct. */
  predicate Reports(e: ResultEntry, q: Question, a: Answer) {
    && e.questionId == a.questionId
    && e.selected == a.selected
    && e.timeTaken == a.timeTaken
    && e.text == q.text
    && e.options == q.options
    && e.correct == q.correct
    && e.explanation == q.explanation
    && (e.isCorrect <==> a.selected == q.correct)
    && e.pointsEarned == (if a.selected == q.correct then q.points else 0)
  }

  /** The matched positions are increasing positions of the submission, and
      a position is among them exactly when its answer matches a stored
      question; there is one result entry per matched position. */
  lemma {:induction false} MatchedPositionsExact(questions: seq<Question>, answers: seq<Answer>)
    ensures |Results(questions, answers)| == |MatchedPositions(questions, answers)|
    ensures forall k :: 0 <= k < |MatchedPositions(questions, answers)| ==>
      MatchedPositions(questions, answers)[k] < |answers|
    ensures forall k, l :: 0 <= k < l < |MatchedPositions(questions, answers)| ==>
      MatchedPositions(questions, answers)[k] < MatchedPositions(questions, answers)[l]
    ensures forall j :: 0 <= j < |answers| ==>
      (j in MatchedPositions(questions, answers) <==> Matches(questions, answers[j]))
  {
    if answers != [] {
      var n := |answers|;
      var init := answers[..n - 1];
      MatchedPositionsExact(questions, init);
      var pos0 := MatchedPositions(questions, init);
      assert forall j :: 0 <= j < n - 1 ==> answers[j] == init[j];
      assert n - 1 !in pos0;
    }
  }

  /** Entry k of the results reports the answer at the k-th matched position,
      against the first stored question with that answer's id. */
  lemma {:induction false} ResultsReportMatchedAnswers(questions: seq<Question>, answers: seq<Answer>)
    ensures |Results(questions, answers)| == |MatchedPositions(questions, answers)|
    ensures forall k :: 0 <= k < |MatchedPositions(questions, answers)| ==>
      MatchedPositions(questions, answers)[k] < |answers|
      && Matches(questions, answers[MatchedPositions(questions, answers)[k]])
      && Reports(Results(questions, answers)[k],
                 MatchOf(questions, answers[MatchedPositions(questions, answers)[k]]),
                 answers[MatchedPositions(questions, answers)[k]])
  {
    MatchedPositionsExact(questions, answers);
    if answers != [] {
      var n := |answers|;
      var init := answers[..n - 1];
      ResultsReportMatchedAnswers(questions, init);
      var pos0, res0 := MatchedPositions(questions, init), Results(questions, init);
      MatchedPositionsExact(questions, init);
      forall k | 0 <= k < |pos0|
        ensures answers[pos0[k]] == init[pos0[k]]
      {
      }
    }
  }

  /** The returned total is the sum of the entries' points_earned and the
      correct count is the number of entries marked correct. */
  lemma {:induction false} ScoreAgreesWithResults(questions: seq<Question>, answers: seq<Answer>)
    ensures Score(questions, answers) == EarnedTotal(Results(questions, answers))
    ensures CorrectCount(questions, answers) == CountCorrect(Results(questions, answers))
  {
    if answers != [] {
      var init := answers[..|answers| - 1];
      ScoreAgreesWithResults(questions, init);
      var earlier := Results(questions, init);
      var a := answers[|answers| - 1];
      if Matches(questions, a) {
        assert (earlier + [Grade(MatchOf(questions, a), a)])[..|earlier|] == earlier;
      }
    }
  }

  /** correct_count <= len(results) <= len(answers). */
  lemma {:induction false} CountBounds(questions: seq<Question>, answers: seq<Answer>)
    ensures CorrectCount(questions, answers) <= |Results(questions, answers)| <= |answers|
  {
    if answers != [] {
      CountBounds(questions, answers[..|answers| - 1]);
    }
  }

  /** An answer to no stored question changes neither the results, the score
      nor the correct count. */
  lemma UnmatchedAnswerIgnored(questions: seq<Question>, answers: seq<Answer>, a: Answer)
    requires !Matches(questions, a)
    ensures Results(questions, answers + [a]) == Results(questions, answers)
    ensures Score(questions, answers + [a]) == Score(questions, answers)
    ensures CorrectCount(questions, answers + [a]) == CorrectCount(questions, answers)
  {
  }

  /** Nothing stops the same answer from being scored twice: a quiz of one
      question answered correctly twice scores twice its points and counts
      two correct answers out of one question. */
  lemma RepeatedAnswerScoredTwice(q: Question, t: real)
    ensures var a := Answer(q.id, q.correct, t);
      && Score([q], [a, a]) == 2 * q.points
      && CorrectCount([q], [a, a]) == 2
      && |Results([q], [a, a])| == 2
  {
    var a := Answer(q.id, q.correct, t);
    assert FirstMatch([q], q.id) == Some(0);
    assert Matches([q], a) && MatchOf([q], a) == q;
    assert [a][..0] == [];
    assert Results([q], [a]) == [Grade(q, a)];
    assert CorrectCount([q], [a]) == 1;
    assert Score([q], [a]) == q.points;
    assert [a, a][..1] == [a];
  }

  /** Answering every question of a quiz with distinct ids, once each, with
      its correct option, earns every question's points. */
  lemma {:induction false} PerfectSubmission(questions: seq<Question>, answers: seq<Answer>)
    requires DistinctIds(questions)
    requires |answers| == |questions|
    requires forall i :: 0 <= i < |answers| ==>
      answers[i].questionId == questions[i].id && answers[i].selected == questions[i].correct
    ensures Score(questions, answers) == SumPoints(questions)
    ensures CorrectCount(questions, answers) == |questions| == |Results(questions, answers)|
  {
    var n := |answers|;
    var i := 0;
    while i < n
      invariant 0 <= i <= n
      invariant Score(questions, answers[..i]) == SumPoints(questions[..i])
      invariant CorrectCount(questions, answers[..i]) == i == |Results(questions, answers[..i])|
    {
      assert FirstMatch(questions, answers[i].questionId) == Some(i);
      assert answers[..i + 1][..i] == answers[..i];
      assert questions[..i + 1][..i] == questions[..i];
      i := i + 1;
    }
    assert answers[..n] == answers;
    assert questions[..n] == questions;
  }

  /** The scoring loop of submit_quiz. */
  method ScoreAnswers(questions: seq<Question>, answers: seq<Answer>)
    returns (totalScore: int, correctCount: nat, results: seq<ResultEntry>)
    ensures totalScore == Score(questions, answers)
    ensures correctCount == CorrectCount(questions, answers)
    ensures results == Results(questions, answers)
    ensures totalScore == EarnedTotal(results) && correctCount == CountCorrect(results)
    ensures correctCount <= |results| <= |answers|
  {
    totalScore, correctCount, results := 0, 0, [];
    for i := 0 to |answers|
      invariant totalScore == Score(questions, answers[..i])
      invariant correctCount == CorrectCount(questions, answers[..i])
      invariant results == Results(questions, answers[..i])
    {
      var answer := answers[i];
      assert answers[..i + 1][..i] == answers[..i];
      var found := FirstMatch(questions, answer.questionId);
      if found.None? {
        continue;
      }
      var question := questions[found.value];
      var isCorrect := question.correct == answer.selected;
      var pointsEarned := if isCorrect then question.points else 0;
      if isCorrect {
        correctCount := correctCount + 1;
        totalScore := totalScore + pointsEarned;
      }
      results := results + [ResultEntry(answer.questionId, question.text, question.options,
                                        answer.selected, question.correct, isCorrect,
                                        pointsEarned, question.explanation, answer.timeTaken)];
    }
    assert answers[..|answers|] == answers;
    ScoreAgreesWithResults(questions, answers);
    CountBounds(questions, answers);
  }
}
