/** A stored quiz and the two endpoints that create and complete it
    (generate_quiz and submit_quiz in backend/server.py). The quiz document
    lives in memory as an object; its `completed` flag, score and results are
    the fields a submission updates. */
module Quizzes {
  import opened QuizTypes
  import opened Generation
  import opened Scoring

  /** Seconds allowed per question when computing a quiz's time limit. */
  const SecondsPerQuestion: int := 30

  /** The body generate_quiz returns. */
  datatype QuizResponse = QuizResponse(
    quizId: string,
    category: string,
    difficulty: string,
    questions: seq<ClientQuestion>,
    timeLimit: int,
    totalPossiblePoints: int)

  /** The body submit_quiz returns, without its float fields (accuracy and
      money earned). */
  datatype SubmitResponse = SubmitResponse(
    quizId: string,
    totalScore: int,
    correctAnswers: nat,
    totalQuestions: nat,
    pointsEarned: int,
    results: seq<ResultEntry>)

  /** QuizNotFound: no quiz with this id belongs to the caller (404).
      QuizAlreadyCompleted: the quiz was submitted before (400).
      AccuracyDivisionByZero: the accuracy division by a question count of
      zero fails after the quiz has been updated. */
  datatype SubmitError = QuizNotFound | QuizAlreadyCompleted | AccuracyDivisionByZero

  class Quiz {
    const quizId: string
    const ownerId: string
    const category: string
    const difficulty: string
    const questions: seq<Question>
    const totalPoints: int
    var completed: bool
    var score: int
    var correctAnswers: nat
    var results: seq<ResultEntry>

    /** The stored total is the sum of the questions' points; an open quiz has
        no score and no results; a completed one's score and correct count are
        those of its results. */
    ghost predicate Valid()
      reads this
    {
      && totalPoints == SumPoints(questions)
      && (!completed ==> score == 0 && correctAnswers == 0 && results == [])
      && (completed ==> score == EarnedTotal(results) && correctAnswers == CountCorrect(results))
    }

    /** The quiz document as generate_quiz inserts it: not completed, score 0. */
    constructor (quizId: string, ownerId: string, category: string, difficulty: string,
                 questions: seq<Question>)
      ensures Valid()
      ensures this.quizId == quizId && this.ownerId == ownerId
      ensures this.category == category && this.difficulty == difficulty
      ensures this.questions == questions && totalPoints == SumPoints(questions)
      ensures !completed && score == 0 && correctAnswers == 0 && results == []
    {
      this.quizId := quizId;
      this.ownerId := ownerId;
      this.category := category;
      this.difficulty := difficulty;
      this.questions := questions;
      this.totalPoints := SumPoints(questions);
      completed := false;
      score := 0;
      correctAnswers := 0;
      results := [];
    }

    /** submit_quiz for the caller `callerId`. A quiz that is not the caller's
        or is already completed is left unchanged and the submission refused;
        otherwise the answers are graded, the quiz becomes completed with the
        total as its score, and the response reports the stored question count
        as the number of questions. */
    method Submit(callerId: string, answers: seq<Answer>) returns (r: Result<SubmitResponse, SubmitError>)
      requires Valid()
      modifies this
      ensures Valid()
      ensures callerId != ownerId ==> r == Failure(QuizNotFound) && unchanged(this)
      ensures callerId == ownerId && old(completed) ==> r == Failure(QuizAlreadyCompleted) && unchanged(this)
      ensures callerId == ownerId && !old(completed) ==>
        && completed
        && score == Score(questions, answers)
        && correctAnswers == CorrectCount(questions, answers)
        && results == Results(questions, answers)
      ensures callerId == ownerId && !old(completed) ==>
        r == if |questions| == 0 then Failure(AccuracyDivisionByZero)
             else Success(SubmitResponse(quizId, score, correctAnswers, |questions|, score, results))
    {
      if callerId != ownerId {
        return Failure(QuizNotFound);
      }
      if completed {
        return Failure(QuizAlreadyCompleted);
      }
      var totalScore, correctCount, graded := ScoreAnswers(questions, answers);
      completed, score, correctAnswers, results := true, totalScore, correctCount, graded;
      if |questions| == 0 {
        return Failure(AccuracyDivisionByZero);
      }
      r := Success(SubmitResponse(quizId, totalScore, correctCount, |questions|, totalScore, graded));
    }
  }

  /** generate_quiz: the questions (from the model's parsed reply, or the
      fallback list when there is none) are stored in a new open quiz, and the
      client gets them without their answer keys, with a time limit of 30
      seconds per requested question and the sum of their points. A request
      without a count asks for 5 questions. */
  method GenerateQuiz(request: QuizRequest, userId: string, quizId: string, parsed: Option<seq<Question>>)
    returns (quiz: Quiz, response: QuizResponse)
    ensures fresh(quiz) && quiz.Valid()
    ensures !quiz.completed && quiz.score == 0
    ensures quiz.quizId == quizId && quiz.ownerId == userId
    ensures quiz.category == request.category && quiz.difficulty == request.difficulty
    ensures parsed.None? ==> |quiz.questions| == if RequestedCount(request) < 0 then 0 else RequestedCount(request)
    ensures parsed.None? ==> forall i :: 0 <= i < |quiz.questions| ==>
      quiz.questions[i] == FallbackQuestion(request.category, request.difficulty, i + 1)
    ensures parsed.Some? ==> |quiz.questions| == |parsed.value|
    ensures parsed.Some? ==> forall i :: 0 <= i < |quiz.questions| ==> SameContent(quiz.questions[i], parsed.value[i])
    ensures forall i :: 0 <= i < |quiz.questions| ==>
      quiz.questions[i].category == request.category && quiz.questions[i].difficulty == request.difficulty
    ensures UniformPoints(quiz.questions, PointsFor(request.difficulty))
    ensures response.quizId == quizId
    ensures response.category == request.category && response.difficulty == request.difficulty
    ensures |response.questions| == |quiz.questions|
    ensures forall i :: 0 <= i < |response.questions| ==> response.questions[i] == ClientView(quiz.questions[i])
    ensures response.timeLimit == SecondsPerQuestion * RequestedCount(request)
    ensures request.numQuestions.None? ==>
      response.timeLimit == 150 && (parsed.None? ==> |quiz.questions| == 5)
    ensures response.totalPossiblePoints == quiz.totalPoints
              == |quiz.questions| * PointsFor(request.difficulty)
  {
    var numQuestions := RequestedCount(request);
    var questions := GenerateQuizQuestions(request.category, request.difficulty, numQuestions, parsed);
    quiz := new Quiz(quizId, userId, request.category, request.difficulty, questions);
    var client := StripAnswerKeys(questions);
    response := QuizResponse(quizId, request.category, request.difficulty, client,
                             numQuestions * SecondsPerQuestion, SumPoints(questions));
  }
}
