/** The records the quiz server stores, sends and receives (backend/server.py).
    A stored question is a dictionary in the server; here it is a datatype with
    the keys the core reads and writes. */
module QuizTypes {

  datatype Option<T> = None | Some(value: T)

  datatype Result<T, E> = Success(value: T) | Failure(error: E)

  /** A stored question. `correct` is the index of the right option and,
      together with `explanation`, is the answer key that only the stored copy
      carries. */
  datatype Question = Question(
    id: string,
    text: string,
    options: seq<string>,
    correct: int,
    explanation: string,
    points: int,
    category: string,
    difficulty: string)

  /** The copy of a question sent to the client: no answer key. */
  datatype ClientQuestion = ClientQuestion(
    id: string,
    text: string,
    options: seq<string>,
    points: int,
    category: string,
    difficulty: string)

  /** One submitted answer (QuizAnswer). `selected` may be any integer, -1
      included; `timeTaken` is the client's float, only ever copied. */
  datatype Answer = Answer(questionId: string, selected: int, timeTaken: real)

  /** One entry of the `results` list that grading a submission builds. */
  datatype ResultEntry = ResultEntry(
    questionId: string,
    text: string,
    options: seq<string>,
    selected: int,
    correct: int,
    isCorrect: bool,
    pointsEarned: int,
    explanation: string,
    timeTaken: real)

  /** The body of a quiz generation request (QuizRequest). `numQuestions` is
      None when the client leaves the field out. */
  datatype QuizRequest = QuizRequest(category: string, difficulty: string, numQuestions: Option<int>)

  /** The number of questions a request without `num_questions` asks for. */
  const DefaultNumQuestions: int := 5

  /** The request's `num_questions`, with the default filled in. */
  function RequestedCount(request: QuizRequest): (n: int)
    ensures request.numQuestions.None? ==> n == DefaultNumQuestions
    ensures request.numQuestions.Some? ==> n == request.numQuestions.value
  {
    match request.numQuestions
    case None => DefaultNumQuestions
    case Some(n) => n
  }

  /** Sum of the `points` of a list of questions, `sum(q["points"] for q in questions)`.
      No question's points are negative in a list whose sum is taken by the
      server, so the sum is never negative then either. */
  function SumPoints(questions: seq<Question>): (s: int)
    ensures (forall i :: 0 <= i < |questions| ==> questions[i].points >= 0) ==> s >= 0
    ensures |questions| == 1 ==> s == questions[0].points
  {
    if questions == [] then 0
    else SumPoints(questions[..|questions| - 1]) + questions[|questions| - 1].points
  }

  /** The sum splits over concatenation, so summing from the back (as
      SumPoints does) gives the same total as Python's front-to-back sum. */
  lemma {:induction false} SumPointsAppend(front: seq<Question>, back: seq<Question>)
    ensures SumPoints(front + back) == SumPoints(front) + SumPoints(back)
  {
    if back != [] {
      var n := |back|;
      assert (front + back)[..|front + back| - 1] == front + back[..n - 1];
      SumPointsAppend(front, back[..n - 1]);
    } else {
      assert front + back == front;
    }
  }

  /** Every question of the list is worth p points. */
  predicate UniformPoints(questions: seq<Question>, p: int) {
    forall i :: 0 <= i < |questions| ==> questions[i].points == p
  }

  lemma {:induction false} SumUniformPoints(questions: seq<Question>, p: int)
    requires UniformPoints(questions, p)
    ensures SumPoints(questions) == |questions| * p
  {
    if questions != [] {
      SumUniformPoints(questions[..|questions| - 1], p);
    }
  }

  /** No two questions of the list share an id. */
  predicate DistinctIds(questions: seq<Question>) {
    forall i, j :: 0 <= i < j < |questions| ==> questions[i].id != questions[j].id
  }
}
