/** Shaping a quiz: the points table, the fallback question list, the tagging
    of generated questions, and the client copy without the answer key
    (generate_quiz_questions, generate_fallback_questions and generate_quiz in
    backend/server.py). The language-model call and its JSON parsing are not
    modelled: their outcome is a parameter. */
module Generation {
  import opened Text
  import opened QuizTypes

  /** points_map in the server. */
  const PointsMap: map<string, int> := map["Easy" := 10, "Medium" := 20, "Hard" := 30]

  /** points_map.get(difficulty, 10): the points every question of a quiz of
      this difficulty is worth. */
  function PointsFor(difficulty: string): (p: int)
    ensures difficulty == "Easy" ==> p == 10
    ensures difficulty == "Medium" <==> p == 20
    ensures difficulty == "Hard" <==> p == 30
    ensures difficulty !in {"Easy", "Medium", "Hard"} ==> p == 10
  {
    if difficulty in PointsMap then PointsMap[difficulty] else 10
  }

  const FallbackOptions: seq<string> := ["Option A", "Option B", "Option C", "Option D"]

  /** The fallback question numbered `number` (1-based). */
  function FallbackQuestion(category: string, difficulty: string, number: nat): Question {
    Question(
      id := "fallback_" + NatToDecimal(number),
      text := "Sample " + difficulty + " question " + NatToDecimal(number) + " about " + category + "?",
      options := FallbackOptions,
      correct := 0,
      explanation := "This is a sample explanation for " + category,
      points := PointsFor(difficulty),
      category := category,
      difficulty := difficulty)
  }

  /** Two fallback questions have the same id only if they have the same number. */
  lemma FallbackIdsDiffer(category: string, difficulty: string, m: nat, n: nat)
    ensures FallbackQuestion(category, difficulty, m).id == FallbackQuestion(category, difficulty, n).id <==> m == n
  {
    var prefix := "fallback_";
    if prefix + NatToDecimal(m) == prefix + NatToDecimal(n) {
      assert NatToDecimal(m) == (prefix + NatToDecimal(m))[|prefix|..];
      assert NatToDecimal(n) == (prefix + NatToDecimal(n))[|prefix|..];
      DecimalInjective(m, n);
    }
  }

  /** generate_fallback_questions: `numQuestions` placeholder questions
      (none when it is negative, as range() gives), numbered from 1. */
  method FallbackQuestions(category: string, difficulty: string, numQuestions: int)
    returns (questions: seq<Question>)
    ensures |questions| == if numQuestions < 0 then 0 else numQuestions
    ensures forall i :: 0 <= i < |questions| ==>
      && questions[i].id == "fallback_" + NatToDecimal(i + 1)
      && |questions[i].options| == 4
      && questions[i].correct == 0
      && questions[i].category == category
      && questions[i].difficulty == difficulty
    ensures UniformPoints(questions, PointsFor(difficulty))
    ensures DistinctIds(questions)
    ensures forall i :: 0 <= i < |questions| ==> questions[i] == FallbackQuestion(category, difficulty, i + 1)
  {
    questions := [];
    var i := 0;
    while i < numQuestions
      invariant 0 <= i <= (if numQuestions < 0 then 0 else numQuestions)
      invariant |questions| == i
      invariant forall k :: 0 <= k < i ==> questions[k] == FallbackQuestion(category, difficulty, k + 1)
    {
      questions := questions + [FallbackQuestion(category, difficulty, i + 1)];
      i := i + 1;
    }
    forall k, l | 0 <= k < l < |questions|
      ensures questions[k].id != questions[l].id
    {
      FallbackIdsDiffer(category, difficulty, k + 1, l + 1);
    }
  }

  /** Question q kept everything the tagging loop does not write. */
  predicate SameContent(q: Question, original: Question) {
    && q.id == original.id
    && q.text == original.text
    && q.options == original.options
    && q.correct == original.correct
    && q.explanation == original.explanation
  }

  /** The loop over the parsed questions that sets each one's points,
      category and difficulty in place. */
  method TagQuestions(parsed: seq<Question>, category: string, difficulty: string)
    returns (questions: seq<Question>)
    ensures |questions| == |parsed|
    ensures forall i :: 0 <= i < |questions| ==>
      && SameContent(questions[i], parsed[i])
      && questions[i].category == category
      && questions[i].difficulty == difficulty
    ensures UniformPoints(questions, PointsFor(difficulty))
  {
    questions := parsed;
    var points := PointsFor(difficulty);
    var i := 0;
    while i < |questions|
      invariant 0 <= i <= |questions| == |parsed|
      invariant forall k :: 0 <= k < i ==>
        questions[k] == parsed[k].(points := points, category := category, difficulty := difficulty)
      invariant forall k :: i <= k < |questions| ==> questions[k] == parsed[k]
    {
      questions := questions[i := questions[i].(points := points, category := category, difficulty := difficulty)];
      i := i + 1;
    }
  }

  /** generate_quiz_questions with the model's reply already parsed:
      `parsed` is None when the call failed, the reply was not JSON or not a
      list, in which case the fallback list is used. A parsed list is taken
      at whatever length it has. */
  method GenerateQuizQuestions(category: string, difficulty: string, numQuestions: int,
                               parsed: Option<seq<Question>>)
    returns (questions: seq<Question>)
    ensures parsed.None? ==> |questions| == (if numQuestions < 0 then 0 else numQuestions) && DistinctIds(questions)
    ensures parsed.None? ==> forall i :: 0 <= i < |questions| ==> questions[i] == FallbackQuestion(category, difficulty, i + 1)
    ensures parsed.Some? ==> |questions| == |parsed.value|
    ensures parsed.Some? ==> forall i :: 0 <= i < |questions| ==> SameContent(questions[i], parsed.value[i])
    ensures forall i :: 0 <= i < |questions| ==> questions[i].category == category && questions[i].difficulty == difficulty
    ensures UniformPoints(questions, PointsFor(difficulty))
    ensures SumPoints(questions) == |questions| * PointsFor(difficulty)
  {
    match parsed {
      case None =>
        questions := FallbackQuestions(category, difficulty, numQuestions);
      case Some(list) =>
        questions := TagQuestions(list, category, difficulty);
    }
    SumUniformPoints(questions, PointsFor(difficulty));
  }

  /** The client copy of a question: the stored one with `correct_answer` and
      `explanation` deleted. Putting the key back gives the stored question,
      so nothing else is lost. */
  function ClientView(q: Question): (c: ClientQuestion)
    ensures WithAnswerKey(c, q.correct, q.explanation) == q
  {
    ClientQuestion(q.id, q.text, q.options, q.points, q.category, q.difficulty)
  }

  /** A client question with an answer key put back. */
  function WithAnswerKey(c: ClientQuestion, correct: int, explanation: string): Question {
    Question(c.id, c.text, c.options, correct, explanation, c.points, c.category, c.difficulty)
  }

  /** The client copy depends on nothing but the fields other than the key:
      two questions that differ only in their answer keys look the same. */
  lemma ClientViewHidesAnswerKey(q1: Question, q2: Question)
    ensures ClientView(q1) == ClientView(q2) <==>
      q1.(correct := 0, explanation := []) == q2.(correct := 0, explanation := [])
  {
  }

  /** The loop building questions_for_client. */
  method StripAnswerKeys(questions: seq<Question>) returns (client: seq<ClientQuestion>)
    ensures |client| == |questions|
    ensures forall i :: 0 <= i < |client| ==> client[i] == ClientView(questions[i])
  {
    client := [];
    for i := 0 to |questions|
      invariant |client| == i
      invariant forall k :: 0 <= k < i ==> client[k] == ClientView(questions[k])
    {
      client := client + [ClientView(questions[i])];
    }
  }
}
