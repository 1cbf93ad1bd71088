# AI Quiz Pro server core, modelled in Dafny

This project models the quiz logic of the AI Quiz Pro backend (`backend/server.py`):

- **Generating a quiz.** Every question of a quiz is worth the points of its difficulty. If the language model's reply cannot be used, a list of placeholder ("fallback") questions is built instead. The stored quiz keeps the answer key. The client receives the questions without it, plus a time limit and the total of the points.
- **Submitting answers.** Each answer is matched to the first stored question with its id. Answers that match nothing are skipped. Each matched answer is graded by comparing option indices. The quiz is then marked completed with the total as its score. A second submission is refused.
- **Bearer tokens.** A token has the form `token_<user id>_<seconds>`. The user id is read back as the second `_`-separated field.

Modules:

| file | module | what it holds |
|---|---|---|
| `text.dfy` | `Text` | decimal rendering of a natural number, `startswith`, `split` on one character, and `join` as split's inverse |
| `quiz_types.dfy` | `QuizTypes` | the stored question, the client question, the answer, the result entry, the request, and the sum of points |
| `generation.dfy` | `Generation` | the points table, the fallback questions, the tagging loop, and stripping of the answer key |
| `scoring.dfy` | `Scoring` | the first-match lookup, the grading specification, the scoring loop, and the lemmas about its results |
| `quiz.dfy` | `Quizzes` | the `Quiz` class (the stored quiz document with its `completed` flag), `Submit`, and `GenerateQuiz` |
| `auth.dfy` | `Auth` | issuing tokens, reading the user id back, and the user lookup |

Modelling choices:

- A stored question is a datatype whose fields are the dictionary keys the core reads.
- The submitted `time_taken` is a float that is only ever copied. It is modelled as a `real`.
- The reply of the language model, once parsed, is the parameter `parsed: Option<seq<Question>>`. `None` stands for every failure that makes the server fall back: the call fails, the reply is not JSON, or the JSON is not a list.
- Quiz ids, user ids and the clock (`int(time.time())`) are parameters.
- The quizzes collection is modelled as the `Quiz` object a submission is addressed to. Its lookup filter on the owner is modelled: a caller who does not own the quiz gets `QuizNotFound`.
- The users collection that `get_current_user` consults is modelled as the set of registered user ids.

Proved behaviour that goes beyond what a caller might expect:

- Nothing stops a client from answering the same question twice. Each copy is scored, so the correct count can exceed the number of questions (`Scoring.RepeatedAnswerScoredTwice`).
- A quiz with no questions can be submitted. The quiz is then stored as completed, but the response fails because the accuracy divides by the question count (`Quizzes.Quiz.Submit`, error `AccuracyDivisionByZero`).
- A user id that contains `_` does not survive the token round trip: it is cut at its first `_` (`Auth.TokenTruncatesAtUnderscore`).

## Behaviour of the code worth knowing

- Difficulty is any string. An unknown difficulty is worth 10 points, not an error.
- The requested number of questions is any integer. A request that leaves it out asks for 5, so it gets 5 fallback questions and a time limit of 150 seconds. A negative count yields no fallback questions and a negative time limit.
- The time limit is 30 seconds times the requested number of questions. A parsed reply of another length does not change it.

## Model

| member | source | states |
|---|---|---|
| `Generation.PointsFor` | backend/server.py:121-123 | Easy is worth 10 points, Medium 20 and Hard 30; any other difficulty falls back to 10 |
| `Generation.FallbackQuestions` | backend/server.py:136-153 | exactly `num_questions` questions (none when it is negative) with ids `fallback_1` … `fallback_n` in order; each has 4 options, correct answer 0, the request's category and difficulty, and the difficulty's points; the ids are pairwise distinct |
| `Generation.FallbackIdsDiffer` | backend/server.py:144 | two fallback question ids are equal exactly when their numbers are equal |
| `Generation.TagQuestions` | backend/server.py:121-125 | the parsed list keeps its length and order; every question gets the difficulty's points and the request's category and difficulty; its id, text, options, correct answer and explanation are untouched |
| `Generation.GenerateQuizQuestions` | backend/server.py:114-134 | without a usable reply the result is the fallback list of the requested length with distinct ids; with one it is the tagged reply at the reply's own length; either way all questions carry the difficulty's points, so the total is count × points |
| `QuizTypes.SumPoints` | backend/server.py:263 | the sum of the questions' points; it is never negative when no question's points are, and a single question's sum is its points |
| `QuizTypes.SumPointsAppend` | backend/server.py:263 | the sum of a concatenation is the sum of the two parts' sums, so summing from the back equals Python's front-to-back `sum` |
| `QuizTypes.SumUniformPoints` | backend/server.py:263 | when every question is worth p points, the summed points are the question count times p |
| `Generation.ClientView` | backend/server.py:271-273 | the client copy drops only the correct answer and the explanation: putting those two back gives the stored question |
| `Generation.ClientViewHidesAnswerKey` | backend/server.py:271-273 | two questions have the same client copy exactly when they agree on everything except correct answer and explanation |
| `Generation.StripAnswerKeys` | backend/server.py:269-274 | the client list has the stored list's length and order, each element the client copy of the stored question at that position |
| `Quizzes.GenerateQuiz` | backend/server.py:245-283 | the new quiz is open with score 0 and owned by the caller; its stored questions are the fallback list of the requested length when there is no usable reply, and otherwise the reply's questions in order with their content kept; every stored question carries the request's category and difficulty and the difficulty's points; the client questions are the stored ones without their keys, in order; the time limit is 30 × the requested count, and a request without a count asks for 5 questions with a time limit of 150; the possible points equal the stored total, which is count × the difficulty's points |
| `Quizzes.Quiz.constructor` | backend/server.py:254-264 | a stored quiz starts not completed, with score 0, and with total points equal to the sum of its questions' points |
| `Quizzes.Quiz.Submit` | backend/server.py:285-360 | a caller who does not own the quiz gets QuizNotFound and a completed quiz gets QuizAlreadyCompleted, both with nothing changed; otherwise the quiz becomes completed with score, correct count and results equal to the grading of the answers; the response carries the stored question count as the number of questions and points earned equal to the total; with no questions the update happens and the response fails on the accuracy division; the invariant (score = sum of the results' points, correct count = results marked correct) is kept |
| `Scoring.FirstMatch` | backend/server.py:301 | returns the index of the first stored question with the answer's id, and nothing exactly when no stored question has that id |
| `Scoring.ScoreAnswers` | backend/server.py:295-322 | the loop's total, correct count and results equal the grading specification; the total is the sum of the entries' points earned, the correct count is the number of entries marked correct, and correct count ≤ number of results ≤ number of answers |
| `Scoring.ScoreAgreesWithResults` | backend/server.py:305-310 | total_score is the sum of points_earned over the results, and correct_count is the number of results marked correct |
| `Scoring.CountBounds` | backend/server.py:300-312 | correct_count ≤ len(results) ≤ len(answers) |
| `Scoring.MatchedPositionsExact` | backend/server.py:300-303 | there is one result per answer that matches a stored question; those answers' positions are strictly increasing, and a position is among them exactly when its answer matches |
| `Scoring.ResultsReportMatchedAnswers` | backend/server.py:305-321 | result k reports the k-th matching answer against its first matching question: question id, selected answer and time copied unchanged; text, options, correct answer and explanation taken from the question; is_correct exactly when selected = correct; points earned equal to the question's points when correct and 0 otherwise |
| `Scoring.UnmatchedAnswerIgnored` | backend/server.py:301-303 | an answer to no stored question adds no result, no score and no correct count |
| `Scoring.RepeatedAnswerScoredTwice` | backend/server.py:300-310 | a one-question quiz answered correctly twice scores twice its points and counts two correct answers |
| `Scoring.PerfectSubmission` | backend/server.py:300-310 | with distinct question ids, answering every question once with its correct option scores the sum of all points and counts every question correct |
| `Text.NatToDecimal` | backend/server.py:70 | the decimal rendering of a non-negative integer in an f-string is a non-empty run of digits with no leading zero except for 0 itself |
| `Text.DecimalRoundTrip` | backend/server.py:70 | reading the digits of the rendering back gives the number, so the rendering loses nothing |
| `Text.StartsWith` | backend/server.py:74 | `s.startswith(prefix)` holds exactly when s is the prefix followed by the rest of s |
| `Text.Split` | backend/server.py:77 | `split` gives one more field than there are separators; no field holds the separator; the first field is the text before the first separator |
| `Auth.GenerateToken` | backend/server.py:69-70 | a token starts with `token_` and holds two more `_` than the user id |
| `Auth.TokenUserId` | backend/server.py:73-77 | a token without the `token_` prefix is refused as invalid; otherwise the user id read is the text after the prefix up to the next `_`, and contains no `_` |
| `Auth.CurrentUser` | backend/server.py:72-81 | succeeds only with a prefixed token, returning exactly the id the token carries, and only when that id is registered; fails as invalid exactly when the prefix is missing; fails as unknown exactly when the id read is not registered |
| `Auth.TokenRoundTrip` | backend/server.py:69-77 | for a user id without `_`, a token splits into exactly `token`, the id and the time, and the id read back is the issuing id |
| `Auth.TokenAuthenticates` | backend/server.py:69-81 | a freshly issued token for an id without `_` authenticates exactly as that user when it is registered, and is refused as unknown otherwise |
| `Auth.TokenTruncatesAtUnderscore` | backend/server.py:70-77 | for a user id with `_`, the id read back is the part before its first `_` |

## Left out

- Calling the language model and parsing its JSON (backend/server.py:85-119) are foreign calls. Their outcome is the `parsed` parameter. A parsed list whose elements are not well-formed question dictionaries is not modelled: the server would raise and fall back, or fail later on a missing key.
- MongoDB reads and writes are I/O. Registration, login, profile, leaderboard, history and stats are I/O too. Looking up a quiz id that does not exist is not modelled: the model starts from the quiz object itself. The `$inc` of the user's totals after a submission (backend/server.py:339-349) is not modelled.
- Quizzes.Quiz.Submit: the read of `completed` and the later update are separate database calls. The model performs them as one step, so two concurrent submissions, which could both pass the check, are not modelled.
- Quizzes.Quiz.Submit: the `completed_at` timestamp is not stored. Neither are the floating-point `accuracy`, `money_earned` and wallet increment (backend/server.py:346, 356, 358). Only the division by a zero question count is modelled.
- Scoring.FirstMatch: `if not question` also skips an empty dictionary. Stored questions always have keys, so the model treats every match as found.
- `hash_password`, `uuid.uuid4`, `time.time` and `datetime.utcnow` are library calls whose results are opaque. Ids and the clock are parameters. Timestamps are not stored.
- FastAPI routing, CORS, the `HTTPBearer` dependency and the `uvicorn` startup are framework plumbing.
- `backend_test.py` is an HTTP test driver (network I/O and printing).
- The client-side timed session (countdown, timeout answer −1, advance and finalize) is not part of this model. It lives in the frontend, which this model does not cover. The server accepts any integer the database can store as a selected answer, −1 included.
- Quizzes.Quiz.Submit: the in-memory quiz has no 64-bit integer limit. In the server, a matched answer whose `selected_answer` lies outside [−2^63, 2^63) is copied into `results`, and the database driver refuses to encode it in the update (backend/server.py:316, 325-336). The request then fails with a server error, the quiz stays open and the user's totals are not incremented. The model instead completes the quiz and returns the response.
