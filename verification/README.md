# flask-survey: the survey progress state machine

The application serves a survey one question per page. It keeps each
visitor's answers in the session entry `responses`. Every route handler
decides what the visitor sees from that list and the number of questions N.
It renders a page, or redirects with an optional one-shot notice (category
`error` or `success`). The answer handler also extends the list.

This project models those handlers in Dafny as pure functions and proves how
they behave, alone and over sequences of requests.

- `wrappers.dfy`: `Option`, which stands in for Python's `None`.
- `surveys.dfy`: the survey definition (title, instructions, questions with
  prompt and choices), `Count()` = N and `LastQuestion()` = N - 1. The
  `surveys` module that supplies the real survey is not part of this model.
  The survey is a parameter.
- `app.dfy`: one function per route (`ShowSurvey`, `StartSurvey`,
  `ShowQuestion`, `SubmitAnswer`, `ShowThankYou`). Each takes the session
  entry and returns a `Step`: an `Outcome` plus the session entry afterwards.
  - The session entry is `Option<seq<Option<string>>>`. The outer `None`
    means the key is absent. The inner `Option` is there because
    `request.form.get('answer')` returns `None` when the field is missing.
  - An `Outcome` is one of `Render(page)`, `Redirect(path, notice)` or
    `Crash(fault)`. `Crash` stands for a Python exception that ends the
    request.
- `flows.dfy`: a dispatcher `Handle` and `Run`, which serves a sequence of
  requests. It also holds the lemmas that relate several requests.
- `scenario.dfy`: a complete visit to a three-question survey, step by step.

## Rough edges of the code

The model keeps these as the code has them:

- `show_question` and `submit_answer` read `session["responses"]` without a
  default. With the key absent, both raise `KeyError`; the model returns
  `Crash(KeyError)`.
- So a visitor who opens `/questions/0` straight from the landing page,
  without posting to `/start`, gets a `KeyError`. `Scenario.ThreeQuestionVisit`
  therefore begins with the post to `/start`.
- `show_question(id)` with `id == len(responses) >= N` indexes past the last
  question and raises `IndexError`; the model returns `Crash(IndexError)`.
- `submit_answer` has no completion guard. An answer submitted after all N
  are recorded is still appended, with the success notice again.
  - The visitor then has more than N answers. `start_survey` tests
    `len != N` rather than `len < N`, so it redirects to
    `/questions/{len}`. That page raises `IndexError`, and `/thankyou`
    redirects to `/`. `Flows.PastEndIsStuck` states this.
- No answer is checked against the question's choices, and a missing answer
  is stored as `None`.
- `last_question` is `N - 1` even for an empty survey. No handler
  requires N >= 1. Lemmas that need a non-empty survey say so.

## Model

| member | source | states |
|---|---|---|
| `App.ButtonLabel` | app.py:60-61 | The button reads "Submit" exactly when the index is the last question's (N - 1), otherwise "Next". |
| `App.ShowSurvey` | app.py:13-18 | The landing page shows the survey's title and instructions and leaves the answers alone. |
| `App.StartSurvey` | app.py:20-34 | With no answers (key absent or list empty): reset to `[]`, redirect to question 0, no notice. With 0 < len != N: keep the answers and resume at question len. With len == N: keep them, notice "Your answers have already been recorded" (error), go to the thank-you page. It only redirects and never changes the number of answers. |
| `App.ShowQuestion` | app.py:36-62 | The answers are never modified. Absent key: KeyError. Renders iff id == len < N: prompt and choices of question id, button "Submit" iff id == N - 1. id == len >= N: IndexError. Any other id redirects: to the thank-you page with an error notice if len == N, else to question len with "Tried accessing an invalid question in survey". |
| `App.SubmitAnswer` | app.py:64-85 | Absent key: KeyError, nothing recorded. Otherwise appends exactly the submitted answer (possibly missing), keeping the old list as a prefix. Redirects to the thank-you page with the success notice iff the new length > N - 1, else to question new-length with no notice. |
| `App.ShowThankYou` | app.py:87-94 | Renders the thank-you page iff the number of answers (absent counting as none) equals N, otherwise redirects to `/`; the answers are unchanged. |
| `Flows.HandleMonotone` | app.py:20-94 | Every request keeps the recorded answers as a prefix. Only an answer submission adds one, and never more than one. |
| `Flows.LandingIgnoresProgress` | app.py:13-18 | The landing page's outcome is the same whatever the visitor's progress, and it changes nothing. |
| `Flows.RedirectsFollowProgress` | app.py:27-85 | In a non-empty survey, every redirect to a question page targets the next unanswered index (len after the request), which is never N. A redirect to the thank-you page happens only when len >= N. |
| `Flows.RedirectsStayInSurvey` | app.py:27-85 | In a non-empty survey with at most N answers, every redirect to a question page names an existing question (index < N). |
| `Flows.NoSkipping` | app.py:49-56 | Requesting a question beyond the visitor's progress never renders it. It redirects to question len with the invalid-access notice, or to the thank-you page once len == N. |
| `Flows.BoundedPreserved` | app.py:71-85 | From len <= N, a request keeps len <= N iff it is not an answer submitted when len == N already. |
| `Flows.RunMonotone` | app.py:71-78 | Over any sequence of requests, the answers only grow. The growth is at most one per answer submission. |
| `Flows.RunRecordsAnswers` | app.py:27-78 | Once the session entry exists, the final answers are the initial ones followed by every submitted answer, in order. |
| `Flows.StartThenRecord` | app.py:27-29 | A visitor with no answers who starts the survey ends with exactly the answers they submitted afterwards. |
| `Flows.SubmitsOutcomes` | app.py:80-85 | In a run of consecutive submissions from k answers, the i-th redirects to question k + i + 1. Once that reaches N, it goes to the thank-you page with the success notice. |
| `Flows.CompleteBySubmitting` | app.py:71-85 | From `[]`, N submissions redirect to questions 1 .. N-1 in turn and reach the thank-you page, with the success notice, exactly on the N-th. The session then holds those N answers. |
| `Flows.GuidedRecords` | app.py:71-78 | A visitor who opens each next question and answers it ends with exactly those answers recorded after the earlier ones. |
| `Flows.GuidedIsSmooth` | app.py:49-85 | While the questions last, a visitor who opens each next question and answers it sees no crash and no error notice. They are shown each question's own prompt. |
| `Flows.ResubmitOverruns` | app.py:71-85 | An answer submitted after completion is still appended with the success notice, taking the visitor to N + 1 answers. |
| `Flows.PastEndIsStuck` | app.py:30-94 | Past N answers no request renders a question or the thank-you page. Starting again redirects to question len, which raises IndexError, and the thank-you page redirects to `/`. |
| `Scenario.ThreeQuestionVisit` | app.py:13-94 | In a three-question survey, from an absent session entry: the post to `/start` redirects to question 0 with `[]` recorded, then landing page, question 0 ("Next"), an answer, a skip attempt corrected to question 1, two answers (question 2 labelled "Submit"), the success redirect, the thank-you page, and the "already recorded" redirect afterwards. |

## Left out

- Flask routing, `render_template`, HTTP redirect codes and the `<int:id>` URL converter: framework plumbing. Paths and pages are abstract datatypes, and `id` is a `nat`.
- Session cookie signing and serialisation, `SECRET_KEY` and the debug toolbar: configuration and foreign code.
- How flash messages are stored and consumed: a notice exists only as part of the outcome that produces it.
- The content of `satisfaction_survey`: the `surveys` module is not part of this model, so the survey is a parameter.
- Crashes are modelled as leaving the session entry unchanged. Both crashes happen before anything is written.
- Sharing between visitors and concurrency: the code keeps per-visitor session state only, and each request is one sequential step.
