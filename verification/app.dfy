/** The survey flow controller: one pure function per route handler.

    Each handler reads the visitor's recorded answers (the session entry
    `responses`) and returns a `Step`: what the visitor gets back, and the
    session entry as the handler leaves it. Flask's routing, templates,
    redirects and flash storage are abstracted into the `Outcome` datatype. */
module App {
  import opened Wrappers
  import opened Surveys

  /** A submitted answer: the form field `answer`, which may be missing. */
  type Answer = Option<string>

  /** The session entry `responses`: `None` when the key is absent. */
  type Session = Option<seq<Answer>>

  /** Category of a one-shot notice. */
  datatype Category = Error | Success

  /** A one-shot notice shown on the next page. */
  datatype Notice = Notice(message: string, category: Category)

  /** Redirect targets: `/`, `/questions/{index}` and `/thankyou`. */
  datatype Path = Landing | QuestionAt(index: nat) | ThankYou

  /** Pages the application renders. */
  datatype Page =
    | SurveyPage(title: string, instructions: string)
    | QuestionPage(id: nat, prompt: string, choices: seq<string>, button: string)
    | ThankYouPage

  /** Python exceptions a handler can raise; each ends the request with a
      server error. */
  datatype Fault = KeyError | IndexError

  /** What a request produces. */
  datatype Outcome =
    | Render(page: Page)
    | Redirect(to: Path, notice: Option<Notice>)
    | Crash(fault: Fault)

  /** A handler's outcome together with the session entry it leaves behind. */
  datatype Step = Step(outcome: Outcome, session: Session)

  const AlreadyRecorded: string := "Your answers have already been recorded"
  const InvalidQuestion: string := "Tried accessing an invalid question in survey"
  const Recorded: string := "Your answers have been successfully recorded"
  const NextLabel: string := "Next"
  const SubmitLabel: string := "Submit"

  /** Number of answers recorded; an absent entry counts as none. */
  function Progress(sess: Session): nat
  {
    match sess
    case None => 0
    case Some(rs) => |rs|
  }

  /** Label of the question page's button. */
  function ButtonLabel(s: Survey, id: nat): (r: string)
    ensures r == SubmitLabel <==> id + 1 == s.Count()
    ensures r == NextLabel <==> id + 1 != s.Count()
  {
    if id != s.LastQuestion() then NextLabel else SubmitLabel
  }

  /** `GET /`: title and instructions, whatever the visitor's progress. */
  function ShowSurvey(s: Survey, sess: Session): (r: Step)
    ensures r.session == sess
    ensures r.outcome.Render? && r.outcome.page.SurveyPage?
    ensures r.outcome.page.title == s.title && r.outcome.page.instructions == s.instructions
  {
    Step(Render(SurveyPage(s.title, s.instructions)), sess)
  }

  /** `POST /start`: begin, resume or refuse. */
  function StartSurvey(s: Survey, sess: Session): (r: Step)
    // absent or empty: reset to [] and go to the first question, no notice
    ensures Progress(sess) == 0 <==> r == Step(Redirect(QuestionAt(0), None), Some([]))
    // otherwise the recorded answers are kept as they are
    ensures Progress(sess) > 0 ==> r.session == sess
    ensures 0 < Progress(sess) != s.Count() ==>
              r.outcome == Redirect(QuestionAt(Progress(sess)), None)
    ensures 0 < Progress(sess) == s.Count() ==>
              r.outcome == Redirect(ThankYou, Some(Notice(AlreadyRecorded, Error)))
    // it only ever redirects, and never changes how many answers there are
    ensures r.outcome.Redirect? && Progress(r.session) == Progress(sess)
  {
    match sess
    case None => Step(Redirect(QuestionAt(0), None), Some([]))
    case Some(rs) =>
      if |rs| == 0 then
        Step(Redirect(QuestionAt(0), None), Some([]))
      else if |rs| != s.Count() then
        Step(Redirect(QuestionAt(|rs|), None), sess)
      else
        Step(Redirect(ThankYou, Some(Notice(AlreadyRecorded, Error))), sess)
  }

  /** `GET /questions/{id}`: show the question if it is the next one to
      answer, otherwise redirect to where the visitor belongs. */
  function ShowQuestion(s: Survey, sess: Session, id: nat): (r: Step)
    // never modifies the answers
    ensures r.session == sess
    // the session entry is read without a default
    ensures sess.None? ==> r.outcome == Crash(KeyError)
    // renders exactly the next unanswered question, and only that one
    ensures r.outcome.Render? <==> sess.Some? && id == |sess.value| < s.Count()
    ensures r.outcome.Render? ==>
              && r.outcome.page.QuestionPage?
              && r.outcome.page.id == id
              && r.outcome.page.prompt == s.questions[id].prompt
              && r.outcome.page.choices == s.questions[id].choices
              && (r.outcome.page.button == SubmitLabel <==> id + 1 == s.Count())
              && (r.outcome.page.button == NextLabel <==> id + 1 != s.Count())
    // asking for the next index when every question is answered
    ensures r.outcome == Crash(IndexError) <==> sess.Some? && id == |sess.value| >= s.Count()
    // any other index is corrected
    ensures sess.Some? && id != |sess.value| && |sess.value| == s.Count() ==>
              r.outcome == Redirect(ThankYou, Some(Notice(AlreadyRecorded, Error)))
    ensures sess.Some? && id != |sess.value| && |sess.value| != s.Count() ==>
              r.outcome == Redirect(QuestionAt(|sess.value|), Some(Notice(InvalidQuestion, Error)))
  {
    match sess
    case None => Step(Crash(KeyError), sess)
    case Some(rs) =>
      if id != |rs| then
        if |rs| == s.Count() then
          Step(Redirect(ThankYou, Some(Notice(AlreadyRecorded, Error))), sess)
        else
          Step(Redirect(QuestionAt(|rs|), Some(Notice(InvalidQuestion, Error))), sess)
      else if id < |s.questions| then
        var q := s.questions[id];
        Step(Render(QuestionPage(id, q.prompt, q.choices, ButtonLabel(s, id))), sess)
      else
        Step(Crash(IndexError), sess)
  }

  /** `POST /answer`: record the submitted answer, unvalidated and possibly
      missing, then move on. */
  function SubmitAnswer(s: Survey, sess: Session, answer: Answer): (r: Step)
    // the session entry is read without a default
    ensures r.outcome.Crash? <==> sess.None?
    ensures sess.None? ==> r == Step(Crash(KeyError), None)
    // exactly one element, the answer, is appended; nothing else changes
    ensures sess.Some? ==>
              && r.session.Some?
              && |r.session.value| == |sess.value| + 1
              && sess.value <= r.session.value
              && r.session.value[|sess.value|] == answer
    // the thank-you page is reached once every question has an answer
    ensures sess.Some? ==>
              (r.outcome == Redirect(ThankYou, Some(Notice(Recorded, Success)))
               <==> |sess.value| + 1 >= s.Count())
    ensures sess.Some? && |sess.value| + 1 < s.Count() ==>
              r.outcome == Redirect(QuestionAt(|sess.value| + 1), None)
  {
    match sess
    case None => Step(Crash(KeyError), sess)
    case Some(rs) =>
      var recorded := rs + [answer];
      if |recorded| > s.LastQuestion() then
        Step(Redirect(ThankYou, Some(Notice(Recorded, Success))), Some(recorded))
      else
        Step(Redirect(QuestionAt(|recorded|), None), Some(recorded))
  }

  /** `GET /thankyou`: the closing page, guarded by completion. */
  function ShowThankYou(s: Survey, sess: Session): (r: Step)
    ensures r.session == sess
    ensures r.outcome == Render(ThankYouPage) <==> Progress(sess) == s.Count()
    ensures r.outcome == Redirect(Landing, None) <==> Progress(sess) != s.Count()
  {
    if Progress(sess) == s.Count() then
      Step(Render(ThankYouPage), sess)
    else
      Step(Redirect(Landing, None), sess)
  }
}
