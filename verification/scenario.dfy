/** A complete visit to a three-question survey, request by request. */
module Scenario {
  import opened Wrappers
  import opened Surveys
  import opened App
  import opened Flows

  const A: Answer := Some("A")
  const B: Answer := Some("B")
  const C: Answer := Some("C")

  /** For any survey of three questions, a visitor with no session entry
      who starts the survey and then visits the landing page,
      question 0, answers, tries to skip to question 2, answers twice more,
      opens the thank-you page and looks back at question 0, gets exactly
      these outcomes, with the session entry threaded from step to step. */
  lemma ThreeQuestionVisit(s: Survey)
    requires s.Count() == 3
    ensures Handle(s, None, PostStart)
            == Step(Redirect(QuestionAt(0), None), Some([]))
    ensures Handle(s, Some([]), GetLanding)
            == Step(Render(SurveyPage(s.title, s.instructions)), Some([]))
    ensures Handle(s, Some([]), GetQuestion(0))
            == Step(Render(QuestionPage(0, s.questions[0].prompt, s.questions[0].choices, NextLabel)), Some([]))
    ensures Handle(s, Some([]), PostAnswer(A))
            == Step(Redirect(QuestionAt(1), None), Some([A]))
    ensures Handle(s, Some([A]), GetQuestion(2))
            == Step(Redirect(QuestionAt(1), Some(Notice(InvalidQuestion, Error))), Some([A]))
    ensures Handle(s, Some([A]), PostAnswer(B))
            == Step(Redirect(QuestionAt(2), None), Some([A, B]))
    ensures Handle(s, Some([A, B]), GetQuestion(2))
            == Step(Render(QuestionPage(2, s.questions[2].prompt, s.questions[2].choices, SubmitLabel)), Some([A, B]))
    ensures Handle(s, Some([A, B]), PostAnswer(C))
            == Step(Redirect(ThankYou, Some(Notice(Recorded, Success))), Some([A, B, C]))
    ensures Handle(s, Some([A, B, C]), GetThankYou)
            == Step(Render(ThankYouPage), Some([A, B, C]))
    ensures Handle(s, Some([A, B, C]), GetQuestion(0))
            == Step(Redirect(ThankYou, Some(Notice(AlreadyRecorded, Error))), Some([A, B, C]))
  {
    assert [] + [A] == [A];
    assert [A] + [B] == [A, B];
    assert [A, B] + [C] == [A, B, C];
  }
}
