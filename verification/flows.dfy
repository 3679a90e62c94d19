/** Sequences of requests from one visitor, and what the handlers promise
    about them together: answers only accumulate, redirects always point at
    the visitor's progress, N submissions lead through every question to the
    thank-you page, and a visitor who follows the pages never sees a notice
    or an error. */
module Flows {
  import opened Wrappers
  import opened Surveys
  import opened App

  /** One request from the visitor's browser. */
  datatype Request =
    | GetLanding
    | PostStart
    | GetQuestion(id: nat)
    | PostAnswer(answer: Answer)
    | GetThankYou

  /** Route a request to its handler. */
  function Handle(s: Survey, sess: Session, req: Request): Step
  {
    match req
    case GetLanding => ShowSurvey(s, sess)
    case PostStart => StartSurvey(s, sess)
    case GetQuestion(id) => ShowQuestion(s, sess, id)
    case PostAnswer(a) => SubmitAnswer(s, sess, a)
    case GetThankYou => ShowThankYou(s, sess)
  }

  /** The outcomes of a sequence of requests, in order, and the session entry
      left after the last one. */
  datatype Trace = Trace(outcomes: seq<Outcome>, last: Session)

  /** Serve the requests one after another, threading the session entry. */
  function Run(s: Survey, sess: Session, reqs: seq<Request>): (t: Trace)
    ensures |t.outcomes| == |reqs|
    ensures |reqs| > 0 ==> t.outcomes[0] == Handle(s, sess, reqs[0]).outcome
    decreases |reqs|
  {
    if |reqs| == 0 then
      Trace([], sess)
    else
      var step := Handle(s, sess, reqs[0]);
      var rest := Run(s, step.session, reqs[1..]);
      Trace([step.outcome] + rest.outcomes, rest.last)
  }

  /** The answers carried by the answer submissions among `reqs`, in order. */
  function Submitted(reqs: seq<Request>): seq<Answer>
  {
    if |reqs| == 0 then []
    else if reqs[0].PostAnswer? then [reqs[0].answer] + Submitted(reqs[1..])
    else Submitted(reqs[1..])
  }

  /** One answer submission per answer. */
  function Submissions(answers: seq<Answer>): (reqs: seq<Request>)
    ensures |reqs| == |answers|
    ensures forall i :: 0 <= i < |reqs| ==> reqs[i] == PostAnswer(answers[i])
  {
    seq(|answers|, i requires 0 <= i < |answers| => PostAnswer(answers[i]))
  }

  /** `later` keeps every answer `earlier` had, in place. */
  predicate Extends(earlier: Session, later: Session)
  {
    earlier.Some? ==> later.Some? && earlier.value <= later.value
  }

  /** The progress bound a visitor should stay within: never more answers
      than questions. */
  predicate Bounded(s: Survey, sess: Session)
  {
    Progress(sess) <= s.Count()
  }

  /** The outcome a submission should produce when it brings the number of
      answers to `n`. */
  function AfterSubmit(s: Survey, n: nat): Outcome
  {
    if n >= s.Count() then Redirect(ThankYou, Some(Notice(Recorded, Success)))
    else Redirect(QuestionAt(n), None)
  }

  /** An outcome a visitor following the pages should see: no error and no
      error notice. */
  predicate Smooth(o: Outcome)
  {
    && !o.Crash?
    && !(o.Redirect? && o.notice.Some? && o.notice.value.category == Error)
  }

  // ---------------------------------------------------------------------
  // One request

  /** Answers only accumulate: every request keeps the recorded answers,
      and only an answer submission adds one, exactly one. */
  lemma HandleMonotone(s: Survey, sess: Session, req: Request)
    ensures Extends(sess, Handle(s, sess, req).session)
    ensures Progress(sess) <= Progress(Handle(s, sess, req).session)
    ensures Progress(Handle(s, sess, req).session)
            <= Progress(sess) + (if req.PostAnswer? then 1 else 0)
  {
  }

  /** The landing page neither reads nor changes the visitor's progress. */
  lemma LandingIgnoresProgress(s: Survey, a: Session, b: Session)
    ensures Handle(s, a, GetLanding).outcome == Handle(s, b, GetLanding).outcome
    ensures Handle(s, a, GetLanding).session == a
  {
  }

  /** Index correctness: every redirect to a question page points at the
      next unanswered question as the session entry now stands, and the
      thank-you page is only ever the target once there is an answer for
      every question (for a survey that has questions). */
  lemma RedirectsFollowProgress(s: Survey, sess: Session, req: Request)
    requires s.Count() >= 1
    ensures var st := Handle(s, sess, req);
            st.outcome.Redirect? && st.outcome.to.QuestionAt? ==>
              st.outcome.to.index == Progress(st.session) != s.Count()
    ensures var st := Handle(s, sess, req);
            st.outcome.Redirect? && st.outcome.to.ThankYou? ==>
              Progress(st.session) >= s.Count()
  {
  }

  /** In a non-empty survey, from within the bound, every redirect to a
      question page names a question that exists. */
  lemma RedirectsStayInSurvey(s: Survey, sess: Session, req: Request)
    requires s.Count() >= 1 && Bounded(s, sess)
    ensures var o := Handle(s, sess, req).outcome;
            o.Redirect? && o.to.QuestionAt? ==> o.to.index < s.Count()
  {
  }

  /** No skipping: asking for a question beyond the visitor's progress
      never shows it. */
  lemma NoSkipping(s: Survey, rs: seq<Answer>, id: nat)
    requires id > |rs|
    ensures ShowQuestion(s, Some(rs), id).outcome ==
            if |rs| == s.Count() then Redirect(ThankYou, Some(Notice(AlreadyRecorded, Error)))
            else Redirect(QuestionAt(|rs|), Some(Notice(InvalidQuestion, Error)))
  {
  }

  /** Every request keeps the progress within the number of questions,
      except an answer submitted once every question already has one:
      the submission handler has no completion guard. */
  lemma BoundedPreserved(s: Survey, sess: Session, req: Request)
    requires Bounded(s, sess)
    ensures Bounded(s, Handle(s, sess, req).session)
            <==> !(req.PostAnswer? && sess.Some? && Progress(sess) == s.Count())
  {
  }

  // ---------------------------------------------------------------------
  // Sequences of requests

  /** Over any sequence of requests the recorded answers only grow, by at
      most one per answer submission. */
  lemma {:induction false} RunMonotone(s: Survey, sess: Session, reqs: seq<Request>)
    ensures Extends(sess, Run(s, sess, reqs).last)
    ensures Progress(sess) <= Progress(Run(s, sess, reqs).last)
    ensures Progress(Run(s, sess, reqs).last) <= Progress(sess) + |Submitted(reqs)|
    decreases |reqs|
  {
    if |reqs| > 0 {
      var step := Handle(s, sess, reqs[0]);
      HandleMonotone(s, sess, reqs[0]);
      RunMonotone(s, step.session, reqs[1..]);
    }
  }

  /** Once the session entry exists, the recorded answers are exactly the
      earlier ones followed by every submitted answer, in submission order. */
  lemma {:induction false} RunRecordsAnswers(s: Survey, rs: seq<Answer>, reqs: seq<Request>)
    ensures Run(s, Some(rs), reqs).last == Some(rs + Submitted(reqs))
    decreases |reqs|
  {
    if |reqs| == 0 {
      assert rs + [] == rs;
    } else {
      var step := Handle(s, Some(rs), reqs[0]);
      match reqs[0]
      case PostAnswer(a) =>
        assert step.session == Some(rs + [a]);
        RunRecordsAnswers(s, rs + [a], reqs[1..]);
        assert rs + [a] + Submitted(reqs[1..]) == rs + Submitted(reqs);
      case PostStart =>
        assert step.session == Some(rs);
        RunRecordsAnswers(s, rs, reqs[1..]);
      case GetLanding =>
        RunRecordsAnswers(s, rs, reqs[1..]);
      case GetQuestion(id) =>
        RunRecordsAnswers(s, rs, reqs[1..]);
      case GetThankYou =>
        RunRecordsAnswers(s, rs, reqs[1..]);
    }
  }

  /** A visitor who starts the survey first ends with exactly the answers
      they submitted. */
  lemma StartThenRecord(s: Survey, sess: Session, reqs: seq<Request>)
    requires |reqs| > 0 && reqs[0] == PostStart
    requires Progress(sess) == 0
    ensures Run(s, sess, reqs).last == Some(Submitted(reqs))
  {
    assert Handle(s, sess, PostStart).session == Some([]);
    RunRecordsAnswers(s, [], reqs[1..]);
    assert [] + Submitted(reqs[1..]) == Submitted(reqs);
  }

  /** Answers submitted in a row, starting from `rs`: the i-th submission
      redirects as `AfterSubmit` gives for |rs| + i + 1 answers. */
  lemma {:induction false} SubmitsOutcomes(s: Survey, rs: seq<Answer>, answers: seq<Answer>)
    ensures var t := Run(s, Some(rs), Submissions(answers));
            && t.last == Some(rs + answers)
            && forall i :: 0 <= i < |answers| ==> t.outcomes[i] == AfterSubmit(s, |rs| + i + 1)
    decreases |answers|
  {
    var reqs := Submissions(answers);
    if |answers| == 0 {
      assert rs + answers == rs;
    } else {
      var a := answers[0];
      SubmitsOutcomes(s, rs + [a], answers[1..]);
      assert reqs[1..] == Submissions(answers[1..]);
      assert rs + [a] + answers[1..] == rs + answers;
      var t := Run(s, Some(rs), reqs);
      var rest := Run(s, Some(rs + [a]), reqs[1..]);
      assert t.outcomes == [AfterSubmit(s, |rs| + 1)] + rest.outcomes;
      forall i | 0 <= i < |answers|
        ensures t.outcomes[i] == AfterSubmit(s, |rs| + i + 1)
      {
        if i > 0 {
          assert t.outcomes[i] == rest.outcomes[i - 1];
        }
      }
    }
  }

  /** From an empty answer list, N submissions redirect to questions
      1 .. N-1 in turn and to the thank-you page, with the success notice,
      exactly on the N-th; the session then holds those N answers. */
  lemma CompleteBySubmitting(s: Survey, answers: seq<Answer>)
    requires |answers| == s.Count() >= 1
    ensures var t := Run(s, Some([]), Submissions(answers));
            && t.last == Some(answers)
            && (forall i :: 0 <= i < |answers| - 1 ==> t.outcomes[i] == Redirect(QuestionAt(i + 1), None))
            && t.outcomes[|answers| - 1] == Redirect(ThankYou, Some(Notice(Recorded, Success)))
  {
    SubmitsOutcomes(s, [], answers);
    assert [] + answers == answers;
  }

  // ---------------------------------------------------------------------
  // Following the pages

  /** The requests of a visitor who, from `k` answers on, opens the page of
      the next question and answers it, once per answer. */
  function Guided(k: nat, answers: seq<Answer>): (reqs: seq<Request>)
    ensures |reqs| == 2 * |answers|
    decreases |answers|
  {
    if |answers| == 0 then []
    else [GetQuestion(k), PostAnswer(answers[0])] + Guided(k + 1, answers[1..])
  }

  /** Serving a non-empty sequence: the first request, then the rest from
      the session it leaves. */
  lemma RunUnfold(s: Survey, sess: Session, reqs: seq<Request>)
    requires |reqs| > 0
    ensures var step := Handle(s, sess, reqs[0]);
            var t := Run(s, sess, reqs);
            var rest := Run(s, step.session, reqs[1..]);
            && t.outcomes[0] == step.outcome
            && t.outcomes[1..] == rest.outcomes
            && t.last == rest.last
  {
  }

  /** One round of a guided visit: the question page, then the submission,
      then the rest of the visit from one more answer. */
  lemma GuidedUnfold(s: Survey, rs: seq<Answer>, answers: seq<Answer>)
    requires |answers| > 0
    ensures var t := Run(s, Some(rs), Guided(|rs|, answers));
            var rest := Run(s, Some(rs + [answers[0]]), Guided(|rs| + 1, answers[1..]));
            && t.outcomes[0] == ShowQuestion(s, Some(rs), |rs|).outcome
            && t.outcomes[1] == SubmitAnswer(s, Some(rs), answers[0]).outcome
            && t.outcomes[2..] == rest.outcomes
            && t.last == rest.last
  {
    var a := answers[0];
    var reqs := Guided(|rs|, answers);
    var tail := Guided(|rs| + 1, answers[1..]);
    assert reqs[0] == GetQuestion(|rs|);
    assert reqs[1..][0] == PostAnswer(a);
    assert reqs[1..][1..] == tail;
    assert ShowQuestion(s, Some(rs), |rs|).session == Some(rs);
    assert SubmitAnswer(s, Some(rs), a).session == Some(rs + [a]);
    RunUnfold(s, Some(rs), reqs);
    RunUnfold(s, Some(rs), reqs[1..]);
    var t := Run(s, Some(rs), reqs);
    assert t.outcomes[2..] == t.outcomes[1..][1..];
  }

  /** A visitor who opens each next question and answers it ends with
      exactly those answers recorded after the earlier ones. */
  lemma {:induction false} GuidedRecords(s: Survey, rs: seq<Answer>, answers: seq<Answer>)
    ensures Run(s, Some(rs), Guided(|rs|, answers)).last == Some(rs + answers)
    decreases |answers|
  {
    if |answers| == 0 {
      assert rs + answers == rs;
    } else {
      GuidedUnfold(s, rs, answers);
      GuidedRecords(s, rs + [answers[0]], answers[1..]);
      assert rs + [answers[0]] + answers[1..] == rs + answers;
    }
  }

  /** While the questions last, a visitor who opens each next question and
      answers it never meets an error or an error notice, and is shown each
      question with its own prompt. */
  lemma {:induction false} GuidedIsSmooth(s: Survey, rs: seq<Answer>, answers: seq<Answer>)
    requires |rs| + |answers| <= s.Count()
    ensures forall i :: 0 <= i < 2 * |answers| ==>
              Smooth(Run(s, Some(rs), Guided(|rs|, answers)).outcomes[i])
    ensures forall j :: 0 <= j < |answers| ==>
              var o := Run(s, Some(rs), Guided(|rs|, answers)).outcomes[2 * j];
              o.Render? && o.page.QuestionPage? && o.page.prompt == s.questions[|rs| + j].prompt
    decreases |answers|
  {
    if |answers| > 0 {
      var a := answers[0];
      var t := Run(s, Some(rs), Guided(|rs|, answers));
      var rest := Run(s, Some(rs + [a]), Guided(|rs| + 1, answers[1..]));
      assert t.outcomes[2..] == rest.outcomes && t.outcomes[0] == ShowQuestion(s, Some(rs), |rs|).outcome
             && t.outcomes[1] == SubmitAnswer(s, Some(rs), a).outcome by {
        GuidedUnfold(s, rs, answers);
      }
      GuidedIsSmooth(s, rs + [a], answers[1..]);
      forall i | 0 <= i < 2 * |answers|
        ensures Smooth(t.outcomes[i])
      {
        if i >= 2 {
          assert t.outcomes[i] == rest.outcomes[i - 2];
        }
      }
      forall j | 0 <= j < |answers|
        ensures t.outcomes[2 * j].Render? && t.outcomes[2 * j].page.QuestionPage?
        ensures t.outcomes[2 * j].page.prompt == s.questions[|rs| + j].prompt
      {
        if j > 0 {
          assert t.outcomes[2 * j] == rest.outcomes[2 * (j - 1)];
        }
      }
    }
  }

  // ---------------------------------------------------------------------
  // Past completion

  /** An answer submitted after completion is still appended, with the
      success notice again; the visitor is then past the end. */
  lemma ResubmitOverruns(s: Survey, rs: seq<Answer>, a: Answer)
    requires |rs| == s.Count()
    ensures var st := SubmitAnswer(s, Some(rs), a);
            && st.outcome == Redirect(ThankYou, Some(Notice(Recorded, Success)))
            && Progress(st.session) == s.Count() + 1
            && !Bounded(s, st.session)
  {
  }

  /** Past the end, no request shows a question page or the thank-you
      page: the thank-you page redirects to the landing page, starting again
      redirects to a question index that does not exist, and that index
      fails with an index error. */
  lemma PastEndIsStuck(s: Survey, rs: seq<Answer>, req: Request)
    requires |rs| > s.Count()
    ensures var o := Handle(s, Some(rs), req).outcome;
            !(o.Render? && (o.page.QuestionPage? || o.page.ThankYouPage?))
    ensures Handle(s, Some(rs), PostStart).outcome == Redirect(QuestionAt(|rs|), None)
    ensures Handle(s, Some(rs), GetQuestion(|rs|)).outcome == Crash(IndexError)
    ensures Handle(s, Some(rs), GetThankYou).outcome == Redirect(Landing, None)
  {
  }
}
