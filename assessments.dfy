/** The Assessments page: the list of personality assessments with the
    user's completion status, and the one-question-at-a-time wizard that
    collects five-point answers and submits them. */
module Assessments {
  import opened Wrappers
  import opened ApiClient

  type QuestionId = int
  type AssessmentId = int

  /** A point on the scale offered by the radio group
      (1 = Strongly Disagree ... 5 = Strongly Agree). */
  type Rating = v: int | 1 <= v <= 5 witness 3

  /** The value submitted for a question that has no recorded answer. */
  const Neutral: Rating := 3

  datatype Question = Question(id: QuestionId, text: string)

  datatype Assessment = Assessment(
    id: AssessmentId,
    name: string,
    description: string,
    estimatedTime: int,
    questions: seq<Question>)

  /** One assessment the user has completed, as listed by the API. */
  datatype CompletionRecord = CompletionRecord(
    id: int,
    assessmentId: AssessmentId,
    assessmentName: string,
    completedAt: string)

  /** One element of the list sent to the API on submission. */
  datatype SubmittedAnswer = SubmittedAnswer(questionId: QuestionId, answer: Rating)

  /** The answers recorded so far, keyed by question id. */
  type Answers = map<QuestionId, Rating>

  /** What a successful reload of the page's two lists yields. */
  datatype LoadedAssessments = LoadedAssessments(
    assessments: seq<Assessment>,
    userResults: seq<CompletionRecord>)

  // ---------------------------------------------------------------------
  // Completion classification
  // ---------------------------------------------------------------------

  /** Whether some completion record names the assessment `id`. */
  function IsCompleted(results: seq<CompletionRecord>, id: AssessmentId): (b: bool)
    ensures b <==> exists i :: 0 <= i < |results| && results[i].assessmentId == id
  {
    if results == [] then false
    else if results[0].assessmentId == id then true
    else
      var b := IsCompleted(results[1..], id);
      assert forall i :: 1 <= i < |results| ==> results[i] == results[1..][i - 1];
      b
  }

  /** The positions of the completed assessments in the list. */
  function CompletedPositions(assessments: seq<Assessment>, results: seq<CompletionRecord>): set<int>
  {
    set i | 0 <= i < |assessments| && IsCompleted(results, assessments[i].id)
  }

  lemma CompletedPositionsSplit(assessments: seq<Assessment>, results: seq<CompletionRecord>)
    requires |assessments| > 0
    ensures var n := |assessments| - 1;
            var before := CompletedPositions(assessments[..n], results);
            && n !in before
            && CompletedPositions(assessments, results)
               == before + (if IsCompleted(results, assessments[n].id) then {n} else {})
  {
    var n := |assessments| - 1;
    assert forall i :: 0 <= i < n ==> assessments[..n][i] == assessments[i];
  }

  /** How many of the listed assessments are completed (each assessment
      counts once, however many records name it): the length of the
      filtered list. */
  function CompletedCount(assessments: seq<Assessment>, results: seq<CompletionRecord>): (c: nat)
    ensures c == |CompletedPositions(assessments, results)|
    ensures c <= |assessments|
    decreases |assessments|
  {
    if assessments == [] then 0
    else
      var n := |assessments| - 1;
      CompletedPositionsSplit(assessments, results);
      CompletedCount(assessments[..n], results) + (if IsCompleted(results, assessments[n].id) then 1 else 0)
  }

  lemma {:induction false} AllCompletedCount(assessments: seq<Assessment>, results: seq<CompletionRecord>)
    ensures CompletedCount(assessments, results) == |assessments|
            <==> forall i :: 0 <= i < |assessments| ==> IsCompleted(results, assessments[i].id)
    decreases |assessments|
  {
    if assessments != [] {
      var n := |assessments| - 1;
      AllCompletedCount(assessments[..n], results);
      assert forall i :: 0 <= i < n ==> assessments[i] == assessments[..n][i];
    }
  }

  lemma {:induction false} NoneCompletedCount(assessments: seq<Assessment>, results: seq<CompletionRecord>)
    ensures CompletedCount(assessments, results) == 0
            <==> forall i :: 0 <= i < |assessments| ==> !IsCompleted(results, assessments[i].id)
    decreases |assessments|
  {
    if assessments != [] {
      var n := |assessments| - 1;
      NoneCompletedCount(assessments[..n], results);
      assert forall i :: 0 <= i < n ==> assessments[i] == assessments[..n][i];
    }
  }

  /** Multiplying by a positive factor keeps a strict order, so it can be
      cancelled from both sides of one. */
  lemma MulCancel(n: int, a: int, b: int)
    requires n > 0 && n * a < n * b
    ensures a < b
  {
  }

  /** `Math.round(num / den)` for a non-negative fraction: the nearest
      integer, a half rounded up. */
  function RoundHalfUp(num: nat, den: nat): (r: nat)
    requires den > 0
    ensures den * (2 * r - 1) <= 2 * num < den * (2 * r + 1)
  {
    var r := (2 * num + den) / (2 * den);
    assert 2 * den * r <= 2 * num + den < 2 * den * r + 2 * den;
    r
  }

  /** A fraction at most `k` rounds to at most `k`, and one at least `k`
      to at least `k`. */
  lemma RoundHalfUpBounds(num: nat, den: nat, k: int)
    requires den > 0
    ensures num <= k * den ==> RoundHalfUp(num, den) <= k
    ensures num >= k * den ==> RoundHalfUp(num, den) >= k
  {
    var r: int := RoundHalfUp(num, den);
    assert den * (2 * r - 1) <= 2 * num < den * (2 * r + 1);
    if num <= k * den {
      assert den * (2 * k + 1) == 2 * (k * den) + den;
      MulCancel(den, 2 * r - 1, 2 * k + 1);
    }
    if num >= k * den {
      assert den * (2 * k - 1) == 2 * (k * den) - den;
      MulCancel(den, 2 * k - 1, 2 * r + 1);
    }
  }

  /** A number shown on the page, which may be JavaScript's NaN. */
  datatype Percentage = Percent(value: int) | NaN

  /** The completion percentage as the page computes it: the share of
      completed assessments, rounded; 0 / 0 when the list is empty. */
  function CompletionPercentageAsWritten(assessments: seq<Assessment>, results: seq<CompletionRecord>): (p: Percentage)
    ensures p.NaN? <==> |assessments| == 0
    ensures p.Percent? ==> 0 <= p.value <= 100
    ensures p.Percent? ==>
              var c := CompletedCount(assessments, results);
              |assessments| * (2 * p.value - 1) <= 200 * c < |assessments| * (2 * p.value + 1)
  {
    if |assessments| == 0 then NaN
    else
      var c, n := CompletedCount(assessments, results), |assessments|;
      RoundHalfUpBounds(100 * c, n, 100);
      Percent(RoundHalfUp(100 * c, n))
  }

  /** The completion percentage with the empty list guarded: 0 when there
      is nothing to complete, otherwise what the page shows. */
  function CompletionPercentage(assessments: seq<Assessment>, results: seq<CompletionRecord>): (p: nat)
    ensures p <= 100
    ensures |assessments| == 0 ==> p == 0
    ensures |assessments| > 0 ==>
              var c := CompletedCount(assessments, results);
              |assessments| * (2 * p - 1) <= 200 * c < |assessments| * (2 * p + 1)
    ensures |assessments| > 0 ==> CompletionPercentageAsWritten(assessments, results) == Percent(p)
  {
    if |assessments| == 0 then 0
    else
      var c, n := CompletedCount(assessments, results), |assessments|;
      RoundHalfUpBounds(100 * c, n, 100);
      RoundHalfUp(100 * c, n)
  }

  lemma EmptyListPercentageIsNaN(results: seq<CompletionRecord>)
    ensures CompletionPercentageAsWritten([], results) == NaN
    ensures CompletionPercentage([], results) == 0
  {
  }

  /** All completed shows 100 and none completed shows 0. The converse
      holds only for fewer than 200 assessments: with 200 or more, one
      missing (or one present) completion rounds away. */
  lemma PercentageExtremes(assessments: seq<Assessment>, results: seq<CompletionRecord>)
    requires |assessments| > 0
    ensures (forall i :: 0 <= i < |assessments| ==> IsCompleted(results, assessments[i].id))
            ==> CompletionPercentage(assessments, results) == 100
    ensures (forall i :: 0 <= i < |assessments| ==> !IsCompleted(results, assessments[i].id))
            ==> CompletionPercentage(assessments, results) == 0
    ensures |assessments| < 200 && CompletionPercentage(assessments, results) == 100
            ==> forall i :: 0 <= i < |assessments| ==> IsCompleted(results, assessments[i].id)
    ensures |assessments| < 200 && CompletionPercentage(assessments, results) == 0
            ==> forall i :: 0 <= i < |assessments| ==> !IsCompleted(results, assessments[i].id)
  {
    var c, n := CompletedCount(assessments, results), |assessments|;
    var p := CompletionPercentage(assessments, results);
    AllCompletedCount(assessments, results);
    NoneCompletedCount(assessments, results);
    RoundHalfUpBounds(100 * c, n, 100);
    RoundHalfUpBounds(100 * c, n, 0);
  }

  /** With 300 assessments, 299 completed shows 100 and 1 completed
      shows 0. */
  lemma LargeListsRoundAway()
    ensures RoundHalfUp(100 * 299, 300) == 100
    ensures RoundHalfUp(100 * 1, 300) == 0
  {
  }

  /** Two of five listed assessments completed shows 40. */
  lemma TwoOfFiveIsForty(assessments: seq<Assessment>, results: seq<CompletionRecord>)
    requires |assessments| == 5
    requires forall i :: 0 <= i < 5 ==> assessments[i].id == i
    requires |results| == 2 && results[0].assessmentId == 0 && results[1].assessmentId == 3
    ensures CompletionPercentage(assessments, results) == 40
  {
    var a := assessments;
    assert !IsCompleted(results, 1) && !IsCompleted(results, 2) && !IsCompleted(results, 4);
    assert IsCompleted(results, 0) && IsCompleted(results, 3);
    assert a[..4][..3] == a[..3] && a[..3][..2] == a[..2] && a[..2][..1] == a[..1] && a[..1][..0] == [];
    assert CompletedCount(a[..1], results) == 1;
    assert CompletedCount(a[..2], results) == 1;
    assert CompletedCount(a[..3], results) == 1;
    assert CompletedCount(a[..4], results) == 2;
    assert CompletedCount(a, results) == 2;
  }

  // ---------------------------------------------------------------------
  // The submitted answer list
  // ---------------------------------------------------------------------

  /** The recorded answer to question `id`, or the neutral value when
      there is none. Ratings are never 0, so JavaScript's
      `answers[id] || 3` falls back exactly when the key is missing. */
  function AnswerOrNeutral(answers: Answers, id: QuestionId): Rating
  {
    if id in answers then answers[id] else Neutral
  }

  /** The answer list built on submission: one entry per question, in
      question order. */
  function AnswerList(questions: seq<Question>, answers: Answers): (r: seq<SubmittedAnswer>)
    ensures |r| == |questions|
    ensures forall i :: 0 <= i < |r| ==> r[i].questionId == questions[i].id
    ensures forall i :: 0 <= i < |r| && questions[i].id in answers ==> r[i].answer == answers[questions[i].id]
    ensures forall i :: 0 <= i < |r| && questions[i].id !in answers ==> r[i].answer == Neutral
  {
    if questions == [] then []
    else [SubmittedAnswer(questions[0].id, AnswerOrNeutral(answers, questions[0].id))]
         + AnswerList(questions[1..], answers)
  }

  predicate AllAnswered(questions: seq<Question>, answers: Answers)
  {
    forall i :: 0 <= i < |questions| ==> questions[i].id in answers
  }

  function QuestionIds(questions: seq<Question>): set<QuestionId>
  {
    set q | q in questions :: q.id
  }

  /** The answers a receiver reads back from a submitted list. */
  function AnswersOf(sent: seq<SubmittedAnswer>): Answers
  {
    if sent == [] then map[]
    else AnswersOf(sent[1..])[sent[0].questionId := sent[0].answer]
  }

  /** The recorded answers to the assessment's own questions. */
  function Restrict(answers: Answers, ids: set<QuestionId>): Answers
  {
    map id | id in ids && id in answers :: answers[id]
  }

  /** When every question is answered, the submitted list carries exactly
      the recorded answers to the assessment's questions: nothing is
      defaulted, nothing is lost. */
  lemma {:induction false} AnswerListRoundTrip(questions: seq<Question>, answers: Answers)
    requires AllAnswered(questions, answers)
    ensures AnswersOf(AnswerList(questions, answers)) == Restrict(answers, QuestionIds(questions))
  {
    if questions != [] {
      var q, rest := questions[0], questions[1..];
      assert AllAnswered(rest, answers) by {
        forall i | 0 <= i < |rest| ensures rest[i].id in answers {
          assert rest[i] == questions[i + 1];
        }
      }
      AnswerListRoundTrip(rest, answers);
      var sent := AnswerList(questions, answers);
      assert sent[1..] == AnswerList(rest, answers);
      assert sent[0] == SubmittedAnswer(q.id, answers[q.id]);
      assert QuestionIds(questions) == QuestionIds(rest) + {q.id} by {
        assert questions == [q] + rest;
      }
    }
  }

  /** Entries recorded for ids that are not questions of the assessment
      never reach the submitted list. */
  lemma AnswerListIgnoresOtherIds(questions: seq<Question>, answers: Answers, id: QuestionId, v: Rating)
    requires id !in QuestionIds(questions)
    ensures AnswerList(questions, answers[id := v]) == AnswerList(questions, answers)
  {
    var r1, r2 := AnswerList(questions, answers[id := v]), AnswerList(questions, answers);
    forall i | 0 <= i < |questions| ensures r1[i] == r2[i] {
      assert questions[i] in questions;
    }
  }

  // ---------------------------------------------------------------------
  // The wizard: state, transitions and button guards
  // ---------------------------------------------------------------------

  /** The hook state of an attempt: the assessment being taken (none on
      the list view), the index of the question shown, the recorded
      answers, and whether a submission is under way. */
  datatype Wizard = Wizard(
    selected: Option<Assessment>,
    current: nat,
    answers: Answers,
    submitting: bool)

  /** The state when the page is first shown. */
  const Initial := Wizard(None, 0, map[], false)

  function AfterStart(w: Wizard, a: Assessment): Wizard
  {
    w.(selected := Some(a), current := 0, answers := map[])
  }

  function AfterAnswer(w: Wizard, id: QuestionId, v: Rating): Wizard
  {
    w.(answers := w.answers[id := v])
  }

  function AfterNext(w: Wizard): Wizard
    requires w.selected.Some?
  {
    if w.current < |w.selected.value.questions| - 1 then w.(current := w.current + 1) else w
  }

  function AfterPrevious(w: Wizard): Wizard
  {
    if w.current > 0 then w.(current := w.current - 1) else w
  }

  /** The Exit button clears only the selection. */
  function AfterExit(w: Wizard): Wizard
  {
    w.(selected := None)
  }

  function AfterSubmitSuccess(w: Wizard): Wizard
  {
    w.(selected := None, current := 0, answers := map[], submitting := false)
  }

  function AfterSubmitFailure(w: Wizard): Wizard
  {
    w.(submitting := false)
  }

  /** The wizard view is rendered: an attempt is selected and its current
      question exists. */
  predicate InWizard(w: Wizard)
  {
    w.selected.Some? && w.current < |w.selected.value.questions|
  }

  function CurrentQuestion(w: Wizard): Question
    requires InWizard(w)
  {
    w.selected.value.questions[w.current]
  }

  predicate CurrentAnswered(w: Wizard)
    requires InWizard(w)
  {
    CurrentQuestion(w).id in w.answers
  }

  /** The last question shows Submit in place of Next. */
  predicate OnLastQuestion(w: Wizard)
    requires w.selected.Some?
  {
    w.current == |w.selected.value.questions| - 1
  }

  predicate PreviousEnabled(w: Wizard)
  {
    w.current != 0
  }

  predicate NextEnabled(w: Wizard)
    requires InWizard(w)
  {
    !OnLastQuestion(w) && CurrentAnswered(w)
  }

  predicate SubmitEnabled(w: Wizard)
    requires InWizard(w)
  {
    OnLastQuestion(w) && !w.submitting && CurrentAnswered(w)
  }

  /** What the user can do on the page. `Choose` picks a value on the
      current question's radio group; `Submit` carries the outcome of the
      API call. */
  datatype Action =
    | Start(assessment: Assessment)
    | Choose(value: Rating)
    | Next
    | Previous
    | Exit
    | Submit(accepted: bool)

  /** Whether the control for `act` is on screen and not disabled. */
  predicate Enabled(w: Wizard, act: Action)
  {
    match act
    case Start(_) => w.selected.None?
    case Choose(_) => InWizard(w)
    case Next => InWizard(w) && NextEnabled(w)
    case Previous => InWizard(w) && PreviousEnabled(w)
    case Exit => InWizard(w)
    case Submit(_) => InWizard(w) && SubmitEnabled(w)
  }

  function Step(w: Wizard, act: Action): Wizard
    requires Enabled(w, act)
  {
    match act
    case Start(a) => AfterStart(w, a)
    case Choose(v) => AfterAnswer(w, CurrentQuestion(w).id, v)
    case Next => AfterNext(w)
    case Previous => AfterPrevious(w)
    case Exit => AfterExit(w)
    case Submit(accepted) => if accepted then AfterSubmitSuccess(w) else AfterSubmitFailure(w)
  }

  /** The state after the actions, or None if one of them was not
      enabled when it came. */
  function Run(w: Wizard, acts: seq<Action>): Option<Wizard>
    decreases |acts|
  {
    if acts == [] then Some(w)
    else if Enabled(w, acts[0]) then Run(Step(w, acts[0]), acts[1..])
    else None
  }

  lemma {:induction false} RunAppend(w: Wizard, xs: seq<Action>, ys: seq<Action>)
    ensures Run(w, xs + ys) == if Run(w, xs).Some? then Run(Run(w, xs).value, ys) else None
    decreases |xs|
  {
    if xs != [] {
      assert (xs + ys)[0] == xs[0];
      assert (xs + ys)[1..] == xs[1..] + ys;
      if Enabled(w, xs[0]) {
        RunAppend(Step(w, xs[0]), xs[1..], ys);
      }
    } else {
      assert xs + ys == ys;
    }
  }

  // ---------------------------------------------------------------------
  // Properties of single transitions
  // ---------------------------------------------------------------------

  /** Starting an attempt forgets whatever an earlier attempt left. */
  lemma StartForgetsEarlierAttempt(w1: Wizard, w2: Wizard, a: Assessment)
    requires w1.submitting == w2.submitting
    ensures AfterStart(w1, a) == AfterStart(w2, a)
    ensures AfterStart(w1, a).current == 0 && AfterStart(w1, a).answers == map[]
  {
  }

  /** Answering upserts one entry and changes nothing else. */
  lemma AnswerUpserts(w: Wizard, id: QuestionId, v: Rating)
    ensures AfterAnswer(w, id, v).answers[id] == v
    ensures forall k :: k != id ==> (k in AfterAnswer(w, id, v).answers <==> k in w.answers)
    ensures forall k :: k != id && k in w.answers ==> AfterAnswer(w, id, v).answers[k] == w.answers[k]
    ensures AfterAnswer(w, id, v).(answers := w.answers) == w
  {
  }

  /** Moving between questions never touches the answers, and neither
      handler leaves the question list. */
  lemma NavigationKeepsAnswersAndBounds(w: Wizard)
    requires InWizard(w)
    ensures AfterNext(w).answers == w.answers && AfterPrevious(w).answers == w.answers
    ensures InWizard(AfterNext(w)) && InWizard(AfterPrevious(w))
    ensures OnLastQuestion(w) ==> AfterNext(w) == w
    ensures w.current == 0 ==> AfterPrevious(w) == w
  {
  }

  /** Answer, Next, Previous comes back to the same question with the
      answer just given. */
  lemma AnswerNextPrevious(w: Wizard, v: Rating)
    requires InWizard(w) && !OnLastQuestion(w)
    ensures var w' := AfterPrevious(AfterNext(AfterAnswer(w, CurrentQuestion(w).id, v)));
            w'.current == w.current && w'.answers[CurrentQuestion(w).id] == v
  {
  }

  /** A failed submission leaves the attempt as it was, and Submit is
      enabled again. */
  lemma FailedSubmitCanRetry(w: Wizard)
    requires InWizard(w) && SubmitEnabled(w)
    ensures AfterSubmitFailure(w) == w
    ensures InWizard(AfterSubmitFailure(w)) && SubmitEnabled(AfterSubmitFailure(w))
  {
  }

  /** On the wizard view: Next and Submit are never both enabled, either
      one needs the current question answered, Submit needs the last
      question and no submission under way, Previous is disabled exactly
      at the first question, and Exit is always enabled. */
  lemma ButtonGuards(w: Wizard)
    requires InWizard(w)
    ensures !(Enabled(w, Next) && Enabled(w, Submit(true)))
    ensures Enabled(w, Next) || Enabled(w, Submit(true)) ==> CurrentAnswered(w)
    ensures Enabled(w, Submit(true)) ==> OnLastQuestion(w) && !w.submitting
    ensures Enabled(w, Next) ==> w.current + 1 < |w.selected.value.questions|
    ensures Enabled(w, Previous) <==> w.current > 0
    ensures Enabled(w, Exit)
  {
  }

  // ---------------------------------------------------------------------
  // Properties of every run of the page
  // ---------------------------------------------------------------------

  /** The index of the first question with no recorded answer
      (`|questions|` when all are answered). */
  function FirstUnanswered(questions: seq<Question>, answers: Answers): (k: nat)
    ensures k <= |questions|
    ensures forall i :: 0 <= i < k ==> questions[i].id in answers
    ensures k < |questions| ==> questions[k].id !in answers
  {
    if questions == [] then 0
    else if questions[0].id !in answers then 0
    else
      var k := 1 + FirstUnanswered(questions[1..], answers);
      assert forall i :: 1 <= i < |questions| ==> questions[i] == questions[1..][i - 1];
      k
  }

  /** What holds between user actions: no submission is under way, and
      the question shown is within the list and not past the first
      unanswered one. */
  predicate Consistent(w: Wizard)
  {
    && !w.submitting
    && (w.selected.Some? ==>
          var qs := w.selected.value.questions;
          && w.current <= FirstUnanswered(qs, w.answers)
          && (w.current < |qs| || w.current == 0))
  }

  lemma StepKeepsConsistent(w: Wizard, act: Action)
    requires Consistent(w) && Enabled(w, act)
    ensures Consistent(Step(w, act))
  {
  }

  lemma {:induction false} RunKeepsConsistent(w: Wizard, acts: seq<Action>)
    requires Consistent(w) && Run(w, acts).Some?
    ensures Consistent(Run(w, acts).value)
    decreases |acts|
  {
    if acts != [] {
      StepKeepsConsistent(w, acts[0]);
      RunKeepsConsistent(Step(w, acts[0]), acts[1..]);
    }
  }

  /** However the page is used, the question index stays within a
      non-empty question list, and no submission is left under way. */
  lemma ReachableIndexInBounds(acts: seq<Action>)
    requires Run(Initial, acts).Some?
    ensures !Run(Initial, acts).value.submitting
    ensures var w := Run(Initial, acts).value;
            w.selected.Some? && |w.selected.value.questions| > 0 ==> w.current < |w.selected.value.questions|
  {
    RunKeepsConsistent(Initial, acts);
  }

  /** However the page is used, Submit is enabled only when every
      question has a recorded answer, so the neutral default is never
      sent: the list carries exactly the user's answers. */
  lemma ReachableSubmitSendsRecordedAnswers(acts: seq<Action>)
    requires Run(Initial, acts).Some?
    requires InWizard(Run(Initial, acts).value) && SubmitEnabled(Run(Initial, acts).value)
    ensures var w := Run(Initial, acts).value;
            && AllAnswered(w.selected.value.questions, w.answers)
            && AnswersOf(AnswerList(w.selected.value.questions, w.answers))
               == Restrict(w.answers, QuestionIds(w.selected.value.questions))
  {
    RunKeepsConsistent(Initial, acts);
    var w := Run(Initial, acts).value;
    var qs := w.selected.value.questions;
    var k := FirstUnanswered(qs, w.answers);
    assert k == |qs|;
    AnswerListRoundTrip(qs, w.answers);
  }

  /** Answering the current question with `v` and moving on, `n` times. */
  function AnswerAndAdvance(n: nat, v: Rating): seq<Action>
  {
    if n == 0 then [] else [Choose(v), Next] + AnswerAndAdvance(n - 1, v)
  }

  lemma {:induction false} AnswerAndAdvanceRuns(w: Wizard, n: nat, v: Rating)
    requires InWizard(w) && !w.submitting
    requires w.current + n < |w.selected.value.questions|
    ensures Run(w, AnswerAndAdvance(n, v)).Some?
    ensures var w' := Run(w, AnswerAndAdvance(n, v)).value;
            && w'.selected == w.selected && w'.current == w.current + n && !w'.submitting
    decreases n
  {
    if n > 0 {
      var w1 := Step(w, Choose(v));
      var w2 := Step(w1, Next);
      AnswerAndAdvanceRuns(w2, n - 1, v);
      RunAppend(w, [Choose(v), Next], AnswerAndAdvance(n - 1, v));
      assert Run(w, [Choose(v), Next]) == Some(w2) by {
        assert [Choose(v), Next][1..] == [Next];
        assert [Next][1..] == [];
      }
    }
  }

  /** Every assessment with at least one question can be taken to the end:
      start, answer and advance through the questions, answer the last one
      and submit; every control used is enabled when it is used, and an
      accepted submission brings the page back to its initial state. */
  lemma EveryAttemptCanBeSubmitted(a: Assessment, v: Rating)
    requires |a.questions| > 0
    ensures Run(Initial, [Start(a)] + AnswerAndAdvance(|a.questions| - 1, v) + [Choose(v), Submit(true)])
            == Some(Initial)
  {
    var walk := AnswerAndAdvance(|a.questions| - 1, v);
    var w0 := Step(Initial, Start(a));
    assert Run(Initial, [Start(a)]) == Some(w0);
    AnswerAndAdvanceRuns(w0, |a.questions| - 1, v);
    var w1 := Run(w0, walk).value;
    RunAppend(Initial, [Start(a)], walk);
    var w2 := Step(w1, Choose(v));
    assert Run(w1, [Choose(v), Submit(true)]) == Some(Initial) by {
      assert [Choose(v), Submit(true)][1..] == [Submit(true)];
      assert [Submit(true)][1..] == [];
      assert Enabled(w2, Submit(true));
    }
    RunAppend(Initial, [Start(a)] + walk, [Choose(v), Submit(true)]);
  }

  // ---------------------------------------------------------------------
  // The page component with its hook state
  // ---------------------------------------------------------------------

  class AssessmentsPage {
    var assessments: seq<Assessment>
    var userResults: seq<CompletionRecord>
    var loading: bool
    var selectedAssessment: Option<Assessment>
    var currentQuestion: nat
    var answers: Answers
    var isSubmitting: bool

    /** The wizard part of the state. */
    function State(): Wizard
      reads this
    {
      Wizard(selectedAssessment, currentQuestion, answers, isSubmitting)
    }

    constructor ()
      ensures assessments == [] && userResults == [] && loading
      ensures State() == Initial
    {
      assessments, userResults, loading := [], [], true;
      selectedAssessment, currentQuestion, answers, isSubmitting := None, 0, map[], false;
    }

    /** Fetches both lists; a failure leaves them as they were. Either way
        the page stops loading. */
    method LoadAssessments(response: Response<LoadedAssessments>)
      modifies this`assessments, this`userResults, this`loading
      ensures !loading
      ensures response.Ok? ==> assessments == response.value.assessments
                               && userResults == response.value.userResults
      ensures response.Failed? ==> assessments == old(assessments) && userResults == old(userResults)
    {
      if response.Ok? {
        assessments := response.value.assessments;
        userResults := response.value.userResults;
      }
      loading := false;
    }

    method StartAssessment(a: Assessment)
      modifies this`selectedAssessment, this`currentQuestion, this`answers
      ensures State() == AfterStart(old(State()), a)
    {
      selectedAssessment := Some(a);
      currentQuestion := 0;
      answers := map[];
    }

    method HandleAnswer(id: QuestionId, v: Rating)
      modifies this`answers
      ensures State() == AfterAnswer(old(State()), id, v)
    {
      answers := answers[id := v];
    }

    method NextQuestion()
      requires selectedAssessment.Some?
      modifies this`currentQuestion
      ensures State() == AfterNext(old(State()))
    {
      if currentQuestion < |selectedAssessment.value.questions| - 1 {
        currentQuestion := currentQuestion + 1;
      }
    }

    method PreviousQuestion()
      modifies this`currentQuestion
      ensures State() == AfterPrevious(old(State()))
    {
      if currentQuestion > 0 {
        currentQuestion := currentQuestion - 1;
      }
    }

    method Exit()
      modifies this`selectedAssessment
      ensures State() == AfterExit(old(State()))
    {
      selectedAssessment := None;
    }

    /** Builds the answer list and sends it. `submission` is the outcome
        of the API call and `reload` that of the list reload that follows
        an accepted submission. `sent` is the list handed to the API, or
        None when there is no selected assessment (the handler then fails
        before the call). */
    method SubmitAssessment(submission: Response<()>, reload: Response<LoadedAssessments>)
      returns (sent: Option<seq<SubmittedAnswer>>)
      modifies this
      ensures sent == if old(selectedAssessment).Some?
                      then Some(AnswerList(old(selectedAssessment).value.questions, old(answers)))
                      else None
      ensures var accepted := sent.Some? && submission.Ok?;
              && State() == (if accepted then AfterSubmitSuccess(old(State())) else AfterSubmitFailure(old(State())))
              && (accepted && reload.Ok? ==> assessments == reload.value.assessments
                                             && userResults == reload.value.userResults)
              && (!(accepted && reload.Ok?) ==> assessments == old(assessments)
                                                && userResults == old(userResults))
              && loading == (if accepted then false else old(loading))
    {
      isSubmitting := true;
      sent := None;
      if selectedAssessment.Some? {
        sent := Some(AnswerList(selectedAssessment.value.questions, answers));
        if submission.Ok? {
          LoadAssessments(reload);
          selectedAssessment := None;
          currentQuestion := 0;
          answers := map[];
        }
      }
      isSubmitting := false;
    }
  }
}
