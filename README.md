# Connexion dashboard: assessment wizard, navigation and dashboard selection

This project models the logic of three pages of the Connexion web front
end in Dafny:

- **Assessments** (`assessments.dfy`, module `Assessments`). The page
  lists personality assessments and the user's completion records. It
  classifies each assessment as completed or not and shows a completion
  percentage. It also runs a one-question-at-a-time wizard with this hook
  state:
  - `selectedAssessment`: the attempt in progress, if any.
  - `currentQuestion`: the index of the question shown.
  - `answers`: question id to a rating from 1 to 5.
  - `isSubmitting`: whether a submission is under way.

  The class `AssessmentsPage` keeps these fields, with the two loaded
  lists and the `loading` flag. Its handlers update them in place. The
  wizard handlers (`StartAssessment`, `HandleAnswer`, `NextQuestion`,
  `PreviousQuestion`, `Exit`, `SubmitAssessment`) are each proved to move
  `State()` exactly as a pure transition function does (`AfterStart`,
  `AfterAnswer`, `AfterNext`, `AfterPrevious`, `AfterExit`,
  `AfterSubmitSuccess`, `AfterSubmitFailure`). `LoadAssessments` and the
  reload inside `SubmitAssessment` state directly what happens to the two
  lists and to `loading`. The buttons' `disabled`
  conditions decide which actions the user can take. They are transcribed
  as `PreviousEnabled`, `NextEnabled`, `SubmitEnabled` and, per user
  action, `Enabled`. Runs of enabled actions (`Run`) are the basis of the
  whole-page invariants:
  - the question index stays in bounds;
  - Submit is reachable only with every question answered, so the neutral
    default 3 is never sent;
  - every attempt can be driven to an accepted submission.
- **Layout** (`layout.dfy`, module `Layout`). `IsActive` decides which
  navigation entry is highlighted. The root matches only itself; any
  other path matches by plain string prefix. For the six entries of the
  bar, at most one is highlighted at a time.
- **Dashboard** (`dashboard.dfy`, module `Dashboard`). This is what the
  dashboard derives from a load:
  - the upcoming tasks: the first five tasks that are not completed;
  - the achievements, with `[]` as the fallback;
  - the personality chart: a fixed four-trait profile, shown only when
    the user has completed an assessment.

  `DashboardPage.LoadDashboardData` is the state update. On failure only
  `loading` changes.

The remote API is not modelled as code. Each call is a parameter of type
`ApiClient.Response<T>`, either `Ok(value)` or `Failed`, and the caller of
the model picks the outcome (`wrappers.dfy`). The demo user id and the
HTTP paths play no part.

Behaviours of the page's code that the model keeps as they are:
- The Exit button is never disabled, even while a submission is under way.
- `startAssessment` accepts an assessment with no questions.
- Only the buttons' `disabled` conditions block Next and Submit; the
  handlers themselves do not check for an answer.
- The submission status is a single boolean, `isSubmitting`.
- With no assessments the page shows NaN as its percentage (see Findings).

## Model

| member | source | states |
|---|---|---|
| Assessments.IsCompleted | Assessments.jsx:47-49 | an assessment is completed exactly when some result record carries its id |
| Assessments.CompletedCount | Assessments.jsx:52 | the count is the number of positions in the assessment list whose assessment is completed (`CompletedPositions`), so it never exceeds the list's length, however many records there are |
| Assessments.AllCompletedCount | Assessments.jsx:52 | the count equals the number of assessments exactly when every one is completed |
| Assessments.NoneCompletedCount | Assessments.jsx:52 | the count is 0 exactly when none is completed |
| Assessments.RoundHalfUp | Assessments.jsx:53 | `Math.round` of a non-negative fraction: the result is within one half of the fraction, halves rounded up |
| Assessments.RoundHalfUpBounds | Assessments.jsx:53 | a fraction at most (at least) k rounds to at most (at least) k |
| Assessments.CompletionPercentageAsWritten | Assessments.jsx:51-54 | the percentage as written: NaN exactly when no assessment is listed, otherwise the value p between 0 and 100 with n(2p - 1) <= 200c < n(2p + 1), that is 100c/n rounded, halves up, for c completed of n |
| Assessments.CompletionPercentage | Assessments.jsx:51-54 | the guarded percentage: 0 for an empty list; otherwise 100c/n rounded, halves up (n(2p - 1) <= 200c < n(2p + 1)), between 0 and 100 and equal to the page's value |
| Assessments.EmptyListPercentageIsNaN | Assessments.jsx:53 | with no assessments the page computes 0/0 = NaN, while the guarded version gives 0 |
| Assessments.PercentageExtremes | Assessments.jsx:51-54 | all completed gives 100 and none completed gives 0; the converse holds for fewer than 200 assessments |
| Assessments.TwoOfFiveIsForty | Assessments.jsx:51-54 | five listed assessments of which two have results show 40 |
| Assessments.LargeListsRoundAway | Assessments.jsx:53 | with 300 assessments, 299 completed shows 100 and 1 completed shows 0 |
| Assessments.AnswerList | Assessments.jsx:84-87 | the submitted list has one entry per question, in question order; each entry carries the question's id and its recorded answer, or 3 when it has none (`AnswerOrNeutral`, the `answers[id] \|\| 3` fallback at line 86) |
| Assessments.AnswerListRoundTrip | Assessments.jsx:84-87 | when every question is answered, reading the submitted list back gives exactly the recorded answers to the assessment's questions |
| Assessments.AnswerListIgnoresOtherIds | Assessments.jsx:84-87 | answers stored under ids that are not the assessment's questions do not change the submitted list |
| Assessments.StartForgetsEarlierAttempt | Assessments.jsx:56-60 | `AfterStart` gives the same state whatever an earlier attempt or exit left: index 0 and no answers |
| Assessments.AnswerUpserts | Assessments.jsx:62-67 | `AfterAnswer` sets that question's entry, overwriting any earlier one; every other entry, the index, the selection and the submitting flag stay as they were |
| Assessments.NavigationKeepsAnswersAndBounds | Assessments.jsx:69-79 | `AfterNext` and `AfterPrevious` never change the answers, keep the index within the question list, do nothing at the last question (Next) or at index 0 (Previous) |
| Assessments.AnswerNextPrevious | Assessments.jsx:62-79 | answer, then Next, then Previous returns to the same index with the answer just given |
| Assessments.FailedSubmitCanRetry | Assessments.jsx:97-101 | `AfterSubmitFailure` leaves the attempt exactly as before the submission, and Submit is enabled again |
| Assessments.ButtonGuards | Assessments.jsx:176-199 | on the wizard view (`PreviousEnabled`, `NextEnabled`, `SubmitEnabled`, `Enabled`): Next and Submit are never both enabled; either needs the current question answered; Submit needs the last question and no submission under way; Next is enabled only before the last question; Previous is enabled exactly after the first; Exit is always enabled |
| Assessments.StepKeepsConsistent | Assessments.jsx:176-199 | every action that `Enabled` allows keeps the page invariant: no submission is under way, and the index lies within the questions and not past the first unanswered one |
| Assessments.RunKeepsConsistent | Assessments.jsx:56-102 | any run of enabled actions keeps that invariant |
| Assessments.ReachableIndexInBounds | Assessments.jsx:69-79 | from the initial page, however it is used, the question index of a non-empty assessment stays below the number of questions |
| Assessments.ReachableSubmitSendsRecordedAnswers | Assessments.jsx:185-199 | from the initial page, Submit is enabled only when every question is answered, so the submitted list carries exactly the recorded answers and never the default |
| Assessments.EveryAttemptCanBeSubmitted | Assessments.jsx:56-102 | any assessment with questions can be started, answered and advanced through with every control enabled when used, and an accepted submission (`AfterSubmitSuccess`) returns the page to its initial state |
| Assessments.AssessmentsPage.constructor | Assessments.jsx:17-23 | the page starts loading, with empty lists, no attempt, index 0, no answers and not submitting |
| Assessments.AssessmentsPage.LoadAssessments | Assessments.jsx:31-45 | a successful load replaces both lists; a failed one keeps them; loading ends either way |
| Assessments.AssessmentsPage.StartAssessment | Assessments.jsx:56-60 | selects the assessment, sets the index to 0 and clears the answers |
| Assessments.AssessmentsPage.HandleAnswer | Assessments.jsx:62-67 | upserts the one answer and changes no other field |
| Assessments.AssessmentsPage.NextQuestion | Assessments.jsx:69-73 | advances the index only below the last question |
| Assessments.AssessmentsPage.PreviousQuestion | Assessments.jsx:75-79 | moves the index back only above 0 |
| Assessments.AssessmentsPage.Exit | Assessments.jsx:139-142 | clears the selection only (`AfterExit`); index and answers stay until the next start |
| Assessments.AssessmentsPage.SubmitAssessment | Assessments.jsx:81-102 | sends the answer list for the selected assessment; on success it reloads the lists and clears the selection, index and answers; on failure it keeps them; the submitting flag ends false either way |
| Layout.ActiveItems | Layout.jsx:28-33 | the highlighted entries are exactly the active ones among the items; there are none exactly when no item is active |
| Layout.RootActiveIff | Layout.jsx:29-31 | by `IsActive`, the root entry is highlighted exactly on the root location |
| Layout.NonRootActiveIff | Layout.jsx:32 | by `IsActive`, any other entry is highlighted exactly when the location starts with its path |
| Layout.ActiveOnItself | Layout.jsx:28-33 | every entry is highlighted on its own location |
| Layout.PrefixNotSegmentAware | Layout.jsx:32 | matching is by characters: `/projects` is highlighted at `/projectsX`, `/assessments` at `/assessments/7`, and the root is not highlighted at `/projects` |
| Layout.ExclusiveNeverBothActive | Layout.jsx:28-33 | two paths that are not prefixes of each other (for the root: one that is not a prefix of `/`) are never highlighted together |
| Layout.AtMostOneActiveOf | Layout.jsx:28-33 | in a bar of pairwise exclusive paths at most one entry is highlighted |
| Layout.NavigationItemsPairwiseExclusive | Layout.jsx:19-26 | the six paths of the bar (`NavigationItems`) are pairwise exclusive |
| Layout.AtMostOneNavigationItemActive | Layout.jsx:19-33 | for every location at most one entry of the bar is highlighted |
| Dashboard.NotCompleted | Dashboard.jsx:62 | the filtered tasks hold no completed task, hold every task that is not completed as many times as the input does, and keep the original order |
| Dashboard.UpcomingTasksSelection | Dashboard.jsx:62 | the upcoming tasks (`UpcomingTasks`) are the first min(5, k) of the k tasks not completed: at most five, none completed, in order, and all of them when there are five or fewer |
| Dashboard.AchievementsFallback | Dashboard.jsx:63 | the achievements (`AchievementsOf`) are those of the statistics when present, otherwise none |
| Dashboard.GeneratePersonalityChart | Dashboard.jsx:78-87 | the chart has four traits |
| Dashboard.PersonalityDataSpec | Dashboard.jsx:64 | by `PersonalityData`, there is no chart exactly when the user has no completed assessment; otherwise it is the fixed profile 85/70/45/60, whatever the assessments are |
| Dashboard.DashboardPage.constructor | Dashboard.jsx:23-31 | the dashboard starts loading, with no user, tasks, achievements or chart |
| Dashboard.DashboardPage.LoadDashboardData | Dashboard.jsx:37-76 | a successful load sets user, upcoming tasks, achievements and chart from the four responses; a failed one changes only `loading`; the Active Tasks count stays at most five with no completed task |

## Left out

- Rendering, icons, charts, the search box and the hard-coded sample data
  (`Dashboard.jsx:56-61`, `65-69`, `89-95`) are not modelled. The dashboard
  state has no recent-activities or suggestions fields.
- The API client (`api.js`) is left out: fetch, status codes and JSON
  handling. Each call is a `Response` parameter.
- `Promise.all` and await ordering are not modelled. A load or a
  submission is one atomic step with a given outcome.
- Clicks that arrive while a submission is awaited are not modelled.
  Previous, Exit and the rating buttons stay enabled during that time. In
  the model `isSubmitting` is true only inside `SubmitAssessment`.
- A response that has the wrong shape is not modelled. On the dashboard
  (for example missing task or statistics lists) reading it throws inside
  the `try`, and the page takes its failure path. On the assessments page
  the lists are stored without being read, and the page fails later, when
  it renders them.
- `viewResults` is left out: it only logs and shows an alert.
- The progress bar value at `Assessments.jsx:126` is a floating-point
  display value and is left out.
- Assessments.CompletionPercentageAsWritten: rounds the exact fraction, not
  the IEEE double `completed / n * 100`. They differ at halfway cases:
  23 of 40 is 57.49999999999999 in doubles, which rounds to 57, while the
  model gives 58.
- Assessments.Enabled: the Start button is enabled when no attempt is
  selected. The page also shows Start only for listed assessments that are
  not completed, and only after loading. The invariants do not need those
  conditions, so they are not part of `Enabled`.
- An assessment with no questions can be started. The page would then fail
  to render its first question. The model enables no wizard control in
  that state, because `InWizard` is false.
- AchievementScorecard, ProjectList, Projects and App are not part of this
  model: they fetch, render and route.

## Findings

| source | as written | input that shows it | evidently intended | confidence | as-written member | corrected member |
|---|---|---|---|---|---|---|
| Assessments.jsx:51-54 | the completion percentage divides the completed count by the number of assessments without a guard | an empty assessment list, from an empty API response or a failed load: 0 / 0 gives NaN, shown as "NaN%" | 0% when there is nothing to complete | high; not executed | Assessments.CompletionPercentageAsWritten | Assessments.CompletionPercentage |
