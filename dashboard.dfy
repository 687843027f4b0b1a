/** The dashboard page: what it derives from the four lists it loads
    (the user, their tasks, their gamification statistics and their
    completed assessments). */
module Dashboard {
  import opened Wrappers
  import opened ApiClient
  import Assessments

  datatype User = User(id: int, firstName: string, totalPoints: int)

  datatype Task = Task(id: int, title: string, status: string)

  datatype Achievement = Achievement(id: int, name: string)

  /** The gamification statistics; the `achievements` property may be
      missing from the response. */
  datatype GamificationStats = GamificationStats(achievements: Option<seq<Achievement>>)

  datatype PersonalityTrait = PersonalityTrait(name: string, value: int, color: string)

  /** What a successful load yields, one entry per API call. */
  datatype DashboardSources = DashboardSources(
    user: User,
    tasks: seq<Task>,
    stats: GamificationStats,
    assessments: seq<Assessments.CompletionRecord>)

  const CompletedStatus: string := "completed"

  /** How many upcoming tasks the dashboard keeps. */
  const MaxUpcomingTasks: nat := 5

  function Min(a: int, b: int): int
  {
    if a <= b then a else b
  }

  /** `a` is `b` with some elements left out, the rest in their order. */
  predicate IsSubsequence(a: seq<Task>, b: seq<Task>)
    decreases |b|
  {
    if a == [] then true
    else if b == [] then false
    else if a[0] == b[0] then IsSubsequence(a[1..], b[1..])
    else IsSubsequence(a, b[1..])
  }

  lemma {:induction false} PrefixOfSubsequence(a: seq<Task>, b: seq<Task>, n: nat)
    requires IsSubsequence(a, b) && n <= |a|
    ensures IsSubsequence(a[..n], b)
    decreases |b|
  {
    if n > 0 {
      if a[0] == b[0] {
        PrefixOfSubsequence(a[1..], b[1..], n - 1);
        assert a[..n][1..] == a[1..][..n - 1];
      } else {
        PrefixOfSubsequence(a, b[1..], n);
      }
    }
  }

  /** The tasks whose status is not "completed", in their original order. */
  function NotCompleted(tasks: seq<Task>): (r: seq<Task>)
    ensures forall i :: 0 <= i < |r| ==> r[i].status != CompletedStatus
    ensures forall t :: t in tasks && t.status != CompletedStatus ==> t in r
    ensures IsSubsequence(r, tasks)
    ensures forall x :: multiset(r)[x] == if x.status != CompletedStatus then multiset(tasks)[x] else 0
  {
    assert tasks != [] ==> tasks == [tasks[0]] + tasks[1..];
    if tasks == [] then []
    else if tasks[0].status != CompletedStatus then [tasks[0]] + NotCompleted(tasks[1..])
    else NotCompleted(tasks[1..])
  }

  /** The tasks shown as upcoming: the first five not completed. */
  function UpcomingTasks(tasks: seq<Task>): seq<Task>
  {
    var open := NotCompleted(tasks);
    open[..Min(MaxUpcomingTasks, |open|)]
  }

  /** At most five tasks, none completed, in their original order, and
      the first `min(5, k)` of the `k` tasks not completed: all of them when
      there are fewer than five. */
  lemma UpcomingTasksSelection(tasks: seq<Task>)
    ensures var r, open := UpcomingTasks(tasks), NotCompleted(tasks);
            && |r| <= MaxUpcomingTasks
            && |r| == Min(MaxUpcomingTasks, |open|)
            && r == open[..|r|]
            && (forall i :: 0 <= i < |r| ==> r[i].status != CompletedStatus)
            && IsSubsequence(r, tasks)
            && (|open| <= MaxUpcomingTasks ==> forall t :: t in tasks && t.status != CompletedStatus ==> t in r)
  {
    var open := NotCompleted(tasks);
    PrefixOfSubsequence(open, tasks, Min(MaxUpcomingTasks, |open|));
    if |open| <= MaxUpcomingTasks {
      assert open[..|open|] == open;
    }
  }

  /** The achievements shown: those in the statistics, or none when the
      property is missing. */
  function AchievementsOf(stats: GamificationStats): seq<Achievement>
  {
    stats.achievements.GetOr([])
  }

  lemma AchievementsFallback(stats: GamificationStats)
    ensures stats.achievements.Some? ==> AchievementsOf(stats) == stats.achievements.value
    ensures stats.achievements.None? ==> AchievementsOf(stats) == []
  {
  }

  /** The personality chart: a fixed DISC profile, whatever assessments it
      is given. */
  function GeneratePersonalityChart(assessments: seq<Assessments.CompletionRecord>): (r: seq<PersonalityTrait>)
    ensures |r| == 4
  {
    [ PersonalityTrait("Dominance", 85, "#3B82F6"),
      PersonalityTrait("Influence", 70, "#10B981"),
      PersonalityTrait("Steadiness", 45, "#F59E0B"),
      PersonalityTrait("Conscientiousness", 60, "#8B5CF6") ]
  }

  /** No chart until the user has completed an assessment. */
  function PersonalityData(assessments: seq<Assessments.CompletionRecord>): Option<seq<PersonalityTrait>>
  {
    if |assessments| > 0 then Some(GeneratePersonalityChart(assessments)) else None
  }

  lemma PersonalityDataSpec(assessments: seq<Assessments.CompletionRecord>, others: seq<Assessments.CompletionRecord>)
    ensures PersonalityData(assessments).None? <==> |assessments| == 0
    ensures PersonalityData(assessments).Some? ==>
              var chart := PersonalityData(assessments).value;
              |chart| == 4 && chart[0].value == 85 && chart[1].value == 70
              && chart[2].value == 45 && chart[3].value == 60
    ensures |assessments| > 0 && |others| > 0 ==> PersonalityData(assessments) == PersonalityData(others)
  {
  }

  /** The dashboard's state. The hard-coded recent activities and
      communication suggestions are not modelled. */
  class DashboardPage {
    var user: Option<User>
    var upcomingTasks: seq<Task>
    var achievements: seq<Achievement>
    var personalityData: Option<seq<PersonalityTrait>>
    var loading: bool

    /** The Active Tasks card counts at most five tasks, none completed. */
    predicate Valid()
      reads this
    {
      && |upcomingTasks| <= MaxUpcomingTasks
      && forall i :: 0 <= i < |upcomingTasks| ==> upcomingTasks[i].status != CompletedStatus
    }

    constructor ()
      ensures Valid()
      ensures user == None && upcomingTasks == [] && achievements == []
      ensures personalityData == None && loading
    {
      user, upcomingTasks, achievements, personalityData, loading := None, [], [], None, true;
    }

    /** Loads the four sources together; if any call fails, only the
        loading flag changes. */
    method LoadDashboardData(response: Response<DashboardSources>)
      requires Valid()
      modifies this
      ensures Valid() && !loading
      ensures response.Ok? ==>
                && user == Some(response.value.user)
                && upcomingTasks == UpcomingTasks(response.value.tasks)
                && achievements == AchievementsOf(response.value.stats)
                && personalityData == PersonalityData(response.value.assessments)
      ensures response.Failed? ==>
                && user == old(user) && upcomingTasks == old(upcomingTasks)
                && achievements == old(achievements) && personalityData == old(personalityData)
    {
      if response.Ok? {
        var sources := response.value;
        UpcomingTasksSelection(sources.tasks);
        user := Some(sources.user);
        upcomingTasks := UpcomingTasks(sources.tasks);
        achievements := AchievementsOf(sources.stats);
        personalityData := PersonalityData(sources.assessments);
      }
      loading := false;
    }
  }
}
