/** The data the team bubble chart works on: the two fields of a task record it
    reads, the per-team aggregate it builds, and reference definitions of what
    each aggregate should hold, stated directly over the task list. */
module Tasks {

  datatype Option<+T> = None | Some(value: T)

  type TeamName = string

  /** A task record as the chart sees it: an optional list of team names and
      the length of its list of votes (the votes' contents are never read). */
  datatype Task = Task(teams: Option<seq<TeamName>>, voteCount: nat)

  /** One team's summary: the votes of every task listing it, and how many
      tasks list it. */
  datatype TeamAggregate = TeamAggregate(team: TeamName, totalVotes: nat, taskCount: nat)

  /** No team has two aggregates in the list. */
  predicate DistinctTeams(s: seq<TeamAggregate>)
  {
    forall i, j :: 0 <= i < j < |s| ==> s[i].team != s[j].team
  }

  /** The task counts of a list of aggregates, added up. */
  function SumTaskCounts(s: seq<TeamAggregate>): nat
  {
    if s == [] then 0 else s[0].taskCount + SumTaskCounts(s[1..])
  }

  lemma {:induction false} SumTaskCountsAppend(s: seq<TeamAggregate>, t: seq<TeamAggregate>)
    ensures SumTaskCounts(s + t) == SumTaskCounts(s) + SumTaskCounts(t)
  {
    if s == [] {
      assert s + t == t;
    } else {
      assert (s + t)[1..] == s[1..] + t;
      SumTaskCountsAppend(s[1..], t);
    }
  }

  /** The guard that makes the aggregation skip a task: no team list, or an
      empty one. */
  predicate HasNoTeams(task: Task)
  {
    task.teams.None? || |task.teams.value| == 0
  }

  /** The task's team list, a missing list read as empty. */
  function TeamsOf(task: Task): (teams: seq<TeamName>)
    ensures teams == [] <==> HasNoTeams(task)
  {
    if task.teams.Some? then task.teams.value else []
  }

  /** The task names the team at least once. */
  predicate Lists(task: Task, team: TeamName)
  {
    team in TeamsOf(task)
  }

  /** The number of tasks that name the team, each task counted once however
      often it names the team. */
  function TaskCount(tasks: seq<Task>, team: TeamName): (n: nat)
    ensures n <= |tasks|
  {
    if tasks == [] then 0
    else TaskCount(tasks[..|tasks| - 1], team) + (if Lists(tasks[|tasks| - 1], team) then 1 else 0)
  }

  /** The sum of the vote counts of the tasks that name the team, each task
      counted once however often it names the team. */
  function VotesFor(tasks: seq<Task>, team: TeamName): nat
  {
    if tasks == [] then 0
    else VotesFor(tasks[..|tasks| - 1], team) + (if Lists(tasks[|tasks| - 1], team) then tasks[|tasks| - 1].voteCount else 0)
  }

  /** All team lists of the tasks, one after the other, in task order. */
  function AllTeams(tasks: seq<Task>): seq<TeamName>
  {
    if tasks == [] then [] else AllTeams(tasks[..|tasks| - 1]) + TeamsOf(tasks[|tasks| - 1])
  }

  /** A team is named by some task exactly when it occurs in the concatenated
      team lists, and then exactly when its task count is positive. */
  lemma {:induction false} TaskCountPositive(tasks: seq<Task>, team: TeamName)
    ensures TaskCount(tasks, team) > 0 <==> team in AllTeams(tasks)
    ensures team in AllTeams(tasks) <==> exists i :: 0 <= i < |tasks| && Lists(tasks[i], team)
  {
    if tasks != [] {
      var init := tasks[..|tasks| - 1];
      TaskCountPositive(init, team);
      assert forall i :: 0 <= i < |init| ==> init[i] == tasks[i];
      if team in AllTeams(init) {
        var i :| 0 <= i < |init| && Lists(init[i], team);
        assert Lists(tasks[i], team);
      }
    }
  }

  /** A team that no task names has no votes. */
  lemma {:induction false} NoTasksNoVotes(tasks: seq<Task>, team: TeamName)
    requires TaskCount(tasks, team) == 0
    ensures VotesFor(tasks, team) == 0
  {
    if tasks != [] {
      NoTasksNoVotes(tasks[..|tasks| - 1], team);
    }
  }

  /** No task names a team exactly when every task is skipped by the guard. */
  lemma {:induction false} AllTeamsEmpty(tasks: seq<Task>)
    ensures AllTeams(tasks) == [] <==> forall task | task in tasks :: HasNoTeams(task)
  {
    if tasks != [] {
      var init := tasks[..|tasks| - 1];
      AllTeamsEmpty(init);
      assert tasks == init + [tasks[|tasks| - 1]];
    }
  }
}
