/** The aggregation in TeamBubbles: a loop over the tasks that fills a
    team-keyed table in place, followed by a sort of the table's values. The
    table updates are specified by the fold Tally, and Tally is proved to
    hold, for every team, exactly the counts defined in module Tasks. */
module Aggregator {

  import opened Tasks
  import opened UniqueTeams
  import opened TeamTable
  import opened VoteSort

  /** `aggregatesMap.get(team) ?? { team, totalVotes: 0, taskCount: 0 }`. */
  function Current(t: Table, team: TeamName): TeamAggregate
  {
    match Get(t, team)
    case Some(a) => a
    case None => TeamAggregate(team, 0, 0)
  }

  /** The aggregate after one more task with the given votes names its team. */
  function Bump(a: TeamAggregate, votes: nat): TeamAggregate
  {
    a.(totalVotes := a.totalVotes + votes, taskCount := a.taskCount + 1)
  }

  /** One pass of the inner loop body: fetch or create, add, store back. */
  function AddTeam(t: Table, team: TeamName, votes: nat): Table
  {
    Set(t, team, Bump(Current(t, team), votes))
  }

  /** The inner loop over the task's distinct teams, left to right. */
  function AddTeams(t: Table, teams: seq<TeamName>, votes: nat): Table
  {
    if teams == [] then t
    else AddTeam(AddTeams(t, teams[..|teams| - 1], votes), teams[|teams| - 1], votes)
  }

  /** One pass of the outer loop body. */
  function AddTask(t: Table, task: Task): Table
  {
    if HasNoTeams(task) then t
    else AddTeams(t, Unique(task.teams.value), task.voteCount)
  }

  /** The table after the outer loop has run over the tasks. */
  function Tally(tasks: seq<Task>): Table
  {
    if tasks == [] then [] else AddTask(Tally(tasks[..|tasks| - 1]), tasks[|tasks| - 1])
  }

  /** `aggregates`: the table's values, sorted by votes, highest first. */
  function Aggregates(tasks: seq<Task>): seq<TeamAggregate>
  {
    SortByVotes(Values(Tally(tasks)))
  }

  /** What the table should hold for a team once the tasks are processed. */
  function Expected(tasks: seq<Task>, team: TeamName): Option<TeamAggregate>
  {
    if TaskCount(tasks, team) == 0 then None
    else Some(TeamAggregate(team, VotesFor(tasks, team), TaskCount(tasks, team)))
  }

  /** A task with a missing or empty team list contributes nothing: taking
      it out of the list, wherever it stands, leaves the table as it was. */
  lemma {:induction false} SkippedTaskChangesNothing(before: seq<Task>, task: Task, after: seq<Task>)
    requires task.teams.None? || task.teams.value == []
    ensures Tally(before + [task] + after) == Tally(before + after)
  {
    if after == [] {
      assert before + [task] + after == before + [task];
      assert (before + [task])[..|before|] == before;
      assert before + after == before;
    } else {
      var init, last := after[..|after| - 1], after[|after| - 1];
      SkippedTaskChangesNothing(before, task, init);
      assert (before + [task] + after)[..|before| + |after|] == before + [task] + init;
      assert (before + after)[..|before| + |after| - 1] == before + init;
    }
  }

  /** Updating one team touches that team's entry and no other. */
  lemma AddTeamFrame(t: Table, team: TeamName, votes: nat, other: TeamName)
    ensures Get(AddTeam(t, team, votes), team) == Some(Bump(Current(t, team), votes))
    ensures other != team ==> Get(AddTeam(t, team, votes), other) == Get(t, other)
  {
    GetSet(t, team, Bump(Current(t, team), votes), team);
    GetSet(t, team, Bump(Current(t, team), votes), other);
  }

  /** Updating one team keeps the table invariant. */
  lemma AddTeamWellFormed(t: Table, team: TeamName, votes: nat)
    requires WellFormed(t)
    ensures WellFormed(AddTeam(t, team, votes))
  {
    if Get(t, team).Some? {
      GetEntry(t, Entry(team, Get(t, team).value));
    }
    SetWellFormed(t, team, Bump(Current(t, team), votes));
  }

  /** The inner loop over distinct teams bumps each listed team once and
      leaves every other entry alone. */
  lemma {:induction false} AddTeamsGet(t: Table, teams: seq<TeamName>, votes: nat, k: TeamName)
    requires NoDuplicates(teams)
    ensures Get(AddTeams(t, teams, votes), k)
         == if k in teams then Some(Bump(Current(t, k), votes)) else Get(t, k)
  {
    if teams != [] {
      var init, last := teams[..|teams| - 1], teams[|teams| - 1];
      assert teams == init + [last];
      assert NoDuplicates(init);
      AddTeamsGet(t, init, votes, k);
      AddTeamFrame(AddTeams(t, init, votes), last, votes, k);
      if k == last {
        assert k !in init by {
          forall i | 0 <= i < |init| ensures init[i] != k {
            assert init[i] == teams[i];
          }
        }
      }
    }
  }

  /** The inner loop keeps the key order and appends the new teams in the
      order they are met. */
  lemma {:induction false} AddTeamsKeys(t: Table, teams: seq<TeamName>, votes: nat)
    ensures Keys(AddTeams(t, teams, votes)) == AddAll(Keys(t), teams)
  {
    if teams != [] {
      var init := teams[..|teams| - 1];
      AddTeamsKeys(t, init, votes);
      SetKeys(AddTeams(t, init, votes), teams[|teams| - 1], Bump(Current(AddTeams(t, init, votes), teams[|teams| - 1]), votes));
    }
  }

  lemma {:induction false} AddTeamsWellFormed(t: Table, teams: seq<TeamName>, votes: nat)
    requires WellFormed(t)
    ensures WellFormed(AddTeams(t, teams, votes))
  {
    if teams != [] {
      AddTeamsWellFormed(t, teams[..|teams| - 1], votes);
      AddTeamWellFormed(AddTeams(t, teams[..|teams| - 1], votes), teams[|teams| - 1], votes);
    }
  }

  /** One pass of the outer loop bumps exactly the teams the task names, each
      once. */
  lemma AddTaskGet(t: Table, task: Task, k: TeamName)
    ensures Get(AddTask(t, task), k)
         == if Lists(task, k) then Some(Bump(Current(t, k), task.voteCount)) else Get(t, k)
  {
    if !HasNoTeams(task) {
      AddTeamsGet(t, Unique(task.teams.value), task.voteCount, k);
    }
  }

  /** After the loop every team maps to exactly its reference counts: it is
      present iff some task names it, its aggregate names it, its taskCount is
      the number of tasks naming it and its totalVotes the sum of their votes
      (a task naming a team twice counted once). */
  lemma {:induction false} TallyGet(tasks: seq<Task>, k: TeamName)
    ensures Get(Tally(tasks), k) == Expected(tasks, k)
  {
    if tasks != [] {
      var init, task := tasks[..|tasks| - 1], tasks[|tasks| - 1];
      TallyGet(init, k);
      AddTaskGet(Tally(init), task, k);
      ExpectedStep(init, task, k);
      assert init + [task] == tasks;
    }
  }

  /** How one more task changes what a team should hold. */
  lemma ExpectedStep(tasks: seq<Task>, task: Task, k: TeamName)
    ensures Expected(tasks + [task], k)
         == if !Lists(task, k) then Expected(tasks, k)
            else Some(Bump(match Expected(tasks, k) case Some(a) => a case None => TeamAggregate(k, 0, 0), task.voteCount))
  {
    var all := tasks + [task];
    assert all[..|all| - 1] == tasks;
    if TaskCount(tasks, k) == 0 {
      NoTasksNoVotes(tasks, k);
    }
  }

  /** The table's keys are the distinct team names in order of first
      appearance over all tasks. */
  lemma {:induction false} TallyKeys(tasks: seq<Task>)
    ensures Keys(Tally(tasks)) == Unique(AllTeams(tasks))
  {
    if tasks != [] {
      var init, task := tasks[..|tasks| - 1], tasks[|tasks| - 1];
      TallyKeys(init);
      AddAllConcat([], AllTeams(init), TeamsOf(task));
      if !HasNoTeams(task) {
        AddTeamsKeys(Tally(init), Unique(task.teams.value), task.voteCount);
        AddAllUnique(Keys(Tally(init)), task.teams.value);
      }
    }
  }

  /** The table invariant holds after every task. */
  lemma {:induction false} TallyWellFormed(tasks: seq<Task>)
    ensures WellFormed(Tally(tasks))
  {
    if tasks != [] {
      var init, task := tasks[..|tasks| - 1], tasks[|tasks| - 1];
      TallyWellFormed(init);
      if !HasNoTeams(task) {
        AddTeamsWellFormed(Tally(init), Unique(task.teams.value), task.voteCount);
      }
    }
  }

  /** Every value in the table carries its team's reference counts. */
  lemma TallyValue(tasks: seq<Task>, e: Entry)
    requires e in Tally(tasks)
    ensures e.value == TeamAggregate(e.key, VotesFor(tasks, e.key), TaskCount(tasks, e.key))
    ensures 0 < e.value.taskCount <= |tasks|
  {
    TallyWellFormed(tasks);
    GetEntry(Tally(tasks), e);
    TallyGet(tasks, e.key);
  }

  /** Every aggregate in the output carries its team's reference counts:
      the votes of the tasks naming the team and the number of those tasks,
      which is positive and at most the number of tasks. */
  lemma AggregatesExact(tasks: seq<Task>, a: TeamAggregate)
    requires a in Aggregates(tasks)
    ensures a == TeamAggregate(a.team, VotesFor(tasks, a.team), TaskCount(tasks, a.team))
    ensures 0 < a.taskCount <= |tasks|
  {
    var values := Values(Tally(tasks));
    assert a in values by {
      assert multiset(Aggregates(tasks)) == multiset(values);
      assert a in multiset(Aggregates(tasks));
    }
    ValuesMembers(Tally(tasks));
    var e :| e in Tally(tasks) && e.value == a;
    TallyValue(tasks, e);
  }

  /** Every team some task names has its aggregate in the output. */
  lemma AggregatesComplete(tasks: seq<Task>, k: TeamName)
    requires exists i :: 0 <= i < |tasks| && Lists(tasks[i], k)
    ensures TeamAggregate(k, VotesFor(tasks, k), TaskCount(tasks, k)) in Aggregates(tasks)
  {
    TaskCountPositive(tasks, k);
    TallyGet(tasks, k);
    ValuesMembers(Tally(tasks));
    var a := TeamAggregate(k, VotesFor(tasks, k), TaskCount(tasks, k));
    assert a in multiset(Values(Tally(tasks)));
  }

  /** The output holds one aggregate per distinct team named by the tasks. */
  lemma AggregatesDistinct(tasks: seq<Task>)
    ensures DistinctTeams(Aggregates(tasks))
    ensures |Aggregates(tasks)| == |Unique(AllTeams(tasks))|
  {
    TallyWellFormed(tasks);
    ValuesDistinctTeams(Tally(tasks));
    SortDistinctTeams(Values(Tally(tasks)));
    TallyKeys(tasks);
    KeysLength(Tally(tasks));
    ValuesLength(Tally(tasks));
  }

  /** The output is empty exactly when every task lacks teams: the condition
      under which the chart shows its placeholder. */
  lemma AggregatesEmpty(tasks: seq<Task>)
    ensures Aggregates(tasks) == [] <==> forall task | task in tasks :: HasNoTeams(task)
  {
    AggregatesDistinct(tasks);
    AllTeamsEmpty(tasks);
    if AllTeams(tasks) != [] {
      assert AllTeams(tasks)[0] in Unique(AllTeams(tasks));
    }
  }

  /** The number of distinct teams each task lists, added up over the tasks:
      a task listing a team twice contributes one. */
  function DistinctTeamEntries(tasks: seq<Task>): nat
  {
    if tasks == [] then 0
    else DistinctTeamEntries(tasks[..|tasks| - 1]) + |Unique(TeamsOf(tasks[|tasks| - 1]))|
  }

  /** One inner iteration adds exactly one to the table's total task count. */
  lemma AddTeamSumTaskCounts(t: Table, team: TeamName, votes: nat)
    ensures SumTaskCounts(Values(AddTeam(t, team, votes))) == SumTaskCounts(Values(t)) + 1
  {
    SetSumTaskCounts(t, team, Bump(Current(t, team), votes));
  }

  lemma {:induction false} AddTeamsSumTaskCounts(t: Table, teams: seq<TeamName>, votes: nat)
    ensures SumTaskCounts(Values(AddTeams(t, teams, votes))) == SumTaskCounts(Values(t)) + |teams|
  {
    if teams != [] {
      var init, last := teams[..|teams| - 1], teams[|teams| - 1];
      AddTeamsSumTaskCounts(t, init, votes);
      AddTeamSumTaskCounts(AddTeams(t, init, votes), last, votes);
    }
  }

  /** The table's task counts add up to the number of distinct teams per
      task, summed over the tasks. */
  lemma {:induction false} TallySumTaskCounts(tasks: seq<Task>)
    ensures SumTaskCounts(Values(Tally(tasks))) == DistinctTeamEntries(tasks)
  {
    if tasks != [] {
      var init, task := tasks[..|tasks| - 1], tasks[|tasks| - 1];
      TallySumTaskCounts(init);
      if HasNoTeams(task) {
        assert Unique(TeamsOf(task)) == [];
      } else {
        AddTeamsSumTaskCounts(Tally(init), Unique(task.teams.value), task.voteCount);
      }
    }
  }

  lemma {:induction false} DistinctTeamEntriesBound(tasks: seq<Task>)
    ensures DistinctTeamEntries(tasks) <= |AllTeams(tasks)|
  {
    if tasks != [] {
      DistinctTeamEntriesBound(tasks[..|tasks| - 1]);
    }
  }

  /** Every task adds one to the task count of each distinct team it lists
      and nothing else, so the output's task counts add up to the number of
      (task, distinct team) pairs, which is at most the number of team
      entries over all tasks. */
  lemma AggregatesTaskCountSum(tasks: seq<Task>)
    ensures SumTaskCounts(Aggregates(tasks)) == DistinctTeamEntries(tasks)
    ensures SumTaskCounts(Aggregates(tasks)) <= |AllTeams(tasks)|
  {
    SortSumTaskCounts(Values(Tally(tasks)));
    TallySumTaskCounts(tasks);
    DistinctTeamEntriesBound(tasks);
  }

  /** Two tasks, one listing Alpha and Beta with two votes and one listing
      Alpha with one vote: Alpha totals 3 votes over 2 tasks and comes first,
      Beta totals 2 votes over 1 task. */
  lemma TwoTasksExample()
    ensures Aggregates([Task(Some(["Alpha", "Beta"]), 2), Task(Some(["Alpha"]), 1)])
         == [TeamAggregate("Alpha", 3, 2), TeamAggregate("Beta", 2, 1)]
  {
    var tasks := [Task(Some(["Alpha", "Beta"]), 2), Task(Some(["Alpha"]), 1)];
    var alpha, beta := TeamAggregate("Alpha", 3, 2), TeamAggregate("Beta", 2, 1);
    var table := [Entry("Alpha", alpha), Entry("Beta", beta)];
    calc {
      Aggregates(tasks);
      SortByVotes(Values(Tally(tasks)));
      { ExampleSecondTask(); }
      SortByVotes(Values(table));
      { ValuesLength(table); }
      SortByVotes([alpha, beta]);
      { ExampleSort(); }
      [alpha, beta];
    }
  }

  /** After the first task of TwoTasksExample, Alpha and Beta are stored in
      that order, with 2 votes over 1 task each. */
  lemma ExampleFirstTask()
    ensures Tally([Task(Some(["Alpha", "Beta"]), 2)])
         == [Entry("Alpha", TeamAggregate("Alpha", 2, 1)), Entry("Beta", TeamAggregate("Beta", 2, 1))]
  {
    var first := Task(Some(["Alpha", "Beta"]), 2);
    var alpha, beta := Entry("Alpha", TeamAggregate("Alpha", 2, 1)), Entry("Beta", TeamAggregate("Beta", 2, 1));
    assert [first][..0] == [];
    assert Tally([first]) == AddTeams([], Unique(["Alpha", "Beta"]), 2);
    UniqueOfDistinct(["Alpha", "Beta"]);
    assert ["Alpha", "Beta"][..1] == ["Alpha"] && ["Alpha"][..0] == [];
    assert AddTeams([], ["Alpha", "Beta"], 2) == AddTeam(AddTeams([], ["Alpha"], 2), "Beta", 2);
    assert AddTeams([], ["Alpha"], 2) == [alpha];
    assert Current([alpha], "Beta") == TeamAggregate("Beta", 0, 0);
    assert Set([alpha], "Beta", beta.value) == [alpha, beta] by {
      assert [alpha][1..] == [];
    }
  }

  /** The second task of TwoTasksExample updates Alpha where it stands. */
  lemma ExampleSecondTask()
    ensures Tally([Task(Some(["Alpha", "Beta"]), 2), Task(Some(["Alpha"]), 1)])
         == [Entry("Alpha", TeamAggregate("Alpha", 3, 2)), Entry("Beta", TeamAggregate("Beta", 2, 1))]
  {
    var first, second := Task(Some(["Alpha", "Beta"]), 2), Task(Some(["Alpha"]), 1);
    var table := [Entry("Alpha", TeamAggregate("Alpha", 2, 1)), Entry("Beta", TeamAggregate("Beta", 2, 1))];
    assert [first, second][..1] == [first];
    assert Tally([first, second]) == AddTeams(Tally([first]), Unique(["Alpha"]), 1);
    ExampleFirstTask();
    UniqueOfDistinct(["Alpha"]);
    assert ["Alpha"][..0] == [];
    assert AddTeams(table, ["Alpha"], 1) == AddTeam(table, "Alpha", 1);
    assert Current(table, "Alpha") == TeamAggregate("Alpha", 2, 1);
    assert Set(table, "Alpha", TeamAggregate("Alpha", 3, 2)) == [Entry("Alpha", TeamAggregate("Alpha", 3, 2))] + table[1..];
  }

  /** Alpha with 3 votes stays ahead of Beta with 2. */
  lemma ExampleSort()
    ensures SortByVotes([TeamAggregate("Alpha", 3, 2), TeamAggregate("Beta", 2, 1)])
         == [TeamAggregate("Alpha", 3, 2), TeamAggregate("Beta", 2, 1)]
  {
    var alpha, beta := TeamAggregate("Alpha", 3, 2), TeamAggregate("Beta", 2, 1);
    assert [alpha][..0] == [] && [alpha, beta][..1] == [alpha];
    assert SortByVotes([alpha]) == [alpha];
    assert Insert(beta, [alpha]) == [alpha] + Insert(beta, []);
  }

  /** A task listing the same team twice counts once for it. */
  lemma DuplicateTeamExample()
    ensures Aggregates([Task(Some(["A", "A"]), 5)]) == [TeamAggregate("A", 5, 1)]
  {
    var task := Task(Some(["A", "A"]), 5);
    var a := TeamAggregate("A", 5, 1);
    assert ["A", "A"][..1] == ["A"] && ["A"][..0] == [];
    assert AddAll([], ["A"]) == ["A"];
    assert Unique(["A", "A"]) == ["A"];
    assert AddTeams([], ["A"], 5) == [Entry("A", a)];
    assert [task][..0] == [];
    assert Tally([task]) == [Entry("A", a)];
    assert Values([Entry("A", a)]) == [a];
    assert SortByVotes([a]) == [a] by {
      assert [a][..0] == [];
    }
  }

  /** The inner loop body, fetching the current aggregate, updating its two
      fields and storing it back, performs one more step of AddTeams. */
  lemma InnerStep(before: Table, teams: seq<TeamName>, j: nat, votes: nat, t: Table, fetched: TeamAggregate)
    requires j < |teams| && t == AddTeams(before, teams[..j], votes)
    requires fetched == Current(t, teams[j])
    ensures Set(t, teams[j], fetched.(totalVotes := fetched.totalVotes + votes, taskCount := fetched.taskCount + 1))
         == AddTeams(before, teams[..j + 1], votes)
  {
    assert teams[..j + 1][..j] == teams[..j];
  }

  /** The aggregation: the outer loop over the tasks and the inner loop over
      each task's distinct teams update the table in place; its values are
      then sorted by votes, highest first. */
  method Aggregate(tasks: seq<Task>) returns (aggregates: seq<TeamAggregate>)
    ensures aggregates == Aggregates(tasks)
    ensures NonIncreasing(aggregates)
  {
    var aggregatesMap: Table := [];
    var i := 0;
    while i < |tasks|
      invariant 0 <= i <= |tasks|
      invariant aggregatesMap == Tally(tasks[..i])
    {
      var task := tasks[i];
      ghost var before := aggregatesMap;
      if !(task.teams.None? || |task.teams.value| == 0) {
        var votesForTask := task.voteCount;
        var uniqueTeams := Unique(task.teams.value);
        var j := 0;
        while j < |uniqueTeams|
          invariant 0 <= j <= |uniqueTeams|
          invariant aggregatesMap == AddTeams(before, uniqueTeams[..j], votesForTask)
        {
          var team := uniqueTeams[j];
          var current := Current(aggregatesMap, team);
          InnerStep(before, uniqueTeams, j, votesForTask, aggregatesMap, current);
          current := current.(totalVotes := current.totalVotes + votesForTask,
                              taskCount := current.taskCount + 1);
          aggregatesMap := Set(aggregatesMap, team, current);
          j := j + 1;
        }
        assert uniqueTeams[..j] == uniqueTeams;
      }
      assert tasks[..i + 1][..i] == tasks[..i];
      i := i + 1;
    }
    assert tasks[..i] == tasks;
    aggregates := SortByVotes(Values(aggregatesMap));
  }
}
