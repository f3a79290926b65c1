# TeamBubbles in Dafny

The TeamBubbles component of the voting front end shows one bubble per team.
The bubbles are ordered by the number of votes the team's tasks received,
highest first. A bubble's diameter is scaled linearly between 60 and 180
pixels by its share of the largest total, and its colour comes from a
palette of eight, picked by a hash of the team name. This project models
what the component computes, not how it draws it:

- `tasks.dfy` (`Tasks`): a task with an optional list of teams and the
  number of votes it received, plus the aggregate record. It also defines
  the reference counts a team's aggregate must equal: the number of tasks
  that list the team and the votes of those tasks.
- `unique_teams.dfy` (`UniqueTeams`): the `Array.from(new Set(teams))`
  step. Its result holds the distinct teams in order of first occurrence.
- `team_table.dfy` (`TeamTable`): the insertion-ordered `Map` from team name
  to aggregate, as an association list. `set` replaces an existing key in
  place and appends a new one.
- `aggregator.dfy` (`Aggregator`): the nested loops that fill the table.
  - `Tally` is the functional specification of the loops.
  - `Aggregate` is the imperative method with both loops, proved equal to
    that specification.
  - Lemmas connect the table to the reference counts: one entry per team
    that some task lists, holding exactly that team's totals.
- `vote_sort.dfy` (`VoteSort`): the sort by `b.totalVotes - a.totalVotes`.
  `Array.prototype.sort` is stable, so the model is a stable insertion
  sort. It is proved to produce a permutation, in non-increasing order,
  that keeps the input order among equal totals.
- `colorizer.dfy` (`Colorizer`): `colorForTeam`. The sum of the first code
  units of the name's code points, modulo 8, indexes the palette.
- `sizer.dfy` (`Sizer`): `maxVotes`, `scaleSize` and the label size chosen
  from the bubble size.
- `team_bubbles.dfy` (`TeamBubbles`): the whole component. The result is the
  placeholder when there are no aggregates, otherwise the list of bubbles
  with their size, colour and label size.

Sizes are exact `real`s. JavaScript numbers are doubles, and for the vote
counts a browser can hold they represent the integers exactly.

## Model

| member | source | states |
|---|---|---|
| Tasks.TeamsOf | frontend/src/components/TeamBubbles.tsx:36 | a task's team list is empty exactly when `teams` is missing or has length 0, the task the loop skips |
| Tasks.TaskCount | frontend/src/components/TeamBubbles.tsx:48 | the number of tasks listing a team never exceeds the number of tasks |
| Tasks.TaskCountPositive | frontend/src/components/TeamBubbles.tsx:35-51 | a team is counted in at least one task iff some task lists it iff it occurs among all the tasks' teams |
| Tasks.NoTasksNoVotes | frontend/src/components/TeamBubbles.tsx:47-48 | a team no task lists collects no votes |
| Tasks.AllTeamsEmpty | frontend/src/components/TeamBubbles.tsx:36 | no task lists any team iff every task has a missing or empty team list |
| UniqueTeams.Unique | frontend/src/components/TeamBubbles.tsx:39 | the deduplicated team list has no repetitions, holds exactly the teams of the input, and is no longer than the input |
| UniqueTeams.AddAllMembers | frontend/src/components/TeamBubbles.tsx:39 | adding a list to an insertion-ordered set yields exactly the old elements and the list's |
| UniqueTeams.AddAllNoDuplicates | frontend/src/components/TeamBubbles.tsx:39 | an insertion-ordered set never holds an element twice |
| UniqueTeams.AddAllConcat | frontend/src/components/TeamBubbles.tsx:39 | adding xs + ys to the set is adding xs, then ys |
| UniqueTeams.AddAllUnique | frontend/src/components/TeamBubbles.tsx:39 | adding the deduplicated list has the same effect as adding the list with its repetitions |
| UniqueTeams.UniqueOfDistinct | frontend/src/components/TeamBubbles.tsx:39 | a team list without repetitions passes through `new Set` unchanged, in the same order |
| TeamTable.Get | frontend/src/components/TeamBubbles.tsx:42 | `get` finds a value exactly for a key in the map, and that key/value pair is an entry of the map |
| TeamTable.KeysLength | frontend/src/components/TeamBubbles.tsx:33 | the map's key sequence is its entries' keys, one per entry, in order |
| TeamTable.ValuesLength | frontend/src/components/TeamBubbles.tsx:53 | `values()` yields the entries' values, one per entry, in insertion order |
| TeamTable.GetSet | frontend/src/components/TeamBubbles.tsx:49 | after `set(k, v)`, `get(k)` returns v and every other key keeps its value |
| TeamTable.SetKeys | frontend/src/components/TeamBubbles.tsx:49 | `set` keeps the key order and appends a key only if it is new |
| TeamTable.SetEntries | frontend/src/components/TeamBubbles.tsx:49 | `set(k, v)` introduces no entry other than (k, v) |
| TeamTable.SetWellFormed | frontend/src/components/TeamBubbles.tsx:42-49 | storing an aggregate under its own team name keeps keys unique and every entry's team equal to its key |
| TeamTable.GetEntry | frontend/src/components/TeamBubbles.tsx:42 | with unique keys, `get` of an entry's key returns that entry's value |
| TeamTable.Set | frontend/src/components/TeamBubbles.tsx:49 | `map.set(k, v)`: replaces the value of an existing key where it stands, otherwise appends the entry; its effect is stated by GetSet, SetKeys, SetEntries and SetSumTaskCounts |
| TeamTable.ValuesMembers | frontend/src/components/TeamBubbles.tsx:53 | every listed value comes from an entry, and every entry's value is listed |
| TeamTable.ValuesDistinctTeams | frontend/src/components/TeamBubbles.tsx:53 | in a well-formed map the values carry pairwise distinct team names |
| TeamTable.SetSumTaskCounts | frontend/src/components/TeamBubbles.tsx:49 | `set(k, v)` swaps the task count stored under k (none for a new key) for v's and leaves the other counts alone |
| VoteSort.Compare | frontend/src/components/TeamBubbles.tsx:54 | the comparator `b.totalVotes - a.totalVotes`: negative exactly when a has more votes and goes first, 0 for equal totals |
| VoteSort.Insert | frontend/src/components/TeamBubbles.tsx:53-55 | inserting into a list sorted by votes (highest first) keeps it sorted and adds exactly the one element |
| VoteSort.ConsSorted | frontend/src/components/TeamBubbles.tsx:53-55 | an element with at least the votes of a sorted permutation's members heads a sorted list |
| VoteSort.SortByVotes | frontend/src/components/TeamBubbles.tsx:53-55 | the sorted list is non-increasing in totalVotes and a permutation of its input |
| VoteSort.NoneAboveHead | frontend/src/components/TeamBubbles.tsx:53-55 | no element of a sorted list has more votes than its head |
| VoteSort.WithVotesConcat | frontend/src/components/TeamBubbles.tsx:53-55 | selecting the elements with a given total distributes over concatenation |
| VoteSort.InsertIsStable | frontend/src/components/TeamBubbles.tsx:53-55 | an inserted element lands after every element with the same total |
| VoteSort.InsertFrontIsStable | frontend/src/components/TeamBubbles.tsx:53-55 | an element with more votes than the head goes in front without disturbing equal totals |
| VoteSort.SortIsStable | frontend/src/components/TeamBubbles.tsx:53-55 | the sort keeps the original relative order of aggregates with equal totals (a stable sort; the comparator returns 0 for them) |
| VoteSort.InsertDistinctTeams | frontend/src/components/TeamBubbles.tsx:53-55 | inserting an aggregate of a new team keeps team names distinct |
| VoteSort.SortDistinctTeams | frontend/src/components/TeamBubbles.tsx:53-55 | sorting keeps team names distinct |
| VoteSort.InsertSumTaskCounts | frontend/src/components/TeamBubbles.tsx:53-55 | inserting an aggregate adds exactly its task count to the list's total |
| VoteSort.SortSumTaskCounts | frontend/src/components/TeamBubbles.tsx:53-55 | sorting keeps the total of the task counts |
| Aggregator.Current | frontend/src/components/TeamBubbles.tsx:42-46 | `aggregatesMap.get(team) ?? { team, totalVotes: 0, taskCount: 0 }`: the stored aggregate, or a fresh zero one |
| Aggregator.Bump | frontend/src/components/TeamBubbles.tsx:47-48 | `totalVotes += votesForTask` and `taskCount += 1` on the fetched aggregate |
| Aggregator.AddTeam | frontend/src/components/TeamBubbles.tsx:42-49 | one inner iteration: fetch or create, bump, store back with `set` |
| Aggregator.AddTeams | frontend/src/components/TeamBubbles.tsx:41-50 | the inner loop over the task's distinct teams, left to right |
| Aggregator.AddTask | frontend/src/components/TeamBubbles.tsx:36-50 | one outer iteration: skip a task with no teams, otherwise run the inner loop over `Array.from(new Set(task.teams))` with `task.votes.length` votes |
| Aggregator.Tally | frontend/src/components/TeamBubbles.tsx:33-51 | the map after the outer loop over all tasks, starting from the empty map; its contents are stated by TallyGet, TallyKeys, TallyWellFormed and TallySumTaskCounts |
| Aggregator.Aggregates | frontend/src/components/TeamBubbles.tsx:53-55 | `Array.from(aggregatesMap.values())` sorted with the comparator; its properties are stated by the Aggregates* lemmas |
| Aggregator.SkippedTaskChangesNothing | frontend/src/components/TeamBubbles.tsx:36 | a task with no teams, wherever it stands in the list, leaves the final table as it would be without it |
| Aggregator.AddTeamFrame | frontend/src/components/TeamBubbles.tsx:42-49 | one inner iteration bumps its own team's aggregate (or a fresh zero one) and leaves every other team's entry unchanged |
| Aggregator.AddTeamWellFormed | frontend/src/components/TeamBubbles.tsx:42-49 | one inner iteration keeps the map's keys unique and each entry's team equal to its key |
| Aggregator.AddTeamsGet | frontend/src/components/TeamBubbles.tsx:41-50 | over distinct teams, the inner loop bumps each listed team once, by the task's votes and one task, and touches no other |
| Aggregator.AddTeamsKeys | frontend/src/components/TeamBubbles.tsx:41-50 | the inner loop appends the task's new teams to the key order, in their order |
| Aggregator.AddTeamsWellFormed | frontend/src/components/TeamBubbles.tsx:41-50 | the inner loop keeps the map well formed |
| Aggregator.AddTaskGet | frontend/src/components/TeamBubbles.tsx:35-50 | one task adds its votes and one task count to each team it lists, counted once however often it is listed, and changes nothing else |
| Aggregator.TallyGet | frontend/src/components/TeamBubbles.tsx:33-51 | after the loops a team has an entry iff some task lists it, and its totals are the reference vote sum and task count |
| Aggregator.ExpectedStep | frontend/src/components/TeamBubbles.tsx:35-50 | appending a task moves a team's reference totals exactly as one outer iteration does |
| Aggregator.TallyKeys | frontend/src/components/TeamBubbles.tsx:33-51 | the map's keys are the distinct listed teams in order of first appearance across the tasks |
| Aggregator.TallyWellFormed | frontend/src/components/TeamBubbles.tsx:33-51 | after the loops the map has unique keys and every aggregate's team is its key |
| Aggregator.TallyValue | frontend/src/components/TeamBubbles.tsx:33-51 | every entry of the map holds its team's reference totals, with 0 < taskCount <= number of tasks |
| Aggregator.AggregatesExact | frontend/src/components/TeamBubbles.tsx:33-55 | every aggregate in the sorted list carries its team's reference vote sum and task count, and the count is between 1 and the number of tasks |
| Aggregator.AggregatesComplete | frontend/src/components/TeamBubbles.tsx:33-55 | every team some task lists appears in the sorted list with its reference totals |
| Aggregator.AggregatesDistinct | frontend/src/components/TeamBubbles.tsx:33-55 | the sorted list holds one aggregate per distinct listed team, and no team twice |
| Aggregator.AggregatesEmpty | frontend/src/components/TeamBubbles.tsx:33-57 | the aggregate list is empty iff every task has a missing or empty team list |
| Aggregator.AddTeamSumTaskCounts | frontend/src/components/TeamBubbles.tsx:42-49 | one inner iteration adds exactly one to the sum of the stored task counts |
| Aggregator.AddTeamsSumTaskCounts | frontend/src/components/TeamBubbles.tsx:41-50 | the inner loop adds one task count per team it visits |
| Aggregator.TallySumTaskCounts | frontend/src/components/TeamBubbles.tsx:33-51 | after the loops the stored task counts add up to the number of distinct teams of each task, summed over the tasks |
| Aggregator.DistinctTeamEntriesBound | frontend/src/components/TeamBubbles.tsx:39 | counting each task's distinct teams gives at most the number of team entries over all tasks |
| Aggregator.AggregatesTaskCountSum | frontend/src/components/TeamBubbles.tsx:33-55 | the output's task counts add up to the number of (task, distinct team) pairs, which is at most the total number of team entries across the tasks |
| Aggregator.TwoTasksExample | frontend/src/components/TeamBubbles.tsx:33-55 | tasks [Alpha, Beta] with 2 votes and [Alpha] with 1 vote give Alpha 3 votes over 2 tasks, then Beta 2 votes over 1 task |
| Aggregator.DuplicateTeamExample | frontend/src/components/TeamBubbles.tsx:39 | a task listing team A twice with 5 votes gives A 5 votes over 1 task |
| Aggregator.InnerStep | frontend/src/components/TeamBubbles.tsx:42-49 | fetching or creating the aggregate, adding the votes and one task, and storing it back is one step of the inner loop's specification |
| Aggregator.Aggregate | frontend/src/components/TeamBubbles.tsx:33-55 | the two loops plus the sort yield the specified aggregates (the map's values, sorted stably), non-increasing in votes |
| Colorizer.CharCode | frontend/src/components/TeamBubbles.tsx:23 | `charCodeAt(0)` of a code point is a 16-bit unit: the code point itself below 0x10000, otherwise its high surrogate, the one that with the low ten bits of the code point rebuilds it |
| Colorizer.CodeSum | frontend/src/components/TeamBubbles.tsx:23 | the `reduce` over `Array.from(team)` adding up `charCodeAt(0)` from 0, left to right; its properties are stated by CodeSumAppend and CodeSumPermutation |
| Colorizer.Abs | frontend/src/components/TeamBubbles.tsx:22 | `Math.abs` |
| Colorizer.ColorIndex | frontend/src/components/TeamBubbles.tsx:22-25 | the palette index is the code sum modulo 8 and lies within the palette; `Math.abs` never changes the non-negative sum |
| Colorizer.ColorForTeam | frontend/src/components/TeamBubbles.tsx:21-26 | every team gets a colour from the palette |
| Colorizer.CodeSumAppend | frontend/src/components/TeamBubbles.tsx:23 | the code sum of a concatenation is the sum of the parts' code sums |
| Colorizer.RemoveAt | frontend/src/components/TeamBubbles.tsx:23 | removing one character removes its code from the sum |
| Colorizer.RemoveAtMultiset | frontend/src/components/TeamBubbles.tsx:23 | removing one character removes it from the name's multiset of characters |
| Colorizer.CodeSumPermutation | frontend/src/components/TeamBubbles.tsx:22-24 | the code sum depends only on the multiset of characters, not their order |
| Colorizer.SameLettersSameColor | frontend/src/components/TeamBubbles.tsx:21-26 | names that are anagrams of each other always share a colour |
| Colorizer.ColorExamples | frontend/src/components/TeamBubbles.tsx:21-26 | "ab" and "ba" collide; "A" and "I" (codes 65 and 73) both get the second palette colour |
| Sizer.MaxVotes | frontend/src/components/TeamBubbles.tsx:67 | `Math.max` over a non-empty list is an upper bound of every total and attained by one of them |
| Sizer.ScaleSize | frontend/src/components/TeamBubbles.tsx:71-75 | the size lies in [60, 180] for totals up to the maximum; it is 60 when the maximum or the total is 0, and exactly 180 when the total equals a positive maximum |
| Sizer.ScaleSizeMonotone | frontend/src/components/TeamBubbles.tsx:71-75 | more votes never give a smaller bubble |
| Sizer.ScaleSizeExample | frontend/src/components/TeamBubbles.tsx:68-75 | totals 0, 50 and 100 against a maximum of 100 give 60, 120 and 180 pixels |
| Sizer.LabelSize | frontend/src/components/TeamBubbles.tsx:109 | `size > 100 ? "sm" : "xs"` |
| Sizer.LabelSizeThreshold | frontend/src/components/TeamBubbles.tsx:109 | the label is "sm" iff the bubble is over 100 pixels, iff the total is more than a third of a positive maximum; with a zero maximum it is "xs" |
| Sizer.MaxVotesOfSorted | frontend/src/components/TeamBubbles.tsx:67 | in the sorted list the maximum total is the first one |
| TeamBubbles.BubbleFor | frontend/src/components/TeamBubbles.tsx:80-82 | one bubble: the aggregate's team and totals with `scaleSize(agg.totalVotes)` and `colorForTeam(agg.team)`, and the label size that follows from the size |
| TeamBubbles.Layout | frontend/src/components/TeamBubbles.tsx:80-82 | one bubble per aggregate |
| TeamBubbles.LayoutSizes | frontend/src/components/TeamBubbles.tsx:67-82 | every bubble is 60..180 pixels with a palette colour, sizes do not grow along the list, and the first bubble is 180 pixels when it has votes |
| TeamBubbles.ViewLabels | frontend/src/components/TeamBubbles.tsx:107-109 | a bubble's label is "sm" exactly when its total exceeds a third of the first bubble's total |
| TeamBubbles.ViewPlaceholder | frontend/src/components/TeamBubbles.tsx:57-65 | the placeholder is shown iff no task lists a team; otherwise there is one bubble per distinct listed team |
| TeamBubbles.ViewTotals | frontend/src/components/TeamBubbles.tsx:33-82 | each bubble carries its team's reference vote sum and a positive task count equal to the reference count |
| TeamBubbles.ViewComplete | frontend/src/components/TeamBubbles.tsx:33-82 | every team some task lists has a bubble |
| TeamBubbles.ViewOrder | frontend/src/components/TeamBubbles.tsx:53-82 | bubbles have pairwise distinct teams, and both votes and sizes are non-increasing along the list |
| TeamBubbles.ViewSizes | frontend/src/components/TeamBubbles.tsx:67-82 | every bubble's size is in [60, 180] with a palette colour, and the first bubble is 180 pixels whenever its team has votes |
| TeamBubbles.ViewOf | frontend/src/components/TeamBubbles.tsx:57-82 | the component's output: the placeholder when there are no aggregates, otherwise the bubbles in sorted order; its properties are stated by the View* lemmas |
| TeamBubbles.Render | frontend/src/components/TeamBubbles.tsx:33-82 | the component's computation yields the specified view, and the placeholder exactly when no task lists a team |

## Left out

- The JSX markup and the Mantine layout (`Center`, `Group`, `Stack`, `Box`, `Tooltip`) are not modelled: they only draw the computed values.
- The placeholder text, the tooltip text and the other styling props are not modelled: they are fixed text and presentation.
- Floating point is not modelled. `scaleSize` is computed over exact reals, and vote totals are unbounded naturals rather than doubles, which stay exact only up to 2^53.
- A task's `votes` array is reduced to its length (`voteCount`), the only thing the component reads from it. The `TaskWithVisualOverrides` type is not part of this model; a task here has only the fields the component reads.
- Colorizer.CharCode: a JavaScript string may hold a lone surrogate, which `Array.from` yields as its own element. A Dafny `char` is a Unicode scalar value and cannot hold one, so such names are not modelled.
- Aggregator.Aggregate: the source mutates the aggregate object fetched from the map and then stores the same object back. The model copies the record by value and stores the updated copy. The two agree because no other reference to the object exists.
- The React rendering lifecycle (props, re-rendering) is not modelled; `Render` is one evaluation of the component body on its `tasks` prop.
