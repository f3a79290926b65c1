/** The TeamBubbles component as data: the placeholder when no task names a
    team, otherwise one bubble per team in descending order of votes, each
    with the size and colour the component computes for it. Layout, text,
    tooltips and styling are not modelled. */
module TeamBubbles {

  import opened Tasks
  import opened UniqueTeams
  import opened VoteSort
  import opened Aggregator
  import opened Colorizer
  import opened Sizer

  /** What the component computes for one bubble. */
  datatype Bubble = Bubble(team: TeamName, totalVotes: nat, taskCount: nat, size: real, color: string, labelSize: string)

  /** The placeholder branch, or the bubbles in the order they are laid out. */
  datatype View = Placeholder | Chart(bubbles: seq<Bubble>)

  /** `scaleSize(agg.totalVotes)`, `colorForTeam(agg.team)` and the label
      size that follows from the bubble size, for one aggregate. */
  function BubbleFor(maxVotes: nat, a: TeamAggregate): Bubble
  {
    var size := ScaleSize(maxVotes, a.totalVotes);
    Bubble(a.team, a.totalVotes, a.taskCount, size, ColorForTeam(a.team), LabelSize(size))
  }

  /** The bubbles for a non-empty, sorted list of aggregates, in the same
      order, sized against the largest total. */
  function Layout(aggregates: seq<TeamAggregate>): (bubbles: seq<Bubble>)
    requires aggregates != []
    ensures |bubbles| == |aggregates|
  {
    var maxVotes := MaxVotes(aggregates);
    seq(|aggregates|, i requires 0 <= i < |aggregates| => BubbleFor(maxVotes, aggregates[i]))
  }

  /** What the component shows for the tasks. */
  function ViewOf(tasks: seq<Task>): View
  {
    var aggregates := Aggregates(tasks);
    if |aggregates| == 0 then Placeholder else Chart(Layout(aggregates))
  }

  /** Every bubble lies between the two sizes, has a palette colour, and
      the bubbles shrink (weakly) along the list; the first bubble has the
      largest size whenever it has any votes. */
  lemma LayoutSizes(aggregates: seq<TeamAggregate>)
    requires aggregates != [] && NonIncreasing(aggregates)
    ensures forall b | b in Layout(aggregates) :: MIN_SIZE <= b.size <= MAX_SIZE && b.color in COLORS
    ensures forall i, j | 0 <= i < j < |aggregates| :: Layout(aggregates)[i].size >= Layout(aggregates)[j].size
    ensures aggregates[0].totalVotes > 0 ==> Layout(aggregates)[0].size == MAX_SIZE
  {
    var maxVotes := MaxVotes(aggregates);
    var bubbles := Layout(aggregates);
    MaxVotesOfSorted(aggregates);
    forall b | b in bubbles ensures MIN_SIZE <= b.size <= MAX_SIZE {
      var i :| 0 <= i < |bubbles| && bubbles[i] == b;
      assert aggregates[i] in aggregates;
    }
    forall i, j | 0 <= i < j < |aggregates| ensures bubbles[i].size >= bubbles[j].size {
      ScaleSizeMonotone(maxVotes, aggregates[j].totalVotes, aggregates[i].totalVotes);
    }
  }

  /** A bubble's label is small text exactly when its team has more than a
      third of the votes of the first, most voted, team. */
  lemma ViewLabels(tasks: seq<Task>)
    ensures ViewOf(tasks).Chart? ==> forall b | b in ViewOf(tasks).bubbles ::
              b.labelSize == (if 3 * b.totalVotes > ViewOf(tasks).bubbles[0].totalVotes then "sm" else "xs")
  {
    var aggregates := Aggregates(tasks);
    if aggregates != [] {
      var bubbles := Layout(aggregates);
      var maxVotes := MaxVotes(aggregates);
      MaxVotesOfSorted(aggregates);
      assert bubbles[0].totalVotes == maxVotes;
      forall b | b in bubbles
        ensures b.labelSize == (if 3 * b.totalVotes > maxVotes then "sm" else "xs")
      {
        LabelSizeThreshold(maxVotes, b.totalVotes);
      }
    }
  }

  /** The component shows the placeholder exactly when no task names a
      team, and otherwise one bubble per distinct team. */
  lemma ViewPlaceholder(tasks: seq<Task>)
    ensures ViewOf(tasks).Placeholder? <==> forall task | task in tasks :: HasNoTeams(task)
    ensures ViewOf(tasks).Chart? ==> |ViewOf(tasks).bubbles| == |Unique(AllTeams(tasks))|
  {
    AggregatesEmpty(tasks);
    AggregatesDistinct(tasks);
  }

  /** The i-th bubble shows the i-th aggregate's team and totals. */
  lemma LayoutFields(aggregates: seq<TeamAggregate>, i: nat)
    requires aggregates != [] && i < |aggregates|
    ensures Layout(aggregates)[i].team == aggregates[i].team
    ensures Layout(aggregates)[i].totalVotes == aggregates[i].totalVotes
    ensures Layout(aggregates)[i].taskCount == aggregates[i].taskCount
  {
  }

  /** Each bubble shows its team's reference totals. */
  lemma ViewTotals(tasks: seq<Task>)
    ensures ViewOf(tasks).Chart? ==> forall b | b in ViewOf(tasks).bubbles ::
              b.totalVotes == VotesFor(tasks, b.team) && 0 < b.taskCount == TaskCount(tasks, b.team)
  {
    var aggregates := Aggregates(tasks);
    if aggregates != [] {
      var bubbles := Layout(aggregates);
      forall i | 0 <= i < |bubbles|
        ensures bubbles[i].totalVotes == VotesFor(tasks, bubbles[i].team)
        ensures 0 < bubbles[i].taskCount == TaskCount(tasks, bubbles[i].team)
      {
        LayoutFields(aggregates, i);
        AggregatesExact(tasks, aggregates[i]);
      }
    }
  }

  /** Every team some task names has a bubble. */
  lemma ViewComplete(tasks: seq<Task>)
    ensures ViewOf(tasks).Chart? ==> forall k | TaskCount(tasks, k) > 0 ::
              exists b | b in ViewOf(tasks).bubbles :: b.team == k
  {
    var aggregates := Aggregates(tasks);
    if aggregates != [] {
      var bubbles := Layout(aggregates);
      forall k | TaskCount(tasks, k) > 0
        ensures exists b | b in bubbles :: b.team == k
      {
        TaskCountPositive(tasks, k);
        AggregatesComplete(tasks, k);
        var i :| 0 <= i < |aggregates| && aggregates[i].team == k;
        LayoutFields(aggregates, i);
        assert bubbles[i] in bubbles;
      }
    }
  }

  /** The bubbles come in descending order of votes, one per team, and the
      sizes follow the votes. */
  lemma ViewOrder(tasks: seq<Task>)
    ensures ViewOf(tasks).Chart? ==> forall i, j | 0 <= i < j < |ViewOf(tasks).bubbles| ::
              && ViewOf(tasks).bubbles[i].team != ViewOf(tasks).bubbles[j].team
              && ViewOf(tasks).bubbles[i].totalVotes >= ViewOf(tasks).bubbles[j].totalVotes
              && ViewOf(tasks).bubbles[i].size >= ViewOf(tasks).bubbles[j].size
  {
    var aggregates := Aggregates(tasks);
    if aggregates != [] {
      var bubbles := Layout(aggregates);
      AggregatesDistinct(tasks);
      LayoutSizes(aggregates);
      forall i, j | 0 <= i < j < |bubbles|
        ensures bubbles[i].team != bubbles[j].team
        ensures bubbles[i].totalVotes >= bubbles[j].totalVotes
      {
        assert bubbles[i].team == aggregates[i].team && bubbles[j].team == aggregates[j].team;
      }
    }
  }

  /** Every bubble is between the two sizes and takes a palette colour; the
      first bubble has the largest size whenever any team has votes. */
  lemma ViewSizes(tasks: seq<Task>)
    ensures ViewOf(tasks).Chart? ==> forall b | b in ViewOf(tasks).bubbles ::
              MIN_SIZE <= b.size <= MAX_SIZE && b.color in COLORS
    ensures ViewOf(tasks).Chart? ==>
              && ViewOf(tasks).bubbles != []
              && (ViewOf(tasks).bubbles[0].totalVotes > 0 ==> ViewOf(tasks).bubbles[0].size == MAX_SIZE)
  {
  }

  /** The whole component: aggregate, show the placeholder for an empty
      result, otherwise size every aggregate against the largest total. */
  method Render(tasks: seq<Task>) returns (view: View)
    ensures view == ViewOf(tasks)
    ensures view.Placeholder? <==> forall task | task in tasks :: HasNoTeams(task)
  {
    var aggregates := Aggregate(tasks);
    if |aggregates| == 0 {
      view := Placeholder;
    } else {
      view := Chart(Layout(aggregates));
    }
    ViewPlaceholder(tasks);
  }
}
