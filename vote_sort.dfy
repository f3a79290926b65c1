/** `values.sort((a, b) => b.totalVotes - a.totalVotes)`: a stable sort (as
    Array.prototype.sort is required to be since ECMAScript 2019) by total
    votes, highest first. Modelled as an insertion sort that consults the
    same comparator; aggregates with equal totals keep their relative order. */
module VoteSort {

  import opened Tasks

  /** The comparator: negative when a must come before b. */
  function Compare(a: TeamAggregate, b: TeamAggregate): int
  {
    b.totalVotes - a.totalVotes
  }

  predicate NonIncreasing(s: seq<TeamAggregate>)
  {
    forall i, j :: 0 <= i < j < |s| ==> s[i].totalVotes >= s[j].totalVotes
  }

  /** The aggregates of s with exactly v votes, in their order in s. */
  function WithVotes(s: seq<TeamAggregate>, v: nat): seq<TeamAggregate>
  {
    if s == [] then []
    else (if s[0].totalVotes == v then [s[0]] else []) + WithVotes(s[1..], v)
  }

  /** Places x into the sorted s after every element the comparator does not
      put behind x. */
  function Insert(x: TeamAggregate, s: seq<TeamAggregate>): (r: seq<TeamAggregate>)
    requires NonIncreasing(s)
    ensures NonIncreasing(r)
    ensures multiset(r) == multiset(s) + multiset{x}
    ensures |r| == |s| + 1
  {
    if s == [] then [x]
    else if Compare(x, s[0]) < 0 then [x] + s
    else
      var rest := Insert(x, s[1..]);
      ConsSorted(s, x, rest);
      [s[0]] + rest
  }

  /** Putting the head of s back in front of the rest with x inserted keeps
      the order and the elements. */
  lemma ConsSorted(s: seq<TeamAggregate>, x: TeamAggregate, rest: seq<TeamAggregate>)
    requires s != [] && NonIncreasing(s) && NonIncreasing(rest)
    requires x.totalVotes <= s[0].totalVotes
    requires multiset(rest) == multiset(s[1..]) + multiset{x}
    ensures NonIncreasing([s[0]] + rest)
    ensures multiset([s[0]] + rest) == multiset(s) + multiset{x}
  {
    assert s == [s[0]] + s[1..];
    forall j | 0 <= j < |rest| ensures rest[j].totalVotes <= s[0].totalVotes {
      assert rest[j] in multiset(rest);
    }
  }

  /** The sort: each element in turn, left to right, inserted into the sorted
      prefix before it. */
  function SortByVotes(s: seq<TeamAggregate>): (r: seq<TeamAggregate>)
    ensures NonIncreasing(r)
    ensures multiset(r) == multiset(s)
    ensures |r| == |s|
  {
    if s == [] then []
    else
      assert s == s[..|s| - 1] + [s[|s| - 1]];
      Insert(s[|s| - 1], SortByVotes(s[..|s| - 1]))
  }

  /** A sorted list has no element with more votes than its head. */
  lemma {:induction false} NoneAboveHead(s: seq<TeamAggregate>, v: nat)
    requires NonIncreasing(s)
    requires s != [] && s[0].totalVotes < v
    ensures WithVotes(s, v) == []
  {
    if |s| > 1 {
      NoneAboveHead(s[1..], v);
    }
  }

  lemma {:induction false} WithVotesConcat(s: seq<TeamAggregate>, t: seq<TeamAggregate>, v: nat)
    ensures WithVotes(s + t, v) == WithVotes(s, v) + WithVotes(t, v)
  {
    if s == [] {
      assert s + t == t;
    } else {
      var head := if s[0].totalVotes == v then [s[0]] else [];
      assert (s + t)[0] == s[0];
      assert (s + t)[1..] == s[1..] + t;
      calc {
        WithVotes(s + t, v);
        head + WithVotes(s[1..] + t, v);
        { WithVotesConcat(s[1..], t, v); }
        head + (WithVotes(s[1..], v) + WithVotes(t, v));
        (head + WithVotes(s[1..], v)) + WithVotes(t, v);
      }
    }
  }

  /** Inserting x appends it behind every element with the same total. */
  lemma {:induction false} InsertIsStable(x: TeamAggregate, s: seq<TeamAggregate>, v: nat)
    requires NonIncreasing(s)
    ensures WithVotes(Insert(x, s), v) == WithVotes(s, v) + (if x.totalVotes == v then [x] else [])
  {
    if s == [] {
      assert [x][1..] == [];
    } else if Compare(x, s[0]) < 0 {
      InsertFrontIsStable(x, s, v);
    } else {
      var rest := Insert(x, s[1..]);
      assert Insert(x, s) == [s[0]] + rest;
      InsertIsStable(x, s[1..], v);
      StableStep(s[0], rest, s[1..], if x.totalVotes == v then [x] else [], v);
      assert [s[0]] + s[1..] == s;
    }
  }

  /** Putting the same element in front of two lists whose filtered forms
      differ by a suffix keeps that difference. */
  lemma StableStep(a: TeamAggregate, r: seq<TeamAggregate>, s: seq<TeamAggregate>, tail: seq<TeamAggregate>, v: nat)
    requires WithVotes(r, v) == WithVotes(s, v) + tail
    ensures WithVotes([a] + r, v) == WithVotes([a] + s, v) + tail
  {
    assert ([a] + r)[1..] == r;
    assert ([a] + s)[1..] == s;
  }

  /** The case where x goes in front of the whole list. */
  lemma InsertFrontIsStable(x: TeamAggregate, s: seq<TeamAggregate>, v: nat)
    requires NonIncreasing(s) && s != [] && s[0].totalVotes < x.totalVotes
    ensures WithVotes([x] + s, v) == WithVotes(s, v) + (if x.totalVotes == v then [x] else [])
  {
    if x.totalVotes == v {
      NoneAboveHead(s, v);
    }
    WithVotesConcat([x], s, v);
  }

  /** The sort is stable: for every total, the aggregates with that total
      come out in the order they went in. */
  lemma {:induction false} SortIsStable(s: seq<TeamAggregate>, v: nat)
    ensures WithVotes(SortByVotes(s), v) == WithVotes(s, v)
  {
    if s != [] {
      var init, x := s[..|s| - 1], s[|s| - 1];
      assert s == init + [x];
      assert SortByVotes(s) == Insert(x, SortByVotes(init));
      SortIsStable(init, v);
      InsertIsStable(x, SortByVotes(init), v);
      WithVotesConcat(init, [x], v);
      assert WithVotes([x], v) == if x.totalVotes == v then [x] else [];
    }
  }

  /** Inserting an aggregate of a team not yet in the list keeps the teams
      distinct. */
  lemma {:induction false} InsertDistinctTeams(x: TeamAggregate, s: seq<TeamAggregate>)
    requires NonIncreasing(s) && DistinctTeams(s)
    requires forall y | y in s :: y.team != x.team
    ensures DistinctTeams(Insert(x, s))
  {
    if s != [] && Compare(x, s[0]) >= 0 {
      var rest := Insert(x, s[1..]);
      InsertDistinctTeams(x, s[1..]);
      forall y | y in rest ensures y.team != s[0].team {
        assert y in multiset(rest);
        if y != x {
          assert y in multiset(s[1..]);
          var j :| 0 <= j < |s[1..]| && s[1..][j] == y;
          assert s[j + 1] == y;
        }
      }
    }
  }

  /** Sorting keeps the teams distinct. */
  lemma {:induction false} SortDistinctTeams(s: seq<TeamAggregate>)
    requires DistinctTeams(s)
    ensures DistinctTeams(SortByVotes(s))
  {
    if s != [] {
      var init, x := s[..|s| - 1], s[|s| - 1];
      SortDistinctTeams(init);
      forall y | y in SortByVotes(init) ensures y.team != x.team {
        assert y in multiset(SortByVotes(init));
        var j :| 0 <= j < |init| && init[j] == y;
        assert s[j] == y;
      }
      InsertDistinctTeams(x, SortByVotes(init));
    }
  }

  /** Inserting an aggregate adds its task count to the list's total. */
  lemma {:induction false} InsertSumTaskCounts(x: TeamAggregate, s: seq<TeamAggregate>)
    requires NonIncreasing(s)
    ensures SumTaskCounts(Insert(x, s)) == SumTaskCounts(s) + x.taskCount
  {
    if s == [] {
      assert [x][1..] == [];
    } else if Compare(x, s[0]) < 0 {
      assert ([x] + s)[1..] == s;
    } else {
      var rest := Insert(x, s[1..]);
      InsertSumTaskCounts(x, s[1..]);
      assert ([s[0]] + rest)[1..] == rest;
    }
  }

  /** Sorting neither creates nor loses task counts. */
  lemma {:induction false} SortSumTaskCounts(s: seq<TeamAggregate>)
    ensures SumTaskCounts(SortByVotes(s)) == SumTaskCounts(s)
  {
    if s != [] {
      var init, x := s[..|s| - 1], s[|s| - 1];
      var sorted := SortByVotes(init);
      assert s == init + [x];
      calc {
        SumTaskCounts(SortByVotes(s));
        SumTaskCounts(Insert(x, sorted));
        { InsertSumTaskCounts(x, sorted); }
        SumTaskCounts(sorted) + x.taskCount;
        { SortSumTaskCounts(init); }
        SumTaskCounts(init) + x.taskCount;
        { SumTaskCountsAppend(init, [x]); assert [x][1..] == []; }
        SumTaskCounts(init + [x]);
      }
    }
  }
}
