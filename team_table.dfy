/** The `Map<string, TeamAggregate>` the aggregation fills, as an ordered
    association list. An ECMAScript Map iterates in insertion order:
    `set` on a key it holds replaces that entry's value where it stands,
    `set` on a new key appends an entry, and `values()` lists the values in
    entry order. */
module TeamTable {

  import opened Tasks
  import opened UniqueTeams

  datatype Entry = Entry(key: TeamName, value: TeamAggregate)

  type Table = seq<Entry>

  function Keys(t: Table): seq<TeamName>
  {
    if t == [] then [] else [t[0].key] + Keys(t[1..])
  }

  /** `map.values()`, in entry order. */
  function Values(t: Table): seq<TeamAggregate>
  {
    if t == [] then [] else [t[0].value] + Values(t[1..])
  }

  /** The table invariant of the aggregation: no key twice, and every stored
      aggregate names the team it is stored under. */
  predicate WellFormed(t: Table)
  {
    && NoDuplicates(Keys(t))
    && forall e | e in t :: e.value.team == e.key
  }

  /** `map.get(k)`: the value stored under k, if any. */
  function Get(t: Table, k: TeamName): (r: Option<TeamAggregate>)
    ensures r.Some? <==> k in Keys(t)
    ensures r.Some? ==> Entry(k, r.value) in t
  {
    if t == [] then None
    else if t[0].key == k then Some(t[0].value)
    else Get(t[1..], k)
  }

  /** `map.set(k, v)`. */
  function Set(t: Table, k: TeamName, v: TeamAggregate): Table
  {
    if t == [] then [Entry(k, v)]
    else if t[0].key == k then [Entry(k, v)] + t[1..]
    else [t[0]] + Set(t[1..], k, v)
  }

  lemma {:induction false} KeysLength(t: Table)
    ensures |Keys(t)| == |t|
    ensures forall i | 0 <= i < |t| :: Keys(t)[i] == t[i].key
  {
    if t != [] {
      KeysLength(t[1..]);
    }
  }

  lemma {:induction false} ValuesLength(t: Table)
    ensures |Values(t)| == |t|
    ensures forall i | 0 <= i < |t| :: Values(t)[i] == t[i].value
  {
    if t != [] {
      ValuesLength(t[1..]);
    }
  }

  /** After `set(k, v)`, `get(k)` yields v and every other key reads as
      before. */
  lemma {:induction false} GetSet(t: Table, k: TeamName, v: TeamAggregate, k': TeamName)
    ensures Get(Set(t, k, v), k') == if k' == k then Some(v) else Get(t, k')
  {
    if t != [] && t[0].key != k {
      GetSet(t[1..], k, v, k');
    }
  }

  /** `set` keeps the order of the keys and appends a key it did not hold. */
  lemma {:induction false} SetKeys(t: Table, k: TeamName, v: TeamAggregate)
    ensures Keys(Set(t, k, v)) == Extend(Keys(t), k)
  {
    if t != [] && t[0].key != k {
      SetKeys(t[1..], k, v);
      assert Keys(t) == [t[0].key] + Keys(t[1..]);
    }
  }

  /** Every entry after `set(k, v)` is the new one or was there before. */
  lemma {:induction false} SetEntries(t: Table, k: TeamName, v: TeamAggregate)
    ensures forall e | e in Set(t, k, v) :: e == Entry(k, v) || e in t
  {
    if t != [] && t[0].key != k {
      SetEntries(t[1..], k, v);
    }
  }

  /** `set` keeps the table invariant when the value names its key. */
  lemma SetWellFormed(t: Table, k: TeamName, v: TeamAggregate)
    requires WellFormed(t)
    requires v.team == k
    ensures WellFormed(Set(t, k, v))
  {
    SetKeys(t, k, v);
    SetEntries(t, k, v);
    AddAllNoDuplicates(Keys(t), [k]);
    assert Extend(Keys(t), k) == AddAll(Keys(t), [k]);
  }

  /** In a table without repeated keys, every entry is what `get` finds under
      its key. */
  lemma {:induction false} GetEntry(t: Table, e: Entry)
    requires NoDuplicates(Keys(t))
    requires e in t
    ensures Get(t, e.key) == Some(e.value)
  {
    if t[0] != e {
      KeysLength(t);
      KeysLength(t[1..]);
      GetEntry(t[1..], e);
    }
  }

  /** The values are the values of the entries. */
  lemma {:induction false} ValuesMembers(t: Table)
    ensures forall a | a in Values(t) :: exists e | e in t :: e.value == a
    ensures forall e | e in t :: e.value in Values(t)
  {
    if t != [] {
      ValuesMembers(t[1..]);
    }
  }

  /** The values of a well-formed table belong to distinct teams. */
  lemma ValuesDistinctTeams(t: Table)
    requires WellFormed(t)
    ensures DistinctTeams(Values(t))
  {
    KeysLength(t);
    ValuesLength(t);
    forall i, j | 0 <= i < j < |t| ensures Values(t)[i].team != Values(t)[j].team {
      assert t[i] in t && t[j] in t;
      assert Keys(t)[i] != Keys(t)[j];
    }
  }

  /** `set(k, v)` replaces the task count stored under k (none for a new
      key) by v's and leaves every other count as it was. */
  lemma {:induction false} SetSumTaskCounts(t: Table, k: TeamName, v: TeamAggregate)
    ensures SumTaskCounts(Values(Set(t, k, v))) + (if Get(t, k).Some? then Get(t, k).value.taskCount else 0)
         == SumTaskCounts(Values(t)) + v.taskCount
  {
    if t == [] {
      assert [Entry(k, v)][1..] == [];
    } else if t[0].key == k {
      assert ([Entry(k, v)] + t[1..])[1..] == t[1..];
    } else {
      SetSumTaskCounts(t[1..], k, v);
      assert ([t[0]] + Set(t[1..], k, v))[1..] == Set(t[1..], k, v);
    }
  }
}
