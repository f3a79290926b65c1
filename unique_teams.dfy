/** `Array.from(new Set(xs))`: the distinct elements of a list, in the order of
    their first occurrence (a Set iterates in insertion order, and adding an
    element it already holds changes nothing). */
module UniqueTeams {

  import opened Tasks

  predicate NoDuplicates(s: seq<TeamName>)
  {
    forall i, j :: 0 <= i < j < |s| ==> s[i] != s[j]
  }

  /** Adding one element to an insertion-ordered set. */
  function Extend(acc: seq<TeamName>, x: TeamName): seq<TeamName>
  {
    if x in acc then acc else acc + [x]
  }

  /** Adding the elements of xs, left to right, to an insertion-ordered set
      that already holds acc. */
  function AddAll(acc: seq<TeamName>, xs: seq<TeamName>): seq<TeamName>
  {
    if xs == [] then acc else Extend(AddAll(acc, xs[..|xs| - 1]), xs[|xs| - 1])
  }

  /** `Array.from(new Set(xs))`. */
  function Unique(xs: seq<TeamName>): (r: seq<TeamName>)
    ensures NoDuplicates(r)
    ensures forall x :: x in r <==> x in xs
    ensures |r| <= |xs|
  {
    AddAllMembers([], xs);
    AddAllLength([], xs);
    AddAllNoDuplicates([], xs);
    AddAll([], xs)
  }

  lemma {:induction false} AddAllMembers(acc: seq<TeamName>, xs: seq<TeamName>)
    ensures forall x :: x in AddAll(acc, xs) <==> x in acc || x in xs
  {
    if xs != [] {
      AddAllMembers(acc, xs[..|xs| - 1]);
      assert xs == xs[..|xs| - 1] + [xs[|xs| - 1]];
    }
  }

  lemma {:induction false} AddAllLength(acc: seq<TeamName>, xs: seq<TeamName>)
    ensures |AddAll(acc, xs)| <= |acc| + |xs|
  {
    if xs != [] {
      AddAllLength(acc, xs[..|xs| - 1]);
    }
  }

  lemma {:induction false} AddAllNoDuplicates(acc: seq<TeamName>, xs: seq<TeamName>)
    requires NoDuplicates(acc)
    ensures NoDuplicates(AddAll(acc, xs))
  {
    if xs != [] {
      AddAllNoDuplicates(acc, xs[..|xs| - 1]);
    }
  }

  /** Adding xs and then ys is adding xs + ys. */
  lemma {:induction false} AddAllConcat(acc: seq<TeamName>, xs: seq<TeamName>, ys: seq<TeamName>)
    ensures AddAll(acc, xs + ys) == AddAll(AddAll(acc, xs), ys)
  {
    if ys == [] {
      assert xs + ys == xs;
    } else {
      var zs := xs + ys;
      assert zs[..|zs| - 1] == xs + ys[..|ys| - 1];
      assert zs[|zs| - 1] == ys[|ys| - 1];
      AddAllConcat(acc, xs, ys[..|ys| - 1]);
    }
  }

  /** Adding the distinct elements of xs has the same effect as adding xs
      with its repetitions. */
  lemma {:induction false} AddAllUnique(acc: seq<TeamName>, xs: seq<TeamName>)
    ensures AddAll(acc, Unique(xs)) == AddAll(acc, xs)
  {
    if xs != [] {
      var init, x := xs[..|xs| - 1], xs[|xs| - 1];
      AddAllUnique(acc, init);
      AddAllMembers(acc, init);
      if x in Unique(init) {
        assert Unique(xs) == Unique(init);
      } else {
        assert Unique(xs) == Unique(init) + [x];
        AddAllConcat(acc, Unique(init), [x]);
        assert [x][..0] == [];
      }
    }
  }

  /** A list without repetitions is its own set of distinct elements; in
      particular Unique is idempotent. */
  lemma {:induction false} UniqueOfDistinct(xs: seq<TeamName>)
    requires NoDuplicates(xs)
    ensures Unique(xs) == xs
  {
    if xs != [] {
      var init := xs[..|xs| - 1];
      UniqueOfDistinct(init);
      assert xs[|xs| - 1] !in init by {
        forall i | 0 <= i < |init| ensures init[i] != xs[|xs| - 1] {
          assert init[i] == xs[i];
        }
      }
      assert xs == init + [xs[|xs| - 1]];
    }
  }
}
