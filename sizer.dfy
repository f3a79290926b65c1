/** `scaleSize`: a bubble's diameter in pixels, interpolated linearly between
    MIN_SIZE and MAX_SIZE by the team's share of the largest vote total.
    Computed over exact reals in place of the source's floating point. */
module Sizer {

  import opened Tasks
  import opened VoteSort

  const MIN_SIZE: real := 60.0
  const MAX_SIZE: real := 180.0

  /** `Math.max(...aggregates.map((a) => a.totalVotes))`, evaluated only once
      the list is known to be non-empty. */
  function MaxVotes(aggregates: seq<TeamAggregate>): (m: nat)
    requires aggregates != []
    ensures forall a | a in aggregates :: a.totalVotes <= m
    ensures exists a | a in aggregates :: a.totalVotes == m
  {
    if |aggregates| == 1 then aggregates[0].totalVotes
    else
      var rest := MaxVotes(aggregates[1..]);
      assert forall a | a in aggregates :: a == aggregates[0] || a in aggregates[1..];
      if aggregates[0].totalVotes >= rest then aggregates[0].totalVotes else rest
  }

  /** `scaleSize(votes)` with the largest total maxVotes captured from the
      enclosing scope. */
  function ScaleSize(maxVotes: nat, votes: nat): (size: real)
    ensures votes <= maxVotes ==> MIN_SIZE <= size <= MAX_SIZE
    ensures maxVotes == 0 || votes == 0 ==> size == MIN_SIZE
    ensures 0 < maxVotes == votes ==> size == MAX_SIZE
  {
    if maxVotes == 0 then MIN_SIZE
    else
      var ratio := votes as real / maxVotes as real;
      assert votes <= maxVotes ==> ratio <= 1.0;
      MIN_SIZE + (MAX_SIZE - MIN_SIZE) * ratio
  }

  /** More votes never give a smaller bubble. */
  lemma ScaleSizeMonotone(maxVotes: nat, v: nat, w: nat)
    requires v <= w
    ensures ScaleSize(maxVotes, v) <= ScaleSize(maxVotes, w)
  {
  }

  /** Totals 0, 50 and 100 against a maximum of 100 give 60, 120 and 180
      pixels. */
  lemma ScaleSizeExample()
    ensures ScaleSize(100, 0) == 60.0
    ensures ScaleSize(100, 50) == 120.0
    ensures ScaleSize(100, 100) == 180.0
  {
  }

  /** The label inside a bubble: small text for a bubble over 100 pixels
      wide, extra-small text otherwise. */
  function LabelSize(size: real): string
  {
    if size > 100.0 then "sm" else "xs"
  }

  /** A bubble gets the larger label exactly when its total exceeds a third
      of the largest total; when no team has votes every label is small. */
  lemma LabelSizeThreshold(maxVotes: nat, votes: nat)
    ensures maxVotes == 0 ==> LabelSize(ScaleSize(maxVotes, votes)) == "xs"
    ensures maxVotes > 0 ==> (LabelSize(ScaleSize(maxVotes, votes)) == "sm" <==> 3 * votes > maxVotes)
  {
    if maxVotes > 0 {
      var m := maxVotes as real;
      var r := votes as real / m;
      var size := ScaleSize(maxVotes, votes);
      var excess := size - 100.0;
      assert size == 60.0 + 120.0 * r;
      assert r * m == votes as real;
      assert excess * m == 120.0 * (r * m) - 40.0 * m;
      SignOfProduct(excess, m);
      assert excess * m > 0.0 <==> excess > 0.0;
      assert excess * m == 120.0 * votes as real - 40.0 * m;
      assert excess > 0.0 <==> 120.0 * votes as real > 40.0 * m;
      assert excess > 0.0 <==> 3 * votes > maxVotes;
      assert "xs"[0] != "sm"[0];
      assert LabelSize(size) == "sm" <==> excess > 0.0;
    }
  }

  /** Multiplying by a positive factor keeps the sign. */
  lemma SignOfProduct(x: real, m: real)
    requires m > 0.0
    ensures x > 0.0 <==> x * m > 0.0
  {
  }

  /** In a list sorted by votes, highest first, the largest total is the
      first one. */
  lemma MaxVotesOfSorted(aggregates: seq<TeamAggregate>)
    requires aggregates != [] && NonIncreasing(aggregates)
    ensures MaxVotes(aggregates) == aggregates[0].totalVotes
  {
  }
}
