/** `colorForTeam`: a team's bubble colour, chosen from a fixed palette of
    eight by the sum of the character codes of its name. */
module Colorizer {

  import opened Tasks

  const COLORS: seq<string> := [
    "#4dabf7", "#63e6be", "#ffd43b", "#ff8787",
    "#9775fa", "#ffa94d", "#69db7c", "#a5d8ff"
  ]

  /** `ch.charCodeAt(0)` for one element `ch` of `Array.from(team)`: a code
      point below 0x10000 is its own code unit, a larger one is written as a
      surrogate pair and yields its leading (high) surrogate, the one that
      together with the low ten bits rebuilds the code point. */
  function CharCode(c: char): (code: nat)
    ensures code < 0x1_0000
    ensures c as int < 0x1_0000 ==> code == c as int
    ensures c as int >= 0x1_0000 ==> 0xD800 <= code < 0xDC00
    ensures c as int >= 0x1_0000 ==> (code - 0xD800) * 0x400 + (c as int - 0x1_0000) % 0x400 + 0x1_0000 == c as int
  {
    if c as int < 0x1_0000 then c as int
    else 0xD800 + (c as int - 0x1_0000) / 0x400
  }

  /** `Array.from(team).reduce((acc, ch) => acc + ch.charCodeAt(0), 0)`: a
      left fold over the characters. */
  function CodeSum(name: TeamName): nat
  {
    if name == [] then 0 else CodeSum(name[..|name| - 1]) + CharCode(name[|name| - 1])
  }

  /** `Math.abs`. */
  function Abs(x: int): nat
  {
    if x < 0 then -x else x
  }

  /** `index % COLORS.length` with `index = Math.abs(sum)`. The sum is never
      negative, so the absolute value changes nothing and the remainder of
      ECMAScript's `%` (which takes the sign of the dividend) coincides with
      Dafny's. */
  function ColorIndex(name: TeamName): (i: nat)
    ensures i < |COLORS|
    ensures i == CodeSum(name) % 8
  {
    Abs(CodeSum(name)) % |COLORS|
  }

  function ColorForTeam(name: TeamName): (color: string)
    ensures color in COLORS
  {
    COLORS[ColorIndex(name)]
  }

  /** The code sum of a concatenation is the sum of the parts' code sums. */
  lemma {:induction false} CodeSumAppend(a: TeamName, b: TeamName)
    ensures CodeSum(a + b) == CodeSum(a) + CodeSum(b)
  {
    if b == [] {
      assert a + b == a;
    } else {
      var ab := a + b;
      assert ab[..|ab| - 1] == a + b[..|b| - 1];
      CodeSumAppend(a, b[..|b| - 1]);
    }
  }

  lemma CodeSumSingle(c: char)
    ensures CodeSum([c]) == CharCode(c)
  {
  }

  /** Taking one character out of a name takes its code out of the sum. */
  lemma RemoveAt(b: TeamName, k: nat)
    requires k < |b|
    ensures CodeSum(b) == CodeSum(b[..k] + b[k + 1..]) + CharCode(b[k])
  {
    var p, c, q := b[..k], [b[k]], b[k + 1..];
    assert b == p + (c + q);
    CodeSumAppend(p, c + q);
    CodeSumAppend(c, q);
    CodeSumAppend(p, q);
    CodeSumSingle(b[k]);
  }

  /** Taking one character out of a name takes it out of the multiset. */
  lemma RemoveAtMultiset(b: TeamName, k: nat)
    requires k < |b|
    ensures multiset(b) == multiset(b[..k] + b[k + 1..]) + multiset{b[k]}
  {
    var p, q := b[..k], b[k + 1..];
    assert b == p + [b[k]] + q;
  }

  /** The code sum ignores the order of the characters. */
  lemma {:induction false} CodeSumPermutation(a: TeamName, b: TeamName)
    requires multiset(a) == multiset(b)
    ensures CodeSum(a) == CodeSum(b)
    decreases |a|
  {
    if a != [] {
      var init, c := a[..|a| - 1], a[|a| - 1];
      assert a == init + [c];
      assert multiset(a) == multiset(init) + multiset{c};
      assert c in multiset(b);
      var k :| 0 <= k < |b| && b[k] == c;
      var rest := b[..k] + b[k + 1..];
      RemoveAt(b, k);
      RemoveAtMultiset(b, k);
      assert multiset(init) == multiset(rest) by {
        forall x ensures multiset(init)[x] == multiset(rest)[x] {
          assert multiset(a)[x] == multiset(b)[x];
        }
      }
      CodeSumPermutation(init, rest);
    }
  }

  /** Names that are rearrangements of each other share a colour: collisions
      are expected and harmless, since the colour only decorates. */
  lemma SameLettersSameColor(a: TeamName, b: TeamName)
    requires multiset(a) == multiset(b)
    ensures ColorForTeam(a) == ColorForTeam(b)
  {
    CodeSumPermutation(a, b);
  }

  /** Two names from the same palette slot: "ab" and "ba" share a colour, and
      "A" (code 65) and "I" (code 73) do too, eight codes apart. */
  lemma ColorExamples()
    ensures ColorForTeam("ab") == ColorForTeam("ba")
    ensures ColorForTeam("A") == COLORS[1] == ColorForTeam("I")
  {
    SameLettersSameColor("ab", "ba");
    assert CodeSum("A") == 65 by {
      assert "A"[..0] == [];
    }
    assert CodeSum("I") == 73 by {
      assert "I"[..0] == [];
    }
  }
}
