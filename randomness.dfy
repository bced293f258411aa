/** The two uses of the random source that decide an outcome by position:
    `random.choice` and `random.shuffle` (the agent order of one `shuffle_do`
    pass). The random draws themselves are given as input: a stream
    `draws(0), draws(1), ...` of non-negative integers. */
module Randomness {
  import opened Seqs

  /** `random.choice(s)`: the element at a drawn position below |s|. */
  function Choice<T>(s: seq<T>, pick: nat): (x: T)
    requires |s| > 0
    ensures x in s
  {
    s[pick % |s|]
  }

  /** `random.shuffle(s)`: for i from |s| - 1 down to 1, swap s[i] with s[j]
      where j is a draw below i + 1; here j = draws(i) % (i + 1). */
  function Shuffled<T(==)>(s: seq<T>, draws: nat -> nat): (r: seq<T>)
    ensures |r| == |s|
    ensures Distinct(s) ==> Distinct(r)
    ensures forall i :: 0 <= i < |r| ==> r[i] in s
    ensures forall i :: 0 <= i < |s| ==> s[i] in r
  {
    var r := ShuffleDown(s, |s| - 1, draws);
    assert forall i :: 0 <= i < |r| ==> r[i] in multiset(s);
    assert forall i :: 0 <= i < |s| ==> s[i] in multiset(r);
    r
  }

  /** A shuffle only reorders: every element keeps its number of occurrences. */
  lemma ShuffledIsPermutation<T>(s: seq<T>, draws: nat -> nat)
    ensures multiset(Shuffled(s, draws)) == multiset(s)
  {
    assert Shuffled(s, draws) == ShuffleDown(s, |s| - 1, draws);
  }

  /** The swaps at positions i, i - 1, ..., 1. */
  function ShuffleDown<T(==)>(s: seq<T>, i: int, draws: nat -> nat): (r: seq<T>)
    requires i < |s|
    ensures |r| == |s|
    ensures multiset(r) == multiset(s)
    ensures Distinct(s) ==> Distinct(r)
    decreases i
  {
    if i <= 0 then s
    else
      var j := draws(i) % (i + 1);
      var t := s[i := s[j]][j := s[i]];
      SwapKeepsElements(s, i, j);
      ShuffleDown(t, i - 1, draws)
  }

  lemma SwapKeepsElements<T>(s: seq<T>, i: nat, j: nat)
    requires i < |s| && j < |s|
    ensures multiset(s[i := s[j]][j := s[i]]) == multiset(s)
    ensures Distinct(s) ==> Distinct(s[i := s[j]][j := s[i]])
  {
    var t1 := s[i := s[j]];
    assert multiset(t1) == multiset(s) - multiset{s[i]} + multiset{s[j]};
    assert t1[j] == s[j];
    assert multiset(t1[j := s[i]]) == multiset(t1) - multiset{s[j]} + multiset{s[i]};
    SwapKeepsDistinct(s, i, j);
  }

  lemma SwapKeepsDistinct<T>(s: seq<T>, i: nat, j: nat)
    requires i < |s| && j < |s|
    ensures Distinct(s) ==> Distinct(s[i := s[j]][j := s[i]])
  {
    if Distinct(s) {
      var t := s[i := s[j]][j := s[i]];
      DistinctIndexed(s);
      DistinctIndexed(t);
      forall a, b | 0 <= a < b < |t|
        ensures t[a] != t[b]
      {
        var a' := if a == i then j else if a == j then i else a;
        var b' := if b == i then j else if b == j then i else b;
        assert t[a] == s[a'] && t[b] == s[b'];
      }
    }
  }
}
