/** Sequence helpers shared by the simulation modules: the Option type used for
    results the source leaves undefined, and the list comprehension
    filtering a sequence by a predicate. */
module Seqs {

  datatype Option<+T> = None | Some(value: T)

  /** A list comprehension with a condition: keeps the elements satisfying `p`, in order. */
  function Filter<T(!new)>(s: seq<T>, p: T -> bool): (r: seq<T>)
    ensures |r| <= |s|
    ensures forall x :: x in r <==> x in s && p(x)
  {
    if s == [] then []
    else
      assert forall x :: x in s <==> x == s[0] || x in s[1..];
      (if p(s[0]) then [s[0]] else []) + Filter(s[1..], p)
  }

  /** No element occurs twice (an agent set holds each agent once), stated
      head first; DistinctIndexed gives the pairwise form. */
  predicate Distinct<T(==)>(s: seq<T>)
  {
    s == [] || (s[0] !in s[1..] && Distinct(s[1..]))
  }

  /** Distinct holds exactly when no two positions hold the same element. */
  lemma {:induction false} DistinctIndexed<T>(s: seq<T>)
    ensures Distinct(s) <==> forall i, j :: 0 <= i < j < |s| ==> s[i] != s[j]
  {
    if s != [] {
      var t := s[1..];
      DistinctIndexed(t);
      if forall i, j :: 0 <= i < j < |s| ==> s[i] != s[j] {
        forall k | 0 <= k < |t|
          ensures t[k] != s[0]
        {
          assert t[k] == s[k + 1];
        }
        forall i, j | 0 <= i < j < |t|
          ensures t[i] != t[j]
        {
          assert t[i] == s[i + 1] && t[j] == s[j + 1];
        }
      }
      if Distinct(s) {
        forall i, j | 0 <= i < j < |s|
          ensures s[i] != s[j]
        {
          assert s[j] == t[j - 1];
          if i > 0 {
            assert s[i] == t[i - 1];
          }
        }
      }
    }
  }

  /** In a sequence without repetitions, position `k` is the only one holding `s[k]`. */
  lemma DistinctAt<T>(s: seq<T>, k: int)
    requires Distinct(s) && 0 <= k < |s|
    ensures forall j :: 0 <= j < |s| && j != k ==> s[j] != s[k]
  {
    DistinctIndexed(s);
  }

  /** Overwriting one position with a value found nowhere in `s` keeps it
      free of repetitions. */
  lemma DistinctUpdate<T>(s: seq<T>, k: int, x: T)
    requires Distinct(s) && 0 <= k < |s| && x !in s
    ensures Distinct(s[k := x])
  {
    DistinctIndexed(s);
    DistinctIndexed(s[k := x]);
  }

  /** Appending an element not yet present keeps a sequence free of repetitions. */
  lemma DistinctSnoc<T>(s: seq<T>, x: T)
    ensures Distinct(s + [x]) <==> Distinct(s) && x !in s
  {
    var t := s + [x];
    DistinctIndexed(s);
    DistinctIndexed(t);
    if Distinct(s) && x !in s {
      forall i, j | 0 <= i < j < |t|
        ensures t[i] != t[j]
      {
        assert t[i] == s[i];
        if j < |s| {
          assert t[j] == s[j];
        }
      }
    }
    if Distinct(t) {
      forall i, j | 0 <= i < j < |s|
        ensures s[i] != s[j]
      {
        assert t[i] == s[i] && t[j] == s[j];
      }
      forall i | 0 <= i < |s|
        ensures s[i] != x
      {
        assert t[i] == s[i] && t[|s|] == x;
      }
    }
  }

  /** Removal of `x` (`AgentSet.remove`): the order of the rest is kept. */
  function Remove<T(==)>(s: seq<T>, x: T): (r: seq<T>)
    ensures |r| <= |s|
    ensures forall i :: 0 <= i < |r| ==> r[i] in s && r[i] != x
    ensures forall i :: 0 <= i < |s| && s[i] != x ==> s[i] in r
    ensures Distinct(s) ==> Distinct(r)
  {
    if s == [] then []
    else
      var rest := Remove(s[1..], x);
      assert forall i :: 1 <= i < |s| ==> s[i] == s[1..][i - 1];
      if s[0] == x then rest
      else
        DistinctCons(s[0], rest);
        [s[0]] + rest
  }

  lemma DistinctCons<T>(h: T, t: seq<T>)
    ensures Distinct([h] + t) <==> Distinct(t) && h !in t
  {
    assert ([h] + t)[1..] == t;
  }

  /** `range(n)` as a sequence of indices. */
  function Range(n: nat): (r: seq<nat>)
    ensures |r| == n
    ensures forall i :: 0 <= i < n ==> r[i] == i
    ensures forall i :: i in r <==> 0 <= i < n
  {
    var r := seq(n, i requires 0 <= i => i);
    forall x
      ensures x in r <==> 0 <= x < n
    {
      if x in r {
        var k :| 0 <= k < |r| && r[k] == x;
      }
      if 0 <= x < n {
        assert r[x] == x;
      }
    }
    r
  }
}
