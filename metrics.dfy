/** The three aggregate metrics the model records after every tick
    (`calc_ratio`, `calc_gini`, `calc_avg_tech`), over a snapshot of the
    population. Where the source divides by zero the result is None: on an
    empty population that division raises ZeroDivisionError, and in
    `calc_gini` over sugar values that total 0 it is a numpy division by 0,
    which gives nan or ±inf. */
module Metrics {
  import opened Seqs
  import opened RealArith

  /** What the metrics read of one agent. */
  datatype AgentView = AgentView(sugar: real, tech: int, affiliation: int)

  // ---------------------------------------------------------------- sums

  function Sum(s: seq<real>): real
  {
    if s == [] then 0.0 else s[0] + Sum(s[1..])
  }

  function SumInt(s: seq<int>): int
  {
    if s == [] then 0 else s[0] + SumInt(s[1..])
  }

  // ---------------------------------------------------------------- calc_ratio

  /** Number of agents of affiliation 0 (the innovating group). */
  function CountInnovators(pop: seq<AgentView>): (c: nat)
    ensures c <= |pop|
    ensures c == |pop| <==> forall i :: 0 <= i < |pop| ==> pop[i].affiliation == 0
    ensures c == 0 <==> forall i :: 0 <= i < |pop| ==> pop[i].affiliation != 0
  {
    if pop == [] then 0
    else
      var rest := CountInnovators(pop[1..]);
      assert forall i :: 1 <= i < |pop| ==> pop[i] == pop[1..][i - 1];
      (if pop[0].affiliation == 0 then 1 else 0) + rest
  }

  /** `calc_ratio`: the share of the population in affiliation 0. It is a
      fraction in [0, 1], equal to 1 exactly when everyone innovates and to 0
      exactly when nobody does; an empty population divides by zero. */
  function Ratio(pop: seq<AgentView>): (r: Option<real>)
    ensures r.None? <==> |pop| == 0
    ensures r.Some? ==> 0.0 <= r.value <= 1.0
    ensures r.Some? ==> (r.value == 1.0 <==> forall i :: 0 <= i < |pop| ==> pop[i].affiliation == 0)
    ensures r.Some? ==> (r.value == 0.0 <==> forall i :: 0 <= i < |pop| ==> pop[i].affiliation != 0)
  {
    if |pop| == 0 then None
    else
      var c := CountInnovators(pop);
      FractionBounds(c as real, |pop| as real);
      Some(c as real / |pop| as real)
  }

  /** A count c out of n > 0 gives a fraction in [0, 1] that is 1 exactly for
      c == n and 0 exactly for c == 0. */
  lemma FractionBounds(c: real, n: real)
    requires 0.0 <= c <= n && n > 0.0
    ensures 0.0 <= c / n <= 1.0
    ensures c / n == 1.0 <==> c == n
    ensures c / n == 0.0 <==> c == 0.0
  {
    var q := c / n;
    DivisionCancels(c, n);
    SignOfProduct(q, n);
    SignOfProduct(1.0 - q, n);
    assert (1.0 - q) * n == n - c;
  }

  // ---------------------------------------------------------------- calc_avg_tech

  /** The tech levels of the affiliation-0 agents, in population order. */
  function InnovatorTechs(pop: seq<AgentView>): (ts: seq<int>)
    ensures |ts| == CountInnovators(pop)
    ensures forall t :: t in ts <==> exists i :: 0 <= i < |pop| && pop[i].affiliation == 0 && pop[i].tech == t
  {
    if pop == [] then []
    else
      var rest := InnovatorTechs(pop[1..]);
      assert forall i :: 1 <= i < |pop| ==> pop[i] == pop[1..][i - 1];
      assert forall i :: 0 <= i < |pop| - 1 ==> pop[1..][i] == pop[i + 1];
      (if pop[0].affiliation == 0 then [pop[0].tech] else []) + rest
  }

  function MinInt(s: seq<int>): (m: int)
    requires |s| > 0
    ensures m in s
    ensures forall i :: 0 <= i < |s| ==> m <= s[i]
  {
    if |s| == 1 then s[0]
    else
      var rest := MinInt(s[1..]);
      if s[0] <= rest then s[0] else rest
  }

  function MaxInt(s: seq<int>): (m: int)
    requires |s| > 0
    ensures m in s
    ensures forall i :: 0 <= i < |s| ==> s[i] <= m
  {
    if |s| == 1 then s[0]
    else
      var rest := MaxInt(s[1..]);
      if s[0] >= rest then s[0] else rest
  }

  /** A sum of values between `lo` and `hi` lies between |s|·lo and |s|·hi. */
  lemma {:induction false} SumIntBetween(s: seq<int>, lo: int, hi: int)
    requires forall i :: 0 <= i < |s| ==> lo <= s[i] <= hi
    ensures |s| as real * lo as real <= SumInt(s) as real <= |s| as real * hi as real
  {
    if s != [] {
      SumIntBetween(s[1..], lo, hi);
      var n := |s| as real;
      assert n * lo as real == lo as real + (n - 1.0) * lo as real;
      assert n * hi as real == hi as real + (n - 1.0) * hi as real;
    }
  }

  /** The arithmetic mean of a non-empty sequence of integers. */
  function Mean(s: seq<int>): real
    requires |s| > 0
  {
    SumInt(s) as real / |s| as real
  }

  /** The mean lies between any bounds of the elements. */
  lemma MeanWithin(s: seq<int>, lo: int, hi: int)
    requires |s| > 0
    requires forall i :: 0 <= i < |s| ==> lo <= s[i] <= hi
    ensures lo as real <= Mean(s) <= hi as real
  {
    SumIntBetween(s, lo, hi);
    MeanBetween(SumInt(s) as real, |s| as real, lo as real, hi as real);
  }

  /** The mean lies between the least and the greatest element. */
  lemma MeanWithinRange(s: seq<int>)
    requires |s| > 0
    ensures MinInt(s) as real <= Mean(s) <= MaxInt(s) as real
  {
    MeanWithin(s, MinInt(s), MaxInt(s));
  }

  lemma MeanBetween(total: real, n: real, lo: real, hi: real)
    requires n > 0.0
    requires n * lo <= total <= n * hi
    ensures lo <= total / n <= hi
  {
    DivisionCancels(total, n);
    assert (total / n - lo) * n == (total / n) * n - lo * n;
    SignOfProduct(total / n - lo, n);
    assert (hi - total / n) * n == hi * n - (total / n) * n;
    SignOfProduct(hi - total / n, n);
  }

  /** `calc_avg_tech`: the mean tech level of the affiliation-0 agents. It lies
      between their lowest and highest level; with none of them it divides by
      zero. */
  function AvgTech(pop: seq<AgentView>): (r: Option<real>)
    ensures r.None? <==> CountInnovators(pop) == 0
    ensures r.Some? ==>
      MinInt(InnovatorTechs(pop)) as real <= r.value <= MaxInt(InnovatorTechs(pop)) as real
  {
    var ts := InnovatorTechs(pop);
    if |ts| == 0 then None
    else
      MeanWithinRange(ts);
      Some(Mean(ts))
  }

  // ---------------------------------------------------------------- sorting

  /** Ascending: the first element is the least, and so on down the rest. */
  ghost predicate SortedAsc(s: seq<real>)
  {
    s == [] || ((forall j :: 0 < j < |s| ==> s[0] <= s[j]) && SortedAsc(s[1..]))
  }

  /** Prepending an element no greater than any other keeps a sequence ascending. */
  lemma SortedCons(h: real, t: seq<real>)
    requires SortedAsc(t)
    requires forall j :: 0 <= j < |t| ==> h <= t[j]
    ensures SortedAsc([h] + t)
  {
    var r := [h] + t;
    assert r[1..] == t;
    forall j | 0 < j < |r|
      ensures r[0] <= r[j]
    {
      assert r[j] == t[j - 1];
    }
  }

  /** Inserts `x` into an ascending sequence. */
  function Insert(x: real, s: seq<real>): (r: seq<real>)
    requires SortedAsc(s)
    ensures |r| == |s| + 1
    ensures SortedAsc(r)
    ensures multiset(r) == multiset(s) + multiset{x}
    ensures Sum(r) == x + Sum(s)
  {
    if s == [] || x <= s[0] then
      SortedCons(x, s);
      [x] + s
    else
      var rest := Insert(x, s[1..]);
      assert s == [s[0]] + s[1..];
      assert forall j :: 0 <= j < |s[1..]| ==> s[1..][j] == s[j + 1];
      InsertedAtLeast(s[0], x, s[1..], rest);
      SortedCons(s[0], rest);
      [s[0]] + rest
  }

  /** A lower bound of `x` and of every element of `s` bounds every element
      of a sequence holding just those. */
  lemma InsertedAtLeast(lo: real, x: real, s: seq<real>, r: seq<real>)
    requires lo <= x && forall j :: 0 <= j < |s| ==> lo <= s[j]
    requires multiset(r) == multiset(s) + multiset{x}
    ensures forall j :: 0 <= j < |r| ==> lo <= r[j]
  {
    forall j | 0 <= j < |r|
      ensures lo <= r[j]
    {
      assert r[j] in multiset(r);
      if r[j] != x {
        assert r[j] in multiset(s);
        var k :| 0 <= k < |s| && s[k] == r[j];
      }
    }
  }

  /** `sorted(values)`: an ascending permutation (insertion sort). */
  function Sort(s: seq<real>): (r: seq<real>)
    ensures |r| == |s|
    ensures SortedAsc(r)
    ensures multiset(r) == multiset(s)
    ensures Sum(r) == Sum(s)
  {
    if s == [] then []
    else
      assert s == [s[0]] + s[1..];
      Insert(s[0], Sort(s[1..]))
  }

  /** The first element of an ascending sequence is its least element. */
  lemma SortedHeadLeast(s: seq<real>, v: real)
    requires SortedAsc(s) && v in s
    ensures s[0] <= v
  {
    var k :| 0 <= k < |s| && s[k] == v;
    if k > 0 {
      assert s[0] <= s[k];
    }
  }

  /** An ascending arrangement of a multiset is unique. */
  lemma {:induction false} SortedUnique(a: seq<real>, b: seq<real>)
    requires SortedAsc(a) && SortedAsc(b)
    requires multiset(a) == multiset(b)
    ensures a == b
  {
    assert |a| == |multiset(a)| == |multiset(b)| == |b|;
    if a != [] {
      assert a[0] in multiset(b) && b[0] in multiset(a);
      SortedHeadLeast(a, b[0]);
      SortedHeadLeast(b, a[0]);
      assert a[0] == b[0];
      assert a == [a[0]] + a[1..] && b == [b[0]] + b[1..];
      assert multiset(a) == multiset{a[0]} + multiset(a[1..]);
      assert multiset(b) == multiset{a[0]} + multiset(b[1..]);
      assert multiset(a[1..]) == multiset(a) - multiset{a[0]};
      assert multiset(b[1..]) == multiset(b) - multiset{a[0]};
      SortedUnique(a[1..], b[1..]);
    }
  }

  // ---------------------------------------------------------------- calc_gini

  /** The weighted sum of `calc_gini`: with n = |s|, the element at index i
      is weighted by n - i, the length of the suffix that starts at it. */
  function Weighted(s: seq<real>): real
  {
    if s == [] then 0.0 else |s| as real * s[0] + Weighted(s[1..])
  }

  /** The coefficient of `calc_gini` from the population size n, the total
      and the weighted sum: one plus 1/n, minus twice the weighted sum over
      n times the total. */
  function GiniFormula(n: nat, total: real, weighted: real): real
    requires n > 0 && total != 0.0
  {
    1.0 + 1.0 / n as real - 2.0 * (weighted / (n as real * total))
  }

  /** `calc_gini` over the agents' sugar values: sort, then the formula above.
      It is undefined exactly when the population is empty (ZeroDivisionError)
      or holds no sugar in total (nan or ±inf). */
  function Gini(sugars: seq<real>): (g: Option<real>)
    ensures g.None? <==> |sugars| == 0 || Sum(sugars) == 0.0
  {
    var sorted := Sort(sugars);
    var n := |sorted|;
    if n == 0 || Sum(sorted) == 0.0 then None
    else Some(GiniFormula(n, Sum(sorted), Weighted(sorted)))
  }

  function Sugars(pop: seq<AgentView>): (s: seq<real>)
    ensures |s| == |pop|
    ensures forall i :: 0 <= i < |pop| ==> s[i] == pop[i].sugar
  {
    seq(|pop|, i requires 0 <= i < |pop| => pop[i].sugar)
  }

  /** The formula times n·total: clears the divisions. */
  lemma GiniFormulaScaled(n: nat, total: real, w: real)
    requires n > 0 && total != 0.0
    ensures GiniFormula(n, total, w) * (n as real * total) == (n as real + 1.0) * total - 2.0 * w
  {
    assert n as real * total != 0.0 by {
      if total > 0.0 { ProductPositive(n as real, total); } else { ProductPositive(n as real, -total); }
    }
    DivisionCancels(1.0, n as real);
    DivisionCancels(w, n as real * total);
    assert (1.0 / n as real) * (n as real * total) == ((1.0 / n as real) * n as real) * total;
  }

  /** 2·W <= (n + 1)·total with a positive total keeps the coefficient >= 0. */
  lemma GiniFormulaNonNegative(n: nat, total: real, w: real)
    requires n > 0 && total > 0.0
    requires 2.0 * w <= (n as real + 1.0) * total
    ensures GiniFormula(n, total, w) >= 0.0
  {
    GiniFormulaScaled(n, total, w);
    ProductPositive(n as real, total);
    SignOfProduct(GiniFormula(n, total, w), n as real * total);
  }

  /** W >= total with a positive total keeps the coefficient <= 1 - 1/n. */
  lemma GiniFormulaAtMostMax(n: nat, total: real, w: real)
    requires n > 0 && total > 0.0
    requires w >= total
    ensures GiniFormula(n, total, w) <= 1.0 - 1.0 / n as real
  {
    GiniFormulaScaled(n, total, w);
    ProductPositive(n as real, total);
    DivisionCancels(1.0, n as real);
    assert (1.0 - 1.0 / n as real) * (n as real * total)
        == n as real * total - ((1.0 / n as real) * n as real) * total;
    assert (1.0 - 1.0 / n as real - GiniFormula(n, total, w)) * (n as real * total)
        == (1.0 - 1.0 / n as real) * (n as real * total) - GiniFormula(n, total, w) * (n as real * total);
    SignOfProduct(1.0 - 1.0 / n as real - GiniFormula(n, total, w), n as real * total);
  }

  /** 2·W == (n + 1)·total makes the coefficient exactly 0. */
  lemma GiniFormulaZero(n: nat, total: real, w: real)
    requires n > 0 && total > 0.0
    requires 2.0 * w == (n as real + 1.0) * total
    ensures GiniFormula(n, total, w) == 0.0
  {
    GiniFormulaScaled(n, total, w);
    ProductPositive(n as real, total);
    assert GiniFormula(n, total, w) * (n as real * total) == 0.0 * (n as real * total);
    ProductCancels(GiniFormula(n, total, w), 0.0, n as real * total);
  }

  /** W == total (all weight on the last sorted element) gives 1 - 1/n. */
  lemma GiniFormulaConcentrated(n: nat, t: real)
    requires n > 0 && t > 0.0
    ensures GiniFormula(n, t, t) == 1.0 - 1.0 / n as real
  {
    GiniFormulaScaled(n, t, t);
    ProductPositive(n as real, t);
    DivisionCancels(1.0, n as real);
    assert (1.0 - 1.0 / n as real) * (n as real * t) == n as real * t - ((1.0 / n as real) * n as real) * t;
    ProductCancels(GiniFormula(n, t, t), 1.0 - 1.0 / n as real, n as real * t);
  }

  /** `calc_gini` depends only on the multiset of sugar values, not on the
      order of the population, because it sorts first. */
  lemma GiniIgnoresOrder(a: seq<real>, b: seq<real>)
    requires multiset(a) == multiset(b)
    ensures Gini(a) == Gini(b)
  {
    SortedUnique(Sort(a), Sort(b));
  }

  lemma {:induction false} SumAtLeast(s: seq<real>, lo: real)
    requires forall i :: 0 <= i < |s| ==> lo <= s[i]
    ensures Sum(s) >= |s| as real * lo
  {
    if s != [] {
      SumAtLeast(s[1..], lo);
      assert |s| as real * lo == lo + (|s| - 1) as real * lo;
    }
  }

  /** Chebyshev's sum inequality for the decreasing weights n, n-1, ..., 1:
      on an ascending sequence, 2·W(s) <= (n + 1)·Sum(s). */
  lemma {:induction false} WeightedAtMostMean(s: seq<real>)
    requires SortedAsc(s)
    ensures 2.0 * Weighted(s) <= (|s| as real + 1.0) * Sum(s)
  {
    if s != [] {
      var t := s[1..];
      var n := |s| as real;
      WeightedAtMostMean(t);
      assert forall j :: 0 <= j < |t| ==> t[j] == s[j + 1];
      SumAtLeast(t, s[0]);
      var a, st := n * s[0], Sum(t);
      assert 2.0 * Weighted(t) <= n * st;
      assert (n - 1.0) * s[0] == a - s[0];
      assert (n + 1.0) * Sum(s) == a + s[0] + n * st + st;
    }
  }

  /** With non-negative values every weight is at least 1: W(s) >= Sum(s). */
  lemma {:induction false} WeightedAtLeastSum(s: seq<real>)
    requires forall i :: 0 <= i < |s| ==> 0.0 <= s[i]
    ensures Weighted(s) >= Sum(s)
  {
    if s != [] {
      WeightedAtLeastSum(s[1..]);
      ProductNonNegative(|s| as real - 1.0, s[0]);
      assert |s| as real * s[0] == s[0] + (|s| as real - 1.0) * s[0];
    }
  }

  /** The Gini coefficient of a population with positive total sugar is at
      least 0. */
  lemma GiniNonNegative(sugars: seq<real>)
    requires Sum(sugars) > 0.0
    ensures Gini(sugars).Some? && Gini(sugars).value >= 0.0
  {
    assert sugars != [];
    SortedGiniNonNegative(Sort(sugars));
  }

  lemma SortedGiniNonNegative(sorted: seq<real>)
    requires SortedAsc(sorted) && |sorted| > 0 && Sum(sorted) > 0.0
    ensures GiniFormula(|sorted|, Sum(sorted), Weighted(sorted)) >= 0.0
  {
    WeightedAtMostMean(sorted);
    GiniFormulaNonNegative(|sorted|, Sum(sorted), Weighted(sorted));
  }

  /** When no agent holds a negative amount and the total is positive, the
      coefficient is at most 1 - 1/n. */
  lemma GiniAtMostMax(sugars: seq<real>)
    requires Sum(sugars) > 0.0
    requires forall i :: 0 <= i < |sugars| ==> 0.0 <= sugars[i]
    ensures Gini(sugars).Some? && Gini(sugars).value <= 1.0 - 1.0 / |sugars| as real
  {
    var sorted := Sort(sugars);
    assert sugars != [];
    forall i | 0 <= i < |sorted|
      ensures 0.0 <= sorted[i]
    {
      assert sorted[i] in multiset(sugars);
    }
    WeightedAtLeastSum(sorted);
    GiniFormulaAtMostMax(|sorted|, Sum(sorted), Weighted(sorted));
  }

  /** For equal values v: Sum == n·v and 2·W(s) == (n + 1)·Sum(s). */
  lemma {:induction false} EqualWeighted(s: seq<real>, v: real)
    requires forall i :: 0 <= i < |s| ==> s[i] == v
    ensures Sum(s) == |s| as real * v
    ensures 2.0 * Weighted(s) == (|s| as real + 1.0) * Sum(s)
  {
    if s != [] {
      var n := |s| as real;
      EqualWeighted(s[1..], v);
      assert Sum(s) == v + (n - 1.0) * v == n * v;
      assert 2.0 * Weighted(s) == 2.0 * (n * v) + n * ((n - 1.0) * v);
      assert n * ((n - 1.0) * v) == (n * n) * v - n * v;
      assert (n + 1.0) * (n * v) == (n * n) * v + n * v;
    }
  }

  /** All n agents hold the same positive amount: the coefficient is 0. */
  lemma GiniOfEqualShares(sugars: seq<real>, v: real)
    requires |sugars| > 0 && v > 0.0
    requires forall i :: 0 <= i < |sugars| ==> sugars[i] == v
    ensures Gini(sugars) == Some(0.0)
  {
    ConstantSorted(sugars, v);
    SortedUnique(Sort(sugars), sugars);
    EqualSharesFormulaZero(sugars, v);
  }

  lemma EqualSharesFormulaZero(s: seq<real>, v: real)
    requires |s| > 0 && v > 0.0
    requires forall i :: 0 <= i < |s| ==> s[i] == v
    ensures Sum(s) > 0.0 && GiniFormula(|s|, Sum(s), Weighted(s)) == 0.0
  {
    EqualWeighted(s, v);
    ProductPositive(|s| as real, v);
    GiniFormulaZero(|s|, Sum(s), Weighted(s));
  }

  lemma {:induction false} ConstantSorted(s: seq<real>, v: real)
    requires forall i :: 0 <= i < |s| ==> s[i] == v
    ensures SortedAsc(s)
  {
    if s != [] {
      ConstantSorted(s[1..], v);
    }
  }

  function Zeros(k: nat): (z: seq<real>)
    ensures |z| == k && forall i :: 0 <= i < k ==> z[i] == 0.0
  {
    seq(k, i => 0.0)
  }

  lemma {:induction false} ZerosThenOne(k: nat, t: real)
    ensures Sum(Zeros(k) + [t]) == t
    ensures Weighted(Zeros(k) + [t]) == t
  {
    if k > 0 {
      assert (Zeros(k) + [t])[1..] == Zeros(k - 1) + [t];
      ZerosThenOne(k - 1, t);
    }
  }

  lemma {:induction false} ZerosThenOneSorted(k: nat, t: real)
    requires t >= 0.0
    ensures SortedAsc(Zeros(k) + [t])
  {
    var s := Zeros(k) + [t];
    if k > 0 {
      assert s[1..] == Zeros(k - 1) + [t];
      ZerosThenOneSorted(k - 1, t);
    } else {
      assert s[1..] == [];
    }
  }

  /** One agent holds everything (t > 0) and the other n - 1 hold nothing: the
      coefficient is 1 - 1/n, its largest value for n agents. */
  lemma GiniOfConcentration(before: nat, after: nat, t: real)
    requires t > 0.0
    ensures Gini(Zeros(before) + [t] + Zeros(after))
         == Some(1.0 - 1.0 / (before + after + 1) as real)
  {
    ConcentrationSorted(before, after, t);
    GiniIgnoresOrder(Zeros(before) + [t] + Zeros(after), Zeros(before + after) + [t]);
    GiniOfSortedConcentration(before, after, t);
  }

  /** GiniOfConcentration with the non-zero value already last. */
  lemma GiniOfSortedConcentration(before: nat, after: nat, t: real)
    requires t > 0.0
    ensures Gini(Zeros(before + after) + [t]) == Some(1.0 - 1.0 / (before + after + 1) as real)
  {
    var sorted := Zeros(before + after) + [t];
    ZerosThenOneSorted(before + after, t);
    SortedUnique(Sort(sorted), sorted);
    ZerosThenOne(before + after, t);
    GiniFormulaConcentrated(before + after + 1, t);
  }

  /** Moving the one non-zero value to the end keeps the same values. */
  lemma ConcentrationSorted(before: nat, after: nat, t: real)
    ensures multiset(Zeros(before) + [t] + Zeros(after)) == multiset(Zeros(before + after) + [t])
  {
    assert Zeros(before + after) == Zeros(before) + Zeros(after);
  }
}
