/** The decision rule of `SugarAgent.move`, over a snapshot of what the agent
    sees: the empty cells in its neighbourhood and the sugar level of each.
    Distances are compared through their squares, so no square root is taken. */
module Movement {
  import opened Seqs
  import opened Geometry
  import opened Randomness
  import opened RealArith

  /** The default relative tolerance of `math.isclose` (1e-09), used on sugar levels. */
  const SugarRelTol: real := 0.000000001

  /** The relative tolerance of the distance comparison (1e-02). */
  const DistanceRelTol: real := 0.01

  function AbsR(r: real): real
  {
    if r < 0.0 then -r else r
  }

  function MaxR(a: real, b: real): real
  {
    if a >= b then a else b
  }

  /** `math.isclose(a, b, rel_tol=relTol)` with the default `abs_tol` of 0, over exact reals. */
  predicate IsClose(a: real, b: real, relTol: real)
  {
    AbsR(a - b) <= relTol * MaxR(AbsR(a), AbsR(b))
  }

  lemma IsCloseReflexive(a: real, relTol: real)
    requires relTol >= 0.0
    ensures IsClose(a, a, relTol)
  {
    assert MaxR(AbsR(a), AbsR(a)) >= 0.0;
  }

  /** `max(vals)`. */
  function MaxOf(vals: seq<real>): (m: real)
    requires |vals| > 0
    ensures m in vals
    ensures forall i :: 0 <= i < |vals| ==> vals[i] <= m
  {
    if |vals| == 1 then vals[0]
    else
      var rest := MaxOf(vals[1..]);
      if vals[0] >= rest then vals[0] else rest
  }

  /** Cell `i` of the snapshot has sugar close to the largest level seen. */
  ghost predicate IsSugarCandidate(sugars: seq<real>, i: int)
  {
    0 <= i < |sugars| && IsClose(sugars[i], MaxOf(sugars), SugarRelTol)
  }

  /** `candidates_index`: the positions whose sugar is close to the maximum. */
  function MaxSugarIndices(sugars: seq<real>): (r: seq<nat>)
    requires |sugars| > 0
    ensures |r| > 0
    ensures forall i :: i in r <==> IsSugarCandidate(sugars, i)
  {
    var top := MaxOf(sugars);
    var r := Filter(Range(|sugars|), (i: nat) => i < |sugars| && IsClose(sugars[i], top, SugarRelTol));
    var p :| 0 <= p < |sugars| && sugars[p] == top;
    IsCloseReflexive(top, SugarRelTol);
    assert p in r;
    r
  }

  /** Position in `idx` of a cell nearest to `origin`: where `min` over the
      candidates' distances is attained. */
  function NearestPos(origin: Coord, cells: seq<Coord>, idx: seq<nat>): (k: nat)
    requires |idx| > 0
    requires forall j :: 0 <= j < |idx| ==> idx[j] < |cells|
    ensures k < |idx|
    ensures forall j :: 0 <= j < |idx| ==>
      SqDistance(origin, cells[idx[k]]) <= SqDistance(origin, cells[idx[j]])
  {
    if |idx| == 1 then 0
    else
      var k := NearestPos(origin, cells, idx[1..]) + 1;
      if SqDistance(origin, cells[idx[0]]) <= SqDistance(origin, cells[idx[k]]) then 0 else k
  }

  /** `math.isclose(d, min_dist, rel_tol=1e-02)` for d >= min_dist, stated on the
      squares: 9801·d² <= 10000·min_dist² (see DistanceToleranceBySquares). */
  predicate WithinDistanceTolerance(sq: int, minSq: int)
  {
    9801 * sq <= 10000 * minSq
  }

  /** `final_candidates`: the positions of the cells `move` may choose among.
      A position qualifies exactly when its sugar is close to the maximum and its
      distance is within 1% of the distance of every such cell. There is one
      whenever any empty cell is visible. */
  function FinalCandidates(origin: Coord, cells: seq<Coord>, sugars: seq<real>): (r: seq<nat>)
    requires |sugars| == |cells|
    ensures |r| > 0 <==> |cells| > 0
    ensures forall i :: i in r <==>
      IsSugarCandidate(sugars, i) &&
      forall j :: IsSugarCandidate(sugars, j) ==>
        WithinDistanceTolerance(SqDistance(origin, cells[i]), SqDistance(origin, cells[j]))
  {
    if |sugars| == 0 then []
    else
      var cands := MaxSugarIndices(sugars);
      assert forall j :: 0 <= j < |cands| ==> cands[j] in cands;
      var k := NearestPos(origin, cells, cands);
      var minSq := SqDistance(origin, cells[cands[k]]);
      var near := (i: nat) => i < |cells| && WithinDistanceTolerance(SqDistance(origin, cells[i]), minSq);
      var r := Filter(cands, near);
      assert forall i :: i in r <==> (i in cands && near(i));
      SqDistanceIsMetricLike(origin, cells[cands[k]]);
      assert near(cands[k]);
      NearestFilterCharacterised(origin, cells, sugars, cands, k, r);
      r
  }

  /** The distance filter over the maximum-sugar positions keeps exactly the
      positions within tolerance of every maximum-sugar position. */
  lemma NearestFilterCharacterised(origin: Coord, cells: seq<Coord>, sugars: seq<real>,
                                   cands: seq<nat>, k: nat, r: seq<nat>)
    requires |sugars| == |cells| > 0
    requires forall i :: i in cands <==> IsSugarCandidate(sugars, i)
    requires k < |cands|
    requires forall j :: 0 <= j < |cands| ==> cands[j] < |cells|
    requires forall j :: 0 <= j < |cands| ==>
      SqDistance(origin, cells[cands[k]]) <= SqDistance(origin, cells[cands[j]])
    requires forall i :: i in r <==>
      (i in cands && i < |cells| &&
       WithinDistanceTolerance(SqDistance(origin, cells[i]), SqDistance(origin, cells[cands[k]])))
    ensures forall i :: i in r <==>
      IsSugarCandidate(sugars, i) &&
      forall j :: IsSugarCandidate(sugars, j) ==>
        WithinDistanceTolerance(SqDistance(origin, cells[i]), SqDistance(origin, cells[j]))
  {
    var minSq := SqDistance(origin, cells[cands[k]]);
    forall i | i in r
      ensures forall j :: IsSugarCandidate(sugars, j) ==>
        WithinDistanceTolerance(SqDistance(origin, cells[i]), SqDistance(origin, cells[j]))
    {
      forall j | IsSugarCandidate(sugars, j)
        ensures WithinDistanceTolerance(SqDistance(origin, cells[i]), SqDistance(origin, cells[j]))
      {
        var q :| 0 <= q < |cands| && cands[q] == j;
        assert minSq <= SqDistance(origin, cells[cands[q]]);
      }
    }
    assert cands[k] in cands;
  }

  /** Where `move` puts an agent standing on `origin` that sees the empty
      cells `cells` holding `sugars`: a final candidate drawn by `pick`, or
      `origin` itself when it sees no empty cell. */
  function Target(origin: Coord, cells: seq<Coord>, sugars: seq<real>, pick: nat): (r: Coord)
    requires |sugars| == |cells|
    ensures |cells| == 0 ==> r == origin
    ensures |cells| > 0 ==> r in cells
  {
    var finals := FinalCandidates(origin, cells, sugars);
    if |finals| > 0 then cells[Choice(finals, pick)] else origin
  }

  /** What `move` promises about the cell it picks: it stays exactly when it
      sees no empty cell; otherwise the target is one of the cells seen, its
      sugar is close to the largest level seen, and its distance is within 1%
      of that of every other maximum-sugar cell. */
  lemma TargetIsBestVisibleCell(origin: Coord, cells: seq<Coord>, sugars: seq<real>, pick: nat)
    requires |sugars| == |cells|
    requires origin !in cells
    ensures Target(origin, cells, sugars, pick) == origin <==> |cells| == 0
    ensures |cells| > 0 ==>
      exists i :: 0 <= i < |cells| && cells[i] == Target(origin, cells, sugars, pick) && IsSugarCandidate(sugars, i)
    ensures |cells| > 0 ==>
      forall j :: IsSugarCandidate(sugars, j) ==>
        WithinDistanceTolerance(SqDistance(origin, Target(origin, cells, sugars, pick)), SqDistance(origin, cells[j]))
  {
    var finals := FinalCandidates(origin, cells, sugars);
    if |cells| > 0 {
      var i := Choice(finals, pick);
      assert IsSugarCandidate(sugars, i);
      assert cells[i] == Target(origin, cells, sugars, pick);
    }
  }

  lemma SquaresStrictlyMonotone(a: real, b: real)
    requires a > b && b >= 0.0
    ensures a * a > b * b
  {
    ProductPositive(a - b, a + b);
    assert (a - b) * (a + b) == a * a - b * b;
  }

  /** On non-negative reals, comparing squares is comparing the numbers. */
  lemma SquaresMonotone(a: real, b: real)
    requires 0.0 <= a && 0.0 <= b
    ensures a <= b <==> a * a <= b * b
  {
    if a < b {
      SquaresStrictlyMonotone(b, a);
    } else if b < a {
      SquaresStrictlyMonotone(a, b);
    }
  }

  /** For distances 0 <= m <= d, `math.isclose(d, m, rel_tol=1e-02)` holds exactly
      when the squared test WithinDistanceTolerance does: comparing squared
      integer distances selects the same cells as the source's square roots. */
  lemma DistanceToleranceBySquares(d: real, m: real, sq: int, minSq: int)
    requires 0.0 <= m <= d
    requires d * d == sq as real && m * m == minSq as real
    ensures IsClose(d, m, DistanceRelTol) <==> WithinDistanceTolerance(sq, minSq)
  {
    assert IsClose(d, m, DistanceRelTol) <==> 99.0 * d <= 100.0 * m;
    SquaresMonotone(99.0 * d, 100.0 * m);
    assert (99.0 * d) * (99.0 * d) == 9801.0 * (d * d);
    assert (100.0 * m) * (100.0 * m) == 10000.0 * (m * m);
  }
}
