/** What the model's constructor draws: the configuration it accepts, the
    random inputs of the initial population, inclusive integer draws
    (`rng.integers(lo, hi, endpoint=True)`) and the placement of agents on
    cells drawn with replacement (`random.choices`). */
module Setup {
  import opened Seqs
  import opened Geometry
  import opened Randomness

  /** The constructor's keyword arguments (the seed is replaced by draws). */
  datatype Params = Params(
    width: nat, height: nat, initialPopulation: nat,
    endowmentMin: int, endowmentMax: int,
    metabolismMin: int, metabolismMax: int,
    visionMin: int, visionMax: int,
    techMin: int, techBottleneck: int,
    reductionScale: real, innovationDifficulty: real)

  /** The random inputs of the initial population: agent `i` is placed by
      `place(i)` and gets its attributes from the other streams at `i`. */
  datatype InitDraws = InitDraws(
    place: nat -> nat, endowment: nat -> nat, metabolism: nat -> nat,
    vision: nat -> nat, affiliation: nat -> nat)

  /** `rng.integers(lo, hi, endpoint=True)` for draw `d`: both ends are included. */
  function Between(lo: int, hi: int, d: nat): (r: int)
    requires lo <= hi
    ensures lo <= r <= hi
  {
    lo + d % (hi - lo + 1)
  }

  /** Every value of the inclusive range, `hi` among them, is drawn by some `d`. */
  lemma BetweenCovers(lo: int, hi: int, v: int)
    requires lo <= v <= hi
    ensures exists d: nat :: Between(lo, hi, d) == v
  {
    var d: nat := v - lo;
    assert Between(lo, hi, d) == v;
  }

  /** The cell `random.choices(all_cells, k=n)` gives agent `i`: the cells are
      drawn independently, with replacement. */
  function Placement(width: nat, height: nat, place: nat -> nat, i: nat): (c: Coord)
    requires width * height > 0
    ensures InBounds(c, width, height)
  {
    Choice(AllCells(width, height), place(i))
  }

  /** Placement does not keep agents apart: with at least two agents some
      draws put the first two on the same cell. */
  lemma PlacementCanCollide(width: nat, height: nat)
    requires width * height > 0
    ensures exists place: nat -> nat :: Placement(width, height, place, 0) == Placement(width, height, place, 1)
  {
    var place := (i: nat) => 0;
    assert Placement(width, height, place, 0) == Placement(width, height, place, 1);
  }

  /** More values than there are below `m`: two positions hold the same value. */
  lemma {:induction false} Pigeonhole(s: seq<nat>, m: nat)
    requires 0 < m < |s|
    requires forall i :: 0 <= i < |s| ==> s[i] < m
    ensures exists i, j :: 0 <= i < j < |s| && s[i] == s[j]
    decreases m
  {
    if m == 1 {
      assert s[0] == 0 == s[1];
    } else {
      var last := |s| - 1;
      var v := s[last];
      if k :| 0 <= k < last && s[k] == v {
        assert s[k] == s[last];
      } else {
        var t := seq(last, i requires 0 <= i < last => if s[i] < v then s[i] else s[i] - 1);
        forall i | 0 <= i < last
          ensures t[i] < m - 1
        {
          assert s[i] != v;
        }
        Pigeonhole(t, m - 1);
        var i, j :| 0 <= i < j < |t| && t[i] == t[j];
        assert s[i] != v && s[j] != v;
        assert s[i] == s[j];
      }
    }
  }

  /** More agents than cells: whatever the draws, two agents start on the
      same cell. */
  lemma CrowdedPlacementCollides(width: nat, height: nat, n: nat, place: nat -> nat)
    requires 0 < width * height < n
    ensures exists i, j ::
      0 <= i < j < n && Placement(width, height, place, i) == Placement(width, height, place, j)
  {
    var cells := AllCells(width, height);
    var s := seq(n, i requires 0 <= i < n => place(i) % |cells|);
    Pigeonhole(s, |cells|);
    var i, j :| 0 <= i < j < |s| && s[i] == s[j];
    assert Placement(width, height, place, i) == cells[s[i]];
    assert Placement(width, height, place, j) == cells[s[j]];
  }
}
