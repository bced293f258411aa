/** The simulation itself: agents that move, share technology, harvest, die
    and innovate on a sugar grid, and the model that regrows the grid, drives
    the five agent passes of a tick and records the three metrics.

    Every random decision is an input: a `shuffle_do` pass orders the agents by
    a stream of shuffle draws, `random.choice` takes a drawn position, and
    `random.random()` is a drawn real. */
module Sugarscape {
  import opened Seqs
  import opened Geometry
  import opened Randomness
  import opened Movement
  import opened Metrics
  import opened RealArith
  import opened Setup

  /** One row of the data collector: the "Gini", "Tech" and "Ratio" reporters.
      None stands where the reporter divides by zero. */
  datatype Sample = Sample(gini: Option<real>, tech: Option<real>, ratio: Option<real>)

  /** The random inputs of one tick, one stream per use. */
  datatype StepDraws = StepDraws(
    moveOrder: nat -> nat, movePicks: nat -> nat,
    shareOrder: nat -> nat, sharePicks: nat -> nat,
    eatOrder: nat -> nat,
    dieOrder: nat -> nat,
    innovateOrder: nat -> nat, innovateDraws: nat -> real)

  /** `np.minimum(level + 1, capacity)` on one cell: one more unit, up to the
      capacity. A level within [0, capacity] stays within it and never drops. */
  function Regrown(level: real, capacity: real): real
  {
    if level + 1.0 <= capacity then level + 1.0 else capacity
  }

  /** Regrowth adds at most one unit and never passes the capacity; it is
      either one more unit or the capacity itself; and a level within
      [0, capacity] stays within it and never drops. */
  lemma RegrownStaysWithin(level: real, capacity: real)
    ensures Regrown(level, capacity) <= level + 1.0 && Regrown(level, capacity) <= capacity
    ensures Regrown(level, capacity) == level + 1.0 || Regrown(level, capacity) == capacity
    ensures 0.0 <= level <= capacity ==> level <= Regrown(level, capacity) <= capacity
  {
  }

  /** Metabolism `m` after `k` raises of `update_tech_level`, each of which
      multiplies it by `scale`; no raise for `k <= 0`. */
  function Scaled(m: real, scale: real, k: int): real
    decreases k
  {
    if k <= 0 then m else Scaled(m, scale, k - 1) * scale
  }

  /** Raises add up: `j` raises followed by `k` more are `j + k` raises. */
  lemma {:induction false} ScaledAdd(m: real, scale: real, j: int, k: int)
    requires j >= 0 && k >= 0
    ensures Scaled(Scaled(m, scale, j), scale, k) == Scaled(m, scale, j + k)
    decreases k
  {
    if k > 0 {
      ScaledAdd(m, scale, j, k - 1);
    }
  }

  /** `d1` raises from `m0` to `m1` and then `d2` more from `m1` to `m` are
      `d1 + d2` raises from `m0` to `m`. */
  lemma ScaledCompose(m0: real, scale: real, t0: int, t1: int, m1: real, t: int, m: real)
    requires t0 <= t1 && m1 == Scaled(m0, scale, t1 - t0)
    requires t1 <= t && m == Scaled(m1, scale, t - t1)
    ensures t0 <= t && m == Scaled(m0, scale, t - t0)
  {
    ScaledAdd(m0, scale, t1 - t0, t - t1);
  }

  /** An agent that kept its level and metabolism, or took one raise, has the
      metabolism of `tech - old tech` raises. */
  lemma KeptOrRaisedIsScaled(t0: int, m0: real, t: int, m: real, scale: real)
    requires (t == t0 && m == m0) || (t == t0 + 1 && m == m0 * scale)
    ensures t0 <= t && m == Scaled(m0, scale, t - t0)
  {
    if t == t0 + 1 {
      assert Scaled(m0, scale, 1) == Scaled(m0, scale, 0) * scale;
    }
  }

  /** The converse for a pass with at most one raise: a metabolism scaled as
      `Scaled` says is either unchanged or multiplied by `scale` exactly once. */
  lemma AtMostOneRaise(t0: int, m0: real, t: int, m: real, scale: real)
    requires t0 <= t <= t0 + 1 && m == Scaled(m0, scale, t - t0)
    ensures t == t0 ==> m == m0
    ensures t == t0 + 1 ==> m == m0 * scale
  {
    if t == t0 + 1 {
      assert Scaled(m0, scale, 1) == Scaled(m0, scale, 0) * scale;
    }
  }

  /** None of the first `n` agents of `s` stands on `c`. */
  ghost predicate Vacant(c: Coord, s: seq<SugarAgent>, n: int)
    reads s`cell
  {
    forall i :: 0 <= i < n && i < |s| ==> s[i].cell != c
  }

  /** The agents of `s` standing on `c` with affiliation 0, in order. */
  function InnovatorsOn(c: Coord, s: seq<SugarAgent>): (r: seq<SugarAgent>)
    reads s`cell
    ensures forall i :: 0 <= i < |r| ==> r[i] in s && r[i].cell == c && r[i].affiliation == 0
    ensures forall i :: 0 <= i < |s| && s[i].cell == c && s[i].affiliation == 0 ==> s[i] in r
  {
    if s == [] then []
    else
      assert forall i :: 1 <= i < |s| ==> s[i] == s[1..][i - 1];
      (if s[0].cell == c && s[0].affiliation == 0 then [s[0]] else []) + InnovatorsOn(c, s[1..])
  }

  /** For each cell of `cells` in turn, the affiliation-0 agents of `s`
      standing on it. */
  function InnovatorsOnAny(cells: seq<Coord>, s: seq<SugarAgent>): (r: seq<SugarAgent>)
    reads s`cell
    ensures forall i :: 0 <= i < |r| ==> r[i] in s && r[i].cell in cells && r[i].affiliation == 0
    ensures forall i :: 0 <= i < |s| && s[i].cell in cells && s[i].affiliation == 0 ==> s[i] in r
  {
    if cells == [] then []
    else
      assert forall c :: c in cells <==> c == cells[0] || c in cells[1..];
      InnovatorsOn(cells[0], s) + InnovatorsOnAny(cells[1..], s)
  }

  /** `after` is what is left of `before` once the agents in `seen` without
      sugar have been removed: each remaining agent once, and nobody else. */
  ghost predicate Culled(before: seq<SugarAgent>, after: seq<SugarAgent>, seen: set<SugarAgent>)
    reads before`sugar
  {
    Distinct(after) &&
    (forall i :: 0 <= i < |after| ==> after[i] in before && (after[i] in seen ==> after[i].sugar > 0.0)) &&
    (forall i :: 0 <= i < |before| && (before[i] !in seen || before[i].sugar > 0.0) ==> before[i] in after)
  }

  /** Nobody seen, nobody removed. */
  lemma CulledNothing(s: seq<SugarAgent>)
    requires Distinct(s)
    ensures Culled(s, s, {})
  {
  }

  /** One more turn of `see_if_die`: agent `a` leaves exactly when it has no
      sugar, and the rest stays as it was. */
  lemma CulledOneMore(s: seq<SugarAgent>, current: seq<SugarAgent>, seen: set<SugarAgent>, a: SugarAgent)
    requires Culled(s, current, seen) && a in s && a !in seen
    ensures Culled(s, if a.sugar <= 0.0 then Remove(current, a) else current, seen + {a})
  {
    var next := if a.sugar <= 0.0 then Remove(current, a) else current;
    forall i | 0 <= i < |s| && (s[i] !in seen + {a} || s[i].sugar > 0.0)
      ensures s[i] in next
    {
      assert s[i] in current;
      if a.sugar <= 0.0 {
        var j :| 0 <= j < |current| && current[j] == s[i];
      }
    }
    forall i | 0 <= i < |next|
      ensures next[i] in s && (next[i] in seen + {a} ==> next[i].sugar > 0.0)
    {
      if a.sugar <= 0.0 {
        assert next[i] in current && next[i] != a;
        var j :| 0 <= j < |current| && current[j] == next[i];
      }
    }
  }

  /** What the reporters read of `s`, agent by agent. */
  function View(s: seq<SugarAgent>): (r: seq<AgentView>)
    reads s`sugar, s`tech
    ensures |r| == |s|
    ensures forall i :: 0 <= i < |s| ==> r[i] == AgentView(s[i].sugar, s[i].tech, s[i].affiliation)
  {
    if s == [] then []
    else
      assert forall i :: 1 <= i < |s| ==> s[i] == s[1..][i - 1];
      [AgentView(s[0].sugar, s[0].tech, s[0].affiliation)] + View(s[1..])
  }

  /** The cells the agents of `s` stand on, in order. */
  function CellsOf(s: seq<SugarAgent>): (r: seq<Coord>)
    reads s`cell
    ensures |r| == |s|
    ensures forall i :: 0 <= i < |s| ==> r[i] == s[i].cell
  {
    if s == [] then [] else [s[0].cell] + CellsOf(s[1..])
  }

  /** The tech levels of the agents of `s`, in order. */
  ghost function TechsOf(s: seq<SugarAgent>): (r: seq<int>)
    reads s`tech
    ensures |r| == |s|
    ensures forall i :: 0 <= i < |s| ==> r[i] == s[i].tech
  {
    if s == [] then [] else [s[0].tech] + TechsOf(s[1..])
  }

  /** The metabolisms of the agents of `s`, in order. */
  ghost function MetabolismsOf(s: seq<SugarAgent>): (r: seq<real>)
    reads s`metabolism
    ensures |r| == |s|
    ensures forall i :: 0 <= i < |s| ==> r[i] == s[i].metabolism
  {
    if s == [] then [] else [s[0].metabolism] + MetabolismsOf(s[1..])
  }

  /** Agent `a` is the `i`-th agent the constructor creates from `p` and `d`:
      on the cell drawn for it, with attributes drawn from the inclusive
      ranges, at level `techMin`. */
  ghost predicate Spawned(a: SugarAgent, p: Params, d: InitDraws, i: nat)
    reads a`cell, a`sugar, a`metabolism, a`tech
  {
    p.width * p.height > 0 &&
    p.endowmentMin <= p.endowmentMax && p.metabolismMin <= p.metabolismMax && p.visionMin <= p.visionMax &&
    a.cell == Placement(p.width, p.height, d.place, i) &&
    a.sugar == Between(p.endowmentMin, p.endowmentMax, d.endowment(i)) as real &&
    a.metabolism == Between(p.metabolismMin, p.metabolismMax, d.metabolism(i)) as real &&
    a.vision == Between(p.visionMin, p.visionMax, d.vision(i)) &&
    a.tech == p.techMin &&
    a.affiliation == Between(0, 1, d.affiliation(i))
  }

  class SugarAgent {
    const model: SugarScape
    var cell: Coord
    var sugar: real
    var metabolism: real
    const vision: nat
    var tech: int
    const affiliation: int

    constructor (model: SugarScape, cell: Coord, sugar: real, metabolism: real, vision: nat,
                 tech: int, affiliation: int)
      ensures this.model == model && this.cell == cell && this.sugar == sugar
      ensures this.metabolism == metabolism && this.vision == vision
      ensures this.tech == tech && this.affiliation == affiliation
    {
      this.model := model;
      this.cell := cell;
      this.sugar := sugar;
      this.metabolism := metabolism;
      this.vision := vision;
      this.tech := tech;
      this.affiliation := affiliation;
    }

    /** `move`: go to the cell the decision rule picks among the empty cells in
        sight (see SugarScape.DestinationInSight and
        SugarScape.DestinationIsBest); no other agent moves. */
    method Move(pick: nat)
      requires model.Valid() && this in model.agents
      modifies this`cell
      ensures model.Valid()
      ensures cell == old(model.Destination(this, pick))
      ensures Manhattan(cell, old(cell)) <= vision
      ensures cell == old(cell) <==> |old(model.Possibles(this))| == 0
      ensures cell != old(cell) ==> cell in old(model.Possibles(this))
    {
      var target := model.Destination(this, pick);
      model.DestinationInSight(this, pick);
      cell := target;
      forall i | 0 <= i < |model.agents|
        ensures model.AgentOk(model.agents[i])
      {
        if model.agents[i] != this {
          assert old(model.AgentOk(model.agents[i]));
        }
      }
    }

    /** `gather_and_eat`: harvest the whole level of the current cell, then pay
        metabolism. Only that cell of the grid changes. */
    method GatherAndEat()
      requires model.Valid() && this in model.agents
      modifies this`sugar, model.level
      ensures model.Valid()
      ensures sugar == old(sugar) + old(model.level[cell.x, cell.y]) - metabolism
      ensures model.level[cell.x, cell.y] == 0.0
      ensures forall c :: InBounds(c, model.width, model.height) && c != cell ==>
        model.level[c.x, c.y] == old(model.level[c.x, c.y])
    {
      sugar := sugar + model.level[cell.x, cell.y];
      model.level[cell.x, cell.y] := 0.0;
      sugar := sugar - metabolism;
    }

    /** `see_if_die`: the agent leaves the population exactly when its sugar is
        not positive. */
    method SeeIfDie()
      requires this in model.agents
      modifies model`agents
      ensures model.agents == if sugar <= 0.0 then Remove(old(model.agents), this) else old(model.agents)
    {
      if sugar <= 0.0 {
        model.agents := Remove(model.agents, this);
      }
    }

    /** `update_tech_level`: one level up, metabolism scaled down. */
    method UpdateTechLevel()
      modifies this`tech, this`metabolism
      ensures tech == old(tech) + 1
      ensures metabolism == old(metabolism) * model.reductionScale
      ensures 0.0 < model.reductionScale < 1.0 && old(metabolism) > 0.0 ==> 0.0 < metabolism < old(metabolism)
    {
      tech := tech + 1;
      metabolism := metabolism * model.reductionScale;
      if 0.0 < model.reductionScale < 1.0 && old(metabolism) > 0.0 {
        ProductPositive(old(metabolism), model.reductionScale);
        ProductPositive(old(metabolism), 1.0 - model.reductionScale);
      }
    }

    /** `innovate`: an affiliation-0 agent with more sugar than metabolism draws
        a number (reported in `drew`) and goes up one level when its sugar times
        the difficulty exceeds the draw and it is below the bottleneck. */
    method Innovate(draw: real) returns (drew: bool)
      requires model.Valid() && this in model.agents
      modifies this`tech, this`metabolism
      ensures model.Valid()
      ensures drew == (sugar > old(metabolism) && affiliation == 0)
      ensures if drew && sugar * model.innovationDifficulty > draw && old(tech) < model.techBottleneck
        then tech == old(tech) + 1 && metabolism == old(metabolism) * model.reductionScale
        else tech == old(tech) && metabolism == old(metabolism)
      ensures RaisedScaled()
    {
      drew := sugar > metabolism && affiliation == 0;
      if drew {
        var pSuccess := sugar * model.innovationDifficulty;
        if pSuccess > draw && tech < model.techBottleneck {
          UpdateTechLevel();
        }
      }
      KeptOrRaisedIsScaled(old(tech), old(metabolism), tech, metabolism, model.reductionScale);
    }

    /** `share`: an affiliation-0 agent draws a partner from the affiliation-0
        agents in sight (itself included) and the strictly lower-tech of the
        two goes up one level. Nobody else changes. */
    method Share(pick: nat) returns (partner: Option<SugarAgent>)
      requires model.Valid() && this in model.agents
      modifies model.agents`tech, model.agents`metabolism
      ensures model.Valid()
      ensures affiliation != 0 <==> partner.None?
      ensures affiliation == 0 ==>
        this in old(model.SharePool(this)) &&
        partner == Some(old(Choice(model.SharePool(this), pick)))
      ensures partner.Some? ==> partner.value in old(model.agents) && partner.value.affiliation == 0
      ensures partner.Some? ==> ShareOutcome(partner.value)
      ensures partner.Some? ==> RaisedScaled() && partner.value.RaisedScaled()
      ensures partner.None? ==> tech == old(tech) && metabolism == old(metabolism)
      ensures forall b :: b in model.agents && b != this && partner != Some(b) ==>
        b.tech == old(b.tech) && b.metabolism == old(b.metabolism)
    {
      if affiliation == 0 {
        model.SharePoolMembers(this);
        var neighbor := Choice(model.SharePool(this), pick);
        partner := Some(neighbor);
        ShareWith(neighbor);
      } else {
        partner := None;
      }
    }

    /** The exchange at the end of `share`: the strictly lower-tech of this
        agent and `neighbor` goes up one level; nobody else changes. */
    method ShareWith(neighbor: SugarAgent)
      requires model.Valid() && this in model.agents && neighbor in model.agents
      modifies this`tech, this`metabolism, neighbor`tech, neighbor`metabolism
      ensures model.Valid()
      ensures ShareOutcome(neighbor)
      ensures RaisedScaled() && neighbor.RaisedScaled()
    {
      assert model.AgentOk(neighbor) && model.AgentOk(this);
      if neighbor.tech > tech {
        UpdateTechLevel();
        model.RaisedStaysValid(this);
      } else if neighbor.tech < tech {
        neighbor.UpdateTechLevel();
        model.RaisedStaysValid(neighbor);
      }
      KeptOrRaisedIsScaled(old(tech), old(metabolism), tech, metabolism, model.reductionScale);
      KeptOrRaisedIsScaled(old(neighbor.tech), old(neighbor.metabolism), neighbor.tech, neighbor.metabolism,
        model.reductionScale);
    }

    /** This agent's metabolism is its former one scaled once per level gained,
        and no level was lost. */
    twostate predicate RaisedScaled()
      reads this
    {
      old(tech) <= tech && metabolism == Scaled(old(metabolism), model.reductionScale, tech - old(tech))
    }

    /** What sharing with `p` does: the lower-tech of this agent and `p` gains
        one level with reduced metabolism, the other is unchanged, and equal
        levels change nothing. */
    twostate predicate ShareOutcome(p: SugarAgent)
      reads this, p
    {
      if old(p.tech) > old(tech) then
        tech == old(tech) + 1 && metabolism == old(metabolism) * model.reductionScale &&
        p.tech == old(p.tech) && p.metabolism == old(p.metabolism)
      else if old(p.tech) < old(tech) then
        p.tech == old(p.tech) + 1 && p.metabolism == old(p.metabolism) * model.reductionScale &&
        tech == old(tech) && metabolism == old(metabolism)
      else
        tech == old(tech) && metabolism == old(metabolism) &&
        p.tech == old(p.tech) && p.metabolism == old(p.metabolism)
    }
  }

  class SugarScape {
    const width: nat
    const height: nat
    /** The sugar map: the most each cell can hold. */
    const capacity: seq<seq<real>>
    /** The sugar property layer: the level of each cell. */
    const level: array2<real>
    const reductionScale: real
    const innovationDifficulty: real
    const techBottleneck: int
    /** The level every agent starts at. */
    ghost const techMin: int
    var agents: seq<SugarAgent>
    /** The rows recorded by the data collector, oldest first. */
    var samples: seq<Sample>

    /** `__init__`: every cell starts at its capacity, agent `i` is placed on
        the cell drawn for it (cells may repeat) with attributes drawn from the
        inclusive ranges and the common level `techMin`, and one row is
        recorded. */
    constructor (p: Params, capacity: seq<seq<real>>, d: InitDraws)
      requires |capacity| == p.width && forall x :: 0 <= x < p.width ==> |capacity[x]| == p.height
      requires forall x, y :: 0 <= x < p.width && 0 <= y < p.height ==> 0.0 <= capacity[x][y]
      requires p.width * p.height > 0 || p.initialPopulation == 0
      requires p.endowmentMin <= p.endowmentMax && p.metabolismMin <= p.metabolismMax
      requires 1 <= p.visionMin <= p.visionMax
      ensures Valid()
      ensures width == p.width && height == p.height && this.capacity == capacity
      ensures reductionScale == p.reductionScale && innovationDifficulty == p.innovationDifficulty
      ensures techBottleneck == p.techBottleneck && techMin == p.techMin
      ensures Full()
      ensures |agents| == p.initialPopulation
      ensures forall i :: 0 <= i < |agents| ==> agents[i].model == this && Spawned(agents[i], p, d, i)
      ensures samples == [Observe()]
    {
      width := p.width;
      height := p.height;
      this.capacity := capacity;
      level := new real[p.width, p.height]((x, y) requires 0 <= x < p.width && 0 <= y < p.height => capacity[x][y]);
      reductionScale := p.reductionScale;
      innovationDifficulty := p.innovationDifficulty;
      techBottleneck := p.techBottleneck;
      techMin := p.techMin;
      agents := [];
      samples := [];
      new;
      assert Full();
      Populate(p, d);
      Collect();
    }

    /** Every cell holds as much sugar as it can. */
    ghost predicate Full()
      reads level
    {
      LayersOk() && forall x, y :: 0 <= x < width && 0 <= y < height ==> level[x, y] == capacity[x][y]
    }

    /** The agent-creation part of `__init__`: agent `i` of `p.initialPopulation`
        is created from the draws at `i`. */
    method Populate(p: Params, d: InitDraws)
      requires Valid() && agents == []
      requires p.width == width && p.height == height && p.techMin == techMin
      requires p.width * p.height > 0 || p.initialPopulation == 0
      requires p.endowmentMin <= p.endowmentMax && p.metabolismMin <= p.metabolismMax
      requires 1 <= p.visionMin <= p.visionMax
      modifies this`agents
      ensures Valid() && |agents| == p.initialPopulation
      ensures forall i :: 0 <= i < |agents| ==> agents[i].model == this && Spawned(agents[i], p, d, i)
    {
      for i := 0 to p.initialPopulation
        invariant Valid() && |agents| == i
        invariant forall j :: 0 <= j < i ==> agents[j].model == this && Spawned(agents[j], p, d, j)
      {
        var a := new SugarAgent(this, Placement(p.width, p.height, d.place, i),
                                Between(p.endowmentMin, p.endowmentMax, d.endowment(i)) as real,
                                Between(p.metabolismMin, p.metabolismMax, d.metabolism(i)) as real,
                                Between(p.visionMin, p.visionMax, d.vision(i)),
                                p.techMin, Between(0, 1, d.affiliation(i)));
        DistinctSnoc(agents, a);
        agents := agents + [a];
      }
    }

    /** One row of the data collector for the current population: the Gini
        coefficient, the average tech level of affiliation 0 and the share of
        affiliation 0, each None where the source divides by zero. */
    function Observe(): Sample
      reads this`agents, agents`sugar, agents`tech
    {
      var pop := View(agents);
      Sample(Gini(Sugars(pop)), AvgTech(pop), Ratio(pop))
    }

    /** Where the recorded row has no value: the ratio for an empty
        population, the average tech when nobody has affiliation 0, the Gini
        coefficient for an empty population or one without sugar. */
    lemma ObservedUndefinedCases()
      ensures Observe().ratio.None? <==> |agents| == 0
      ensures Observe().tech.None? <==> forall i :: 0 <= i < |agents| ==> agents[i].affiliation != 0
      ensures Observe().gini.None? <==> |agents| == 0 || Sum(Sugars(View(agents))) == 0.0
    {
      var pop := View(agents);
      assert forall i :: 0 <= i < |agents| ==> pop[i].affiliation == agents[i].affiliation;
    }

    /** The recorded average tech level stays within the levels an agent can
        hold: from `techMin` up to the cap. */
    lemma ObservedTechInRange()
      requires Valid()
      ensures Observe().tech.Some? ==> techMin as real <= Observe().tech.value <= TechCap() as real
    {
      var pop := View(agents);
      var ts := InnovatorTechs(pop);
      if |ts| > 0 {
        var i :| 0 <= i < |pop| && pop[i].affiliation == 0 && pop[i].tech == MinInt(ts);
        var j :| 0 <= j < |pop| && pop[j].affiliation == 0 && pop[j].tech == MaxInt(ts);
        assert AgentOk(agents[i]) && AgentOk(agents[j]);
      }
    }

    /** When every agent holds sugar, as after the die pass, the recorded Gini
        coefficient is defined and lies between 0 and 1 - 1/n. */
    lemma ObservedGiniInRange()
      requires |agents| > 0
      requires forall i :: 0 <= i < |agents| ==> agents[i].sugar > 0.0
      ensures Observe().gini.Some?
      ensures 0.0 <= Observe().gini.value <= 1.0 - 1.0 / |agents| as real
    {
      var s := Sugars(View(agents));
      SumAtLeast(s[1..], 0.0);
      assert Sum(s) == s[0] + Sum(s[1..]);
      GiniNonNegative(s);
      GiniAtMostMax(s);
    }

    /** `datacollector.collect`: one more row, for the current population. */
    method Collect()
      requires Valid()
      modifies this`samples
      ensures Valid()
      ensures samples == old(samples) + [Observe()]
    {
      samples := samples + [Observe()];
      StateKeptValid();
    }

    /** `step`: regrow the sugar, run the five agent passes, then record one
        row for the population that is left. */
    method Step(d: StepDraws)
      requires Valid()
      modifies this`agents, this`samples, level, agents`cell, agents`sugar, agents`tech, agents`metabolism
      ensures Valid()
      ensures Ticked(old(agents))
      ensures samples == old(samples) + [Observe()]
    {
      Tick(d);
      Collect();
    }

    /** After a tick every survivor holds sugar, so the row `Step` records for
        a non-empty population has a Gini coefficient in [0, 1 - 1/n]. */
    twostate lemma TickedRecordsGini(before: seq<SugarAgent>)
      requires Ticked(before)
      ensures |agents| > 0 ==> Observe().gini.Some? && 0.0 <= Observe().gini.value <= 1.0 - 1.0 / |agents| as real
    {
      if |agents| > 0 {
        ObservedGiniInRange();
      }
    }

    /** What a tick does: the survivors are exactly the former agents that
        still hold sugar; each moved within its vision and sits on a harvested
        cell; no tech level dropped, each metabolism was scaled once per level
        gained, and affiliation-1 agents kept their tech and metabolism; every
        cell no former agent stands on has regrown by one unit up to its
        capacity; agents that stood on separate cells still do. */
    twostate predicate Ticked(before: seq<SugarAgent>)
      reads this`agents, level, agents, before
    {
      before == old(agents) && HarvestedSurvivors(before) && LayersOk() &&
      (forall i :: 0 <= i < |agents| ==> var a := agents[i];
        Manhattan(a.cell, old(a.cell)) <= a.vision && a.RaisedScaled() &&
        (a.affiliation != 0 ==> a.tech == old(a.tech) && a.metabolism == old(a.metabolism))) &&
      (forall c :: InBounds(c, width, height) && Vacant(c, before, |before|) ==>
        level[c.x, c.y] == Regrown(old(level[c.x, c.y]), capacity[c.x][c.y])) &&
      (old(NoSharedCells()) ==> NoSharedCells())
    }

    /** One tick without the data collector: regrowth, then the move, share,
        harvest, die and innovate passes, each in its own shuffled order. */
    method Tick(d: StepDraws)
      requires Valid()
      modifies this`agents, level, agents`cell, agents`sugar, agents`tech, agents`metabolism
      ensures Valid()
      ensures Ticked(old(agents))
    {
      ghost var before := map a | a in agents :: (a.tech, a.metabolism);
      RegrowMoveShare(d);
      ScaledFromIntro(before);
      label shared:
      LaterPasses(d, before);
      ScaledFromRaised(before);
    }

    /** Every agent's tech level is at least the one `before` records for
        it, and its metabolism is the recorded one scaled once per level gained
        since. The record is keyed by agent, so it survives the die pass; see
        ScaledSince for the same statement by position. */
    ghost predicate ScaledFrom(before: map<SugarAgent, (int, real)>)
      reads this`agents, agents`tech, agents`metabolism
    {
      (forall a :: a in agents ==> a in before) &&
      forall a {:trigger before[a]} :: a in agents && a in before ==>
        before[a].0 <= a.tech && a.metabolism == Scaled(before[a].1, reductionScale, a.tech - before[a].0)
    }

    /** A pass that keeps only former agents, each raised and scaled, keeps
        ScaledFrom. */
    twostate lemma ScaledFromKept(before: map<SugarAgent, (int, real)>)
      requires old(ScaledFrom(before)) && Valid()
      requires forall i :: 0 <= i < |agents| ==> agents[i] in old(agents) && agents[i].RaisedScaled()
      ensures ScaledFrom(before)
    {
      forall a | a in agents
        ensures a in before && before[a].0 <= a.tech &&
          a.metabolism == Scaled(before[a].1, reductionScale, a.tech - before[a].0)
      {
        assert AgentOk(a) && a in old(agents) && a.RaisedScaled();
        ScaledCompose(before[a].1, reductionScale, before[a].0, old(a.tech), old(a.metabolism), a.tech, a.metabolism);
      }
    }

    /** A pass that only drops agents and leaves every tech level and
        metabolism as it was keeps ScaledFrom. */
    twostate lemma ScaledFromShrunk(before: map<SugarAgent, (int, real)>)
      requires old(ScaledFrom(before))
      requires forall i :: 0 <= i < |agents| ==> agents[i] in old(agents)
      requires forall a :: a in old(agents) ==> a.tech == old(a.tech) && a.metabolism == old(a.metabolism)
      ensures ScaledFrom(before)
    {
      forall a | a in agents && a in before
        ensures before[a].0 <= a.tech && a.metabolism == Scaled(before[a].1, reductionScale, a.tech - before[a].0)
      {
        assert a in old(agents) && old(before[a].0 <= a.tech);
      }
    }

    /** Agents that are each raised and scaled since a record was taken of
        them are ScaledFrom that record. */
    twostate lemma ScaledFromIntro(before: map<SugarAgent, (int, real)>)
      requires before == old(map a | a in agents :: (a.tech, a.metabolism))
      requires agents == old(agents) && Valid()
      requires forall i :: 0 <= i < |agents| ==> agents[i].RaisedScaled()
      ensures ScaledFrom(before)
    {
      forall a | a in agents
        ensures a in before && before[a].0 <= a.tech &&
          a.metabolism == Scaled(before[a].1, reductionScale, a.tech - before[a].0)
      {
        var i :| 0 <= i < |agents| && agents[i] == a;
        assert AgentOk(a) && a.RaisedScaled();
        assert before[a] == (old(a.tech), old(a.metabolism));
      }
    }

    /** An agent set that ScaledFrom a record of the former agents, and holds
        only former agents, has every agent raised and scaled since then. */
    twostate lemma ScaledFromRaised(before: map<SugarAgent, (int, real)>)
      requires before == old(map a | a in agents :: (a.tech, a.metabolism))
      requires ScaledFrom(before) && Valid()
      requires forall i :: 0 <= i < |agents| ==> agents[i] in old(agents)
      ensures forall i :: 0 <= i < |agents| ==> agents[i].RaisedScaled()
    {
      forall i | 0 <= i < |agents|
        ensures agents[i].RaisedScaled()
      {
        var a := agents[i];
        assert a in old(agents) && a in agents && AgentOk(a);
        assert before[a] == (old(a.tech), old(a.metabolism));
      }
    }

    /** The harvest, die and innovate passes: the agents left are the former
        agents that still hold sugar, each on a harvested cell; every cell no
        former agent stands on keeps its level; each survivor has innovated at
        most once; and a record `before` that the agents were ScaledFrom still
        holds for them. */
    method LaterPasses(d: StepDraws, ghost before: map<SugarAgent, (int, real)>)
      requires Valid() && ScaledFrom(before)
      modifies this`agents, level, agents`sugar, agents`tech, agents`metabolism
      ensures Valid()
      ensures HarvestedSurvivors(old(agents))
      ensures forall c :: InBounds(c, width, height) && Vacant(c, old(agents), |old(agents)|) ==>
        level[c.x, c.y] == old(level[c.x, c.y])
      ensures forall a :: a in agents ==> InnovatedAtMostOnce(a)
      ensures old(NoSharedCells()) ==> NoSharedCells()
      ensures ScaledFrom(before)
    {
      HarvestAndCull(d, before);
      label culled:
      var _ := InnovatePhase(d.innovateOrder, d.innovateDraws, before);
      CellsKeptNoSharing@culled();
      forall a | a in agents
        ensures InnovatedAtMostOnce(a)
      {
        assert a in old(agents) && InnovatedAtMostOnce@culled(a);
      }
    }

    /** Regrowth, then the move pass and the share pass: every cell has
        regrown, nobody leaves, each agent moves at most its vision, no tech
        level drops, each metabolism is scaled once per level gained, and
        affiliation-1 agents keep their tech and metabolism. */
    method RegrowMoveShare(d: StepDraws)
      requires Valid()
      modifies level, agents`cell, agents`tech, agents`metabolism
      ensures Valid() && agents == old(agents)
      ensures forall x, y :: 0 <= x < width && 0 <= y < height ==>
        level[x, y] == Regrown(old(level[x, y]), capacity[x][y])
      ensures forall a :: a in agents ==> Manhattan(a.cell, old(a.cell)) <= a.vision
      ensures forall i :: 0 <= i < |agents| ==> agents[i].RaisedScaled()
      ensures forall a :: a in agents && a.affiliation != 0 ==> a.tech == old(a.tech) && a.metabolism == old(a.metabolism)
      ensures old(NoSharedCells()) ==> NoSharedCells()
    {
      ghost var techs, metabolisms := TechsOf(agents), MetabolismsOf(agents);
      Regrow();
      MovePhase(d.moveOrder, d.movePicks);
      assert TechsOf(agents) == techs && MetabolismsOf(agents) == metabolisms;
      SharePhase(d.shareOrder, d.sharePicks);
      assert ScaledSince(techs, metabolisms);
      forall i | 0 <= i < |agents|
        ensures agents[i].RaisedScaled()
      {
        assert techs[i] == old(agents[i].tech) && metabolisms[i] == old(agents[i].metabolism);
      }
    }

    /** The harvest pass followed by the die pass: the agents left are the
        former agents that still hold sugar, each on a harvested cell; every
        cell no former agent stands on keeps its level; and no tech level or
        metabolism changes, so a record the agents were ScaledFrom still holds. */
    method HarvestAndCull(d: StepDraws, ghost before: map<SugarAgent, (int, real)>)
      requires Valid() && ScaledFrom(before)
      modifies this`agents, agents`sugar, level
      ensures Valid() && ScaledFrom(before)
      ensures HarvestedSurvivors(old(agents))
      ensures forall a :: a in old(agents) ==> a.tech == old(a.tech) && a.metabolism == old(a.metabolism)
      ensures forall c :: InBounds(c, width, height) && Vacant(c, old(agents), |old(agents)|) ==>
        level[c.x, c.y] == old(level[c.x, c.y])
      ensures old(NoSharedCells()) ==> NoSharedCells()
    {
      EatPhase(d.eatOrder);
      CellsKeptNoSharing();
      label fed:
      DiePhase(d.dieOrder);
      forall i | 0 <= i < |agents|
        ensures level[agents[i].cell.x, agents[i].cell.y] == 0.0
      {
        var j :| 0 <= j < |old@fed(agents)| && old@fed(agents)[j] == agents[i];
      }
      ScaledFromShrunk(before);
    }

    /** The agents are exactly those of `before` that still hold sugar, each
        on a cell whose level is 0. */
    ghost predicate HarvestedSurvivors(before: seq<SugarAgent>)
      reads this`agents, agents`sugar, agents`cell, before`sugar, level
    {
      (forall i :: 0 <= i < |agents| ==> agents[i] in before && agents[i].sugar > 0.0) &&
      (forall i :: 0 <= i < |before| && before[i].sugar > 0.0 ==> before[i] in agents) &&
      (forall i :: 0 <= i < |agents| ==> var c := agents[i].cell;
        0 <= c.x < level.Length0 && 0 <= c.y < level.Length1 && level[c.x, c.y] == 0.0)
    }

    /** The highest level an agent can reach: the bottleneck, unless agents
        already start above it. */
    ghost function TechCap(): int
    {
      if techBottleneck >= techMin then techBottleneck else techMin
    }

    ghost predicate LayersOk()
      reads level
    {
      level.Length0 == width && level.Length1 == height &&
      |capacity| == width &&
      (forall x :: 0 <= x < width ==> |capacity[x]| == height) &&
      forall x, y :: 0 <= x < width && 0 <= y < height ==> 0.0 <= level[x, y] <= capacity[x][y]
    }

    ghost predicate AgentOk(a: SugarAgent)
      reads a`cell, a`tech
    {
      a.model == this && InBounds(a.cell, width, height) &&
      techMin <= a.tech <= TechCap() &&
      (a.affiliation == 0 || a.affiliation == 1)
    }

    /** The model invariant: every level within [0, capacity], each agent
        registered once, on the grid, with its tech level in range. */
    ghost predicate Valid()
      reads this`agents, level, agents`cell, agents`tech
    {
      LayersOk() && Distinct(agents) && forall i :: 0 <= i < |agents| ==> AgentOk(agents[i])
    }

    /** At most one agent per cell. */
    ghost predicate NoSharedCells()
      reads this`agents, agents`cell
    {
      Distinct(CellsOf(agents))
    }

    /** Some agent stands on `c` (`not cell.is_empty`). */
    predicate Occupied(c: Coord)
      reads this`agents, agents`cell
    {
      exists i :: 0 <= i < |agents| && agents[i].cell == c
    }

    /** The cells of `cells` that no agent stands on, in order. */
    function EmptyAmong(cells: seq<Coord>): (r: seq<Coord>)
      reads this`agents, agents`cell
      ensures forall c :: c in r <==> c in cells && !Occupied(c)
    {
      if cells == [] then []
      else
        assert forall c :: c in cells <==> c == cells[0] || c in cells[1..];
        (if Occupied(cells[0]) then [] else [cells[0]]) + EmptyAmong(cells[1..])
    }

    /** The cells of `cells` that some agent stands on, in order. */
    function OccupiedAmong(cells: seq<Coord>): (r: seq<Coord>)
      reads this`agents, agents`cell
      ensures forall c :: c in r <==> c in cells && Occupied(c)
    {
      if cells == [] then []
      else
        assert forall c :: c in cells <==> c == cells[0] || c in cells[1..];
        (if Occupied(cells[0]) then [cells[0]] else []) + OccupiedAmong(cells[1..])
    }

    function LevelAt(c: Coord): real
      reads level
      requires LayersOk() && InBounds(c, width, height)
    {
      level[c.x, c.y]
    }

    /** `sugar_values` of `move`: the level of each cell, in order. */
    function LevelsAt(cells: seq<Coord>): (r: seq<real>)
      reads level
      requires LayersOk()
      requires forall c :: c in cells ==> InBounds(c, width, height)
      ensures |r| == |cells|
      ensures forall i :: 0 <= i < |cells| ==> r[i] == LevelAt(cells[i])
    {
      if cells == [] then [] else [LevelAt(cells[0])] + LevelsAt(cells[1..])
    }

    /** `possibles` of `move`: the empty cells within `a`'s vision. */
    function Possibles(a: SugarAgent): (r: seq<Coord>)
      reads this`agents, agents`cell, a`cell
      ensures forall c :: c in r <==>
        InBounds(c, width, height) && Manhattan(c, a.cell) <= a.vision && !Occupied(c)
    {
      EmptyAmong(Neighborhood(a.cell, a.vision, width, height))
    }

    /** The cell `move` sends `a` to when the choice draws `pick`. */
    function Destination(a: SugarAgent, pick: nat): Coord
      reads this`agents, agents`cell, a`cell, level
      requires LayersOk()
    {
      var possibles := Possibles(a);
      Target(a.cell, possibles, LevelsAt(possibles), pick)
    }

    /** `filtered_neighbors` of `share`. */
    function SharePool(a: SugarAgent): (r: seq<SugarAgent>)
      reads this`agents, agents`cell, a`cell
    {
      InnovatorsOnAny(OccupiedAmong(Neighborhood(a.cell, a.vision, width, height)), agents)
    }

    /** Every agent taken from the schedule belongs to this model. */
    lemma QueueBelongs(queue: seq<SugarAgent>)
      requires Valid()
      requires forall j :: 0 <= j < |queue| ==> queue[j] in agents
      ensures forall j :: 0 <= j < |queue| ==> queue[j].model == this
    {
      forall j | 0 <= j < |queue|
        ensures queue[j].model == this
      {
        var i :| 0 <= i < |agents| && agents[i] == queue[j];
        assert AgentOk(agents[i]);
      }
    }

    /** An agent's own cell is never empty. */
    lemma MemberOccupies(a: SugarAgent)
      requires a in agents
      ensures Occupied(a.cell)
    {
      var i :| 0 <= i < |agents| && agents[i] == a;
    }

    /** Where `move` can send an agent: it stays exactly when no empty cell is
        in sight, and otherwise goes to one of the empty cells in sight. Either
        way it lands on the grid within its vision. */
    lemma DestinationInSight(a: SugarAgent, pick: nat)
      requires Valid() && a in agents
      ensures InBounds(Destination(a, pick), width, height)
      ensures Manhattan(Destination(a, pick), a.cell) <= a.vision
      ensures Destination(a, pick) == a.cell <==> |Possibles(a)| == 0
      ensures Destination(a, pick) != a.cell ==> Destination(a, pick) in Possibles(a)
      ensures Destination(a, pick) != a.cell ==> !Occupied(Destination(a, pick))
    {
      MemberOccupies(a);
      assert a.cell !in Possibles(a);
    }

    /** Which empty cell `move` picks when it has a choice: one whose sugar is
        close to the most that any empty cell in sight holds, and whose distance
        is within 1% of that of every such cell. */
    lemma DestinationIsBest(a: SugarAgent, pick: nat)
      requires LayersOk() && a in agents
      requires |Possibles(a)| > 0
      ensures IsClose(LevelAt(Destination(a, pick)), MaxOf(LevelsAt(Possibles(a))), SugarRelTol)
      ensures forall c :: c in Possibles(a) && IsClose(LevelAt(c), MaxOf(LevelsAt(Possibles(a))), SugarRelTol) ==>
        WithinDistanceTolerance(SqDistance(a.cell, Destination(a, pick)), SqDistance(a.cell, c))
    {
      MemberOccupies(a);
      assert a.cell !in Possibles(a);
      TargetIsBestLevel(a.cell, Possibles(a), pick);
    }

    /** DestinationIsBest for the cells `cells` seen from `origin`, with their
        levels read off the sugar layer. */
    lemma TargetIsBestLevel(origin: Coord, cells: seq<Coord>, pick: nat)
      requires LayersOk() && origin !in cells && |cells| > 0
      requires forall c :: c in cells ==> InBounds(c, width, height)
      ensures IsClose(LevelAt(Target(origin, cells, LevelsAt(cells), pick)), MaxOf(LevelsAt(cells)), SugarRelTol)
      ensures forall c :: c in cells && IsClose(LevelAt(c), MaxOf(LevelsAt(cells)), SugarRelTol) ==>
        WithinDistanceTolerance(SqDistance(origin, Target(origin, cells, LevelsAt(cells), pick)), SqDistance(origin, c))
    {
      var levels := LevelsAt(cells);
      TargetIsBestVisibleCell(origin, cells, levels, pick);
      forall c | c in cells && IsClose(LevelAt(c), MaxOf(levels), SugarRelTol)
        ensures WithinDistanceTolerance(SqDistance(origin, Target(origin, cells, levels, pick)), SqDistance(origin, c))
      {
        var j :| 0 <= j < |cells| && cells[j] == c;
        assert IsSugarCandidate(levels, j);
      }
    }

    /** Raising one agent's tech level within the cap keeps the model valid
        when no other agent's tech or cell changed. */
    twostate lemma RaisedStaysValid(a: SugarAgent)
      requires old(Valid()) && a in agents && agents == old(agents)
      requires a.tech <= TechCap() && a.cell == old(a.cell) && old(a.tech) <= a.tech
      requires forall i :: 0 <= i < |agents| && agents[i] != a ==>
        agents[i].tech == old(agents[i].tech) && agents[i].cell == old(agents[i].cell)
      requires unchanged(level)
      ensures Valid()
    {
      forall i | 0 <= i < |agents|
        ensures AgentOk(agents[i])
      {
        assert old(AgentOk(agents[i]));
      }
    }

    /** The invariant depends only on the agents and the grid. */
    twostate lemma StateKeptValid()
      requires old(Valid()) && agents == old(agents) && unchanged(level) && unchanged(agents)
      ensures Valid()
    {
      forall i | 0 <= i < |agents|
        ensures AgentOk(agents[i])
      {
        assert old(AgentOk(agents[i]));
      }
    }

    /** Moving agent `a` to a cell that nobody stood on keeps the agents on
        separate cells if they were. */
    twostate lemma MovedKeepsApart(a: SugarAgent)
      requires old(Distinct(agents)) && a in agents && agents == old(agents)
      requires a.cell == old(a.cell) || a.cell in old(Possibles(a))
      requires forall i :: 0 <= i < |agents| && agents[i] != a ==> agents[i].cell == old(agents[i].cell)
      ensures old(NoSharedCells()) ==> NoSharedCells()
    {
      var k :| 0 <= k < |agents| && agents[k] == a;
      DistinctAt(agents, k);
      var before := old(CellsOf(agents));
      assert CellsOf(agents) == before[k := a.cell];
      if old(NoSharedCells()) && a.cell != old(a.cell) {
        var c := a.cell;
        assert !old(Occupied(c));
        assert forall i :: 0 <= i < |before| ==> before[i] != c;
        DistinctUpdate(before, k, a.cell);
      }
    }

    /** Whether agents share cells depends only on where they stand. */
    twostate lemma CellsKeptNoSharing()
      requires agents == old(agents)
      requires forall i :: 0 <= i < |agents| ==> agents[i].cell == old(agents[i].cell)
      ensures NoSharedCells() == old(NoSharedCells())
    {
      assert CellsOf(agents) == old(CellsOf(agents));
    }

    /** Dropping the agents without sugar keeps the model valid. */
    twostate lemma CulledStaysValid(s: seq<SugarAgent>, new seen: set<SugarAgent>)
      requires old(Valid()) && s == old(agents) && unchanged(level)
      requires forall i :: 0 <= i < |s| ==> s[i].cell == old(s[i].cell) && s[i].tech == old(s[i].tech)
      requires Culled(s, agents, seen)
      ensures Valid()
    {
      forall i | 0 <= i < |agents|
        ensures AgentOk(agents[i])
      {
        var j :| 0 <= j < |s| && s[j] == agents[i];
        assert old(AgentOk(s[j]));
      }
    }

    /** Dropping agents keeps the survivors on separate cells if everybody was. */
    twostate lemma CulledKeepsApart(s: seq<SugarAgent>, new seen: set<SugarAgent>)
      requires s == old(agents)
      requires forall i :: 0 <= i < |s| ==> s[i].cell == old(s[i].cell)
      requires Culled(s, agents, seen)
      ensures old(NoSharedCells()) ==> NoSharedCells()
    {
      if old(NoSharedCells()) {
        ghost var cells, now := old(CellsOf(s)), CellsOf(agents);
        DistinctIndexed(cells);
        DistinctIndexed(agents);
        forall i, j | 0 <= i < j < |now|
          ensures now[i] != now[j]
        {
          var i' :| 0 <= i' < |s| && s[i'] == agents[i];
          var j' :| 0 <= j' < |s| && s[j'] == agents[j];
          assert cells[i'] == now[i] && cells[j'] == now[j];
        }
        DistinctIndexed(now);
      }
    }

    /** The partner pool of `share` is exactly the affiliation-0 agents within
        `a`'s vision, so it holds `a` itself when `a` has affiliation 0 and
        `random.choice` never sees an empty list. */
    lemma SharePoolMembers(a: SugarAgent)
      requires Valid() && a in agents
      ensures forall b :: b in SharePool(a) <==>
        b in agents && b.affiliation == 0 && Manhattan(b.cell, a.cell) <= a.vision
      ensures a.affiliation == 0 ==> a in SharePool(a)
    {
      forall b | b in agents
        ensures Occupied(b.cell)
      {
        var i :| 0 <= i < |agents| && agents[i] == b;
      }
      assert Manhattan(a.cell, a.cell) == 0;
    }

    /** The regrowth of `step`: every cell gains one unit, up to its capacity. */
    method Regrow()
      requires Valid()
      modifies level
      ensures Valid() && agents == old(agents)
      ensures forall x, y :: 0 <= x < width && 0 <= y < height ==>
        level[x, y] == Regrown(old(level[x, y]), capacity[x][y])
    {
      for x := 0 to width
        invariant forall i, j :: 0 <= i < x && 0 <= j < height ==>
          level[i, j] == Regrown(old(level[i, j]), capacity[i][j])
        invariant forall i, j :: x <= i < width && 0 <= j < height ==> level[i, j] == old(level[i, j])
      {
        for y := 0 to height
          invariant forall i, j :: 0 <= i < x && 0 <= j < height ==>
            level[i, j] == Regrown(old(level[i, j]), capacity[i][j])
          invariant forall j :: 0 <= j < y ==> level[x, j] == Regrown(old(level[x, j]), capacity[x][j])
          invariant forall i, j :: x <= i < width && 0 <= j < height && (i != x || j >= y) ==>
            level[i, j] == old(level[i, j])
        {
          RegrownStaysWithin(level[x, y], capacity[x][y]);
          level[x, y] := Regrown(level[x, y], capacity[x][y]);
        }
      }
    }

    /** One turn of the move pass, seen from the pass: the mover stays within
        its vision, the model invariants survive and agents on separate cells
        stay apart. Where it goes is stated by SugarAgent.Move. */
    method MoveTurn(a: SugarAgent, pick: nat)
      requires Valid() && a in agents
      modifies a`cell
      ensures Valid()
      ensures Manhattan(a.cell, old(a.cell)) <= a.vision
      ensures old(NoSharedCells()) ==> NoSharedCells()
    {
      assert a.model == this by {
        var i :| 0 <= i < |agents| && agents[i] == a;
        assert AgentOk(agents[i]);
      }
      a.Move(pick);
      MovedKeepsApart(a);
    }

    /** `shuffle_do("move")`: every agent moves once, in shuffled order. */
    method MovePhase(order: nat -> nat, picks: nat -> nat)
      requires Valid()
      modifies agents`cell
      ensures Valid() && agents == old(agents)
      ensures forall i :: 0 <= i < |agents| ==> Manhattan(agents[i].cell, old(agents[i].cell)) <= agents[i].vision
      ensures old(NoSharedCells()) ==> NoSharedCells()
    {
      var queue := Shuffled(agents, order);
      MoveInOrder(queue, picks);
      forall i | 0 <= i < |agents|
        ensures Manhattan(agents[i].cell, old(agents[i].cell)) <= agents[i].vision
      {
        var j :| 0 <= j < |queue| && queue[j] == agents[i];
      }
    }

    /** The turns of the move pass, taken in the order of `queue`; the `k`-th
        mover's choice draws `picks(k)`. */
    method MoveInOrder(queue: seq<SugarAgent>, picks: nat -> nat)
      requires Valid() && Distinct(queue)
      requires forall j :: 0 <= j < |queue| ==> queue[j] in agents
      modifies agents`cell
      ensures Valid() && agents == old(agents)
      ensures forall j :: 0 <= j < |queue| ==> Manhattan(queue[j].cell, old(queue[j].cell)) <= queue[j].vision
      ensures old(NoSharedCells()) ==> NoSharedCells()
    {
      for k := 0 to |queue|
        invariant Valid() && agents == old(agents)
        invariant forall j :: k <= j < |queue| ==> queue[j].cell == old(queue[j].cell)
        invariant forall j :: 0 <= j < k ==> Manhattan(queue[j].cell, old(queue[j].cell)) <= queue[j].vision
        invariant old(NoSharedCells()) ==> NoSharedCells()
      {
        var mover := queue[k];
        DistinctAt(queue, k);
        MoveTurn(mover, picks(k));
      }
    }

    /** One turn of the share pass, seen from the pass: an affiliation-0 agent
        takes the drawn partner from its pool and the lower-tech of the two
        gains a level; nobody else changes, nobody loses a level,
        affiliation-1 agents are untouched and the model invariants survive. */
    method ShareTurn(a: SugarAgent, pick: nat) returns (partner: Option<SugarAgent>)
      requires Valid() && a in agents
      modifies agents`tech, agents`metabolism
      ensures Valid()
      ensures a.affiliation != 0 <==> partner.None?
      ensures a.affiliation == 0 ==>
        a in old(SharePool(a)) && partner == Some(old(Choice(SharePool(a), pick)))
      ensures partner.Some? ==> a.ShareOutcome(partner.value)
      ensures partner.None? ==> a.tech == old(a.tech) && a.metabolism == old(a.metabolism)
      ensures forall b :: b in agents && b != a && partner != Some(b) ==>
        b.tech == old(b.tech) && b.metabolism == old(b.metabolism)
      ensures forall i :: 0 <= i < |agents| ==> agents[i].RaisedScaled()
      ensures forall i :: 0 <= i < |agents| && agents[i].affiliation != 0 ==>
        agents[i].tech == old(agents[i].tech) && agents[i].metabolism == old(agents[i].metabolism)
    {
      assert a.model == this;
      partner := a.Share(pick);
    }

    /** `shuffle_do("share")`: every agent shares once, in shuffled order. No
        level drops, every metabolism is its former one scaled once per level
        gained over the whole pass (ScaledSince the levels and metabolisms at
        the start), and affiliation-1 agents keep their tech and metabolism. */
    method SharePhase(order: nat -> nat, picks: nat -> nat)
      requires Valid()
      modifies agents`tech, agents`metabolism
      ensures Valid()
      ensures ScaledSince(old(TechsOf(agents)), old(MetabolismsOf(agents)))
      ensures forall i :: 0 <= i < |agents| && agents[i].affiliation != 0 ==>
        agents[i].tech == old(agents[i].tech) && agents[i].metabolism == old(agents[i].metabolism)
    {
      ghost var techs, metabolisms := TechsOf(agents), MetabolismsOf(agents);
      var queue := Shuffled(agents, order);
      for k := 0 to |queue|
        invariant ScaledSince(techs, metabolisms)
        invariant forall i :: 0 <= i < |agents| && agents[i].affiliation != 0 ==>
          agents[i].tech == old(agents[i].tech) && agents[i].metabolism == old(agents[i].metabolism)
        invariant Valid()
      {
        label turn:
        var _ := ShareTurn(queue[k], picks(k));
        ScaledSinceKept@turn(techs, metabolisms);
      }
    }

    /** Every agent's level is at least its entry in `t0`, and its metabolism
        is its entry in `m0` scaled once per level gained since; by position,
        for passes that keep the agent set. */
    ghost predicate ScaledSince(t0: seq<int>, m0: seq<real>)
      reads this`agents, agents`tech, agents`metabolism
    {
      |t0| == |agents| && |m0| == |agents| &&
      forall i :: 0 <= i < |agents| ==>
        t0[i] <= agents[i].tech && agents[i].metabolism == Scaled(m0[i], reductionScale, agents[i].tech - t0[i])
    }

    /** A turn in which every agent gained levels at the scaled metabolism keeps
        `ScaledSince`. */
    twostate lemma ScaledSinceKept(t0: seq<int>, new m0: seq<real>)
      requires old(ScaledSince(t0, m0)) && old(agents) == agents && Valid()
      requires forall i :: 0 <= i < |agents| ==> agents[i].RaisedScaled()
      ensures ScaledSince(t0, m0)
    {
      forall i | 0 <= i < |agents|
        ensures t0[i] <= agents[i].tech
        ensures agents[i].metabolism == Scaled(m0[i], reductionScale, agents[i].tech - t0[i])
      {
        var b := agents[i];
        assert AgentOk(b) && b.RaisedScaled();
        ScaledCompose(m0[i], reductionScale, t0[i], old(b.tech), old(b.metabolism), b.tech, b.metabolism);
      }
    }

    /** `shuffle_do("gather_and_eat")`: every agent harvests its cell, in
        shuffled order. Each occupied cell ends empty of sugar and every cell
        nobody stands on keeps its level. */
    method EatPhase(order: nat -> nat)
      requires Valid()
      modifies agents`sugar, level
      ensures Valid()
      ensures forall i :: 0 <= i < |agents| ==> level[agents[i].cell.x, agents[i].cell.y] == 0.0
      ensures forall c :: InBounds(c, width, height) && Vacant(c, agents, |agents|) ==>
        level[c.x, c.y] == old(level[c.x, c.y])
    {
      var queue := Shuffled(agents, order);
      HarvestInOrder(queue);
      forall c | InBounds(c, width, height) && Vacant(c, agents, |agents|)
        ensures level[c.x, c.y] == old(level[c.x, c.y])
      {
        forall j | 0 <= j < |queue|
          ensures queue[j].cell != c
        {
          var i :| 0 <= i < |agents| && agents[i] == queue[j];
        }
        assert Vacant(c, queue, |queue|);
      }
      forall i | 0 <= i < |agents|
        ensures level[agents[i].cell.x, agents[i].cell.y] == 0.0
      {
        assert agents[i] in queue;
        var j :| 0 <= j < |queue| && queue[j] == agents[i];
      }
    }

    /** The turns of the harvest pass, taken in the order of `queue`. */
    method HarvestInOrder(queue: seq<SugarAgent>)
      requires Valid()
      requires forall j :: 0 <= j < |queue| ==> queue[j] in agents
      modifies agents`sugar, level
      ensures Valid()
      ensures forall j :: 0 <= j < |queue| ==> level[queue[j].cell.x, queue[j].cell.y] == 0.0
      ensures forall c :: InBounds(c, width, height) && Vacant(c, queue, |queue|) ==>
        level[c.x, c.y] == old(level[c.x, c.y])
    {
      for k := 0 to |queue|
        invariant Valid()
        invariant forall j :: 0 <= j < k ==> level[queue[j].cell.x, queue[j].cell.y] == 0.0
        invariant forall c :: InBounds(c, width, height) && Vacant(c, queue, k) ==>
          level[c.x, c.y] == old(level[c.x, c.y])
      {
        var agent := queue[k];
        agent.GatherAndEat();
      }
    }

    /** `shuffle_do("see_if_die")`: the agents left are exactly those that
        still hold sugar, in their former order. */
    method DiePhase(order: nat -> nat)
      requires Valid()
      modifies this`agents
      ensures Valid()
      ensures forall i :: 0 <= i < |agents| ==> agents[i] in old(agents) && agents[i].sugar > 0.0
      ensures forall i :: 0 <= i < |old(agents)| && old(agents)[i].sugar > 0.0 ==> old(agents)[i] in agents
      ensures old(NoSharedCells()) ==> NoSharedCells()
    {
      var queue := Shuffled(agents, order);
      QueueBelongs(queue);
      ghost var seen := CullInOrder(queue);
      assert forall j :: 0 <= j < |old(agents)| ==> old(agents)[j] in seen;
      CulledStaysValid(old(agents), seen);
      CulledKeepsApart(old(agents), seen);
    }

    /** The turns of the die pass, taken in the order of `queue`: `seen` holds
        every agent that took its turn. */
    method CullInOrder(queue: seq<SugarAgent>) returns (ghost seen: set<SugarAgent>)
      requires Distinct(agents) && Distinct(queue)
      requires forall j :: 0 <= j < |queue| ==> queue[j] in agents && queue[j].model == this
      modifies this`agents
      ensures Culled(old(agents), agents, seen)
      ensures forall j :: 0 <= j < |queue| ==> queue[j] in seen
    {
      ghost var s0 := agents;
      seen := {};
      CulledNothing(s0);
      for k := 0 to |queue|
        invariant Culled(s0, agents, seen)
        invariant forall j :: 0 <= j < k ==> queue[j] in seen
        invariant forall j :: k <= j < |queue| ==> queue[j] !in seen
      {
        var agent := queue[k];
        DistinctAt(queue, k);
        ghost var nextSeen := seen + {agent};
        assert forall j :: 0 <= j < k + 1 ==> queue[j] in nextSeen;
        assert forall j :: k + 1 <= j < |queue| ==> queue[j] !in nextSeen;
        CulledOneMore(s0, agents, seen, agent);
        agent.SeeIfDie();
        seen := nextSeen;
      }
    }

    /** `shuffle_do("innovate")`: every agent may innovate once, in shuffled
        order; `used` counts the draws taken. Nobody gains more than one level,
        nobody passes the bottleneck by innovating, agents that do not draw
        do not change, every metabolism is scaled once per level gained (so
        with AtMostOneRaise a raised agent's metabolism is multiplied by the
        reduction scale exactly once), and the sugar layer is left as it was. */
    method InnovatePhase(order: nat -> nat, draws: nat -> real, ghost before: map<SugarAgent, (int, real)>)
      returns (used: nat)
      requires Valid() && ScaledFrom(before)
      modifies agents`tech, agents`metabolism
      ensures Valid() && ScaledFrom(before)
      ensures used <= |agents|
      ensures forall i :: 0 <= i < |agents| ==> agents[i].RaisedScaled()
      ensures forall a :: a in agents ==> InnovatedAtMostOnce(a)
      ensures unchanged(level)
    {
      var queue := Shuffled(agents, order);
      used := InnovateInOrder(queue, draws);
      forall i | 0 <= i < |agents|
        ensures InnovatedAtMostOnce(agents[i]) && agents[i].RaisedScaled()
      {
        var j :| 0 <= j < |queue| && queue[j] == agents[i];
      }
      ScaledFromKept(before);
    }

    /** The turns of the innovate pass, taken in the order of `queue`: each
        agent that draws takes the next unused draw. */
    method InnovateInOrder(queue: seq<SugarAgent>, draws: nat -> real) returns (used: nat)
      requires Valid() && Distinct(queue)
      requires forall j :: 0 <= j < |queue| ==> queue[j] in agents
      modifies agents`tech, agents`metabolism
      ensures Valid()
      ensures used <= |queue|
      ensures forall j :: 0 <= j < |queue| ==> InnovatedAtMostOnce(queue[j]) && queue[j].RaisedScaled()
    {
      used := 0;
      for k := 0 to |queue|
        invariant Valid()
        invariant used <= k
        invariant forall j :: 0 <= j < k ==> InnovatedAtMostOnce(queue[j]) && queue[j].RaisedScaled()
        invariant forall j :: k <= j < |queue| ==>
          queue[j].tech == old(queue[j].tech) && queue[j].metabolism == old(queue[j].metabolism)
      {
        var agent := queue[k];
        DistinctAt(queue, k);
        var drew := agent.Innovate(draws(used));
        if drew {
          used := used + 1;
        }
      }
    }

    /** What the innovate pass may do to one agent: at most one raise, never
        past the bottleneck, and nothing at all unless it has affiliation 0 and
        more sugar than metabolism. */
    twostate predicate InnovatedAtMostOnce(a: SugarAgent)
      reads a
    {
      old(a.tech) <= a.tech <= old(a.tech) + 1 &&
      (a.tech != old(a.tech) ==> a.tech <= techBottleneck) &&
      (a.affiliation != 0 || a.sugar <= old(a.metabolism) ==>
        a.tech == old(a.tech) && a.metabolism == old(a.metabolism))
    }
  }
}
