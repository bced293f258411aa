# Sugarscape with technology sharing — a Dafny model

This project models the core of a Mesa Sugarscape simulation in which agents
also innovate and share technology. Agents live on a non-wrapping grid of
cells, each holding sugar up to a fixed capacity. On every tick the model
does the following, in this order:

1. It regrows every cell by one unit, up to the cell's capacity.
2. It runs five passes over the agents, each in a freshly shuffled order:
   - `move`: go to the empty cell in sight with the most sugar, nearest first;
   - `share`: an affiliation-0 agent picks an affiliation-0 neighbour, and the
     lower-tech of the two goes up one level;
   - `gather_and_eat`: harvest the cell, then pay metabolism;
   - `see_if_die`: leave when sugar is not positive;
   - `innovate`: an affiliation-0 agent with spare sugar may go up one tech
     level, which scales its metabolism down.
3. It records the Gini coefficient of sugar, the average tech level of
   affiliation 0 and the share of affiliation 0.

## How the model is organised

- `Geometry` (geometry.dfy): cells and the two distances. The squared
  Euclidean distance stands for `get_distance`. The von Neumann
  neighbourhood is clipped to the grid and includes the centre.
- `Movement` (movement.dfy): the decision rule of `move`, written as pure
  functions over what the agent sees. It covers `math.isclose` over exact
  reals, the set of maximum-sugar cells and the 1% distance filter.
  Distances are compared through their squares, and
  `DistanceToleranceBySquares` proves this selects the same cells as
  comparing square roots.
- `Randomness` (randomness.dfy): `random.choice` and `random.shuffle`. The
  random draws are inputs.
- `Metrics` (metrics.dfy): `calc_ratio`, `calc_gini` and `calc_avg_tech` over a
  snapshot of the population. Where the source divides by zero the result is
  `None`. This covers the ZeroDivisionError of an empty population and the
  non-finite value (nan or ±inf) that `calc_gini` returns when the total sugar
  is 0.
- `Setup` (setup.dfy): the constructor's parameters and random inputs, the
  inclusive integer draws and the placement of agents.
- `Sugarscape` (sugarscape.dfy): the two classes.
  - `SugarAgent` has the agent's mutable fields and one method per behaviour.
  - `SugarScape` holds:
    - the sugar layer, as an `array2<real>` updated in place;
    - the agent set, as a `seq` field that the die pass reassigns;
    - the recorded samples.

    Each `shuffle_do` pass is a method with a loop over the shuffled agents.
    Its invariants keep the model invariant `Valid()`: every level lies
    within `[0, capacity]`, every agent is registered once, stands on the
    grid and has a tech level in range. The passes also keep "no two agents
    on one cell" once it holds.
- `Seqs` and `RealArith` (seqs.dfy, reals.dfy): sequence helpers, the
  `Option` type and lemmas on real arithmetic.

Points of the code that the model keeps as written:

- **Two tolerances.** Maximum-sugar cells are picked with the default
  relative tolerance of `math.isclose`, 1e-9 (agents.py:42). Only the
  distance filter passes `rel_tol=1e-02`, a 1% tolerance (agents.py:54).
- **Innovation draw.** `innovate` draws its random number whenever the agent
  has affiliation 0 and more sugar than metabolism. The bottleneck is checked
  after the draw, so an agent at the bottleneck still takes a draw.
  `Innovate` reports in `drew` whether the draw was taken.
- **No empty partner list in `share`.** The list `share` chooses from always
  holds the agent itself: its own cell is occupied and it has affiliation 0.
  So `random.choice` never sees an empty list (`SharePoolMembers`).
- **Tech levels can start above the bottleneck.** Agents start at
  `tech_min`, and nothing requires `tech_min <= tech_bottleneck`. The bound
  kept is therefore `TechCap()`, the larger of the two.
- **Initial placement can collide.** It draws cells with replacement, so
  agents may start on the same cell. `PlacementCanCollide` and
  `CrowdedPlacementCollides` prove this, so "one agent per cell" is proved
  preserved by every pass but not established at start.

## Model

| member | source | states |
|---|---|---|
| Geometry.SqDistanceIsMetricLike | agents.py:6-11 | The distance between two cells is symmetric and never negative. It is zero exactly when the cells are equal. |
| Geometry.Neighborhood | agents.py:29 | The neighbourhood of radius r holds exactly the cells on the grid at most r orthogonal steps away, the centre included. |
| Geometry.AllCells | model.py:81 | `all_cells` holds exactly the cells of the grid, width·height of them. |
| Movement.MaxOf | agents.py:39 | `max(sugar_values)` is one of the values and at least every value. |
| Movement.MaxSugarIndices | agents.py:41-43 | `candidates_index` holds exactly the positions whose sugar is close to the maximum. It is never empty when there are values. |
| Movement.NearestPos | agents.py:50 | The position found attains the minimum distance over the candidates. |
| Movement.NearestFilterCharacterised | agents.py:50-55 | The 1% filter against the minimum keeps exactly the candidates within tolerance of every candidate. |
| Movement.FinalCandidates | agents.py:38-57 | `final_candidates` holds exactly the cells with near-maximum sugar whose distance is within 1% of every such cell. It is non-empty exactly when some empty cell is in sight. |
| Movement.Target | agents.py:59 | The chosen cell is the current cell when nothing is in sight, and one of the cells seen otherwise. |
| Movement.TargetIsBestVisibleCell | agents.py:25-59 | Given that the origin is not among the empty cells: the agent stays exactly when it sees no empty cell. Otherwise the cell it picks has near-maximum sugar and is within 1% of the distance of every near-maximum cell. |
| Movement.DistanceToleranceBySquares | agents.py:50-54 | For distances m ≤ d, `isclose(d, m, rel_tol=1e-02)` holds exactly when 9801·d² ≤ 10000·m². |
| Randomness.Choice | agents.py:59 | `random.choice` returns an element of the list. |
| Randomness.ShuffleDown | model.py:106 | The Fisher–Yates swaps keep length and multiset, and keep a list without repeats free of repeats. |
| Randomness.Shuffled | model.py:106 | A shuffled pass has the same length and the same members as the agent set, and still lists each agent once. |
| Randomness.ShuffledIsPermutation | model.py:106-113 | A shuffle is a permutation: every element keeps its number of occurrences. |
| Setup.Between | model.py:82-94 | `rng.integers(lo, hi, endpoint=True)` lies in [lo, hi]. |
| Setup.BetweenCovers | model.py:82-94 | Every value of [lo, hi], hi included, can be drawn. |
| Setup.Placement | model.py:81 | Each agent is placed on a cell of the grid. |
| Setup.PlacementCanCollide | model.py:81 | Some draws put two agents on the same cell. |
| Setup.CrowdedPlacementCollides | model.py:81 | With more agents than cells, every set of draws puts two agents on one cell. |
| Metrics.CountInnovators | model.py:18 | The count of affiliation-0 agents is at most n. It is n exactly when all have affiliation 0, and 0 exactly when none do. |
| Metrics.Ratio | model.py:13-19 | `calc_ratio` is undefined exactly for an empty population. Otherwise it lies in [0, 1], is 1 exactly when all have affiliation 0 and is 0 exactly when none do. |
| Metrics.InnovatorTechs | model.py:34 | The tech list has one entry per affiliation-0 agent, and its values are exactly their tech levels. |
| Metrics.MeanWithinRange | model.py:35 | A mean lies between the least and the greatest value. |
| Metrics.AvgTech | model.py:30-35 | `calc_avg_tech` is undefined exactly when no agent has affiliation 0. Otherwise it lies between the lowest and highest tech level of affiliation 0. |
| Metrics.Sort | model.py:25 | `sorted` returns an ascending permutation with the same sum. |
| Metrics.SortedUnique | model.py:25 | There is one ascending arrangement of a multiset. |
| Metrics.Gini | model.py:20-29 | `calc_gini` is undefined exactly when the population is empty or its total sugar is 0. |
| Metrics.GiniFormulaScaled | model.py:27-29 | Multiplying the coefficient by n·total gives (n + 1)·total − 2·Σ sᵢ·(n − i). |
| Metrics.WeightedAtMostMean | model.py:28 | On ascending values, 2·Σ sᵢ·(n − i) ≤ (n + 1)·Σ sᵢ. |
| Metrics.WeightedAtLeastSum | model.py:28 | On non-negative values, Σ sᵢ·(n − i) ≥ Σ sᵢ. |
| Metrics.GiniIgnoresOrder | model.py:24-25 | The coefficient does not depend on the order of the population. |
| Metrics.GiniNonNegative | model.py:20-29 | With a positive total, the coefficient is defined and at least 0. |
| Metrics.GiniAtMostMax | model.py:20-29 | With non-negative values and a positive total, the coefficient is at most 1 − 1/n. |
| Metrics.GiniOfEqualShares | model.py:20-29 | Equal positive shares give a coefficient of exactly 0. |
| Metrics.GiniOfConcentration | model.py:20-29 | One agent holding all the sugar, wherever it stands in the list, gives exactly 1 − 1/n. |
| Sugarscape.RegrownStaysWithin | model.py:103-105 | Regrowth adds at most one unit, gives either level + 1 or the capacity, and keeps a level in [0, capacity] there without lowering it. |
| Sugarscape.SugarScape.Regrow | model.py:103-105 | Every cell becomes `min(level + 1, capacity)`. The agents and the model invariant are unchanged. |
| Sugarscape.InnovatorsOnAny | agents.py:107-108 | `filtered_neighbors` holds exactly the affiliation-0 agents standing on the given cells. |
| Sugarscape.SugarScape.EmptyAmong | agents.py:27-31 | Keeps exactly the listed cells nobody stands on. |
| Sugarscape.SugarScape.OccupiedAmong | agents.py:101-105 | Keeps exactly the listed cells somebody stands on. |
| Sugarscape.SugarScape.LevelsAt | agents.py:33-36 | `sugar_values` lists the level of each cell, in order. |
| Sugarscape.SugarScape.Possibles | agents.py:27-31 | `possibles` holds exactly the empty cells of the grid within the agent's vision. |
| Sugarscape.SugarScape.DestinationInSight | agents.py:25-59 | The destination is on the grid and within vision. It is the current cell exactly when no empty cell is in sight; otherwise it is an empty cell in sight. |
| Sugarscape.SugarScape.TargetIsBestLevel | agents.py:38-55 | The cell picked from the cells seen has near-maximum sugar and is within 1% of the distance of every near-maximum cell. |
| Sugarscape.SugarScape.DestinationIsBest | agents.py:38-59 | When empty cells are in sight, the destination's sugar is close to the most any of them holds. Its distance is within 1% of every such cell's. |
| Sugarscape.SugarAgent.constructor | agents.py:15-23 | The agent has exactly the given attributes. |
| Sugarscape.SugarAgent.Move | agents.py:25-59 | The agent moves to the decision rule's destination, within its vision. It stays exactly when no empty cell is in sight, and otherwise lands on an empty cell in sight. No other agent moves and the model invariant holds. |
| Sugarscape.SugarScape.MovedKeepsApart | agents.py:59 | Moving one agent onto a cell that was empty keeps every agent on its own cell, if they were. |
| Sugarscape.SugarAgent.GatherAndEat | agents.py:61-64 | Sugar becomes old sugar + the cell's level − metabolism. The cell's level becomes 0 and every other cell keeps its level. |
| Sugarscape.SugarAgent.SeeIfDie | agents.py:66-68 | The agent is removed from the population exactly when its sugar is ≤ 0, and nothing else changes. |
| Sugarscape.CulledOneMore | agents.py:66-68 | After one more `see_if_die` turn, the population is the earlier agents minus the agents seen so far with no sugar. |
| Sugarscape.SugarAgent.UpdateTechLevel | agents.py:70-76 | Tech goes up by exactly one and metabolism is multiplied by `reduction_scale`. For a scale in (0, 1), positive metabolism strictly decreases and stays positive. |
| Sugarscape.ScaledAdd | agents.py:70-76 | Scaling a metabolism j times and then k more times is scaling it j + k times. |
| Sugarscape.ScaledCompose | agents.py:70-76 | Two stretches of raises, each scaling the metabolism once per level gained, together scale it once per level gained overall. |
| Sugarscape.KeptOrRaisedIsScaled | agents.py:70-76 | An agent that kept its tech and metabolism, or went up one level with its metabolism multiplied by the scale, has its metabolism scaled once per level gained. |
| Sugarscape.AtMostOneRaise | agents.py:70-76 | Conversely, with at most one level gained, a metabolism scaled once per level is unchanged when no level was gained and is the former one times the scale when one was. |
| Sugarscape.SugarScape.RaisedStaysValid | agents.py:70-76 | Raising one agent's level within the cap keeps the model invariant. |
| Sugarscape.SugarAgent.Innovate | agents.py:78-90 | A draw is taken exactly for an affiliation-0 agent with sugar > metabolism. The agent goes up one level exactly when, in addition, sugar·difficulty exceeds the draw and tech is below the bottleneck; otherwise tech and metabolism are unchanged. A raise multiplies the metabolism by `reduction_scale`, so it is scaled once per level gained. |
| Sugarscape.SugarScape.SharePoolMembers | agents.py:99-110 | The partner pool is exactly the affiliation-0 agents within vision, so it contains the agent itself. |
| Sugarscape.SugarAgent.Share | agents.py:92-114 | There is no partner exactly for affiliation 1. Otherwise the partner is the drawn member of the pool, has affiliation 0, and the strictly lower-tech of the two goes up one level. Both agents' metabolisms are scaled once per level gained. Equal levels change nothing, and no third agent changes. |
| Sugarscape.SugarAgent.ShareWith | agents.py:111-114 | The strictly lower-tech of the two agents goes up one level with its metabolism multiplied by `reduction_scale`. The other is unchanged, and equal levels change nothing. So both metabolisms are scaled once per level gained. |
| Sugarscape.SugarScape.constructor | model.py:37-97 | Every cell starts at its capacity. Agent i starts on the drawn cell, with sugar, metabolism, vision and affiliation drawn from their inclusive ranges and tech = `tech_min`. Exactly one sample is recorded, for that population. |
| Sugarscape.SugarScape.Populate | model.py:78-95 | Creates `initial_population` agents, agent i from the draws at i. |
| Sugarscape.SugarScape.Collect | model.py:97 | `datacollector.collect` appends exactly one sample: the Gini coefficient, average tech and ratio of the current population. |
| Sugarscape.SugarScape.ObservedUndefinedCases | model.py:13-35 | A recorded ratio is missing exactly for an empty population. The average tech is missing exactly when no agent has affiliation 0. The Gini coefficient is missing exactly when the population is empty or holds no sugar. |
| Sugarscape.SugarScape.ObservedTechInRange | model.py:30-35 | A recorded average tech lies between `tech_min` and the cap. |
| Sugarscape.SugarScape.ObservedGiniInRange | model.py:20-29 | When every agent holds sugar, as after the die pass, the recorded Gini coefficient is defined and lies in [0, 1 − 1/n]. |
| Sugarscape.SugarScape.Step | model.py:102-114 | One tick appends exactly one sample, for the population left at its end. The survivors are exactly the earlier agents that still hold sugar, each moved at most its vision and standing on a harvested cell. No tech level drops, each metabolism is the former one multiplied by `reduction_scale` once per level gained, and affiliation-1 agents keep their tech and metabolism. Every cell on which no agent stood at harvest time has regrown to `min(level + 1, capacity)`. Separate cells stay separate, and the invariant holds. |
| Sugarscape.SugarScape.Tick | model.py:103-113 | Without the sample: the survivors are exactly the former agents that still hold sugar, each within its vision of where it started and on a cell with level 0. No tech level drops, each metabolism is scaled once per level gained, and affiliation-1 agents keep their tech and metabolism. Every cell no agent harvested ends at `min(level + 1, capacity)`. Separate cells stay separate. |
| Sugarscape.SugarScape.TickedRecordsGini | model.py:102-114 | After a tick every survivor holds sugar, so a non-empty population has a defined Gini coefficient in [0, 1 − 1/n]. |
| Sugarscape.SugarScape.ScaledFromIntro | model.py:103-109 | Agents each raised and scaled since a record of them was taken have, against that record, gained no negative levels and a metabolism scaled once per level gained. |
| Sugarscape.SugarScape.ScaledFromKept | model.py:109-113 | A pass that keeps only former agents, each raised and scaled over the pass, keeps every agent's metabolism scaled once per level gained since the record. |
| Sugarscape.SugarScape.ScaledFromShrunk | model.py:110-111 | A pass that only drops agents and changes no tech level or metabolism keeps that relation to the record. |
| Sugarscape.SugarScape.ScaledFromRaised | model.py:102-114 | Conversely, agents that stand in that relation to a record of the former agents have each gained levels with their metabolism scaled once per level. |
| Sugarscape.SugarScape.RegrowMoveShare | model.py:103-109 | Every cell becomes `min(level + 1, capacity)`. Nobody leaves, and each agent moves at most its vision. No tech level drops, each metabolism is scaled once per level gained, affiliation-1 agents keep their tech and metabolism, and separate cells stay separate. |
| Sugarscape.SugarScape.LaterPasses | model.py:110-113 | Leaves exactly the former agents that still hold sugar, each on a cell with level 0. Every cell no former agent stands on keeps its level. Each survivor gains at most one level, never past the bottleneck. Only an affiliation-0 agent with sugar above its metabolism changes tech or metabolism. A record of levels and metabolisms against which every metabolism was scaled once per level gained still holds at the end. |
| Sugarscape.SugarScape.HarvestAndCull | model.py:110-111 | The harvest pass then the die pass leave exactly the former agents that still hold sugar, each on a cell with level 0. Every cell no former agent stands on keeps its level. No tech level or metabolism changes, so a record the metabolisms were scaled against still holds. |
| Sugarscape.SugarScape.MoveTurn | model.py:106 | One turn of the move pass: the mover stays within its vision, the invariant holds and separate cells stay separate. The destination itself is stated by `SugarAgent.Move`. |
| Sugarscape.SugarScape.MoveInOrder | model.py:106 | In the shuffled order, every agent moves at most its vision. The agent set is unchanged and separate cells stay separate. |
| Sugarscape.SugarScape.MovePhase | model.py:106 | `shuffle_do("move")`: every agent moves at most its vision, nobody leaves and separate cells stay separate. |
| Sugarscape.SugarScape.ShareTurn | agents.py:92-114 | There is no partner exactly for affiliation 1. Otherwise the partner is the drawn member of the agent's pool, and the strictly lower-tech of the two gains a level. Without a partner the agent is unchanged. No third agent changes, every agent's metabolism is scaled once per level gained, and affiliation-1 agents are untouched. |
| Sugarscape.SugarScape.SharePhase | model.py:109 | `shuffle_do("share")`: nobody's tech goes down, every metabolism is the one at the start of the pass multiplied by `reduction_scale` once per level gained, and affiliation-1 agents keep their tech and metabolism. |
| Sugarscape.SugarScape.ScaledSinceKept | model.py:109 | A share turn in which every agent is raised and scaled keeps every metabolism scaled once per level gained since the start of the pass. |
| Sugarscape.SugarScape.HarvestInOrder | model.py:110 | After the turns, every queued agent's cell has level 0, and every cell no queued agent stands on keeps its level. |
| Sugarscape.SugarScape.EatPhase | model.py:110 | `shuffle_do("gather_and_eat")`: every agent's cell ends at level 0, and every cell no agent stands on keeps its level. |
| Sugarscape.SugarScape.CullInOrder | model.py:111 | After the shuffled turns, the population is the former one minus exactly the agents without sugar, each listed once. |
| Sugarscape.SugarScape.DiePhase | model.py:111 | `shuffle_do("see_if_die")`: the agents left are exactly the former agents with sugar > 0. The invariant holds and separate cells stay separate. |
| Sugarscape.SugarScape.CulledStaysValid | model.py:111 | Removing the agents without sugar keeps the model invariant. |
| Sugarscape.SugarScape.CulledKeepsApart | model.py:111 | Removing agents keeps the survivors on separate cells. |
| Sugarscape.SugarScape.InnovateInOrder | model.py:113 | After the shuffled turns, each agent has gained at most one level, never past the bottleneck, with its metabolism scaled once per level gained: with `AtMostOneRaise`, a raised agent's metabolism is the former one times `reduction_scale` and an unraised agent's is unchanged. Agents that cannot innovate are unchanged, and at most one draw is used per agent. |
| Sugarscape.SugarScape.InnovatePhase | model.py:113 | `shuffle_do("innovate")`: each agent gains at most one level and none passes the bottleneck by innovating. Each metabolism is scaled once per level gained, so a raised agent's is the former one times `reduction_scale`. Agents other than affiliation-0 agents with sugar > metabolism are unchanged, and so is the sugar layer. A record the metabolisms were scaled against still holds. |

## Left out

- The browser front end (app.py) is not part of this model.
- Loading the sugar map with `np.genfromtxt` is not modelled. The capacity grid is a constructor parameter, required to be width × height and non-negative.
- Floating point is not modelled. Sugar, metabolism and the metrics are exact reals, and `math.sqrt` is replaced by comparing squared integer distances (`DistanceToleranceBySquares`).
- The random number generators are not modelled bit for bit.
  - Every draw is an input: the shuffle draws of each pass, the `random.choice` positions, the `random.random()` values and the initial `rng.integers` / `random.choices` draws.
  - A draw d chooses position `d % n`.
  - `random.random()` values are not restricted to [0, 1); the contracts hold for any real draw.
- The order in which Mesa lists a neighbourhood's cells is not modelled; the model lists them column by column. The order only decides which candidate a given draw selects, not the candidate set.
- Mesa's `AgentSet`, `CellAgent` and `DataCollector` are reduced to a sequence of agents, a cell field and a sequence of samples. `remove()` is modelled as dropping the agent from the sequence.
- The `running` flag and the `seed` parameter are not modelled.
- Sugarscape.SugarScape.constructor: requires `vision_min ≥ 1`, because the first move asks the grid for a neighbourhood of radius `vision`, and Mesa's cell space rejects a radius below 1 (Mesa's grid code is not part of this model). It requires min ≤ max for each range, because numpy's `integers` rejects low > high. It requires a non-empty grid when agents are placed, because `random.choices` raises on an empty list. `Populate` has the same requirements.
- Metrics.Gini: returns `None` in two cases. On an empty population the source raises ZeroDivisionError. When the total sugar is 0 but the population is not empty, the sugar values are numpy scalars, so `sum(...)/den` divides by a zero numpy value and gives a non-finite value with a RuntimeWarning: nan when the weighted sum is 0 too, ±inf otherwise. Negative sugar can occur in the sample taken at construction, because nothing requires `endowment_min ≥ 0`; for example sugars -1 and 1 give a weighted sum of -1 and a coefficient of +inf. `Ratio` on an empty population and `AvgTech` with no affiliation-0 agent return `None` where the source raises ZeroDivisionError on Python numbers.
- Sugarscape.SugarScape.EatPhase: states the level of every cell after the pass but not each agent's sugar gain. The gain is stated per turn by `GatherAndEat`, but the pass does not carry it over the whole queue.
- Sugarscape.SugarScape.HarvestInOrder: like `EatPhase`, states the levels after the turns but not each agent's sugar gain, which `GatherAndEat` states per turn.
- Sugarscape.SugarScape.Step: states the share and innovate passes only through bounds: no tech level drops, each metabolism is scaled once per level gained, and affiliation-1 agents keep their tech and metabolism. Which agents gain a level depends on the shuffled order and the draws. It is stated only turn by turn, by `ShareTurn`, `SugarAgent.Share` and `SugarAgent.Innovate`; the pass contracts carry only the bounds (see the `SharePhase`, `InnovateInOrder` and `InnovatePhase` lines). A tick that skipped its share or innovate pass would also meet Step's contract.
- Sugarscape.SugarScape.Step: states the move pass only through the vision bound. It does not state that an agent that stayed put had no free cell in sight. Each turn's destination is stated by `SugarAgent.Move`, but which cells are free at a turn depends on the shuffled order, and no pass contract carries it. A tick that skipped its move pass would also meet Step's contract.
- Sugarscape.SugarScape.Step: does not state any agent's sugar after the tick. The harvest gain, old sugar + the cell's level − metabolism, is stated per turn by `GatherAndEat`, but no pass contract carries it. So "the survivors are exactly the former agents that still hold sugar" is stated about sugar values the contract does not otherwise fix. A tick in which nobody ate would also meet Step's contract.
- Sugarscape.SugarScape.Step: does not state the level of a cell whose agent harvested it and then died. It does state that every survivor's cell has level 0 and that every other cell regrew.
- Sugarscape.SugarScape.Tick: has the same limits as `Step`. It states the share and innovate passes only through bounds and the move pass only through the vision bound, and it does not state the harvest's sugar gain.
- Sugarscape.SugarScape.HarvestAndCull: does not state any agent's sugar gain, because `EatPhase` does not carry it. Which agents survive is stated relative to sugar values the contract leaves free.
- Sugarscape.SugarScape.LaterPasses: has the same sugar-gain gap as `HarvestAndCull`.
- Sugarscape.SugarScape.RegrowMoveShare: states the share pass only through bounds, as `Step` does. The move pass is stated only through the vision bound.
- Sugarscape.SugarScape.SharePhase: states the pass only through bounds: no tech level drops, each metabolism is scaled once per level gained, and affiliation-1 agents keep their tech and metabolism. It does not say who gained a level, which `ShareTurn` states per turn; the partners depend on the shuffled order and on the levels earlier turns left. A share pass that changed nobody would also meet its contract.
- Sugarscape.SugarScape.InnovateInOrder: states the turns only through bounds: each agent gains at most one level, only when it may (affiliation 0, sugar above metabolism, below the bottleneck), with its metabolism scaled. It does not state the converse, that an agent whose draw is beaten and whose tech is below the bottleneck is raised; `SugarAgent.Innovate` states that per turn, but which draw an agent gets depends on how many earlier agents drew. A loop that raised nobody would also meet its contract.
- Sugarscape.SugarScape.InnovatePhase: has the same limit as `InnovateInOrder`. An innovate pass that raised nobody would also meet its contract, and so would `LaterPasses`.
- Sugarscape.SugarScape.MovePhase: states only that each agent moves at most its vision. Each turn's destination is stated by `SugarAgent.Move`; which cells are free at a turn depends on the shuffled order.
- Sugarscape.SugarScape.MoveInOrder: has the same limit as `MovePhase`.
- Sugarscape.SugarScape.MoveTurn: does not repeat the destination that `SugarAgent.Move` states. It passes on only the vision bound, the invariant and the separation of cells.
- Sugarscape.SugarScape.Step: does not state "one agent per cell" as an invariant from the start, because the initial placement can break it. It states that a tick keeps it when it holds.
