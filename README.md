# GeneticScheduler in Dafny

A model of `GeneticScheduler`, a genetic-algorithm search for a course
timetable. Eleven activities each need a room, a timeslot and a facilitator.
A candidate timetable (a *schedule*) holds one gene per activity, in catalog
order.

The fitness of a schedule is a sum of fixed per-gene contributions: one for
room capacity against expected enrollment, one for the facilitator's
suitability. The search works as follows:
- it draws a random initial population;
- each generation, it selects parents by a roulette wheel over the softmax of
  the scores;
- it breeds two children per consecutive pair of parents by single-point
  crossover and per-gene mutation;
- it keeps the best child scored so far.

The model is split into one module per component:

- `Schedules` (`schedules.dfy`) holds the data:
  - genes, schedules and the catalog tables;
  - the random draws, made explicit;
  - the configured catalog as a constant.
- `Scoring` (`fitness.dfy`) is the fitness function. Scores are exact
  integers in tenths of a point, so 8 stands for 0.8. `3 * enrollment` and
  `6 * enrollment` are Java 32-bit `int` products and wrap around.
- `Population` (`population.dfy`) builds random schedules and the initial
  population.
- `Selection` (`selection.dfy`) is the cumulative-sum walk and the roulette
  wheel.
- `Recombination` (`recombination.dfy`) is crossover and mutation.
- `Evolution` (`evolution.dfy`) is the generation loop: pairing, breeding
  and best-so-far tracking.

Every `random` call is an input:
- A `Draw` is a room key plus a timeslot index and a facilitator index.
- A `GeneDraw` is the mutation coin plus the redraw used if the gene mutates.
- A crossover draw `d` is the value of `nextInt(size - 1)`; the crossover
  point is `d + 1`.
- A selection draw is a real.

Softmax is a function parameter that keeps the length of the score list.
Each loop of the source is a method with loop invariants, proved equal to a
specification function: `CalculateFitness` to `Fitness`, `GenerateRandomSchedule`
to `RandomSchedule`, `Mutate` to `Mutated`, `SelectIndex` to `SelectedIndex`,
`Breed` to `Offspring`, `Generation` (one pass of the generation loop) to
`NextGeneration`, and `TrackBest` to `Best`. `GeneticAlgorithm` is proved to
score exactly `Bred`: the children of generations 1 to k, in order, each
generation bred from the previous one by `NextGeneration`. The properties are
proved about those functions. The specification functions `Scoring.Fitness`
(lines 59-80), `Recombination.Mutated` (lines 145-158), `Evolution.Offspring`
(lines 177-184), `Evolution.Scores` (line 173) and `Schedules.SourceCatalog`
(lines 9-53) carry no contract of their own; they are covered by the rows of the methods proved equal to them
and of the lemmas about them.

A lookup of a missing map key throws `NullPointerException` in the source and
is not handled there. The model makes the lookups a precondition
(`Scoreable`, `ValidCatalog`). `SourceCatalogValid` shows that the configured
catalog meets it.

## Model

| member | source | states |
|---|---|---|
| Schedules.Assign | Genetic_Algorithms/src/Main/GeneticScheduler.java:86-89 | a gene built from a valid draw keeps its activity, has the drawn room, and its timeslot and facilitator come from the catalog lists |
| Schedules.WellFormedIsScoreable | Genetic_Algorithms/src/Main/GeneticScheduler.java:67-75 | every lookup scoring makes on a schedule the search can produce finds its key, given a valid catalog |
| Schedules.SourceCatalogCoversActivities | Genetic_Algorithms/src/Main/GeneticScheduler.java:9-53 | the configured catalog has 11 activities, and each has an expected enrollment and a preferred-facilitator list |
| Schedules.SourceCatalogBounds | Genetic_Algorithms/src/Main/GeneticScheduler.java:14-53 | every configured enrollment lies in [0, 100], so six times it does not overflow an `int`; every capacity lies in [0, 450] |
| Schedules.SourceCatalogValid | Genetic_Algorithms/src/Main/GeneticScheduler.java:9-53 | the configured catalog satisfies every lookup the scoring makes |
| Scoring.WrapInt32 | Genetic_Algorithms/src/Main/GeneticScheduler.java:71-72 | the result of a Java `int` product is the 32-bit value congruent to the mathematical product modulo 2^32, so it equals the product when that fits |
| Scoring.RoomScore | Genetic_Algorithms/src/Main/GeneticScheduler.java:70-73 | the room contribution is -0.5 exactly when capacity is below enrollment, and always lies in [-0.5, +0.3] |
| Scoring.FacilitatorScore | Genetic_Algorithms/src/Main/GeneticScheduler.java:75-77 | the facilitator contribution is +0.5 exactly when the facilitator is preferred for the activity, and lies in [-0.1, +0.5] |
| Scoring.GeneScore | Genetic_Algorithms/src/Main/GeneticScheduler.java:62-78 | one gene contributes between -0.6 and +0.8 |
| Scoring.RoomScoreCases | Genetic_Algorithms/src/Main/GeneticScheduler.java:70-73 | without overflow the room contribution is -0.5 below enrollment, -0.2 above three times enrollment, and +0.3 otherwise (capacity equal to enrollment included); the -0.4 branch is never taken |
| Scoring.FarTooLargeReachableOnOverflow | Genetic_Algorithms/src/Main/GeneticScheduler.java:71-72 | once `6 * enrollment` overflows, the -0.4 branch is taken: enrollment and capacity 400000000 score -0.4 |
| Scoring.GeneScoreCases | Genetic_Algorithms/src/Main/GeneticScheduler.java:67-77 | a gene's score is the room contribution plus the facilitator contribution, each decided by its own lookups, with exactly the source's constants |
| Scoring.FitnessAppend | Genetic_Algorithms/src/Main/GeneticScheduler.java:59-80 | the score of a concatenation is the sum of the two scores |
| Scoring.FitnessBounds | Genetic_Algorithms/src/Main/GeneticScheduler.java:59-80 | a schedule of n genes scores within [-0.6 n, 0.8 n]; the empty schedule scores 0 |
| Scoring.CalculateFitness | Genetic_Algorithms/src/Main/GeneticScheduler.java:59-80 | the scoring loop's running total ends equal to `Fitness`, the sum of the per-gene contributions |
| Population.RandomSchedule | Genetic_Algorithms/src/Main/GeneticScheduler.java:83-92 | a random schedule has one gene per activity, in catalog order, with its room from the room table and its timeslot and facilitator from the catalog lists; gene i's room is draw i's room |
| Population.GenerateRandomSchedule | Genetic_Algorithms/src/Main/GeneticScheduler.java:83-92 | the construction loop returns `RandomSchedule` of its draws, with exactly one gene per activity |
| Population.InitialPopulation | Genetic_Algorithms/src/Main/GeneticScheduler.java:95-101 | the initial population has one schedule per draw list, each well formed |
| Population.InitializePopulation | Genetic_Algorithms/src/Main/GeneticScheduler.java:95-101 | the population loop returns `InitialPopulation` of its draws: n schedules (none for n <= 0), schedule i being `RandomSchedule` of draws i, each well formed |
| Selection.FirstReachingFrom | Genetic_Algorithms/src/Main/GeneticScheduler.java:129-133 | the walk from index i stops within [i, len), or at the last index when it runs off the end; -1 for no probabilities |
| Selection.SelectedIndex | Genetic_Algorithms/src/Main/GeneticScheduler.java:126-134 | the selected index lies in [0, len) for a non-empty probability list |
| Selection.FirstReachingFromIsLeast | Genetic_Algorithms/src/Main/GeneticScheduler.java:129-133 | the walk stops at the first running total that reaches the draw, and at the last index when none does |
| Selection.SelectedIndexIsLeast | Genetic_Algorithms/src/Main/GeneticScheduler.java:126-134 | the selected index is the least i with r <= p[0] + ... + p[i]; when no such i exists it is len - 1 |
| Selection.CumulativeMonotone | Genetic_Algorithms/src/Main/GeneticScheduler.java:128-130 | with non-negative probabilities the running total never decreases |
| Selection.WheelSegment | Genetic_Algorithms/src/Main/GeneticScheduler.java:126-134 | with non-negative probabilities and a draw in (0, total], index i is selected exactly when the draw falls in (total before i, total through i] |
| Selection.SelectIndex | Genetic_Algorithms/src/Main/GeneticScheduler.java:126-134 | the walk with early return gives `SelectedIndex`: in [0, len) when there are probabilities, -1 otherwise |
| Selection.Selected | Genetic_Algorithms/src/Main/GeneticScheduler.java:115-123 | the wheel's selection has the population's length, and every member belongs to the population |
| Selection.RouletteWheelSelection | Genetic_Algorithms/src/Main/GeneticScheduler.java:115-123 | the selection loop returns `Selected`: member k is the population entry at the index selected by draw k, so every member belongs to the population |
| Recombination.Crossover | Genetic_Algorithms/src/Main/GeneticScheduler.java:137-142 | for parent1 of length at least 2 and point d + 1 in [1, len - 1], the child has parent2's length, takes parent1's genes before the point and parent2's from the point on |
| Recombination.CrossoverWellFormed | Genetic_Algorithms/src/Main/GeneticScheduler.java:137-142 | parents with the catalog's activity sequence give a child with that sequence, well formed when the parents are; the first gene comes from parent1 and the last from parent2 |
| Recombination.MutatedKeepsActivities | Genetic_Algorithms/src/Main/GeneticScheduler.java:145-158 | mutation keeps the length and the activity at every position; a gene whose coin is at least the rate is unchanged; a re-drawn gene is from the catalog; conformance and well-formedness are preserved |
| Recombination.MutatedAtZeroRate | Genetic_Algorithms/src/Main/GeneticScheduler.java:148-155 | at rate 0 or below, with coins in [0, 1), the schedule comes back equal to the input |
| Recombination.MutatedAtFullRate | Genetic_Algorithms/src/Main/GeneticScheduler.java:148-152 | at rate 1 or above, every gene is re-drawn from its draw |
| Recombination.Mutate | Genetic_Algorithms/src/Main/GeneticScheduler.java:145-158 | the mutation loop returns `Mutated` of its draws |
| Evolution.AllWellFormedIsScored | Genetic_Algorithms/src/Main/GeneticScheduler.java:173 | every schedule of a well-formed population can be scored without a failed lookup |
| Evolution.BestIndex | Genetic_Algorithms/src/Main/GeneticScheduler.java:187-193 | the tracked position is -1 exactly when nothing was scored, and otherwise a valid position |
| Evolution.BestIndexStep | Genetic_Algorithms/src/Main/GeneticScheduler.java:189-192 | one more score is tracked exactly when nothing was tracked or it is strictly greater; on a tie the earlier one stays |
| Evolution.BestIndexIsFirstMaximum | Genetic_Algorithms/src/Main/GeneticScheduler.java:187-193 | the tracked score is the maximum, and every earlier score is strictly lower |
| Evolution.BestIndexNeverDecreases | Genetic_Algorithms/src/Main/GeneticScheduler.java:189-192 | scanning more scores never lowers the tracked score |
| Evolution.Best | Genetic_Algorithms/src/Main/GeneticScheduler.java:169-170 | there is a best schedule exactly when something was scored, and it is one of the scored schedules |
| Evolution.BestIsFirstMaximum | Genetic_Algorithms/src/Main/GeneticScheduler.java:187-193 | the best schedule is the earliest scored schedule with the highest fitness: it scores at least as much as all of them, and every schedule scored before it scores strictly less |
| Evolution.BestStep | Genetic_Algorithms/src/Main/GeneticScheduler.java:189-192 | scoring one more schedule makes it the best exactly when nothing was tracked yet or its fitness is strictly greater |
| Evolution.BestNeverDecreases | Genetic_Algorithms/src/Main/GeneticScheduler.java:187-193 | the best fitness never decreases as more schedules are scored |
| Evolution.ChildCount | Genetic_Algorithms/src/Main/GeneticScheduler.java:177-184 | a pool of m parents yields m children when m is even and m + 1 when odd; always an even number |
| Evolution.Mate | Genetic_Algorithms/src/Main/GeneticScheduler.java:179 | the partner of pool member i is a pool member, and member 0 for the last member |
| Evolution.MateIsSuccessorMod | Genetic_Algorithms/src/Main/GeneticScheduler.java:179 | the source's `(i + 1) % size` is that partner |
| Evolution.FirstParent | Genetic_Algorithms/src/Main/GeneticScheduler.java:178-181 | the first parent of every child is a pool member |
| Evolution.SecondParent | Genetic_Algorithms/src/Main/GeneticScheduler.java:178-181 | the second parent of every child is a pool member |
| Evolution.PairingWraps | Genetic_Algorithms/src/Main/GeneticScheduler.java:177-181 | members 2k and 2k + 1 breed together, each once as first parent; in an odd pool the last member breeds with member 0 |
| Evolution.OffspringOfPair | Genetic_Algorithms/src/Main/GeneticScheduler.java:178-181 | the children of pair i are crossover(pool[i], mate) and crossover(mate, pool[i]), each mutated, and both are well formed |
| Evolution.OffspringWellFormed | Genetic_Algorithms/src/Main/GeneticScheduler.java:178-181 | every child of a well-formed pool, in either position of its pair, is well formed |
| Evolution.AllOffspringWellFormed | Genetic_Algorithms/src/Main/GeneticScheduler.java:177-184 | all 2 * ceil(m / 2) children of a well-formed pool are well formed |
| Evolution.BreedPair | Genetic_Algorithms/src/Main/GeneticScheduler.java:178-183 | one pass of the breeding loop yields children i and i + 1, both well formed |
| Evolution.Breed | Genetic_Algorithms/src/Main/GeneticScheduler.java:175-185 | the next generation has 2 * ceil(m / 2) schedules; child i is `Offspring` i, and every child is well formed |
| Evolution.ScorePopulation | Genetic_Algorithms/src/Main/GeneticScheduler.java:173 | the score array equals `Scores` of the population, in order |
| Evolution.TrackOne | Genetic_Algorithms/src/Main/GeneticScheduler.java:188-192 | a schedule replaces the tracked pair only when nothing is tracked or its fitness is strictly greater; the pair stays `Best` of all scored schedules, with the best fitness being the best schedule's score |
| Evolution.TrackBest | Genetic_Algorithms/src/Main/GeneticScheduler.java:187-193 | after the tracking loop the scored list has grown by the whole population, in order, and the tracked pair is `Best` of it |
| Evolution.PopulationSizeAt | Genetic_Algorithms/src/Main/GeneticScheduler.java:168-185 | after the first generation the population size is n rounded up to even |
| Evolution.NextGeneration | Genetic_Algorithms/src/Main/GeneticScheduler.java:173-185 | one generation turns a population of m into 2 * ceil(m / 2) well-formed children of the pool the wheel selects with the softmax of the scores |
| Evolution.Generation | Genetic_Algorithms/src/Main/GeneticScheduler.java:173-185 | one pass of the generation loop (score, select, breed) returns `NextGeneration` of the population and that generation's draws |
| Evolution.PopulationAfter | Genetic_Algorithms/src/Main/GeneticScheduler.java:168-185 | the population after k generations has n members at first and n rounded up to even after, all well formed |
| Evolution.Bred | Genetic_Algorithms/src/Main/GeneticScheduler.java:172-193 | the children of generations 1 to k number k * 2 * ceil(n / 2), all well formed |
| Evolution.GenerationStep | Genetic_Algorithms/src/Main/GeneticScheduler.java:172-193 | generation k + 1 breeds its population from generation k's by `NextGeneration`, and its children follow the earlier ones |
| Evolution.SearchStart | Genetic_Algorithms/src/Main/GeneticScheduler.java:168-171 | the search starts from `InitialPopulation` of the initial draws with nothing scored yet |
| Evolution.GeneticAlgorithm | Genetic_Algorithms/src/Main/GeneticScheduler.java:167-195 | the schedules scored are exactly `Bred`: every child of generations 1 to `generations`, in the order bred, and never the initial population as such. There are generations * 2 * ceil(n / 2) of them, all well formed. The result is `Best` of them: none when generations <= 0 or populationSize <= 0, a schedule otherwise |

## Left out

- `softmax` (`GeneticScheduler.java:104-112`) is a function parameter. `Math.exp` and floating-point division are not modelled. Selection takes the probabilities it returns as given. `RouletteWheelSelection` receives them rather than computing them, and the call is made in `Generation`. The `softmax` parameter receives the scores in tenths of a point, where the source's `softmax` receives points; any scaling belongs to the function passed in.
- `java.util.Random` is not modelled. Every `nextInt`, `nextDouble` and key pick is an explicit input, required to lie in range. Distributions and selection pressure are not modelled.
- `getRandomKey` (`GeneticScheduler.java:161-164`) is a draw that names any key of the room table. The unspecified iteration order of `Map.of(...).keySet()` is not modelled.
- `calculateFitness` sums in `double`; the model sums exact tenths. IEEE rounding is not modelled, so a tie decided by rounding error in the source is a tie in the model.
- Selection.SelectIndex: the source keeps its running total in a `double`, and the model sums exact reals. With softmax probabilities, rounding can leave the final total just below a draw close to 1, and the fallback to the last index then fires. In the model that fallback fires only when the probabilities sum to less than the draw.
- `main` and its console output (`GeneticScheduler.java:199-205`) are I/O and are not modelled.
- Scoring with a missing key throws `NullPointerException` in the source and is not handled there. `Fitness` and `CalculateFitness` take `AllScoreable` as a precondition instead of modelling the exception.
- Recombination.Crossover: `nextInt(parent1.size() - 1)` throws for fewer than two genes. The model requires at least two genes, which rules out the exception path. `GeneticAlgorithm` therefore needs a catalog of at least two activities whenever any child is bred. A one-activity catalog throws in the source once there are generations and members. The model also requires `draw + 1 <= |parent2|`, which rules out the `IndexOutOfBoundsException` that `parent2.subList(crossoverPoint, ...)` throws when parent2 is shorter than the point. In the search both parents always have one gene per activity, so that case does not arise there.
- Object identity and aliasing are not modelled: the selected pool sharing list objects with the population, and children sharing gene objects with their parents. No list or gene is modified after it is built, so values carry the same information.
- Evolution.GeneticAlgorithm: the source returns `null` when there are no generations or no members; the model returns `None`.
