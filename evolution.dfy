/**
 The generation loop: score, select, breed two children per consecutive pair
 of selected parents, and keep the best schedule scored so far.
 */
module Evolution {
  import opened Schedules
  import opened Scoring
  import opened Population
  import opened Selection
  import opened Recombination

  predicate AllWellFormed(cat: Catalog, pop: seq<Schedule>) {
    forall i :: 0 <= i < |pop| ==> WellFormed(cat, pop[i])
  }

  predicate EachScoreable(cat: Catalog, pop: seq<Schedule>) {
    forall i :: 0 <= i < |pop| ==> AllScoreable(cat, pop[i])
  }

  lemma AllWellFormedIsScored(cat: Catalog, pop: seq<Schedule>)
    requires ValidCatalog(cat) && AllWellFormed(cat, pop)
    ensures EachScoreable(cat, pop)
  {
    forall i | 0 <= i < |pop|
      ensures AllScoreable(cat, pop[i])
    {
      WellFormedIsScoreable(cat, pop[i]);
    }
  }

  /** The score of every schedule, in order. */
  function Scores(cat: Catalog, pop: seq<Schedule>): (scores: seq<int>)
    requires EachScoreable(cat, pop)
  {
    seq(|pop|, i requires 0 <= i < |pop| => Fitness(cat, pop[i]))
  }

  /**
   Where the best-so-far tracking ends when it scans `scores` in order,
   starting from "nothing tracked" (the source's null with fitness
   -infinity): a score replaces the tracked one only when it is strictly
   greater. -1 when there is nothing to scan.
   */
  function BestIndex(scores: seq<int>): (k: int)
    ensures -1 <= k < |scores|
    ensures k == -1 <==> scores == []
  {
    if scores == [] then -1
    else
      var previous := BestIndex(scores[..|scores| - 1]);
      if previous == -1 || scores[|scores| - 1] > scores[previous] then |scores| - 1
      else previous
  }

  /**
   Scanning one more score: it is tracked exactly when nothing was tracked
   yet or it is strictly greater than the tracked score; on a tie the
   earlier position is kept.
   */
  lemma BestIndexStep(scores: seq<int>, x: int)
    ensures BestIndex(scores + [x]) ==
      if scores == [] || x > scores[BestIndex(scores)] then |scores| else BestIndex(scores)
  {
    assert (scores + [x])[..|scores|] == scores;
  }

  /**
   The tracked position holds the highest score, and every earlier position
   a strictly lower one: it is the first occurrence of the maximum.
   */
  lemma {:induction false} BestIndexIsFirstMaximum(scores: seq<int>)
    requires scores != []
    ensures forall k :: 0 <= k < |scores| ==> scores[k] <= scores[BestIndex(scores)]
    ensures forall k :: 0 <= k < BestIndex(scores) ==> scores[k] < scores[BestIndex(scores)]
  {
    var rest := scores[..|scores| - 1];
    if rest != [] {
      BestIndexIsFirstMaximum(rest);
      assert forall k :: 0 <= k < |rest| ==> scores[k] == rest[k];
    }
  }

  /** Scanning more scores never lowers the tracked score. */
  lemma {:induction false} BestIndexNeverDecreases(scores: seq<int>, more: seq<int>)
    requires scores != []
    ensures scores[BestIndex(scores)] <= (scores + more)[BestIndex(scores + more)]
    decreases |more|
  {
    if more == [] {
      assert scores + more == scores;
    } else {
      var more' := more[..|more| - 1];
      BestIndexNeverDecreases(scores, more');
      assert scores + more == (scores + more') + [more[|more| - 1]];
      BestIndexStep(scores + more', more[|more| - 1]);
    }
  }

  /**
   The best-so-far tracking over the schedules in the order they were
   scored: no schedule while nothing was scored, else the schedule at the
   tracked position of their scores.
   */
  function Best(cat: Catalog, scored: seq<Schedule>): (best: Option<Schedule>)
    requires EachScoreable(cat, scored)
    ensures best.Some? <==> scored != []
    ensures best.Some? ==> best.value in scored
  {
    if scored == [] then None else Some(scored[BestIndex(Scores(cat, scored))])
  }

  /**
   The tracked schedule is the earliest scored schedule with the highest
   score: it scores at least as much as every scored schedule, and every
   schedule scored before it scores strictly less.
   */
  lemma BestIsFirstMaximum(cat: Catalog, scored: seq<Schedule>)
    requires EachScoreable(cat, scored) && scored != []
    ensures exists j ::
              && 0 <= j < |scored| && scored[j] == Best(cat, scored).value
              && (forall k :: 0 <= k < |scored| ==> Fitness(cat, scored[k]) <= Fitness(cat, scored[j]))
              && (forall k :: 0 <= k < j ==> Fitness(cat, scored[k]) < Fitness(cat, scored[j]))
  {
    var j := BestIndex(Scores(cat, scored));
    BestIndexIsFirstMaximum(Scores(cat, scored));
    assert forall k :: 0 <= k < |scored| ==> Scores(cat, scored)[k] == Fitness(cat, scored[k]);
    assert scored[j] == Best(cat, scored).value;
  }

  /**
   Scoring one more schedule: it becomes the best exactly when nothing was
   tracked yet or its score is strictly greater; on a tie the best is kept.
   */
  lemma BestStep(cat: Catalog, scored: seq<Schedule>, next: Schedule)
    requires EachScoreable(cat, scored) && AllScoreable(cat, next)
    ensures EachScoreable(cat, scored + [next])
    ensures Best(cat, scored + [next]) ==
      if Best(cat, scored).None? || Fitness(cat, next) > Fitness(cat, Best(cat, scored).value)
      then Some(next)
      else Best(cat, scored)
  {
    assert EachScoreable(cat, scored + [next]);
    assert Scores(cat, scored + [next]) == Scores(cat, scored) + [Fitness(cat, next)];
    BestIndexStep(Scores(cat, scored), Fitness(cat, next));
  }

  /** Scoring more schedules never lowers the best score. */
  lemma BestNeverDecreases(cat: Catalog, scored: seq<Schedule>, more: seq<Schedule>)
    requires EachScoreable(cat, scored) && EachScoreable(cat, more) && scored != []
    ensures EachScoreable(cat, scored + more)
    ensures Fitness(cat, Best(cat, scored).value) <= Fitness(cat, Best(cat, scored + more).value)
  {
    assert EachScoreable(cat, scored + more);
    assert Scores(cat, scored + more) == Scores(cat, scored) + Scores(cat, more);
    BestIndexNeverDecreases(Scores(cat, scored), Scores(cat, more));
  }

  /** Two children per pair of parents: an odd pool gets one extra child. */
  function ChildCount(m: nat): (c: nat)
    ensures c == m || c == m + 1
    ensures c % 2 == 0
  {
    m + m % 2
  }

  /**
   The partner of pool member i in a pool of m: the next member, wrapping
   from the last member back to the first.
   */
  function Mate(i: nat, m: nat): (k: nat)
    requires i < m
    ensures k < m
    ensures i + 1 == m ==> k == 0
  {
    if i + 1 == m then 0 else i + 1
  }

  /** The source's `(i + 1) % m` is the mate of i. */
  lemma MateIsSuccessorMod(i: nat, m: nat)
    requires i < m
    ensures (i + 1) % m == Mate(i, m)
  {
    if i + 1 < m {
      assert (i + 1) / m == 0;
    }
  }

  /**
   The index of the first parent of child i among m selected parents: child
   2k is bred from (pool[2k], its mate) and child 2k + 1 from (the mate, pool[2k]).
   */
  function FirstParent(i: nat, m: nat): (k: nat)
    requires i < ChildCount(m)
    ensures k < m
  {
    if i % 2 == 0 then i else Mate(i - 1, m)
  }

  /** The index of the second parent of child i among m selected parents. */
  function SecondParent(i: nat, m: nat): (k: nat)
    requires i < ChildCount(m)
    ensures k < m
  {
    if i % 2 == 0 then Mate(i, m) else i - 1
  }

  /**
   Pool members 2k and 2k + 1 breed together, each in turn as first parent;
   for an odd pool the last member, which has no partner after it, breeds
   with member 0.
   */
  lemma PairingWraps(m: nat, i: nat)
    requires i < m && i % 2 == 0
    ensures i + 1 < ChildCount(m)
    ensures FirstParent(i, m) == i && SecondParent(i + 1, m) == i
    ensures i + 1 < m ==> SecondParent(i, m) == i + 1 && FirstParent(i + 1, m) == i + 1
    ensures i + 1 == m ==> m % 2 == 1 && SecondParent(i, m) == 0 && FirstParent(i + 1, m) == 0
  {
  }

  /** The random choices for one child: the crossover draw and the per-gene mutation draws. */
  datatype ChildDraws = ChildDraws(point: nat, mutation: seq<GeneDraw>)

  predicate ChildDrawsFit(cat: Catalog, rate: real, c: ChildDraws) {
    c.point + 1 < |cat.activities| && MutationDrawsFit(cat, rate, c.mutation, |cat.activities|)
  }

  /** Child i of the selected pool: crossover of its two parents, then mutation. */
  function Offspring(cat: Catalog, selected: seq<Schedule>, rate: real, children: seq<ChildDraws>, i: nat)
    : (child: Schedule)
    requires forall j :: 0 <= j < |selected| ==> Conforms(cat, selected[j])
    requires i < ChildCount(|selected|) && i < |children| && ChildDrawsFit(cat, rate, children[i])
  {
    var m := |selected|;
    var parent1, parent2 := selected[FirstParent(i, m)], selected[SecondParent(i, m)];
    assert Conforms(cat, parent1) && Conforms(cat, parent2);
    Mutated(cat, Crossover(parent1, parent2, children[i].point), rate, children[i].mutation)
  }

  /**
   The two children of pair i (i even): crossover of pool[i] with its mate and
   of the mate with pool[i], each mutated; both conform to the catalog.
   */
  lemma OffspringOfPair(cat: Catalog, selected: seq<Schedule>, rate: real, children: seq<ChildDraws>, i: nat)
    requires AllWellFormed(cat, selected)
    requires |children| == ChildCount(|selected|)
    requires forall c :: c in children ==> ChildDrawsFit(cat, rate, c)
    requires i < |selected| && i % 2 == 0
    ensures i + 1 < |children|
    ensures ChildDrawsFit(cat, rate, children[i]) && ChildDrawsFit(cat, rate, children[i + 1])
    ensures Offspring(cat, selected, rate, children, i) ==
      Mutated(cat, Crossover(selected[i], selected[Mate(i, |selected|)], children[i].point),
              rate, children[i].mutation)
    ensures Offspring(cat, selected, rate, children, i + 1) ==
      Mutated(cat, Crossover(selected[Mate(i, |selected|)], selected[i], children[i + 1].point),
              rate, children[i + 1].mutation)
    ensures WellFormed(cat, Offspring(cat, selected, rate, children, i))
    ensures WellFormed(cat, Offspring(cat, selected, rate, children, i + 1))
  {
    var m := |selected|;
    var p, q := selected[i], selected[Mate(i, m)];
    assert children[i] in children && children[i + 1] in children;
    assert (i + 1) % 2 == 1;
    CrossoverWellFormed(cat, p, q, children[i].point);
    CrossoverWellFormed(cat, q, p, children[i + 1].point);
    MutatedKeepsActivities(cat, Crossover(p, q, children[i].point), rate, children[i].mutation);
    MutatedKeepsActivities(cat, Crossover(q, p, children[i + 1].point), rate, children[i + 1].mutation);
  }

  /** Every child of a well-formed pool is well formed. */
  lemma OffspringWellFormed(
    cat: Catalog, selected: seq<Schedule>, rate: real, children: seq<ChildDraws>, i: nat)
    requires AllWellFormed(cat, selected)
    requires |children| == ChildCount(|selected|)
    requires forall c :: c in children ==> ChildDrawsFit(cat, rate, c)
    requires i < ChildCount(|selected|)
    ensures ChildDrawsFit(cat, rate, children[i])
    ensures WellFormed(cat, Offspring(cat, selected, rate, children, i))
  {
    var pair := i - i % 2;
    OffspringOfPair(cat, selected, rate, children, pair);
  }

  lemma AllOffspringWellFormed(cat: Catalog, selected: seq<Schedule>, rate: real, children: seq<ChildDraws>)
    requires AllWellFormed(cat, selected)
    requires |children| == ChildCount(|selected|)
    requires forall c :: c in children ==> ChildDrawsFit(cat, rate, c)
    ensures forall i :: 0 <= i < ChildCount(|selected|) ==>
      ChildDrawsFit(cat, rate, children[i]) && WellFormed(cat, Offspring(cat, selected, rate, children, i))
  {
    forall i | 0 <= i < ChildCount(|selected|)
      ensures ChildDrawsFit(cat, rate, children[i])
      ensures WellFormed(cat, Offspring(cat, selected, rate, children, i))
    {
      OffspringWellFormed(cat, selected, rate, children, i);
    }
  }

  /**
   The body of the source's breeding loop for the pair starting at i: child
   one is crossover(pool[i], mate) mutated, child two crossover(mate, pool[i])
   mutated, where the mate is pool[(i + 1) % m].
   */
  method BreedPair(
    cat: Catalog, selectedPopulation: seq<Schedule>, mutationRate: real, children: seq<ChildDraws>, i: nat)
    returns (child1: Schedule, child2: Schedule)
    requires AllWellFormed(cat, selectedPopulation)
    requires |children| == ChildCount(|selectedPopulation|)
    requires forall c :: c in children ==> ChildDrawsFit(cat, mutationRate, c)
    requires i < |selectedPopulation| && i % 2 == 0
    ensures i + 1 < ChildCount(|selectedPopulation|)
    ensures child1 == Offspring(cat, selectedPopulation, mutationRate, children, i)
    ensures child2 == Offspring(cat, selectedPopulation, mutationRate, children, i + 1)
    ensures WellFormed(cat, child1) && WellFormed(cat, child2)
  {
    var m := |selectedPopulation|;
    OffspringOfPair(cat, selectedPopulation, mutationRate, children, i);
    MateIsSuccessorMod(i, m);
    var parent1 := selectedPopulation[i];
    var parent2 := selectedPopulation[(i + 1) % m];
    child1 := Mutate(cat, Crossover(parent1, parent2, children[i].point), mutationRate, children[i].mutation);
    child2 := Mutate(
      cat, Crossover(parent2, parent1, children[i + 1].point), mutationRate, children[i + 1].mutation);
  }

  /** The source's breeding loop over consecutive pairs of the selected pool. */
  method Breed(cat: Catalog, selectedPopulation: seq<Schedule>, mutationRate: real, children: seq<ChildDraws>)
    returns (nextGeneration: seq<Schedule>)
    requires AllWellFormed(cat, selectedPopulation)
    requires |children| == ChildCount(|selectedPopulation|)
    requires forall c :: c in children ==> ChildDrawsFit(cat, mutationRate, c)
    ensures |nextGeneration| == ChildCount(|selectedPopulation|)
    ensures forall i :: 0 <= i < |nextGeneration| ==>
      nextGeneration[i] == Offspring(cat, selectedPopulation, mutationRate, children, i)
    ensures AllWellFormed(cat, nextGeneration)
  {
    var m := |selectedPopulation|;
    nextGeneration := [];
    var i := 0;
    while i < m
      invariant 0 <= i <= ChildCount(m) && i % 2 == 0
      invariant |nextGeneration| == i
      invariant forall k :: 0 <= k < i ==>
        nextGeneration[k] == Offspring(cat, selectedPopulation, mutationRate, children, k)
      invariant AllWellFormed(cat, nextGeneration)
    {
      var child1, child2 := BreedPair(cat, selectedPopulation, mutationRate, children, i);
      nextGeneration := nextGeneration + [child1, child2];
      i := i + 2;
    }
  }

  /** Scores of every schedule of the population, in order. */
  method ScorePopulation(cat: Catalog, population: seq<Schedule>) returns (scores: seq<int>)
    requires EachScoreable(cat, population)
    ensures scores == Scores(cat, population)
  {
    scores := [];
    for i := 0 to |population|
      invariant |scores| == i
      invariant forall k :: 0 <= k < i ==> scores[k] == Fitness(cat, population[k])
    {
      var fitness := CalculateFitness(cat, population[i]);
      scores := scores + [fitness];
    }
  }

  /**
   `bestFitness` is the score of `bestSchedule`, and absent (the source's
   -infinity) while no schedule is tracked.
   */
  predicate Tracks(cat: Catalog, bestSchedule: Option<Schedule>, bestFitness: Option<int>) {
    match bestSchedule
    case None => bestFitness.None?
    case Some(s) => AllScoreable(cat, s) && bestFitness == Some(Fitness(cat, s))
  }

  /** The schedules scored after j + 1 steps are those after j steps and one more. */
  lemma PrefixStep(scored0: seq<Schedule>, population: seq<Schedule>, j: nat)
    requires j <= |population|
    ensures j < |population| ==>
      scored0 + population[..j + 1] == (scored0 + population[..j]) + [population[j]]
    ensures j == |population| ==> scored0 + population[..j] == scored0 + population
  {
    if j < |population| {
      assert population[..j + 1] == population[..j] + [population[j]];
    } else {
      assert population[..j] == population;
    }
  }

  /**
   One step of the source's best-tracking loop: score `schedule` and replace
   the tracked pair only when nothing is tracked yet or the score is strictly
   greater; the tracked pair stays equal to Best of what has been scored.
   */
  method TrackOne(
    cat: Catalog, schedule: Schedule,
    bestSchedule0: Option<Schedule>, bestFitness0: Option<int>, ghost scored: seq<Schedule>)
    returns (bestSchedule: Option<Schedule>, bestFitness: Option<int>)
    requires EachScoreable(cat, scored) && AllScoreable(cat, schedule)
    requires bestSchedule0 == Best(cat, scored) && Tracks(cat, bestSchedule0, bestFitness0)
    ensures EachScoreable(cat, scored + [schedule])
    ensures bestSchedule == Best(cat, scored + [schedule]) && Tracks(cat, bestSchedule, bestFitness)
    ensures bestSchedule == if bestFitness0.None? || Fitness(cat, schedule) > bestFitness0.value
                            then Some(schedule) else bestSchedule0
  {
    var fitness := CalculateFitness(cat, schedule);
    BestStep(cat, scored, schedule);
    if bestFitness0.None? || fitness > bestFitness0.value {
      bestFitness := Some(fitness);
      bestSchedule := Some(schedule);
    } else {
      bestFitness := bestFitness0;
      bestSchedule := bestSchedule0;
    }
  }

  /**
   The source's best-tracking loop over a freshly bred population, one
   TrackOne step per schedule, in order.
   */
  method TrackBest(
    cat: Catalog, population: seq<Schedule>,
    bestSchedule0: Option<Schedule>, bestFitness0: Option<int>, ghost scored0: seq<Schedule>)
    returns (bestSchedule: Option<Schedule>, bestFitness: Option<int>, ghost scored: seq<Schedule>)
    requires EachScoreable(cat, scored0) && EachScoreable(cat, population)
    requires bestSchedule0 == Best(cat, scored0) && Tracks(cat, bestSchedule0, bestFitness0)
    ensures scored == scored0 + population && EachScoreable(cat, scored)
    ensures bestSchedule == Best(cat, scored) && Tracks(cat, bestSchedule, bestFitness)
  {
    bestSchedule, bestFitness, scored := bestSchedule0, bestFitness0, scored0;
    for j := 0 to |population|
      invariant scored == scored0 + population[..j]
      invariant EachScoreable(cat, scored) && bestSchedule == Best(cat, scored)
      invariant Tracks(cat, bestSchedule, bestFitness)
    {
      bestSchedule, bestFitness := TrackOne(cat, population[j], bestSchedule, bestFitness, scored);
      PrefixStep(scored0, population, j);
      scored := scored + [population[j]];
    }
    PrefixStep(scored0, population, |population|);
  }

  /** The random choices of one generation: one selection draw per member and the children's draws. */
  datatype GenerationDraws = GenerationDraws(selection: seq<real>, children: seq<ChildDraws>)

  predicate GenerationDrawsFit(cat: Catalog, rate: real, g: GenerationDraws, m: nat) {
    |g.selection| == m && |g.children| == ChildCount(m)
    && forall c :: c in g.children ==> ChildDrawsFit(cat, rate, c)
  }

  /**
   The population one generation breeds from `population`: the children of
   the pool the wheel selects, spun with the softmax of the scores.
   */
  function NextGeneration(
    cat: Catalog, population: seq<Schedule>, rate: real, softmax: seq<int> -> seq<real>, g: GenerationDraws)
    : (next: seq<Schedule>)
    requires ValidCatalog(cat) && AllWellFormed(cat, population)
    requires forall scores :: |softmax(scores)| == |scores|
    requires GenerationDrawsFit(cat, rate, g, |population|)
    ensures |next| == ChildCount(|population|)
    ensures AllWellFormed(cat, next)
  {
    AllWellFormedIsScored(cat, population);
    var selected := Selected(population, softmax(Scores(cat, population)), g.selection);
    assert AllWellFormed(cat, selected);
    AllOffspringWellFormed(cat, selected, rate, g.children);
    seq(ChildCount(|population|), i requires 0 <= i < ChildCount(|population|) =>
      Offspring(cat, selected, rate, g.children, i))
  }

  /**
   One pass of the source's generation loop up to the replacement of the
   population: score, select, breed.
   */
  method Generation(
    cat: Catalog, population: seq<Schedule>, mutationRate: real, softmax: seq<int> -> seq<real>,
    g: GenerationDraws)
    returns (nextGeneration: seq<Schedule>)
    requires ValidCatalog(cat) && AllWellFormed(cat, population)
    requires forall scores :: |softmax(scores)| == |scores|
    requires GenerationDrawsFit(cat, mutationRate, g, |population|)
    ensures nextGeneration == NextGeneration(cat, population, mutationRate, softmax, g)
  {
    AllWellFormedIsScored(cat, population);
    var scores := ScorePopulation(cat, population);
    var selectedPopulation := RouletteWheelSelection(population, softmax(scores), g.selection);
    nextGeneration := Breed(cat, selectedPopulation, mutationRate, g.children);
  }

  /** The population size at the start of a generation: n at first, then n rounded up to even. */
  function PopulationSizeAt(n: nat, generation: nat): (m: nat)
    ensures generation > 0 ==> m % 2 == 0 && (m == n || m == n + 1)
  {
    if generation == 0 then n else ChildCount(n)
  }

  /**
   What every generation of a search from population `start` needs: a
   valid catalog, a length-preserving softmax and fitting draws.
   */
  ghost predicate Runnable(
    cat: Catalog, rate: real, softmax: seq<int> -> seq<real>,
    start: seq<Schedule>, draws: seq<GenerationDraws>)
  {
    && ValidCatalog(cat) && AllWellFormed(cat, start)
    && (forall scores :: |softmax(scores)| == |scores|)
    && forall k :: 0 <= k < |draws| ==> GenerationDrawsFit(cat, rate, draws[k], PopulationSizeAt(|start|, k))
  }

  /** The population after k generations of the search from `start`. */
  function PopulationAfter(
    cat: Catalog, rate: real, softmax: seq<int> -> seq<real>,
    start: seq<Schedule>, draws: seq<GenerationDraws>,
    k: nat)
    : (population: seq<Schedule>)
    requires Runnable(cat, rate, softmax, start, draws) && k <= |draws|
    ensures |population| == PopulationSizeAt(|start|, k)
    ensures AllWellFormed(cat, population)
  {
    if k == 0 then start
    else
      var previous := PopulationAfter(cat, rate, softmax, start, draws, k - 1);
      NextGeneration(cat, previous, rate, softmax, draws[k - 1])
  }

  /**
   Every child the first k generations breed, generation by generation and
   in order: the populations after generations 1 to k, never `start` itself.
   */
  function Bred(
    cat: Catalog, rate: real, softmax: seq<int> -> seq<real>,
    start: seq<Schedule>, draws: seq<GenerationDraws>,
    k: nat)
    : (children: seq<Schedule>)
    requires Runnable(cat, rate, softmax, start, draws) && k <= |draws|
    ensures |children| == k * ChildCount(|start|)
    ensures AllWellFormed(cat, children)
  {
    if k == 0 then []
    else
      var earlier := Bred(cat, rate, softmax, start, draws, k - 1);
      var latest := PopulationAfter(cat, rate, softmax, start, draws, k);
      assert (k - 1) * ChildCount(|start|) + ChildCount(|start|) == k * ChildCount(|start|);
      assert forall i :: |earlier| <= i < |earlier| + |latest| ==>
        (earlier + latest)[i] == latest[i - |earlier|];
      earlier + latest
  }

  /** One more generation: the next population is bred from the current one and joins the children. */
  lemma GenerationStep(
    cat: Catalog, rate: real, softmax: seq<int> -> seq<real>,
    start: seq<Schedule>, draws: seq<GenerationDraws>,
    k: nat)
    requires Runnable(cat, rate, softmax, start, draws) && k < |draws|
    ensures GenerationDrawsFit(cat, rate, draws[k], |PopulationAfter(cat, rate, softmax, start, draws, k)|)
    ensures PopulationAfter(cat, rate, softmax, start, draws, k + 1)
      == NextGeneration(cat, PopulationAfter(cat, rate, softmax, start, draws, k), rate, softmax, draws[k])
    ensures Bred(cat, rate, softmax, start, draws, k + 1)
      == Bred(cat, rate, softmax, start, draws, k) + PopulationAfter(cat, rate, softmax, start, draws, k + 1)
  {
  }

  /** The search starts from the initial population with nothing bred yet. */
  lemma SearchStart(
    cat: Catalog, rate: real, softmax: seq<int> -> seq<real>,
    initial: seq<seq<Draw>>, draws: seq<GenerationDraws>)
    requires ValidCatalog(cat)
    requires forall scores :: |softmax(scores)| == |scores|
    requires forall i :: 0 <= i < |initial| ==> ScheduleDrawsFit(cat, initial[i])
    requires forall k :: 0 <= k < |draws| ==>
      GenerationDrawsFit(cat, rate, draws[k], PopulationSizeAt(|initial|, k))
    ensures Runnable(cat, rate, softmax, InitialPopulation(cat, initial), draws)
    ensures PopulationAfter(cat, rate, softmax, InitialPopulation(cat, initial), draws, 0)
      == InitialPopulation(cat, initial)
    ensures Bred(cat, rate, softmax, InitialPopulation(cat, initial), draws, 0) == []
  {
  }

  /**
   The search. `softmax` stands for the source's softmax (scores given in
   tenths), `initial` holds the draws for the first population and `draws`
   those of each generation. `scored` lists every schedule the loop scored,
   in order: the children bred by each generation, never the initial
   population.
   */
  method GeneticAlgorithm(
    cat: Catalog, populationSize: int, mutationRate: real, generations: int,
    softmax: seq<int> -> seq<real>, initial: seq<seq<Draw>>, draws: seq<GenerationDraws>)
    returns (bestSchedule: Option<Schedule>, ghost scored: seq<Schedule>)
    requires ValidCatalog(cat)
    requires forall scores :: |softmax(scores)| == |scores|
    requires |initial| == Iterations(populationSize)
    requires forall i :: 0 <= i < |initial| ==> ScheduleDrawsFit(cat, initial[i])
    requires |draws| == Iterations(generations)
    requires forall k :: 0 <= k < |draws| ==>
      GenerationDrawsFit(cat, mutationRate, draws[k], PopulationSizeAt(Iterations(populationSize), k))
    ensures Runnable(cat, mutationRate, softmax, InitialPopulation(cat, initial), draws)
    ensures scored == Bred(cat, mutationRate, softmax, InitialPopulation(cat, initial), draws, |draws|)
    ensures |scored| == Iterations(generations) * ChildCount(Iterations(populationSize))
    ensures AllWellFormed(cat, scored) && EachScoreable(cat, scored)
    ensures bestSchedule == Best(cat, scored)
    ensures generations <= 0 || populationSize <= 0 ==> bestSchedule == None
    ensures generations > 0 && populationSize > 0 ==> bestSchedule.Some?
  {
    var population := InitializePopulation(cat, populationSize, initial);
    ghost var start := population;
    SearchStart(cat, mutationRate, softmax, initial, draws);
    bestSchedule := None;
    var bestFitness: Option<int> := None;
    scored := [];

    var generation := 0;
    while generation < generations
      invariant 0 <= generation <= |draws|
      invariant population == PopulationAfter(cat, mutationRate, softmax, start, draws, generation)
      invariant scored == Bred(cat, mutationRate, softmax, start, draws, generation)
      invariant EachScoreable(cat, scored)
      invariant bestSchedule == Best(cat, scored)
      invariant Tracks(cat, bestSchedule, bestFitness)
    {
      GenerationStep(cat, mutationRate, softmax, start, draws, generation);
      population := Generation(cat, population, mutationRate, softmax, draws[generation]);
      AllWellFormedIsScored(cat, population);
      bestSchedule, bestFitness, scored := TrackBest(cat, population, bestSchedule, bestFitness, scored);
      generation := generation + 1;
    }
    AllWellFormedIsScored(cat, scored);
  }
}
