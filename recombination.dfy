/**
 Recombination: single-point crossover of two parents and per-gene mutation.
 */
module Recombination {
  import opened Schedules

  /**
   The single-point splice. `draw` is the value of `nextInt(parent1.size() - 1)`,
   so the crossover point `draw + 1` lies in [1, |parent1| - 1]; the child
   takes parent1's genes before the point and parent2's from the point on.
   */
  function Crossover(parent1: Schedule, parent2: Schedule, draw: nat): (child: Schedule)
    requires |parent1| >= 2 && draw < |parent1| - 1
    requires draw + 1 <= |parent2|
    ensures |child| == |parent2|
    ensures forall i :: 0 <= i <= draw ==> child[i] == parent1[i]
    ensures forall i :: draw + 1 <= i < |child| ==> child[i] == parent2[i]
  {
    parent1[..draw + 1] + parent2[draw + 1..]
  }

  /**
   Parents that both conform to the catalog give a child that conforms too,
   with every gene from the catalog when the parents' are: crossover never
   drops, duplicates or reorders an activity. Both parents contribute.
   */
  lemma CrossoverWellFormed(cat: Catalog, parent1: Schedule, parent2: Schedule, draw: nat)
    requires Conforms(cat, parent1) && Conforms(cat, parent2)
    requires |parent1| >= 2 && draw < |parent1| - 1
    ensures Conforms(cat, Crossover(parent1, parent2, draw))
    ensures WellFormed(cat, parent1) && WellFormed(cat, parent2) ==>
      WellFormed(cat, Crossover(parent1, parent2, draw))
    ensures Crossover(parent1, parent2, draw)[0] == parent1[0]
    ensures Crossover(parent1, parent2, draw)[|parent2| - 1] == parent2[|parent2| - 1]
  {
  }

  /** The uniform draw deciding one gene's mutation, and the choices used if it mutates. */
  datatype GeneDraw = GeneDraw(coin: real, redraw: Draw)

  /** One draw per gene; a gene that mutates has a valid redraw. */
  predicate MutationDrawsFit(cat: Catalog, rate: real, draws: seq<GeneDraw>, n: nat) {
    |draws| == n && forall i :: 0 <= i < n ==> draws[i].coin < rate ==> ValidDraw(cat, draws[i].redraw)
  }

  /** `nextDouble()` values lie in [0, 1). */
  predicate CoinsInRange(draws: seq<GeneDraw>) {
    forall i :: 0 <= i < |draws| ==> 0.0 <= draws[i].coin < 1.0
  }

  /** The mutated schedule: gene i is re-drawn when coin i is below the rate, else kept. */
  function Mutated(cat: Catalog, schedule: Schedule, rate: real, draws: seq<GeneDraw>): (mutated: Schedule)
    requires MutationDrawsFit(cat, rate, draws, |schedule|)
  {
    seq(|schedule|, i requires 0 <= i < |schedule| =>
      if draws[i].coin < rate then Assign(cat, schedule[i].activity, draws[i].redraw) else schedule[i])
  }

  /**
   Mutation keeps the length and the activity at every position; a gene whose
   coin is at least the rate is kept unchanged, and a re-drawn gene takes its
   room, timeslot and facilitator from the catalog.
   */
  lemma MutatedKeepsActivities(cat: Catalog, schedule: Schedule, rate: real, draws: seq<GeneDraw>)
    requires MutationDrawsFit(cat, rate, draws, |schedule|)
    ensures |Mutated(cat, schedule, rate, draws)| == |schedule|
    ensures forall i :: 0 <= i < |schedule| ==>
      Mutated(cat, schedule, rate, draws)[i].activity == schedule[i].activity
    ensures forall i :: 0 <= i < |schedule| && draws[i].coin >= rate ==>
      Mutated(cat, schedule, rate, draws)[i] == schedule[i]
    ensures forall i :: 0 <= i < |schedule| && draws[i].coin < rate ==>
      InCatalog(cat, Mutated(cat, schedule, rate, draws)[i])
    ensures Conforms(cat, schedule) ==> Conforms(cat, Mutated(cat, schedule, rate, draws))
    ensures WellFormed(cat, schedule) ==> WellFormed(cat, Mutated(cat, schedule, rate, draws))
  {
  }

  /** At rate 0 (or below) no coin is below the rate, so the schedule comes back unchanged. */
  lemma MutatedAtZeroRate(cat: Catalog, schedule: Schedule, rate: real, draws: seq<GeneDraw>)
    requires rate <= 0.0 && CoinsInRange(draws)
    requires MutationDrawsFit(cat, rate, draws, |schedule|)
    ensures Mutated(cat, schedule, rate, draws) == schedule
  {
    var m := Mutated(cat, schedule, rate, draws);
    assert forall i :: 0 <= i < |schedule| ==> m[i] == schedule[i];
  }

  /** At rate 1 (or above) every coin is below the rate, so every gene is re-drawn. */
  lemma MutatedAtFullRate(cat: Catalog, schedule: Schedule, rate: real, draws: seq<GeneDraw>)
    requires rate >= 1.0 && CoinsInRange(draws)
    requires MutationDrawsFit(cat, rate, draws, |schedule|)
    ensures forall i :: 0 <= i < |schedule| ==>
      ValidDraw(cat, draws[i].redraw)
      && Mutated(cat, schedule, rate, draws)[i] == Assign(cat, schedule[i].activity, draws[i].redraw)
  {
  }

  /** The source's mutation loop, appending either a re-drawn gene or the original one. */
  method Mutate(cat: Catalog, schedule: Schedule, mutationRate: real, draws: seq<GeneDraw>)
    returns (mutatedSchedule: Schedule)
    requires MutationDrawsFit(cat, mutationRate, draws, |schedule|)
    ensures mutatedSchedule == Mutated(cat, schedule, mutationRate, draws)
  {
    mutatedSchedule := [];
    for i := 0 to |schedule|
      invariant mutatedSchedule == Mutated(cat, schedule, mutationRate, draws)[..i]
    {
      var entry := schedule[i];
      if draws[i].coin < mutationRate {
        var d := draws[i].redraw;
        var room := d.room;
        var timeSlot := cat.timeslots[d.slot];
        var facilitator := cat.facilitators[d.facilitator];
        mutatedSchedule := mutatedSchedule + [Gene(entry.activity, room, timeSlot, facilitator)];
      } else {
        mutatedSchedule := mutatedSchedule + [entry];
      }
    }
  }
}
