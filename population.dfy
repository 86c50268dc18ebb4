/**
 Building random candidates: one freshly drawn gene per activity, and a
 population of such candidates.
 */
module Population {
  import opened Schedules

  /** The draws for one schedule: one valid draw per activity. */
  predicate ScheduleDrawsFit(cat: Catalog, draws: seq<Draw>) {
    |draws| == |cat.activities| && forall i :: 0 <= i < |draws| ==> ValidDraw(cat, draws[i])
  }

  /** The schedule built from `draws`: gene i is activity i with draw i's choices. */
  function RandomSchedule(cat: Catalog, draws: seq<Draw>): (s: Schedule)
    requires ScheduleDrawsFit(cat, draws)
    ensures WellFormed(cat, s)
    ensures forall i :: 0 <= i < |s| ==> s[i].room == draws[i].room
  {
    seq(|cat.activities|, i requires 0 <= i < |cat.activities| => Assign(cat, cat.activities[i], draws[i]))
  }

  /** The source's construction loop, appending one gene per activity in catalog order. */
  method GenerateRandomSchedule(cat: Catalog, draws: seq<Draw>) returns (schedule: Schedule)
    requires ScheduleDrawsFit(cat, draws)
    ensures schedule == RandomSchedule(cat, draws)
    ensures |schedule| == |cat.activities| && WellFormed(cat, schedule)
  {
    schedule := [];
    for i := 0 to |cat.activities|
      invariant schedule == RandomSchedule(cat, draws)[..i]
    {
      var d := draws[i];
      var room := d.room;
      var timeSlot := cat.timeslots[d.slot];
      var facilitator := cat.facilitators[d.facilitator];
      schedule := schedule + [Gene(cat.activities[i], room, timeSlot, facilitator)];
    }
  }

  /** The population built from `draws`: schedule i is the random schedule of draws i. */
  function InitialPopulation(cat: Catalog, draws: seq<seq<Draw>>): (population: seq<Schedule>)
    requires forall i :: 0 <= i < |draws| ==> ScheduleDrawsFit(cat, draws[i])
    ensures |population| == |draws|
    ensures forall i :: 0 <= i < |population| ==> WellFormed(cat, population[i])
  {
    seq(|draws|, i requires 0 <= i < |draws| => RandomSchedule(cat, draws[i]))
  }

  /** `populationSize` random schedules, schedule i built from `draws[i]`. */
  method InitializePopulation(cat: Catalog, populationSize: int, draws: seq<seq<Draw>>)
    returns (population: seq<Schedule>)
    requires |draws| == Iterations(populationSize)
    requires forall i :: 0 <= i < |draws| ==> ScheduleDrawsFit(cat, draws[i])
    ensures population == InitialPopulation(cat, draws)
    ensures |population| == Iterations(populationSize)
    ensures forall i :: 0 <= i < |population| ==>
      population[i] == RandomSchedule(cat, draws[i]) && WellFormed(cat, population[i])
  {
    population := [];
    var i := 0;
    while i < populationSize
      invariant 0 <= i <= Iterations(populationSize)
      invariant |population| == i
      invariant forall k :: 0 <= k < i ==> population[k] == RandomSchedule(cat, draws[k])
    {
      var schedule := GenerateRandomSchedule(cat, draws[i]);
      population := population + [schedule];
      i := i + 1;
    }
  }
}
