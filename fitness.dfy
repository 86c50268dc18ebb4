/**
 Fitness scoring. Every contribution is kept in exact tenths of a point, so a
 score of 8 stands for the source's 0.8.
 */
module Scoring {
  import opened Schedules

  /** Java's `int` multiplication result: the mathematical value wrapped to 32 bits. */
  function WrapInt32(x: int): (r: int)
    ensures IsInt32(r)
    ensures IsInt32(x) ==> r == x
    ensures (x - r) % 0x1_0000_0000 == 0
  {
    var m := x % 0x1_0000_0000;
    if m <= INT32_MAX then m else m - 0x1_0000_0000
  }

  /**
   The room-capacity contribution, with the three guards in the source's
   order; `3 * enrollment` and `6 * enrollment` are 32-bit products.
   */
  function RoomScore(capacity: int, enrollment: int): (r: int)
    ensures r == -5 <==> capacity < enrollment
    ensures -5 <= r <= 3
  {
    if capacity < enrollment then -5
    else if capacity > WrapInt32(3 * enrollment) then -2
    else if capacity > WrapInt32(6 * enrollment) then -4
    else 3
  }

  /** The facilitator contribution: preferred for the activity, known, or unknown. */
  function FacilitatorScore(preferred: seq<string>, facilitators: seq<string>, f: string): (r: int)
    ensures r == 5 <==> f in preferred
    ensures -1 <= r <= 5
  {
    if f in preferred then 5
    else if f in facilitators then 2
    else -1
  }

  /** The two independent contributions of one gene. */
  function GeneScore(cat: Catalog, g: Gene): (r: int)
    requires Scoreable(cat, g)
    ensures -6 <= r <= 8
  {
    RoomScore(cat.rooms[g.room], cat.enrollment[g.activity])
      + FacilitatorScore(cat.preferred[g.activity], cat.facilitators, g.facilitator)
  }

  /** The score of a schedule: the sum of its genes' scores. */
  function Fitness(cat: Catalog, s: Schedule): (score: int)
    requires AllScoreable(cat, s)
  {
    if s == [] then 0
    else
      Fitness(cat, s[..|s| - 1]) + GeneScore(cat, s[|s| - 1])
  }

  /**
   As long as `6 * enrollment` does not overflow, the room contribution is
   -0.5 below the enrollment, -0.2 above three times it, and +0.3 in between
   (capacity equal to enrollment included): the -0.4 branch is never taken.
   */
  lemma RoomScoreCases(capacity: int, enrollment: int)
    requires IsInt32(6 * enrollment)
    ensures RoomScore(capacity, enrollment) ==
      if capacity < enrollment then -5
      else if capacity > 3 * enrollment then -2
      else 3
    ensures RoomScore(capacity, enrollment) != -4
  {
    assert IsInt32(3 * enrollment);
    if capacity >= enrollment && capacity <= 3 * enrollment {
      assert enrollment >= 0;
      assert capacity <= 6 * enrollment;
    }
  }

  /**
   With Java's 32-bit products the -0.4 branch does become reachable once
   `6 * enrollment` overflows: an enrollment and capacity of 400000000 score it.
   */
  lemma FarTooLargeReachableOnOverflow()
    ensures RoomScore(400_000_000, 400_000_000) == -4
  {
    assert WrapInt32(3 * 400_000_000) == 1_200_000_000;
    assert WrapInt32(6 * 400_000_000) == -1_894_967_296;
  }

  /**
   A gene's score is the room contribution plus the facilitator contribution,
   each decided by its own table lookups, with exactly the source's values.
   */
  lemma GeneScoreCases(cat: Catalog, g: Gene)
    requires Scoreable(cat, g) && IsInt32(6 * cat.enrollment[g.activity])
    ensures GeneScore(cat, g) ==
      (var c, e := cat.rooms[g.room], cat.enrollment[g.activity];
       if c < e then -5 else if c > 3 * e then -2 else 3)
      +
      (if g.facilitator in cat.preferred[g.activity] then 5
       else if g.facilitator in cat.facilitators then 2
       else -1)
  {
    RoomScoreCases(cat.rooms[g.room], cat.enrollment[g.activity]);
  }

  /** Scoring a concatenation adds the two scores. */
  lemma {:induction false} FitnessAppend(cat: Catalog, s: Schedule, t: Schedule)
    requires AllScoreable(cat, s) && AllScoreable(cat, t)
    ensures AllScoreable(cat, s + t)
    ensures Fitness(cat, s + t) == Fitness(cat, s) + Fitness(cat, t)
    decreases |t|
  {
    if t == [] {
      assert s + t == s;
    } else {
      var t' := t[..|t| - 1];
      FitnessAppend(cat, s, t');
      assert (s + t)[..|s + t| - 1] == s + t';
    }
  }

  /** A schedule of n genes scores between -0.6 n and 0.8 n; the empty schedule scores 0. */
  lemma {:induction false} FitnessBounds(cat: Catalog, s: Schedule)
    requires AllScoreable(cat, s)
    ensures -6 * |s| <= Fitness(cat, s) <= 8 * |s|
    ensures s == [] ==> Fitness(cat, s) == 0
    decreases |s|
  {
    if s != [] {
      var s' := s[..|s| - 1];
      FitnessBounds(cat, s');
    }
  }

  /** The source's scoring loop: one running total, updated gene by gene. */
  method CalculateFitness(cat: Catalog, schedule: Schedule) returns (fitness: int)
    requires AllScoreable(cat, schedule)
    ensures fitness == Fitness(cat, schedule)
  {
    fitness := 0;
    for i := 0 to |schedule|
      invariant AllScoreable(cat, schedule[..i])
      invariant fitness == Fitness(cat, schedule[..i])
    {
      var entry := schedule[i];
      var roomCapacity := cat.rooms[entry.room];
      var enrollment := cat.enrollment[entry.activity];

      if roomCapacity < enrollment {
        fitness := fitness - 5;
      } else if roomCapacity > WrapInt32(3 * enrollment) {
        fitness := fitness - 2;
      } else if roomCapacity > WrapInt32(6 * enrollment) {
        fitness := fitness - 4;
      } else {
        fitness := fitness + 3;
      }

      if entry.facilitator in cat.preferred[entry.activity] {
        fitness := fitness + 5;
      } else if entry.facilitator in cat.facilitators {
        fitness := fitness + 2;
      } else {
        fitness := fitness - 1;
      }

      assert schedule[..i + 1][..i] == schedule[..i];
    }
    assert schedule[..|schedule|] == schedule;
  }
}
