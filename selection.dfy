/**
 Fitness-proportional selection. The probabilities are taken as given (they
 are the softmax of the scores) and the uniform draw in [0, 1) is a parameter.
 */
module Selection {

  /** The sum of a sequence of reals. */
  function Sum(p: seq<real>): (total: real) {
    if p == [] then 0.0 else Sum(p[..|p| - 1]) + p[|p| - 1]
  }

  /** The running total after the first `k` probabilities. */
  function Cumulative(p: seq<real>, k: nat): (total: real)
    requires k <= |p|
  {
    Sum(p[..k])
  }

  /** The running total through index `j`, inclusive. */
  function RunningTotal(p: seq<real>, j: nat): (total: real)
    requires j < |p|
  {
    Cumulative(p, j + 1)
  }

  predicate NonNegative(p: seq<real>) {
    forall i :: 0 <= i < |p| ==> 0.0 <= p[i]
  }

  /** The first index from `i` on whose running total reaches `r`, else the last index. */
  function FirstReachingFrom(p: seq<real>, r: real, i: nat): (k: int)
    requires i <= |p|
    ensures |p| == 0 ==> k == -1
    ensures |p| > 0 ==> i <= k < |p| || (i == |p| && k == |p| - 1)
    decreases |p| - i
  {
    if i == |p| then |p| - 1
    else if r <= RunningTotal(p, i) then i
    else FirstReachingFrom(p, r, i + 1)
  }

  /** The index the wheel stops at for draw `r`. */
  function SelectedIndex(p: seq<real>, r: real): (k: int)
    ensures |p| == 0 ==> k == -1
    ensures |p| > 0 ==> 0 <= k < |p|
  {
    FirstReachingFrom(p, r, 0)
  }

  lemma {:induction false} FirstReachingFromIsLeast(p: seq<real>, r: real, i: nat)
    requires i <= |p|
    requires forall j :: 0 <= j < i ==> r > RunningTotal(p, j)
    ensures forall j :: 0 <= j < FirstReachingFrom(p, r, i) ==> r > RunningTotal(p, j)
    ensures |p| > 0 ==>
      var k := FirstReachingFrom(p, r, i);
      r <= RunningTotal(p, k) || (k == |p| - 1 && forall j :: 0 <= j < |p| ==> r > RunningTotal(p, j))
    decreases |p| - i
  {
    if i < |p| && r > RunningTotal(p, i) {
      FirstReachingFromIsLeast(p, r, i + 1);
    }
  }

  /**
   The selected index is the least index whose running total reaches the
   draw; when no running total reaches it, the last index is selected.
   */
  lemma SelectedIndexIsLeast(p: seq<real>, r: real)
    ensures forall j :: 0 <= j < SelectedIndex(p, r) ==> r > RunningTotal(p, j)
    ensures |p| > 0 ==>
      var k := SelectedIndex(p, r);
      r <= RunningTotal(p, k) || (k == |p| - 1 && forall j :: 0 <= j < |p| ==> r > RunningTotal(p, j))
  {
    FirstReachingFromIsLeast(p, r, 0);
  }

  /** With non-negative probabilities the running total never decreases. */
  lemma {:induction false} CumulativeMonotone(p: seq<real>, j: nat, k: nat)
    requires NonNegative(p) && j <= k <= |p|
    ensures Cumulative(p, j) <= Cumulative(p, k)
    decreases k - j
  {
    if j < k {
      CumulativeMonotone(p, j, k - 1);
      assert p[..k][..k - 1] == p[..k - 1];
    }
  }

  /**
   The wheel: with non-negative probabilities, index i is selected exactly
   when the draw falls in the segment (Cumulative(i), Cumulative(i + 1)],
   for every draw in (0, Sum(p)].
   */
  lemma WheelSegment(p: seq<real>, r: real, i: nat)
    requires NonNegative(p) && i < |p|
    requires 0.0 < r <= Sum(p)
    ensures SelectedIndex(p, r) == i <==> Cumulative(p, i) < r <= Cumulative(p, i + 1)
  {
    SelectedIndexIsLeast(p, r);
    var k := SelectedIndex(p, r);
    assert p[..|p|] == p;
    assert RunningTotal(p, |p| - 1) == Sum(p);
    assert r <= RunningTotal(p, k);
    assert RunningTotal(p, i) == Cumulative(p, i + 1);
    if k == i {
      if i > 0 {
        assert r > RunningTotal(p, i - 1);
      } else {
        assert p[..0] == [];
      }
    } else if Cumulative(p, i) < r <= Cumulative(p, i + 1) {
      if k < i {
        CumulativeMonotone(p, k + 1, i);
      }
    }
  }

  /** The source's walk: accumulate the probabilities and stop at the first total reaching the draw. */
  method SelectIndex(probabilities: seq<real>, randomValue: real) returns (index: int)
    ensures index == SelectedIndex(probabilities, randomValue)
    ensures |probabilities| > 0 ==> 0 <= index < |probabilities|
    ensures |probabilities| == 0 ==> index == -1
  {
    var cumulative := 0.0;
    for i := 0 to |probabilities|
      invariant cumulative == Cumulative(probabilities, i)
      invariant SelectedIndex(probabilities, randomValue) == FirstReachingFrom(probabilities, randomValue, i)
    {
      assert probabilities[..i + 1][..i] == probabilities[..i];
      cumulative := cumulative + probabilities[i];
      if randomValue <= cumulative {
        return i;
      }
    }
    return |probabilities| - 1;
  }

  /** The population entries the wheel stops at, one spin per draw. */
  function Selected<T>(population: seq<T>, probabilities: seq<real>, draws: seq<real>): (selected: seq<T>)
    requires |probabilities| == |population| && |draws| == |population|
    ensures |selected| == |population|
    ensures forall k :: 0 <= k < |population| ==> selected[k] in population
  {
    seq(|population|, k requires 0 <= k < |population| => population[SelectedIndex(probabilities, draws[k])])
  }

  /**
   One spin of the wheel per population member: member k of the result is
   the population entry at the index selected by draw k.
   */
  method RouletteWheelSelection<T>(population: seq<T>, probabilities: seq<real>, draws: seq<real>)
    returns (selectedPopulation: seq<T>)
    requires |probabilities| == |population| && |draws| == |population|
    ensures selectedPopulation == Selected(population, probabilities, draws)
    ensures |selectedPopulation| == |population|
    ensures forall k :: 0 <= k < |population| ==>
      0 <= SelectedIndex(probabilities, draws[k]) < |population|
      && selectedPopulation[k] == population[SelectedIndex(probabilities, draws[k])]
    ensures forall k :: 0 <= k < |population| ==> selectedPopulation[k] in population
  {
    selectedPopulation := [];
    for i := 0 to |population|
      invariant |selectedPopulation| == i
      invariant forall k :: 0 <= k < i ==>
        selectedPopulation[k] == population[SelectedIndex(probabilities, draws[k])]
    {
      var index := SelectIndex(probabilities, draws[i]);
      selectedPopulation := selectedPopulation + [population[index]];
    }
  }
}
