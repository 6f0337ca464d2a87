/** Weighted choice as Python's `random.choices(population, weights=..., k=1)[0]`
    performs it, with the uniform draw taken as an input: running totals of the
    weights, then the first position whose running total exceeds the draw. */
module Sampling {
  import opened Outcomes

  function Sum(w: seq<nat>): nat
  {
    if w == [] then 0 else Sum(w[..|w| - 1]) + w[|w| - 1]
  }

  lemma SumStep(w: seq<nat>, i: nat)
    requires i < |w|
    ensures Sum(w[..i + 1]) == Sum(w[..i]) + w[i]
  {
    assert w[..i + 1][..i] == w[..i];
  }

  lemma {:induction false} SumPrefixMonotone(w: seq<nat>, i: nat, j: nat)
    requires i <= j <= |w|
    ensures Sum(w[..i]) <= Sum(w[..j])
    decreases j - i
  {
    if i < j {
      SumStep(w, i);
      SumPrefixMonotone(w, i + 1, j);
    }
  }

  /** `itertools.accumulate(weights)`: position i holds the sum of the first i + 1 weights. */
  function CumulativeWeights(w: seq<nat>): (c: seq<nat>)
    ensures |c| == |w|
    ensures forall i | 0 <= i < |w| :: c[i] == Sum(w[..i + 1])
  {
    if w == [] then []
    else
      var init := w[..|w| - 1];
      var c := CumulativeWeights(init);
      var r := c + [(if c == [] then 0 else c[|c| - 1]) + w[|w| - 1]];
      assert forall i | 0 <= i < |w| :: r[i] == Sum(w[..i + 1]) by {
        forall i | 0 <= i < |w| ensures r[i] == Sum(w[..i + 1]) {
          if i < |init| {
            assert init[..i + 1] == w[..i + 1];
          } else {
            assert w[..i + 1] == w && w[..i] == init;
            if c != [] { assert init[..|init|] == init; }
          }
        }
      }
      r
  }

  /** `bisect.bisect_right(c, x, lo, hi)` on a non-decreasing `c`: the first
      position in [lo, hi) whose value exceeds `x`, or `hi` when there is none. */
  function BisectRight(c: seq<nat>, x: nat, lo: nat, hi: nat): (k: nat)
    requires lo <= hi <= |c|
    ensures lo <= k <= hi
    ensures forall j | lo <= j < k :: c[j] <= x
    ensures k < hi ==> x < c[k]
    decreases hi - lo
  {
    if lo == hi then lo
    else if x < c[lo] then lo
    else BisectRight(c, x, lo + 1, hi)
  }

  /** The position `random.choices` picks for scaled draw `r`; `hi` is one less
      than the population size, as in the library, so the last position is the fallback. */
  function ChoiceIndex(weights: seq<nat>, r: nat): (k: nat)
    requires |weights| > 0
    ensures k < |weights|
  {
    BisectRight(CumulativeWeights(weights), r, 0, |weights| - 1)
  }

  /** `random.choices(population, weights=weights, k=1)[0]` given the scaled draw
      `r`, the integer part of `random() * total`. The errors are the library's,
      in the order it checks them. */
  function Choices<T>(population: seq<T>, weights: seq<nat>, r: nat): (res: Result<T>)
    ensures |weights| != |population| ==>
              res == Err(ValueError("The number of weights does not match the population"))
    ensures |weights| == |population| == 0 ==> res == Err(IndexError("list index out of range"))
    ensures |weights| == |population| > 0 && Sum(weights) == 0 ==>
              res == Err(ValueError("Total of weights must be greater than zero"))
    ensures res.Ok? <==> |weights| == |population| > 0 && Sum(weights) > 0
    ensures res.Ok? ==> res.value in population
  {
    var cum := CumulativeWeights(weights);
    assert weights[..|weights|] == weights;
    if |cum| != |population| then Err(ValueError("The number of weights does not match the population"))
    else if |cum| == 0 then Err(IndexError("list index out of range"))
    else if cum[|cum| - 1] == 0 then Err(ValueError("Total of weights must be greater than zero"))
    else Ok(population[ChoiceIndex(weights, r)])
  }

  /** For a draw below the total, position i is picked exactly when the draw
      falls in [Sum(weights[..i]), Sum(weights[..i + 1])): the draws that pick i
      number weights[i], so the choice is proportional to the weights. */
  lemma ChoiceIndexInterval(weights: seq<nat>, r: nat, i: nat)
    requires i < |weights| && r < Sum(weights)
    ensures ChoiceIndex(weights, r) == i <==> Sum(weights[..i]) <= r < Sum(weights[..i + 1])
  {
    var n := |weights|;
    var c := CumulativeWeights(weights);
    var k := ChoiceIndex(weights, r);
    assert weights[..n] == weights;
    // c[k] exceeds r: either bisect stopped there, or k is the last position and c[n - 1] is the total.
    assert r < c[k];
    // Every position before k has a running total at most r.
    assert k > 0 ==> c[k - 1] <= r;
    assert k > 0 ==> Sum(weights[..k]) == c[k - 1];
    if Sum(weights[..i]) <= r < Sum(weights[..i + 1]) {
      if k < i {
        SumPrefixMonotone(weights, k + 1, i);
      } else if i < k {
        SumPrefixMonotone(weights, i + 1, k);
      }
    }
  }

  /** A zero-weight position is never picked by a draw below the total. */
  lemma ChoiceIndexPositive(weights: seq<nat>, r: nat)
    requires |weights| > 0 && r < Sum(weights)
    ensures weights[ChoiceIndex(weights, r)] > 0
  {
    var k := ChoiceIndex(weights, r);
    ChoiceIndexInterval(weights, r, k);
    SumStep(weights, k);
  }
}
