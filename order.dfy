/** `OptimizeTestOrder`: the reconfiguration-cost matrix over the tests (with the
    empty configuration in front), the 2-opt tour through it, and the emitted list
    of tests with the scenarios to apply and retract before each one. */
module OptimizeOrder {
  import opened Wrappers
  import opened Strings
  import opened Seqs
  import opened Costs
  import opened TestModel
  import opened TwoOpt

  // ---------------------------------------------------------------------------
  // The weight matrix.

  /** The cost of moving between two scenario sets: every scenario applied
      (`to - from`) or retracted (`from - to`) is paid once. */
  function SwitchCost(from: set<string>, to: set<string>, table: CostTable): nat {
    SetCost((to - from) + (from - to), table)
  }

  function ScenarioSet(t: Test): set<string> {
    SetOf(t.scenarios)
  }

  lemma SwitchCostSymmetric(a: set<string>, b: set<string>, table: CostTable)
    ensures SwitchCost(a, b, table) == SwitchCost(b, a, table)
  {
    assert (b - a) + (a - b) == (a - b) + (b - a);
  }

  /** Staying in the same configuration costs nothing (the matrix diagonal). */
  lemma SwitchCostSelf(a: set<string>, table: CostTable)
    ensures SwitchCost(a, a, table) == 0
  {
    assert (a - a) + (a - a) == {};
  }

  /** The switch cost is the apply cost plus the retract cost. */
  lemma SwitchCostSplit(from: set<string>, to: set<string>, table: CostTable)
    ensures SwitchCost(from, to, table) == SetCost(to - from, table) + SetCost(from - to, table)
  {
    SetCostUnion(to - from, from - to, table);
  }

  /** The lower-triangular matrix `make_weights` builds: row i holds the costs of
      switching between test i and each of the tests 0..i. */
  predicate IsWeightMatrix(w: seq<seq<nat>>, tests: seq<Test>, table: CostTable) {
    && |w| == |tests|
    && (forall i :: 0 <= i < |w| ==> |w[i]| == i + 1)
    && (forall i, j :: 0 <= j <= i < |w| ==>
          w[i][j] == SwitchCost(ScenarioSet(tests[i]), ScenarioSet(tests[j]), table))
  }

  /** `distance` on the matrix is the switch cost in either direction; it reads only
      the stored lower triangle. */
  lemma WeightMatrixDistance(w: seq<seq<nat>>, tests: seq<Test>, table: CostTable, a: nat, b: nat)
    requires IsWeightMatrix(w, tests, table) && a < |w| && b < |w|
    ensures Covers(w)
    ensures Dist(w, a, b) == SwitchCost(ScenarioSet(tests[a]), ScenarioSet(tests[b]), table)
    ensures Dist(w, a, b) == Dist(w, b, a)
  {
    SwitchCostSymmetric(ScenarioSet(tests[a]), ScenarioSet(tests[b]), table);
  }

  /** `make_weights(tests, cost_map)`. */
  method MakeWeights(tests: seq<Test>, table: CostTable) returns (weights: seq<seq<nat>>)
    ensures IsWeightMatrix(weights, tests, table)
  {
    var n := |tests|;
    weights := [];
    for i := 0 to n
      invariant |weights| == i
      invariant forall a :: 0 <= a < i ==> |weights[a]| == a + 1
      invariant forall a, b :: 0 <= b <= a < i ==>
        weights[a][b] == SwitchCost(ScenarioSet(tests[a]), ScenarioSet(tests[b]), table)
    {
      var row: seq<nat> := [];
      var si := SetOf(tests[i].scenarios);
      for j := 0 to i + 1
        invariant |row| == j
        invariant forall b :: 0 <= b < j ==>
          row[b] == SwitchCost(ScenarioSet(tests[i]), ScenarioSet(tests[b]), table)
      {
        var sj := SetOf(tests[j].scenarios);
        var apply := sj - si;
        var retract := si - sj;
        var cost := SetCost(apply + retract, table);
        SwitchCostSymmetric(si, sj, table);
        row := row + [cost];
      }
      weights := weights + [row];
    }
  }

  // ---------------------------------------------------------------------------
  // The observation cost.

  /** Each test pays the observation cost of every key of its `quantities` dict, an
      unknown key costing 0 and a missing dict counting as empty; the tests' sums are
      added up. */
  function ObservationCost(tests: seq<Test>, table: CostTable): nat
    decreases |tests|
  {
    if tests == [] then 0
    else SeqCost(Keys(tests[0].quantities), table) + ObservationCost(tests[1..], table)
  }

  lemma {:induction false} ObservationCostAppend(a: seq<Test>, b: seq<Test>, table: CostTable)
    ensures ObservationCost(a + b, table) == ObservationCost(a, table) + ObservationCost(b, table)
    decreases |a|
  {
    if a == [] {
      assert a + b == b;
    } else {
      assert (a + b)[1..] == a[1..] + b;
      ObservationCostAppend(a[1..], b, table);
    }
  }

  /** Each test pays once for every quantity it observes, whatever the order of its keys. */
  lemma ObservationCostOfOne(t: Test, table: CostTable)
    ensures ObservationCost([t], table) == SetCost(SetOf(Keys(t.quantities)), table)
  {
    var ks := Keys(t.quantities);
    assert Distinct(ks) by {
      forall i, j | 0 <= i < j < |ks|
        ensures ks[i] != ks[j]
      {
        assert t.quantities[i].qty != t.quantities[j].qty;
      }
    }
    SeqCostOfDistinct(ks, table);
    assert [t][1..] == [];
  }

  /** The synthetic empty configuration observes nothing, so it adds nothing. */
  lemma ObservationCostWithEmpty(pruned: seq<Test>, table: CostTable)
    ensures ObservationCost([EmptyConfiguration()] + pruned, table) == ObservationCost(pruned, table)
  {
    ObservationCostAppend([EmptyConfiguration()], pruned, table);
    ObservationCostOfOne(EmptyConfiguration(), table);
    assert SetOf(Keys(EmptyConfiguration().quantities)) == {};
  }

  // ---------------------------------------------------------------------------
  // Rotating the tour to the empty configuration.

  /** No position before `k` holds a test whose `id` is 0, and each of them has an `id`. */
  predicate NoStartBefore(tests: seq<Test>, tour: seq<nat>, k: nat)
    requires InRange(tour, |tests|) && k <= |tour|
  {
    forall m :: 0 <= m < k ==> tests[tour[m]].id.Some? && tests[tour[m]].id.value != 0
  }

  /** The `for idx, tour_idx in enumerate(tour)` search for the first test with
      `id == 0`: reading a missing `id` raises KeyError, and finding none raises
      ValueError. */
  method FindStart(tests: seq<Test>, tour: seq<nat>) returns (r: Result<nat, PyError>)
    requires InRange(tour, |tests|)
    ensures r.Success? ==>
      r.value < |tour| && tests[tour[r.value]].id == Some(0) && NoStartBefore(tests, tour, r.value)
    ensures r.Failure? ==> r.error == KeyError || r.error == ValueError
    ensures r == Failure(KeyError) ==>
      exists k :: 0 <= k < |tour| && tests[tour[k]].id.None? && NoStartBefore(tests, tour, k)
    ensures r == Failure(ValueError) ==> NoStartBefore(tests, tour, |tour|)
    ensures |tour| > 0 && tests[tour[0]].id == Some(0) ==> r == Success(0)
  {
    var idx := 0;
    while idx < |tour|
      invariant idx <= |tour|
      invariant NoStartBefore(tests, tour, idx)
    {
      var t := tests[tour[idx]];
      if t.id.None? {
        return Failure(KeyError);
      }
      if t.id.value == 0 {
        return Success(idx);
      }
      idx := idx + 1;
    }
    return Failure(ValueError);
  }

  /** `tour[k:] + tour[:k]`, and the tour itself when `k == 0`. */
  function Rotate(tour: seq<nat>, k: nat): (r: seq<nat>)
    requires k < |tour|
    ensures |r| == |tour| && r[0] == tour[k]
    ensures forall m :: 0 <= m < |tour| ==>
      r[m] == if m + k < |tour| then tour[m + k] else tour[m + k - |tour|]
    ensures multiset(r) == multiset(tour)
  {
    if k == 0 then tour
    else
      assert tour == tour[..k] + tour[k..];
      tour[k..] + tour[..k]
  }

  // ---------------------------------------------------------------------------
  // Emitting the transitions.

  /** The test emitted when the tour moves from `cur` to `next`: a copy of `next`
      numbered `id`, with its scenarios sorted and the scenarios to apply and to
      retract. */
  function Transition(cur: Test, next: Test, id: nat): (t: Test)
    ensures t.id == Some(id)
    ensures StrictlySorted(t.scenarios) && forall x :: x in t.scenarios <==> x in next.scenarios
    ensures t.apply.Some? && StrictlySorted(t.apply.value)
    ensures forall x :: x in t.apply.value <==> x in next.scenarios && x !in cur.scenarios
    ensures t.retract.Some? && StrictlySorted(t.retract.value)
    ensures forall x :: x in t.retract.value <==> x in cur.scenarios && x !in next.scenarios
    ensures t.uuid == next.uuid && t.configDigest == next.configDigest
    ensures t.quantities == next.quantities
    ensures t.requirementsDirect == next.requirementsDirect
    ensures t.quantitiesDirect == next.quantitiesDirect
  {
    var c := SetOf(cur.scenarios);
    var n := SetOf(next.scenarios);
    next.(id := Some(id), scenarios := SortedOf(n),
          retract := Some(SortedOf(c - n)), apply := Some(SortedOf(n - c)))
  }

  /** The `while len(tests_tour) >= 2` loop: one emitted test per consecutive pair,
      numbered from 1. */
  method EmitTransitions(tour: seq<Test>) returns (out: seq<Test>)
    ensures |out| == if |tour| == 0 then 0 else |tour| - 1
    ensures forall k :: 0 <= k < |out| ==> out[k] == Transition(tour[k], tour[k + 1], k + 1)
  {
    var rest := tour;
    var count := 0;
    out := [];
    while |rest| >= 2
      invariant count <= |tour| && rest == tour[count..]
      invariant |tour| > 0 ==> count < |tour|
      invariant |out| == count
      invariant forall k :: 0 <= k < count ==> out[k] == Transition(tour[k], tour[k + 1], k + 1)
    {
      var currentScenarios := SetOf(rest[0].scenarios);
      var nextScenarios := SetOf(rest[1].scenarios);
      var retract := SortedOf(currentScenarios - nextScenarios);
      var apply := SortedOf(nextScenarios - currentScenarios);
      count := count + 1;
      var optTest := rest[1].(id := Some(count), scenarios := SortedOf(nextScenarios),
                              retract := Some(retract), apply := Some(apply));
      assert rest[0] == tour[count - 1] && rest[1] == tour[count];
      assert optTest == Transition(tour[count - 1], tour[count], count);
      out := out + [optTest];
      rest := rest[1..];
    }
  }

  // ---------------------------------------------------------------------------
  // `run`.

  /** The returned `{"reconfiguration_cost", "observation_cost", "tests"}`. */
  datatype Optimized = Optimized(reconfigurationCost: int, observationCost: nat, tests: seq<Test>)

  /** The tests the tour runs over: the empty configuration, then the input. */
  function WithEmpty(pruned: seq<Test>): (tests: seq<Test>)
    ensures |tests| == |pruned| + 1 && tests[0] == EmptyConfiguration()
    ensures forall k :: 0 <= k < |pruned| ==> tests[k + 1] == pruned[k]
  {
    [EmptyConfiguration()] + pruned
  }

  /** The part of `run` after the solver: rotate the tour so the empty configuration
      comes first and emit the transitions along it. The tour already starts at city
      0, the empty configuration, so the search stops at once, the rotation is the
      identity and the `raise ValueError` branch cannot be reached. */
  method EmitInTourOrder(tests: seq<Test>, tour: seq<nat>) returns (optTests: seq<Test>)
    requires |tests| > 0 && tests[0] == EmptyConfiguration() && IsTour(tour, |tests|)
    ensures |optTests| == |tests| - 1
    ensures forall k :: 0 <= k < |optTests| ==>
      optTests[k] == Transition(tests[tour[k]], tests[tour[k + 1]], k + 1)
  {
    var start := FindStart(tests, tour);
    var initIdx := start.value;
    var order := Rotate(tour, initIdx);
    assert order == tour;
    var testsTour := seq(|order|, k requires 0 <= k < |order| => tests[order[k]]);
    optTests := EmitTransitions(testsTour);
    forall k | 0 <= k < |optTests|
      ensures optTests[k] == Transition(tests[tour[k]], tests[tour[k + 1]], k + 1)
    {
      assert testsTour[k] == tests[tour[k]] && testsTour[k + 1] == tests[tour[k + 1]];
    }
  }

  /** `OptimizeTestOrder.run` without the file reading (and with `resort` off): the
      cost maps must have both keys; the emitted tests follow the solver's tour,
      which already starts at the empty configuration, so the rotation leaves it
      unchanged. The ghost results name the weight matrix and the tour. */
  method Run(pruned: seq<Test>, costMap: CostMaps, optimize: bool)
    returns (r: Result<Optimized, PyError>, ghost weights: seq<seq<nat>>, ghost order: seq<nat>)
    ensures r.Failure? <==> costMap.scenarios.None? || costMap.observations.None?
    ensures r.Failure? ==> r.error == KeyError
    ensures r.Success? ==>
      && IsWeightMatrix(weights, WithEmpty(pruned), costMap.scenarios.value)
      && IsTour(order, |pruned| + 1)
      && Covers(weights) && InRange(order, |weights|)
      && r.value.reconfigurationCost == CycleCost(weights, order)
      && r.value.reconfigurationCost <= CycleCost(weights, Identity(|pruned| + 1))
      && (optimize ==> LocallyOptimal(weights, order))
      && (!optimize ==> order == Identity(|pruned| + 1))
      && r.value.observationCost == ObservationCost(pruned, costMap.observations.value)
      && |r.value.tests| == |pruned|
      && (forall k :: 0 <= k < |pruned| ==>
            r.value.tests[k] == Transition(WithEmpty(pruned)[order[k]], WithEmpty(pruned)[order[k + 1]], k + 1))
  {
    weights, order := [], [];
    if costMap.scenarios.None? || costMap.observations.None? {
      return Failure(KeyError), weights, order;
    }
    var scenariosCost := costMap.scenarios.value;
    var observationsCost := costMap.observations.value;

    var tests := [EmptyConfiguration()] + pruned;
    var w := MakeWeights(tests, scenariosCost);
    weights := w;
    WeightMatrixDistance(w, tests, scenariosCost, 0, 0);
    var observationCost := ObservationCost(tests, observationsCost);
    ObservationCostWithEmpty(pruned, observationsCost);

    var tsp := new TSP2Opt(w);
    ghost var identityCost := tsp.cost;
    assert identityCost == CycleCost(w, Identity(|tests|));
    if optimize {
      tsp.Optimize();
    }
    assert tsp.cost <= identityCost;
    var tour := tsp.tour[..];
    var reconfigurationCost := tsp.cost;
    order := tour;

    var optTests := EmitInTourOrder(tests, tour);
    r := Success(Optimized(reconfigurationCost, observationCost, optTests));
  }
}
