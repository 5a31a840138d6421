/** `calculate_costs`: the total cost of running a list of tests in order, from the
    scenarios each test applies and retracts, plus tearing down the last one. */
module CostCalc {
  import opened Wrappers
  import opened Costs
  import opened TestModel

  /** `test.get('apply', [])`. */
  function ApplyOf(t: Test): seq<string> {
    t.apply.GetOr([])
  }

  /** `test.get('retract', [])`. */
  function RetractOf(t: Test): seq<string> {
    t.retract.GetOr([])
  }

  /** The apply costs of the tests, summed in list order. */
  function ApplyCost(tests: seq<Test>, table: CostTable): nat
    decreases |tests|
  {
    if tests == [] then 0
    else ApplyCost(tests[..|tests| - 1], table) + SeqCost(ApplyOf(tests[|tests| - 1]), table)
  }

  /** The retract costs of the tests, summed in list order. */
  function RetractCost(tests: seq<Test>, table: CostTable): nat
    decreases |tests|
  {
    if tests == [] then 0
    else RetractCost(tests[..|tests| - 1], table) + SeqCost(RetractOf(tests[|tests| - 1]), table)
  }

  lemma {:induction false} ApplyCostAppend(a: seq<Test>, b: seq<Test>, table: CostTable)
    ensures ApplyCost(a + b, table) == ApplyCost(a, table) + ApplyCost(b, table)
    decreases |b|
  {
    if b == [] {
      assert a + b == a;
    } else {
      var p := b[..|b| - 1];
      assert (a + b)[..|a + b| - 1] == a + p;
      ApplyCostAppend(a, p, table);
    }
  }

  lemma {:induction false} RetractCostAppend(a: seq<Test>, b: seq<Test>, table: CostTable)
    ensures RetractCost(a + b, table) == RetractCost(a, table) + RetractCost(b, table)
    decreases |b|
  {
    if b == [] {
      assert a + b == a;
    } else {
      var p := b[..|b| - 1];
      assert (a + b)[..|a + b| - 1] == a + p;
      RetractCostAppend(a, p, table);
    }
  }

  /** A test without `apply` and `retract` keys costs nothing to reach. */
  lemma MissingListsCostNothing(t: Test, table: CostTable)
    requires t.apply.None? && t.retract.None?
    ensures ApplyCost([t], table) == 0 && RetractCost([t], table) == 0
  {
    assert [t][..0] == [];
  }

  /** The returned `{"total_apply_cost", "total_retract_cost", "total_combined_cost"}`. */
  datatype CostTotals = CostTotals(totalApplyCost: nat, totalRetractCost: nat, totalCombinedCost: nat)

  /** The teardown of the final configuration: the cost of the last test's scenarios. */
  function FinalRetract(tests: seq<Test>, table: CostTable): nat
    requires tests != []
  {
    SeqCost(tests[|tests| - 1].scenarios, table)
  }

  /** The totals `calculate_costs` reports for a non-empty list. */
  function Totals(tests: seq<Test>, table: CostTable): (r: CostTotals)
    requires tests != []
    ensures r.totalCombinedCost == r.totalApplyCost + r.totalRetractCost
    ensures r.totalRetractCost >= FinalRetract(tests, table)
  {
    var apply := ApplyCost(tests, table);
    var retract := RetractCost(tests, table) + FinalRetract(tests, table);
    CostTotals(apply, retract, apply + retract)
  }

  /** `calculate_costs(tests, costs_data)`: the scenario table defaults to empty; an
      empty list fails at `tests[-1]` after the loop. */
  method CalculateCosts(tests: seq<Test>, costsData: CostMaps) returns (r: Result<CostTotals, PyError>)
    ensures r.Failure? <==> tests == []
    ensures r.Failure? ==> r.error == IndexError
    ensures r.Success? ==> r.value == Totals(tests, costsData.scenarios.GetOr(map[]))
  {
    var costLookup := costsData.scenarios.GetOr(map[]);
    var totalApplyCost := 0;
    var totalRetractCost := 0;
    for i := 0 to |tests|
      invariant totalApplyCost == ApplyCost(tests[..i], costLookup)
      invariant totalRetractCost == RetractCost(tests[..i], costLookup)
    {
      var applyIds := ApplyOf(tests[i]);
      var retractIds := RetractOf(tests[i]);
      var applySum := SeqCost(applyIds, costLookup);
      var retractSum := SeqCost(retractIds, costLookup);
      assert tests[..i + 1][..i] == tests[..i];
      totalApplyCost := totalApplyCost + applySum;
      totalRetractCost := totalRetractCost + retractSum;
    }
    assert tests[..|tests|] == tests;
    if |tests| == 0 {
      return Failure(IndexError);
    }
    var finalScenarios := tests[|tests| - 1].scenarios;
    var finalRetractSum := SeqCost(finalScenarios, costLookup);
    totalRetractCost := totalRetractCost + finalRetractSum;
    var totalCombined := totalApplyCost + totalRetractCost;
    r := Success(CostTotals(totalApplyCost, totalRetractCost, totalCombined));
  }
}
