/** How the stages fit together: the cost `calculate_costs` reports for the
    optimised order is the length of the solver's closed tour. */
module Pipeline {
  import opened Strings
  import opened Seqs
  import opened Costs
  import opened TestModel
  import opened TwoOpt
  import opened OptimizeOrder
  import opened CostCalc
  import opened Strategy

  /** The sorted apply and retract lists of a transition cost exactly the switch. */
  lemma TransitionCost(cur: Test, next: Test, id: nat, table: CostTable)
    ensures var t := Transition(cur, next, id);
      SeqCost(ApplyOf(t), table) + SeqCost(RetractOf(t), table)
        == SwitchCost(ScenarioSet(cur), ScenarioSet(next), table)
  {
    var c := ScenarioSet(cur);
    var n := ScenarioSet(next);
    SeqCostOfSorted(n - c, table);
    SeqCostOfSorted(c - n, table);
    SwitchCostSplit(c, n, table);
  }

  /** Summing edge weights that match the tests' apply-plus-retract costs one for one. */
  lemma {:induction false} PrefixCosts(out: seq<Test>, e: seq<nat>, table: CostTable, m: nat)
    requires m <= |out| <= |e|
    requires forall k :: 0 <= k < |out| ==>
      e[k] == SeqCost(ApplyOf(out[k]), table) + SeqCost(RetractOf(out[k]), table)
    ensures Sum(e[..m]) == ApplyCost(out[..m], table) + RetractCost(out[..m], table)
    decreases m
  {
    if m > 0 {
      PrefixCosts(out, e, table, m - 1);
      assert e[..m][..m - 1] == e[..m - 1];
      assert out[..m][..m - 1] == out[..m - 1];
    }
  }

  /** Leaving a configuration for the empty one retracts all of its scenarios. */
  lemma SwitchToEmpty(a: set<string>, table: CostTable)
    ensures SwitchCost(a, {}, table) == SetCost(a, table)
  {
    assert ({} - a) + (a - {}) == a;
  }

  /** The conditions under which `run` emits `out` along `order`. */
  predicate EmittedAlong(pruned: seq<Test>, table: CostTable, w: seq<seq<nat>>,
                         order: seq<nat>, out: seq<Test>)
  {
    && IsWeightMatrix(w, WithEmpty(pruned), table) && IsTour(order, |pruned| + 1)
    && |pruned| > 0 && |out| == |pruned|
    && (forall k :: 0 <= k < |pruned| ==>
          out[k] == Transition(WithEmpty(pruned)[order[k]], WithEmpty(pruned)[order[k + 1]], k + 1))
  }

  /** Each emitted test pays for one edge of the tour. */
  lemma InnerEdges(pruned: seq<Test>, table: CostTable, w: seq<seq<nat>>, order: seq<nat>, out: seq<Test>)
    requires EmittedAlong(pruned, table, w, order, out)
    ensures Covers(w) && InRange(order, |w|)
    ensures forall k :: 0 <= k < |out| ==>
      Edges(w, order)[k] == SeqCost(ApplyOf(out[k]), table) + SeqCost(RetractOf(out[k]), table)
  {
    var tests := WithEmpty(pruned);
    var n := |order|;
    WeightMatrixDistance(w, tests, table, 0, 0);
    forall k | 0 <= k < |out|
      ensures Edges(w, order)[k] == SeqCost(ApplyOf(out[k]), table) + SeqCost(RetractOf(out[k]), table)
    {
      assert Next(k, n) == k + 1;
      WeightMatrixDistance(w, tests, table, order[k], order[k + 1]);
      TransitionCost(tests[order[k]], tests[order[k + 1]], k + 1, table);
    }
  }

  /** Tearing down the last configuration pays for the edge back to the start. */
  lemma ClosingEdge(pruned: seq<Test>, table: CostTable, w: seq<seq<nat>>, order: seq<nat>, out: seq<Test>)
    requires EmittedAlong(pruned, table, w, order, out)
    ensures Covers(w) && InRange(order, |w|)
    ensures Edges(w, order)[|order| - 1] == FinalRetract(out, table)
  {
    var tests := WithEmpty(pruned);
    var n := |order|;
    var k := |out| - 1;
    var last := tests[order[n - 1]];
    assert out[k] == Transition(tests[order[k]], last, k + 1);
    assert out[k].scenarios == SortedOf(ScenarioSet(last));
    SeqCostOfSorted(ScenarioSet(last), table);
    assert FinalRetract(out, table) == SetCost(ScenarioSet(last), table);
    WeightMatrixDistance(w, tests, table, order[n - 1], order[0]);
    assert Next(n - 1, n) == 0;
    assert ScenarioSet(tests[0]) == {};
    SwitchToEmpty(ScenarioSet(last), table);
    assert Edges(w, order)[n - 1] == Dist(w, order[n - 1], order[0]);
  }

  /** For the tests `run` emits along a tour that starts at the empty configuration,
      `calculate_costs` reports a combined cost equal to the tour's cycle length
      (the `reconfiguration_cost` of `run`). */
  lemma EmittedCostIsCycleCost(pruned: seq<Test>, table: CostTable,
                               w: seq<seq<nat>>, order: seq<nat>, out: seq<Test>)
    requires EmittedAlong(pruned, table, w, order, out)
    ensures Covers(w) && InRange(order, |w|)
    ensures Totals(out, table).totalCombinedCost == CycleCost(w, order)
  {
    InnerEdges(pruned, table, w, order, out);
    ClosingEdge(pruned, table, w, order, out);
    var e := Edges(w, order);
    PrefixCosts(out, e, table, |out|);
    assert out[..|out|] == out;
  }

  /** The annotated unoptimised test `k` pays for switching from the test before it
      (the empty configuration for the first) to itself. */
  lemma AnnotatedStepCost(pruned: seq<Test>, ann: seq<Test>, table: CostTable, k: nat)
    requires IsAnnotation(ann, pruned) && k < |pruned|
    ensures SeqCost(ApplyOf(ann[k]), table) + SeqCost(RetractOf(ann[k]), table)
      == SwitchCost(ScenarioSet(WithEmpty(pruned)[k]), ScenarioSet(pruned[k]), table)
  {
    var prev := PreviousScenarios(pruned, k);
    var c := SetOf(prev);
    var n := ScenarioSet(pruned[k]);
    assert ann[k] == Annotated(prev, pruned[k], k + 1);
    assert c == ScenarioSet(WithEmpty(pruned)[k]) by {
      if k == 0 {
        assert SetOf<string>([]) == {};
      } else {
        assert WithEmpty(pruned)[k] == pruned[k - 1];
      }
    }
    SeqCostOfSorted(n - c, table);
    SeqCostOfSorted(c - n, table);
    SwitchCostSplit(c, n, table);
  }

  /** The edge of the identity tour out of position `k` costs what annotated test `k`
      applies and retracts. */
  lemma IdentityEdgeAt(pruned: seq<Test>, table: CostTable, w: seq<seq<nat>>, ann: seq<Test>, k: nat)
    requires IsWeightMatrix(w, WithEmpty(pruned), table)
    requires IsAnnotation(ann, pruned) && k < |ann|
    ensures Covers(w) && InRange(Identity(|pruned| + 1), |w|)
    ensures Edges(w, Identity(|pruned| + 1))[k] == SeqCost(ApplyOf(ann[k]), table) + SeqCost(RetractOf(ann[k]), table)
  {
    var tests := WithEmpty(pruned);
    var n := |pruned|;
    var order := Identity(n + 1);
    WeightMatrixDistance(w, tests, table, k, k + 1);
    assert Edges(w, order)[k] == Dist(w, k, k + 1) by {
      assert Next(k, n + 1) == k + 1;
      assert order[k] == k && order[k + 1] == k + 1;
    }
    assert tests[k + 1] == pruned[k];
    AnnotatedStepCost(pruned, ann, table, k);
  }

  /** Each annotated test pays for one edge of the identity tour. */
  lemma IdentityInnerEdges(pruned: seq<Test>, table: CostTable, w: seq<seq<nat>>, ann: seq<Test>)
    requires IsWeightMatrix(w, WithEmpty(pruned), table)
    requires IsAnnotation(ann, pruned)
    ensures Covers(w) && InRange(Identity(|pruned| + 1), |w|)
    ensures forall k :: 0 <= k < |ann| ==>
      Edges(w, Identity(|pruned| + 1))[k] == SeqCost(ApplyOf(ann[k]), table) + SeqCost(RetractOf(ann[k]), table)
  {
    WeightMatrixDistance(w, WithEmpty(pruned), table, 0, 0);
    forall k | 0 <= k < |ann|
      ensures Edges(w, Identity(|pruned| + 1))[k] == SeqCost(ApplyOf(ann[k]), table) + SeqCost(RetractOf(ann[k]), table)
    {
      IdentityEdgeAt(pruned, table, w, ann, k);
    }
  }

  /** Tearing down the last annotated test pays for the identity tour's edge back to
      the empty configuration, when its scenarios are listed without repetition. */
  lemma IdentityClosingEdge(pruned: seq<Test>, table: CostTable, w: seq<seq<nat>>, ann: seq<Test>)
    requires IsWeightMatrix(w, WithEmpty(pruned), table) && |pruned| > 0
    requires IsAnnotation(ann, pruned)
    requires Distinct(pruned[|pruned| - 1].scenarios)
    ensures Covers(w) && InRange(Identity(|pruned| + 1), |w|)
    ensures Edges(w, Identity(|pruned| + 1))[|pruned|] == FinalRetract(ann, table)
  {
    var tests := WithEmpty(pruned);
    var n := |pruned|;
    var order := Identity(n + 1);
    WeightMatrixDistance(w, tests, table, 0, 0);
    var last := pruned[n - 1];
    AnnotationAt(ann, pruned, n - 1);
    SeqCostOfDistinct(last.scenarios, table);
    assert FinalRetract(ann, table) == SetCost(ScenarioSet(last), table);
    assert Next(n, n + 1) == 0;
    WeightMatrixDistance(w, tests, table, n, 0);
    assert tests[n] == last;
    assert ScenarioSet(tests[0]) == {};
    SwitchToEmpty(ScenarioSet(last), table);
    assert Edges(w, order)[n] == Dist(w, n, 0);
  }

  /** For the list the unoptimised branch annotates, `calculate_costs` reports a
      combined cost equal to the length of the tour that visits the tests in their
      given order: the identity tour over the empty configuration and the tests.
      The last test's scenarios are required to be listed without repetition, since
      its teardown is paid per list entry. */
  lemma UnoptimisedCostIsIdentityCycle(pruned: seq<Test>, table: CostTable,
                                       w: seq<seq<nat>>, ann: seq<Test>)
    requires IsWeightMatrix(w, WithEmpty(pruned), table) && |pruned| > 0
    requires IsAnnotation(ann, pruned)
    requires Distinct(pruned[|pruned| - 1].scenarios)
    ensures Covers(w) && InRange(Identity(|pruned| + 1), |w|)
    ensures Totals(ann, table).totalCombinedCost == CycleCost(w, Identity(|pruned| + 1))
  {
    IdentityInnerEdges(pruned, table, w, ann);
    IdentityClosingEdge(pruned, table, w, ann);
    var e := Edges(w, Identity(|pruned| + 1));
    PrefixCosts(ann, e, table, |ann|);
    assert ann[..|ann|] == ann;
    assert e[..|e| - 1] == e[..|ann|];
  }

  /** The optimised order never costs more than the unoptimised one: whenever the
      tour `run` follows is no longer than the identity tour (which `run` ensures),
      the combined cost of its emitted tests is at most that of the annotated tests
      in their given order. */
  lemma OptimisedNeverCostsMore(pruned: seq<Test>, table: CostTable, w: seq<seq<nat>>,
                                order: seq<nat>, out: seq<Test>, ann: seq<Test>)
    requires EmittedAlong(pruned, table, w, order, out)
    requires IsAnnotation(ann, pruned)
    requires Distinct(pruned[|pruned| - 1].scenarios)
    requires Covers(w) && CycleCost(w, order) <= CycleCost(w, Identity(|pruned| + 1))
    ensures Totals(out, table).totalCombinedCost <= Totals(ann, table).totalCombinedCost
  {
    EmittedCostIsCycleCost(pruned, table, w, order, out);
    UnoptimisedCostIsIdentityCycle(pruned, table, w, ann);
  }
}
