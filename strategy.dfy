/** The non-rendering part of the test-strategy view: the cost tables read from the
    SPARQL bindings, the apply/retract annotation of the unoptimised order (written
    into the pruned tests in place) and the renumbering of the optimised tests by
    their unoptimised position. */
module Strategy {
  import opened Wrappers
  import opened Strings
  import opened Seqs
  import opened Costs
  import opened TestModel

  // ---------------------------------------------------------------------------
  // Cost tables.

  /** One binding `{"scenarioID": {"value": id}, "cost": {"value": "n"}}` (or
      `quantityID` for observations), the cost already parsed by `int(...)`. */
  datatype CostBinding = CostBinding(id: string, cost: nat)

  /** The table after writing the bindings one by one; a later binding for the same
      id overwrites an earlier one. */
  function TableOf(bs: seq<CostBinding>): CostTable
    decreases |bs|
  {
    if bs == [] then map[]
    else TableOf(bs[..|bs| - 1])[bs[|bs| - 1].id := bs[|bs| - 1].cost]
  }

  /** An id is in the table iff some binding names it, and its cost is that of the
      last such binding. */
  lemma {:induction false} TableOfMeaning(bs: seq<CostBinding>, id: string)
    ensures id in TableOf(bs) <==> exists k :: 0 <= k < |bs| && bs[k].id == id
    ensures id in TableOf(bs) ==> exists k :: (
      && 0 <= k < |bs| && bs[k].id == id && TableOf(bs)[id] == bs[k].cost
      && forall m :: k < m < |bs| ==> bs[m].id != id)
    decreases |bs|
  {
    if bs != [] {
      var p := bs[..|bs| - 1];
      var b := bs[|bs| - 1];
      TableOfMeaning(p, id);
      assert TableOf(bs) == TableOf(p)[b.id := b.cost];
      if b.id == id {
        var k := |bs| - 1;
        assert bs[k].id == id && TableOf(bs)[id] == bs[k].cost;
      } else if id in TableOf(p) {
        var k :| 0 <= k < |p| && p[k].id == id && TableOf(p)[id] == p[k].cost &&
          forall m :: k < m < |p| ==> p[m].id != id;
        assert bs[k] == p[k] && TableOf(bs)[id] == TableOf(p)[id];
        assert forall m :: k < m < |bs| ==> bs[m].id != id by {
          forall m | k < m < |bs| ensures bs[m].id != id {
            if m < |p| {
              assert bs[m] == p[m];
            }
          }
        }
      } else {
        forall k | 0 <= k < |bs|
          ensures bs[k].id != id
        {
          if k < |p| {
            assert bs[k] == p[k];
          }
        }
      }
    }
  }

  /** The `for sc in ...["results"]["bindings"]` loop filling one cost table. */
  method BuildCostTable(bs: seq<CostBinding>) returns (table: CostTable)
    ensures table == TableOf(bs)
  {
    table := map[];
    for i := 0 to |bs|
      invariant table == TableOf(bs[..i])
    {
      assert bs[..i + 1][..i] == bs[..i];
      table := table[bs[i].id := bs[i].cost];
    }
    assert bs[..|bs|] == bs;
  }

  /** `costs_data`, with both of its keys always present. */
  method BuildCostMaps(scenarioBindings: seq<CostBinding>, observationBindings: seq<CostBinding>)
    returns (costs: CostMaps)
    ensures costs.scenarios == Some(TableOf(scenarioBindings))
    ensures costs.observations == Some(TableOf(observationBindings))
  {
    var scenarios := BuildCostTable(scenarioBindings);
    var observations := BuildCostTable(observationBindings);
    costs := CostMaps(Some(scenarios), Some(observations));
  }

  // ---------------------------------------------------------------------------
  // The unoptimised order.

  /** The scenarios in force before test k of the unoptimised order: none before the
      first test, then those of the previous one. */
  function PreviousScenarios(tests: seq<Test>, k: nat): seq<string>
    requires k < |tests|
  {
    if k == 0 then [] else tests[k - 1].scenarios
  }

  /** Test `t` numbered `id`, with the scenarios to apply (new ones) and to retract
      (ones no longer wanted) coming from `prev`. The source builds both with
      `list(set)`, whose order is Python's hash order; the model lists them in
      ascending order and promises only that they have no repetition. */
  function Annotated(prev: seq<string>, t: Test, id: nat): (r: Test)
    ensures r.id == Some(id)
    ensures r.apply.Some? && Distinct(r.apply.value)
    ensures forall x :: x in r.apply.value <==> x in t.scenarios && x !in prev
    ensures r.retract.Some? && Distinct(r.retract.value)
    ensures forall x :: x in r.retract.value <==> x in prev && x !in t.scenarios
    ensures r.scenarios == t.scenarios && r.uuid == t.uuid && r.configDigest == t.configDigest
    ensures r.quantities == t.quantities
    ensures r.requirementsDirect == t.requirementsDirect && r.quantitiesDirect == t.quantitiesDirect
  {
    var apply := SortedOf(SetOf(t.scenarios) - SetOf(prev));
    var retract := SortedOf(SetOf(prev) - SetOf(t.scenarios));
    StrictlySortedDistinct(apply);
    StrictlySortedDistinct(retract);
    t.(id := Some(id), apply := Some(apply), retract := Some(retract))
  }

  /** The first test of the unoptimised order applies all of its scenarios and
      retracts none. */
  lemma AnnotatedFirst(t: Test)
    ensures var r := Annotated([], t, 1);
      r.retract == Some([]) && forall x :: x in r.apply.value <==> x in t.scenarios
  {
    assert SetOf<string>([]) - SetOf(t.scenarios) == {};
  }

  /** The first `i` tests of `ann` are the annotated tests of `tests`. */
  predicate AnnotatedUpTo(ann: seq<Test>, tests: seq<Test>, i: nat)
    requires i <= |ann| == |tests|
  {
    forall k {:trigger ann[k]} :: 0 <= k < i ==> ann[k] == Annotated(PreviousScenarios(tests, k), tests[k], k + 1)
  }

  /** The list `AnnotateUnoptimised` leaves behind. */
  predicate IsAnnotation(ann: seq<Test>, tests: seq<Test>) {
    |ann| == |tests| && AnnotatedUpTo(ann, tests, |tests|)
  }

  /** What the annotation keeps and sets at one position. */
  lemma AnnotationAt(ann: seq<Test>, tests: seq<Test>, m: nat)
    requires IsAnnotation(ann, tests) && m < |tests|
    ensures ann[m].uuid == tests[m].uuid && ann[m].scenarios == tests[m].scenarios
    ensures ann[m].id == Some(m + 1)
  {
    assert ann[m] == Annotated(PreviousScenarios(tests, m), tests[m], m + 1);
  }

  lemma AnnotatedUpToNext(ann: seq<Test>, tests: seq<Test>, i: nat, t: Test)
    requires i < |ann| == |tests| && AnnotatedUpTo(ann, tests, i)
    requires t == Annotated(PreviousScenarios(tests, i), tests[i], i + 1)
    ensures AnnotatedUpTo(ann[i := t], tests, i + 1)
  {
    var ann' := ann[i := t];
    forall k | 0 <= k < i + 1
      ensures ann'[k] == Annotated(PreviousScenarios(tests, k), tests[k], k + 1)
    {
      if k < i {
        assert ann'[k] == ann[k];
      }
    }
  }

  /** The loop over `unopt_tests["tests"]`: each test, in place, gets `id` = its
      position + 1 and the apply/retract lists relative to the test before it.
      The list is the very list `prune_tests` returned. */
  method AnnotateUnoptimised(tests: TestList)
    modifies tests
    ensures IsAnnotation(tests.items, old(tests.items))
  {
    ghost var orig := tests.items;
    var ct: seq<string> := [];
    for i := 0 to |tests.items|
      invariant |tests.items| == |orig|
      invariant AnnotatedUpTo(tests.items, orig, i)
      invariant forall k :: i <= k < |orig| ==> tests.items[k] == orig[k]
      invariant i < |orig| ==> ct == PreviousScenarios(orig, i)
    {
      var tt := tests.items[i];
      assert tt == orig[i];
      var apply := SortedOf(SetOf(tt.scenarios) - SetOf(ct));
      var retract := SortedOf(SetOf(ct) - SetOf(tt.scenarios));
      tt := tt.(id := Some(i + 1), apply := Some(apply), retract := Some(retract));
      assert tt == Annotated(PreviousScenarios(orig, i), orig[i], i + 1);
      AnnotatedUpToNext(tests.items, orig, i, tt);
      tests.items := tests.items[i := tt];
      ct := tt.scenarios;
    }
  }

  // ---------------------------------------------------------------------------
  // Renumbering the optimised tests.

  /** The position of the first test whose `uuid` is `u`. */
  function FirstWithUuid(tests: seq<Test>, u: string): (r: Option<nat>)
    ensures r.Some? ==> r.value < |tests| && tests[r.value].uuid == Some(u)
    ensures r.Some? ==> forall m :: 0 <= m < r.value ==> tests[m].uuid != Some(u)
    ensures r.None? ==> forall m :: 0 <= m < |tests| ==> tests[m].uuid != Some(u)
    decreases |tests|
  {
    if tests == [] then None
    else if tests[0].uuid == Some(u) then Some(0)
    else
      var r := FirstWithUuid(tests[1..], u);
      if r.Some? then Some(r.value + 1) else None
  }

  /** `[t for t in unopt if t["uuid"] == ss["uuid"]][0]["id"]`: a missing `uuid` on
      either side raises KeyError (the one of `ss` is read only if the list is
      non-empty), no match raises IndexError, and a match without `id` raises
      KeyError. */
  function MatchedId(ss: Test, unopt: seq<Test>): Result<int, PyError> {
    if exists m :: 0 <= m < |unopt| && unopt[m].uuid.None? then Failure(KeyError)
    else if |unopt| > 0 && ss.uuid.None? then Failure(KeyError)
    else if |unopt| == 0 then Failure(IndexError)
    else match FirstWithUuid(unopt, ss.uuid.value)
      case None => Failure(IndexError)
      case Some(k) => if unopt[k].id.None? then Failure(KeyError) else Success(unopt[k].id.value)
  }

  /** The list comprehension and `[0]["id"]` for one optimised test. */
  method FindTargetId(ss: Test, unopt: seq<Test>) returns (r: Result<int, PyError>)
    ensures r == MatchedId(ss, unopt)
  {
    var matches: seq<nat> := [];
    for m := 0 to |unopt|
      invariant forall k :: 0 <= k < m ==> unopt[k].uuid.Some?
      invariant m > 0 ==> ss.uuid.Some?
      invariant forall k :: 0 <= k < |matches| ==> matches[k] < m && unopt[matches[k]].uuid == ss.uuid
      invariant forall k :: 0 <= k < m ==> (unopt[k].uuid == ss.uuid <==> k in matches)
      invariant forall a, b :: 0 <= a < b < |matches| ==> matches[a] < matches[b]
    {
      if unopt[m].uuid.None? || ss.uuid.None? {
        return Failure(KeyError);
      }
      if unopt[m].uuid == ss.uuid {
        matches := matches + [m];
      }
    }
    if |matches| == 0 {
      return Failure(IndexError);
    }
    var target := unopt[matches[0]];
    assert FirstWithUuid(unopt, ss.uuid.value) == Some(matches[0]);
    if target.id.None? {
      return Failure(KeyError);
    }
    return Success(target.id.value);
  }

  /** The loop `for ss in opt_tests["tests"]: ss["id"] = target["id"]`, in place.
      When a test fails to match, the error propagates and the tests before it are
      already renumbered. */
  method RemapIds(opt: TestList, unopt: seq<Test>) returns (err: Option<PyError>)
    modifies opt
    ensures |opt.items| == |old(opt.items)|
    ensures err.None? ==> forall k :: 0 <= k < |opt.items| ==>
      (MatchedId(old(opt.items)[k], unopt).Success? &&
       opt.items[k] == old(opt.items)[k].(id := Some(MatchedId(old(opt.items)[k], unopt).value)))
    ensures err.Some? ==> exists i :: (
      && 0 <= i < |opt.items|
      && MatchedId(old(opt.items)[i], unopt) == Failure(err.value)
      && (forall k :: 0 <= k < i ==>
            (MatchedId(old(opt.items)[k], unopt).Success? &&
             opt.items[k] == old(opt.items)[k].(id := Some(MatchedId(old(opt.items)[k], unopt).value))))
      && (forall k :: i <= k < |opt.items| ==> opt.items[k] == old(opt.items)[k]))
  {
    ghost var orig := opt.items;
    for i := 0 to |opt.items|
      invariant |opt.items| == |orig|
      invariant forall k :: 0 <= k < i ==>
        MatchedId(orig[k], unopt).Success? && opt.items[k] == orig[k].(id := Some(MatchedId(orig[k], unopt).value))
      invariant forall k :: i <= k < |orig| ==> opt.items[k] == orig[k]
    {
      var ss := opt.items[i];
      var target := FindTargetId(ss, unopt);
      if target.Failure? {
        return Some(target.error);
      }
      opt.items := opt.items[i := ss.(id := Some(target.value))];
    }
    return None;
  }

  /** Matching by `uuid` against a list that numbers its tests 1, 2, ... in order
      finds the 1-based position of the one test with that `uuid`. */
  lemma MatchedIdOfNumbered(ss: Test, tests: seq<Test>, ann: seq<Test>, k: nat)
    requires |ann| == |tests| && k < |tests|
    requires forall m :: 0 <= m < |ann| ==> ann[m].uuid == tests[m].uuid && ann[m].id == Some(m + 1)
    requires forall m :: 0 <= m < |tests| ==> tests[m].uuid.Some?
    requires forall a, b :: 0 <= a < b < |tests| ==> tests[a].uuid != tests[b].uuid
    requires ss.uuid == tests[k].uuid
    ensures MatchedId(ss, ann) == Success(k + 1)
  {
    var f := FirstWithUuid(ann, ss.uuid.value);
    assert ann[k].uuid == Some(ss.uuid.value);
    assert f.Some?;
    assert f.value == k;
  }

  /** Renumbering against the annotated unoptimised list gives each optimised test
      the 1-based position of the configuration with the same `uuid`, when every
      configuration has a distinct `uuid`. */
  lemma MatchedIdIsPosition(ss: Test, tests: seq<Test>, ann: seq<Test>, k: nat)
    requires IsAnnotation(ann, tests) && k < |tests|
    requires forall m :: 0 <= m < |tests| ==> tests[m].uuid.Some?
    requires forall a, b :: 0 <= a < b < |tests| ==> tests[a].uuid != tests[b].uuid
    requires ss.uuid == tests[k].uuid
    ensures MatchedId(ss, ann) == Success(k + 1)
  {
    forall m | 0 <= m < |ann|
      ensures ann[m].uuid == tests[m].uuid && ann[m].id == Some(m + 1)
    {
      AnnotationAt(ann, tests, m);
    }
    MatchedIdOfNumbered(ss, tests, ann, k);
  }
}
