/** The two tables the plotting module derives from a list of annotated tests: the
    scenario-by-test presence matrix of `make_presence_df` and the per-test cost
    columns of `make_cost_plots`. The figures drawn from them are not modelled. */
module Plots {
  import opened Wrappers
  import opened Strings
  import opened Seqs
  import opened Costs
  import opened TestModel
  import opened TwoOpt
  import opened CostCalc
  import opened Pipeline

  // ---------------------------------------------------------------------------
  // The presence matrix.

  /** The keys `make_presence_df` reads from every test. */
  predicate HasPresenceKeys(t: Test) {
    t.id.Some? && t.apply.Some? && t.retract.Some?
  }

  /** Every test has the keys `make_presence_df` reads. */
  predicate AllHavePresenceKeys(tests: seq<Test>) {
    forall k :: 0 <= k < |tests| ==> tests[k].id.Some? && tests[k].apply.Some? && tests[k].retract.Some?
  }

  /** A scenario mentioned by a test: in its `scenarios`, `apply` or `retract`. */
  predicate Mentions(t: Test, s: string)
    requires HasPresenceKeys(t)
  {
    s in t.scenarios || s in t.apply.value || s in t.retract.value
  }

  /** The set of every scenario any test mentions: the row labels before sorting. */
  function Mentioned(tests: seq<Test>): (r: set<string>)
    requires AllHavePresenceKeys(tests)
    ensures forall k, s :: 0 <= k < |tests| && Mentions(tests[k], s) ==> s in r
    ensures forall s :: s in r ==> exists k :: 0 <= k < |tests| && Mentions(tests[k], s)
    decreases |tests|
  {
    if tests == [] then {}
    else
      var t := tests[0];
      var rest := Mentioned(tests[1..]);
      assert forall k :: 1 <= k < |tests| ==> tests[k] == tests[1..][k - 1];
      SetOf(t.scenarios) + SetOf(t.apply.value) + SetOf(t.retract.value) + rest
  }

  /** The code of one cell: -1 retracted, 2 newly applied, 1 carried over, 0 absent.
      The marks are written apply first, then scenarios only over a 0, then retract
      over anything, so retraction wins and an applied cell is never lowered to 1. */
  function Mark(s: string, t: Test): int
    requires HasPresenceKeys(t)
  {
    if s in t.retract.value then -1
    else if s in t.apply.value then 2
    else if s in t.scenarios then 1
    else 0
  }

  /** `str(t["id"])` for every test, in list order: the column labels. */
  function ColumnLabels(tests: seq<Test>): (labels: seq<string>)
    requires AllHavePresenceKeys(tests)
    ensures |labels| == |tests|
    ensures forall k :: 0 <= k < |tests| ==> labels[k] == IntToString(tests[k].id.value)
  {
    seq(|tests|, k requires 0 <= k < |tests| => IntToString(tests[k].id.value))
  }

  /** Tests with distinct ids get distinct column labels. */
  lemma ColumnLabelsDistinct(tests: seq<Test>)
    requires AllHavePresenceKeys(tests)
    requires forall a, b :: 0 <= a < b < |tests| ==> tests[a].id != tests[b].id
    ensures Distinct(ColumnLabels(tests))
  {
    var labels := ColumnLabels(tests);
    forall a, b | 0 <= a < b < |tests|
      ensures labels[a] != labels[b]
    {
      if labels[a] == labels[b] {
        IntToStringInjective(tests[a].id.value, tests[b].id.value);
      }
    }
  }

  /** A labelled integer matrix: `index` labels the rows, `columns` the columns. */
  datatype Frame = Frame(indexName: string, columnsName: string,
                         index: seq<string>, columns: seq<string>, cells: array2<int>)

  /** The marks of test `t` in column `c`, written in the source's three passes;
      the other columns keep their values. */
  method MarkColumn(cells: array2<int>, rows: seq<string>, c: nat, t: Test)
    requires HasPresenceKeys(t) && Distinct(rows)
    requires cells.Length0 == |rows| && c < cells.Length1
    requires forall s :: Mentions(t, s) ==> s in rows
    requires forall r :: 0 <= r < |rows| ==> cells[r, c] == 0
    modifies cells
    ensures forall r, j :: 0 <= r < cells.Length0 && 0 <= j < cells.Length1 ==>
      cells[r, j] == if j == c then Mark(rows[r], t) else old(cells[r, j])
  {
    var apply := t.apply.value;
    var retract := t.retract.value;
    for k := 0 to |apply|
      invariant forall r :: 0 <= r < |rows| ==> cells[r, c] == if rows[r] in apply[..k] then 2 else 0
      invariant forall r, j :: 0 <= r < cells.Length0 && 0 <= j < cells.Length1 && j != c ==>
        cells[r, j] == old(cells[r, j])
    {
      var row := FirstIndex(rows, apply[k]);
      assert apply[..k + 1] == apply[..k] + [apply[k]];
      cells[row, c] := 2;
    }
    assert apply[..|apply|] == apply;
    for k := 0 to |t.scenarios|
      invariant forall r :: 0 <= r < |rows| ==> (cells[r, c] ==
        if rows[r] in apply then 2 else if rows[r] in t.scenarios[..k] then 1 else 0)
      invariant forall r, j :: 0 <= r < cells.Length0 && 0 <= j < cells.Length1 && j != c ==>
        cells[r, j] == old(cells[r, j])
    {
      var row := FirstIndex(rows, t.scenarios[k]);
      assert t.scenarios[..k + 1] == t.scenarios[..k] + [t.scenarios[k]];
      if cells[row, c] == 0 {
        cells[row, c] := 1;
      }
    }
    assert t.scenarios[..|t.scenarios|] == t.scenarios;
    for k := 0 to |retract|
      invariant forall r :: 0 <= r < |rows| ==> (cells[r, c] ==
        if rows[r] in retract[..k] then -1
        else if rows[r] in apply then 2 else if rows[r] in t.scenarios then 1 else 0)
      invariant forall r, j :: 0 <= r < cells.Length0 && 0 <= j < cells.Length1 && j != c ==>
        cells[r, j] == old(cells[r, j])
    {
      var row := FirstIndex(rows, retract[k]);
      assert retract[..k + 1] == retract[..k] + [retract[k]];
      cells[row, c] := -1;
    }
    assert retract[..|retract|] == retract;
  }

  /** `df.T`: a fresh matrix with rows and columns exchanged. */
  method Transpose(a: array2<int>) returns (b: array2<int>)
    ensures fresh(b)
    ensures b.Length0 == a.Length1 && b.Length1 == a.Length0
    ensures forall i, j :: 0 <= i < b.Length0 && 0 <= j < b.Length1 ==> b[i, j] == a[j, i]
  {
    b := new int[a.Length1, a.Length0]((i, j) reads a =>
      if 0 <= j < a.Length0 && 0 <= i < a.Length1 then a[j, i] else 0);
  }

  /** The matrix before labelling: one column per test in list order, marked column
      by column. */
  method PresenceCells(tests: seq<Test>, rows: seq<string>) returns (cells: array2<int>)
    requires AllHavePresenceKeys(tests) && Distinct(rows)
    requires forall k, s :: 0 <= k < |tests| && Mentions(tests[k], s) ==> s in rows
    ensures fresh(cells)
    ensures cells.Length0 == |rows| && cells.Length1 == |tests|
    ensures forall i, j :: 0 <= i < cells.Length0 && 0 <= j < cells.Length1 ==>
      cells[i, j] == Mark(rows[i], tests[j])
  {
    cells := new int[|rows|, |tests|]((i, j) => 0);
    for c := 0 to |tests|
      invariant forall i, j :: 0 <= i < cells.Length0 && 0 <= j < cells.Length1 ==>
        cells[i, j] == if j < c then Mark(rows[i], tests[j]) else 0
    {
      MarkColumn(cells, rows, c, tests[c]);
    }
  }

  /** The unflipped layout: scenarios down, tests across, every cell its mark. */
  ghost predicate IsPresence(f: Frame, tests: seq<Test>)
    requires AllHavePresenceKeys(tests)
    reads f.cells
  {
    && f.indexName == "Scenario ID" && f.columnsName == "Test ID"
    && f.index == SortedOf(Mentioned(tests)) && f.columns == ColumnLabels(tests)
    && f.cells.Length0 == |f.index| && f.cells.Length1 == |tests|
    && (forall i, j :: 0 <= i < f.cells.Length0 && 0 <= j < f.cells.Length1 ==>
          f.cells[i, j] == Mark(f.index[i], tests[j]))
  }

  /** The flipped layout: tests down, scenarios across, with the axis names swapped. */
  ghost predicate IsFlippedPresence(f: Frame, tests: seq<Test>)
    requires AllHavePresenceKeys(tests)
    reads f.cells
  {
    && f.indexName == "Test ID" && f.columnsName == "Scenario ID"
    && f.index == ColumnLabels(tests) && f.columns == SortedOf(Mentioned(tests))
    && f.cells.Length0 == |tests| && f.cells.Length1 == |f.columns|
    && (forall i, j :: 0 <= i < f.cells.Length0 && 0 <= j < f.cells.Length1 ==>
          f.cells[i, j] == Mark(f.columns[j], tests[i]))
  }

  /** `make_presence_df(tests, flipped)`: a KeyError when some test lacks `id`,
      `apply` or `retract`; otherwise the matrix with one row per mentioned scenario
      in sorted order and one column per test in list order (exchanged when
      `flipped`), together with the constant 1. */
  method MakePresence(tests: seq<Test>, flipped: bool) returns (r: Result<(Frame, int), PyError>)
    ensures r.Failure? <==> !AllHavePresenceKeys(tests)
    ensures r.Failure? ==> r.error == KeyError
    ensures r.Success? ==> AllHavePresenceKeys(tests) && r.value.1 == 1
    ensures r.Success? && !flipped ==> fresh(r.value.0.cells) && IsPresence(r.value.0, tests)
    ensures r.Success? && flipped ==> fresh(r.value.0.cells) && IsFlippedPresence(r.value.0, tests)
  {
    // The comprehensions building the labels read `id`, `apply` and `retract` of
    // every test and raise on the first one missing.
    if !AllHavePresenceKeys(tests) {
      return Failure(KeyError);
    }
    var f;
    if flipped {
      f := FlippedPresenceFrame(tests);
    } else {
      f := PresenceFrame(tests);
    }
    r := Success((f, 1));
  }

  /** Every scenario a test mentions is a row of the sorted scenario list. */
  lemma MentionedRows(tests: seq<Test>)
    requires AllHavePresenceKeys(tests)
    ensures Distinct(SortedOf(Mentioned(tests)))
    ensures forall k, s :: 0 <= k < |tests| && Mentions(tests[k], s) ==> s in SortedOf(Mentioned(tests))
  {
    StrictlySortedDistinct(SortedOf(Mentioned(tests)));
  }

  /** The unflipped frame: scenarios down, the tests' labels across. */
  method PresenceFrame(tests: seq<Test>) returns (f: Frame)
    requires AllHavePresenceKeys(tests)
    ensures fresh(f.cells) && IsPresence(f, tests)
  {
    var scenarioAll := SortedOf(Mentioned(tests));
    MentionedRows(tests);
    var cells := PresenceCells(tests, scenarioAll);
    f := Frame("Scenario ID", "Test ID", scenarioAll, ColumnLabels(tests), cells);
  }

  /** `df.T` of the frame above: the tests' labels down, scenarios across. */
  method FlippedPresenceFrame(tests: seq<Test>) returns (f: Frame)
    requires AllHavePresenceKeys(tests)
    ensures fresh(f.cells) && IsFlippedPresence(f, tests)
  {
    var scenarioAll := SortedOf(Mentioned(tests));
    MentionedRows(tests);
    var cells := PresenceCells(tests, scenarioAll);
    var t := Transpose(cells);
    f := Frame("Test ID", "Scenario ID", ColumnLabels(tests), scenarioAll, t);
  }

  /** On the annotated unoptimised list, a cell reads 2 exactly for a scenario that
      is new in that test, 1 for one carried over from the test before, -1 for one
      dropped since then, and 0 otherwise. */
  lemma PresenceOfAnnotation(ann: seq<Test>, tests: seq<Test>, k: nat, s: string)
    requires Strategy.IsAnnotation(ann, tests) && k < |tests|
    ensures HasPresenceKeys(ann[k])
    ensures var prev := Strategy.PreviousScenarios(tests, k);
      && (Mark(s, ann[k]) == 2 <==> s in tests[k].scenarios && s !in prev)
      && (Mark(s, ann[k]) == 1 <==> s in tests[k].scenarios && s in prev)
      && (Mark(s, ann[k]) == -1 <==> s !in tests[k].scenarios && s in prev)
      && (Mark(s, ann[k]) == 0 <==> s !in tests[k].scenarios && s !in prev)
  {
    var prev := Strategy.PreviousScenarios(tests, k);
    assert ann[k] == Strategy.Annotated(prev, tests[k], k + 1);
  }

  // ---------------------------------------------------------------------------
  // The cost columns of `make_cost_plots`.

  /** One row of `costs_df`, the columns the plots draw. */
  datatype CostRow = CostRow(testId: int, absoluteTotalCost: nat, totalOrderedCost: nat,
                             cumulativeCost: nat)

  /** The position of the first test with `id` equal to `i`. */
  function FirstWithId(tests: seq<Test>, i: int): (r: Option<nat>)
    ensures r.Some? ==> r.value < |tests| && tests[r.value].id == Some(i)
    ensures r.Some? ==> forall m :: 0 <= m < r.value ==> tests[m].id != Some(i)
    ensures r.None? ==> forall m :: 0 <= m < |tests| ==> tests[m].id != Some(i)
    decreases |tests|
  {
    if tests == [] then None
    else if tests[0].id == Some(i) then Some(0)
    else
      var r := FirstWithId(tests[1..], i);
      if r.Some? then Some(r.value + 1) else None
  }

  /** The cost of applying and retracting what a test lists. */
  function OrderedCost(t: Test, table: CostTable): (c: nat)
    ensures c == SeqCost(ApplyOf(t), table) + SeqCost(RetractOf(t), table)
  {
    SeqCostAppend(ApplyOf(t), RetractOf(t), table);
    SeqCost(ApplyOf(t) + RetractOf(t), table)
  }

  /** The test the source reads row `k`'s ordered cost from: the first test with the
      same `id`, which is never after `k`. */
  function SourceOf(tests: seq<Test>, k: nat): (m: nat)
    requires k < |tests| && tests[k].id.Some?
    ensures m <= k && tests[m].id == tests[k].id
  {
    FirstWithId(tests, tests[k].id.value).value
  }

  /** `cumsum`: each entry is the sum of the entries up to and including it. */
  function CumSum(xs: seq<nat>): (r: seq<nat>)
    ensures |r| == |xs|
    ensures forall k :: 0 <= k < |xs| ==> r[k] == Sum(xs[..k + 1])
    decreases |xs|
  {
    if xs == [] then []
    else
      var p := xs[..|xs| - 1];
      var r := CumSum(p);
      var out := r + [Sum(xs)];
      forall k | 0 <= k < |p|
        ensures out[k] == Sum(xs[..k + 1])
      {
        assert xs[..k + 1] == p[..k + 1];
        assert out[k] == r[k];
      }
      assert xs[..|xs|] == xs;
      out
  }

  /** Running totals never decrease. */
  lemma {:induction false} SumPrefixMonotone(xs: seq<nat>, a: nat, b: nat)
    requires a <= b <= |xs|
    ensures Sum(xs[..a]) <= Sum(xs[..b])
    decreases b - a
  {
    if a < b {
      SumPrefixMonotone(xs, a, b - 1);
      assert xs[..b][..b - 1] == xs[..b - 1];
    }
  }

  /** The ordered-cost column, row by row. */
  function OrderedColumn(tests: seq<Test>, table: CostTable): (col: seq<nat>)
    requires forall k :: 0 <= k < |tests| ==> tests[k].id.Some?
    ensures |col| == |tests|
    ensures forall k :: 0 <= k < |tests| ==> col[k] == OrderedCost(tests[SourceOf(tests, k)], table)
  {
    seq(|tests|, k requires 0 <= k < |tests| => OrderedCost(tests[SourceOf(tests, k)], table))
  }

  /** The `test_id` column. */
  function IdColumn(tests: seq<Test>): (col: seq<int>)
    requires forall k :: 0 <= k < |tests| ==> tests[k].id.Some?
    ensures |col| == |tests|
    ensures forall k :: 0 <= k < |tests| ==> tests[k].id == Some(col[k])
  {
    seq(|tests|, k requires 0 <= k < |tests| => tests[k].id.value)
  }

  /** The `absolute_total_cost` column: each test's scenarios costed in isolation. */
  function AbsoluteColumn(tests: seq<Test>, table: CostTable): (col: seq<nat>)
    ensures |col| == |tests|
    ensures forall k :: 0 <= k < |tests| ==> col[k] == SeqCost(tests[k].scenarios, table)
  {
    seq(|tests|, k requires 0 <= k < |tests| => SeqCost(tests[k].scenarios, table))
  }

  /** `df.loc[last, col] += extra`: the last entry raised by `extra`. */
  function AddToLast(c: seq<nat>, extra: nat): (r: seq<nat>)
    requires c != []
    ensures |r| == |c| && r[|c| - 1] == c[|c| - 1] + extra
    ensures forall k :: 0 <= k < |c| - 1 ==> r[k] == c[k]
  {
    c[|c| - 1 := c[|c| - 1] + extra]
  }

  /** The `cumulative_cost` column: the running sum of the ordered costs, where the
      last row also pays the isolated cost of its configuration (the final teardown). */
  function CumulativeColumn(tests: seq<Test>, table: CostTable): (col: seq<nat>)
    requires forall k :: 0 <= k < |tests| ==> tests[k].id.Some?
    ensures |col| == |tests|
  {
    var c := CumSum(OrderedColumn(tests, table));
    if tests == [] then c else AddToLast(c, AbsoluteColumn(tests, table)[|tests| - 1])
  }

  lemma CumulativeColumnAt(tests: seq<Test>, table: CostTable, k: nat)
    requires forall k :: 0 <= k < |tests| ==> tests[k].id.Some?
    requires k < |tests|
    ensures CumulativeColumn(tests, table)[k] == Sum(OrderedColumn(tests, table)[..k + 1])
      + (if k == |tests| - 1 then SeqCost(tests[k].scenarios, table) else 0)
  {
  }

  /** The frame's rows, one per position of its four columns. */
  function ZipRows(ids: seq<int>, absolute: seq<nat>, ordered: seq<nat>, cumulative: seq<nat>): (rows: seq<CostRow>)
    requires |ids| == |absolute| == |ordered| == |cumulative|
    ensures |rows| == |ids|
    ensures forall k :: 0 <= k < |ids| ==> rows[k] == CostRow(ids[k], absolute[k], ordered[k], cumulative[k])
  {
    seq(|ids|, k requires 0 <= k < |ids| => CostRow(ids[k], absolute[k], ordered[k], cumulative[k]))
  }

  /** The rows of `costs_df`, column by column. */
  function CostRows(tests: seq<Test>, table: CostTable): (rows: seq<CostRow>)
    requires forall k :: 0 <= k < |tests| ==> tests[k].id.Some?
    ensures |rows| == |tests|
    ensures forall k :: 0 <= k < |tests| ==>
      && tests[k].id == Some(rows[k].testId)
      && rows[k].absoluteTotalCost == AbsoluteColumn(tests, table)[k]
      && rows[k].totalOrderedCost == OrderedColumn(tests, table)[k]
      && rows[k].cumulativeCost == CumulativeColumn(tests, table)[k]
  {
    ZipRows(IdColumn(tests), AbsoluteColumn(tests, table), OrderedColumn(tests, table),
            CumulativeColumn(tests, table))
  }

  /** The loop over `costs_df.iterrows()` filling `total_ordered_cost`: each row
      looks up the first test with its `test_id`. */
  method OrderedCosts(tests: seq<Test>, ids: seq<int>, table: CostTable) returns (ordered: seq<nat>)
    requires |ids| == |tests|
    requires forall k :: 0 <= k < |tests| ==> tests[k].id == Some(ids[k])
    ensures ordered == OrderedColumn(tests, table)
  {
    ordered := [];
    for i := 0 to |tests|
      invariant |ordered| == i
      invariant forall k :: 0 <= k < i ==> ordered[k] == OrderedColumn(tests, table)[k]
    {
      var source := FirstWithId(tests, ids[i]);
      var test := tests[source.value];
      ordered := ordered + [OrderedCost(test, table)];
    }
  }

  /** The first loop of the cost columns: each test's `id` and isolated cost,
      stopping at the first test without an `id`. */
  method IdsAndAbsolute(tests: seq<Test>, table: CostTable) returns (ok: bool, ids: seq<int>, absolute: seq<nat>)
    ensures ok <==> forall k :: 0 <= k < |tests| ==> tests[k].id.Some?
    ensures ok ==> ids == IdColumn(tests) && absolute == AbsoluteColumn(tests, table)
  {
    ids := [];
    absolute := [];
    for i := 0 to |tests|
      invariant |ids| == |absolute| == i
      invariant forall k :: 0 <= k < i ==> tests[k].id == Some(ids[k])
      invariant forall k :: 0 <= k < i ==> absolute[k] == SeqCost(tests[k].scenarios, table)
    {
      if tests[i].id.None? {
        return false, ids, absolute;
      }
      ids := ids + [tests[i].id.value];
      absolute := absolute + [SeqCost(tests[i].scenarios, table)];
    }
    ok := true;
  }

  /** The cost columns of `make_cost_plots(tests, costs_data)`: a KeyError when a
      test lacks `id`, and also for an empty list, whose frame has no
      `total_ordered_cost` column to sum. */
  method CostColumns(tests: seq<Test>, costsData: CostMaps) returns (r: Result<seq<CostRow>, PyError>)
    ensures r.Failure? <==> tests == [] || exists k :: 0 <= k < |tests| && tests[k].id.None?
    ensures r.Failure? ==> r.error == KeyError
    ensures r.Success? ==> (forall k :: 0 <= k < |tests| ==> tests[k].id.Some?)
    ensures r.Success? ==> r.value == CostRows(tests, costsData.scenarios.GetOr(map[]))
  {
    var costsLookup := costsData.scenarios.GetOr(map[]);
    var ok, ids, absolute := IdsAndAbsolute(tests, costsLookup);
    if !ok || |tests| == 0 {
      return Failure(KeyError);
    }
    var ordered := OrderedCosts(tests, ids, costsLookup);
    var cumulative := AddToLast(CumSum(ordered), absolute[|tests| - 1]);
    r := Success(ZipRows(ids, absolute, ordered, cumulative));
  }

  /** With distinct ids, every row reads the ordered cost of its own test. */
  lemma OrderedColumnOfDistinct(tests: seq<Test>, table: CostTable)
    requires forall k :: 0 <= k < |tests| ==> tests[k].id.Some?
    requires forall a, b :: 0 <= a < b < |tests| ==> tests[a].id != tests[b].id
    ensures forall k :: 0 <= k < |tests| ==>
      OrderedColumn(tests, table)[k] == SeqCost(ApplyOf(tests[k]), table) + SeqCost(RetractOf(tests[k]), table)
  {
    forall k | 0 <= k < |tests|
      ensures OrderedColumn(tests, table)[k] == SeqCost(ApplyOf(tests[k]), table) + SeqCost(RetractOf(tests[k]), table)
    {
      assert SourceOf(tests, k) == k;
    }
  }

  /** With distinct ids, the ordered costs add up to the apply and retract costs
      of the whole list. */
  lemma OrderedSumIsCost(tests: seq<Test>, table: CostTable)
    requires forall k :: 0 <= k < |tests| ==> tests[k].id.Some?
    requires forall a, b :: 0 <= a < b < |tests| ==> tests[a].id != tests[b].id
    ensures Sum(OrderedColumn(tests, table)) == ApplyCost(tests, table) + RetractCost(tests, table)
  {
    var n := |tests|;
    var col := OrderedColumn(tests, table);
    OrderedColumnOfDistinct(tests, table);
    PrefixCosts(tests, col, table, n);
    assert tests[..n] == tests;
    assert col[..n] == col;
  }

  /** The last cumulative cost: all the ordered costs plus the final teardown. */
  lemma LastCumulative(tests: seq<Test>, table: CostTable)
    requires tests != []
    requires forall k :: 0 <= k < |tests| ==> tests[k].id.Some?
    ensures CostRows(tests, table)[|tests| - 1].cumulativeCost
      == Sum(OrderedColumn(tests, table)) + FinalRetract(tests, table)
  {
    var n := |tests|;
    var col := OrderedColumn(tests, table);
    CumulativeColumnAt(tests, table, n - 1);
    assert col[..n] == col;
  }

  /** With distinct ids, the last cumulative cost equals the combined cost
      `calculate_costs` reports for the same list. */
  lemma LastCumulativeIsCombined(tests: seq<Test>, table: CostTable)
    requires tests != []
    requires forall k :: 0 <= k < |tests| ==> tests[k].id.Some?
    requires forall a, b :: 0 <= a < b < |tests| ==> tests[a].id != tests[b].id
    ensures CostRows(tests, table)[|tests| - 1].cumulativeCost == Totals(tests, table).totalCombinedCost
  {
    OrderedSumIsCost(tests, table);
    LastCumulative(tests, table);
  }

  /** The cumulative column never decreases from one row to the next. */
  lemma CumulativeMonotone(tests: seq<Test>, table: CostTable, a: nat, b: nat)
    requires forall k :: 0 <= k < |tests| ==> tests[k].id.Some?
    requires a <= b < |tests|
    ensures CostRows(tests, table)[a].cumulativeCost <= CostRows(tests, table)[b].cumulativeCost
  {
    CumSumMonotone(OrderedColumn(tests, table), a, b);
  }

  /** Running totals of naturals never decrease. */
  lemma CumSumMonotone(xs: seq<nat>, a: nat, b: nat)
    requires a <= b < |xs|
    ensures CumSum(xs)[a] <= CumSum(xs)[b]
  {
    SumPrefixMonotone(xs, a + 1, b + 1);
  }
}
