/** Cost tables (scenario or quantity id to an integer cost) and the two ways the
    source adds costs up: element by element over a list (`compute_cost`) and over
    a set (`sum(... for e in apply | retract)`). */
module Costs {
  import opened Wrappers
  import opened Strings
  import opened Seqs

  /** A JSON object from id to cost; the source parses costs with `int(...)`. */
  type CostTable = map<string, nat>

  /** The `costs.json` object: `{"scenarios": {...}, "observations": {...}}`, either
      key possibly missing. */
  datatype CostMaps = CostMaps(scenarios: Option<CostTable>, observations: Option<CostTable>)

  /** `table.get(id, 0)`: unknown ids cost nothing. */
  function Lookup(table: CostTable, id: string): nat {
    if id in table then table[id] else 0
  }

  /** `compute_cost(ids)`: the costs of a list, one term per element, so a
      repeated id is charged once per occurrence. */
  function SeqCost(ids: seq<string>, table: CostTable): nat
    decreases |ids|
  {
    if ids == [] then 0 else Lookup(table, ids[0]) + SeqCost(ids[1..], table)
  }

  lemma {:induction false} SeqCostAppend(a: seq<string>, b: seq<string>, table: CostTable)
    ensures SeqCost(a + b, table) == SeqCost(a, table) + SeqCost(b, table)
    decreases |a|
  {
    if a == [] {
      assert a + b == b;
    } else {
      assert (a + b)[0] == a[0];
      assert (a + b)[1..] == a[1..] + b;
      SeqCostAppend(a[1..], b, table);
    }
  }

  /** The cost of a set of ids: every element counted once (visited here in
      ascending order; SetCostRemove shows the order does not matter). */
  function SetCost(s: set<string>, table: CostTable): nat
    decreases |s|
  {
    if s == {} then 0
    else
      var m := Least(s);
      Lookup(table, m) + SetCost(s - {m}, table)
  }

  lemma LeastOfSubset(s: set<string>, x: string)
    requires x in s && x != Least(s)
    ensures Least(s) in s - {x} && Least(s - {x}) == Least(s)
  {
    var m := Least(s);
    assert IsLeast(m, s - {x});
    LeastIsUnique(s - {x});
  }


  /** Taking any element out first gives the same sum: the set sum does not depend
      on the order the ids are visited in. */
  lemma {:induction false} SetCostRemove(s: set<string>, x: string, table: CostTable)
    requires x in s
    ensures SetCost(s, table) == Lookup(table, x) + SetCost(s - {x}, table)
    decreases |s|
  {
    var m := Least(s);
    if x != m {
      SetCostRemove(s - {m}, x, table);
      LeastOfSubset(s, x);
      assert s - {m} - {x} == s - {x} - {m};
    }
  }

  lemma {:induction false} SetCostUnion(a: set<string>, b: set<string>, table: CostTable)
    requires a !! b
    ensures SetCost(a + b, table) == SetCost(a, table) + SetCost(b, table)
    decreases |a|
  {
    if a != {} {
      var x :| x in a;
      SetCostRemove(a, x, table);
      SetCostRemove(a + b, x, table);
      assert (a + b) - {x} == (a - {x}) + b;
      SetCostUnion(a - {x}, b, table);
    } else {
      assert a + b == b;
    }
  }

  /** Over a list without repetitions, the per-element sum is the set sum, in
      whatever order the list holds its elements. */
  lemma {:induction false} SeqCostOfDistinct(ids: seq<string>, table: CostTable)
    requires Distinct(ids)
    ensures SeqCost(ids, table) == SetCost(SetOf(ids), table)
    decreases |ids|
  {
    if ids != [] {
      var rest := ids[1..];
      assert Distinct(rest);
      SeqCostOfDistinct(rest, table);
      var s := SetOf(ids);
      forall k | 0 <= k < |rest|
        ensures rest[k] != ids[0]
      {
        assert rest[k] == ids[k + 1];
      }
      assert s - {ids[0]} == SetOf(rest);
      SetCostRemove(s, ids[0], table);
    }
  }

  /** Charging a sorted listing of a set element by element is charging the set. */
  lemma SeqCostOfSorted(s: set<string>, table: CostTable)
    ensures SeqCost(SortedOf(s), table) == SetCost(s, table)
  {
    var r := SortedOf(s);
    assert Distinct(r) by {
      forall i, j | 0 <= i < j < |r|
        ensures r[i] != r[j]
      {
        assert StrLt(r[i], r[j]);
        StrLtIrreflexive(r[i]);
      }
    }
    assert SetOf(r) == s;
    SeqCostOfDistinct(r, table);
  }
}
