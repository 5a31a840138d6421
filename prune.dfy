/** Test pruning: a requirement stays in a test only when it has no sufficiency
    record or its sufficiency record names exactly the test's scenario set; a
    quantity left with no requirement is deleted, and a test left with no quantity
    is removed from the list. The list and its tests are updated in place. */
module Prune {
  import opened Wrappers
  import opened Strings
  import opened Seqs
  import opened TestModel

  /** One binding of the sufficiency query. */
  datatype SuffBinding = SuffBinding(reqName: string, scenarios: string)

  /** Requirement id to the scenario sets in which it is satisfied. */
  type Sufficients = map<string, set<set<string>>>

  /** The map the first loop builds: the last binding for a requirement wins, and
      each requirement maps to the one scenario set of that binding. */
  function SufficientsOf(suffs: seq<SuffBinding>): Sufficients
    decreases |suffs|
  {
    if suffs == [] then map[]
    else
      var b := suffs[|suffs| - 1];
      SufficientsOf(suffs[..|suffs| - 1])[b.reqName := {SplitSet(b.scenarios, ',')}]
  }

  method BuildSufficients(suffs: seq<SuffBinding>) returns (m: Sufficients)
    ensures m == SufficientsOf(suffs)
  {
    m := map[];
    for i := 0 to |suffs|
      invariant m == SufficientsOf(suffs[..i])
    {
      var sh := suffs[i];
      var configSets := {SplitSet(sh.scenarios, ',')};
      assert suffs[..i + 1][..i] == suffs[..i];
      m := m[sh.reqName := configSets];
    }
    assert suffs[..|suffs|] == suffs;
  }

  // ---------------------------------------------------------------------------
  // The specification of one test's pruning.

  /** A requirement is kept unless a sufficiency record exists for it that does not
      contain the test's scenario set. */
  predicate Keeps(suff: Sufficients, config: set<string>, r: string) {
    r !in suff || config in suff[r]
  }

  function KeptReqs(reqs: seq<string>, suff: Sufficients, config: set<string>): seq<string>
    decreases |reqs|
  {
    if reqs == [] then []
    else
      var p := KeptReqs(reqs[..|reqs| - 1], suff, config);
      var r := reqs[|reqs| - 1];
      if Keeps(suff, config, r) then p + [r] else p
  }

  /** Every entry with its requirements filtered; keys and order unchanged. */
  function RevisedEntries(qs: seq<QtyEntry>, suff: Sufficients, config: set<string>): (r: seq<QtyEntry>)
    ensures |r| == |qs|
    ensures forall j :: 0 <= j < |qs| ==> r[j].qty == qs[j].qty
  {
    seq(|qs|, j requires 0 <= j < |qs| =>
          QtyEntry(qs[j].qty, KeptReqs(qs[j].requirements, suff, config)))
  }

  /** The entries whose requirement list is not empty, in order. */
  function NonEmptyEntries(qs: seq<QtyEntry>): seq<QtyEntry>
    decreases |qs|
  {
    if qs == [] then []
    else
      var p := NonEmptyEntries(qs[..|qs| - 1]);
      var e := qs[|qs| - 1];
      if e.requirements == [] then p else p + [e]
  }

  /** The entries whose key is not in `ks` (what a series of `del` leaves). */
  function WithoutKeys(qs: seq<QtyEntry>, ks: set<string>): seq<QtyEntry>
    decreases |qs|
  {
    if qs == [] then []
    else
      var p := WithoutKeys(qs[..|qs| - 1], ks);
      var e := qs[|qs| - 1];
      if e.qty in ks then p else p + [e]
  }

  /** `del quantities[q]`. */
  function RemoveKey(qs: seq<QtyEntry>, q: string): seq<QtyEntry> {
    WithoutKeys(qs, {q})
  }

  /** The keys of the entries whose requirement list is empty, in order. */
  function EmptyKeys(qs: seq<QtyEntry>): seq<string>
    decreases |qs|
  {
    if qs == [] then []
    else
      var p := EmptyKeys(qs[..|qs| - 1]);
      var e := qs[|qs| - 1];
      if e.requirements == [] then p + [e.qty] else p
  }

  lemma {:induction false} WithoutKeysSubsequence(qs: seq<QtyEntry>, ks: set<string>)
    ensures forall e :: e in WithoutKeys(qs, ks) <==> e in qs && e.qty !in ks
    ensures DistinctKeys(qs) ==> DistinctKeys(WithoutKeys(qs, ks))
    decreases |qs|
  {
    if qs != [] {
      var p := qs[..|qs| - 1];
      assert qs == p + [qs[|qs| - 1]];
      WithoutKeysSubsequence(p, ks);
      if DistinctKeys(qs) {
        assert DistinctKeys(p);
        var w := WithoutKeys(p, ks);
        forall i | 0 <= i < |w|
          ensures w[i].qty != qs[|qs| - 1].qty
        {
          assert w[i] in p;
        }
      }
    }
  }

  lemma {:induction false} NonEmptyEntriesSubsequence(qs: seq<QtyEntry>)
    ensures forall e :: e in NonEmptyEntries(qs) <==> e in qs && e.requirements != []
    ensures DistinctKeys(qs) ==> DistinctKeys(NonEmptyEntries(qs))
    decreases |qs|
  {
    if qs != [] {
      var p := qs[..|qs| - 1];
      assert qs == p + [qs[|qs| - 1]];
      NonEmptyEntriesSubsequence(p);
      if DistinctKeys(qs) {
        assert DistinctKeys(p);
        var w := NonEmptyEntries(p);
        forall i | 0 <= i < |w|
          ensures w[i].qty != qs[|qs| - 1].qty
        {
          assert w[i] in p;
        }
      }
    }
  }

  /** The pruned `quantities` of a test with scenario set `config`. */
  function PruneEntries(qs: Quantities, suff: Sufficients, config: set<string>): (r: Quantities)
  {
    var revised := RevisedEntries(qs, suff, config);
    assert DistinctKeys(revised);
    NonEmptyEntriesSubsequence(revised);
    NonEmptyEntries(revised)
  }

  function PruneTest(t: Test, suff: Sufficients): Test {
    t.(quantities := PruneEntries(t.quantities, suff, SetOf(t.scenarios)))
  }

  /** The tests that still have a quantity, in order. */
  function NonEmptyTests(s: seq<Test>): seq<Test>
    decreases |s|
  {
    if s == [] then []
    else if s[0].quantities == [] then NonEmptyTests(s[1..])
    else [s[0]] + NonEmptyTests(s[1..])
  }

  function PruneAll(tests: seq<Test>, suff: Sufficients): (r: seq<Test>)
    ensures |r| == |tests|
    ensures forall i :: 0 <= i < |tests| ==> r[i] == PruneTest(tests[i], suff)
  {
    seq(|tests|, i requires 0 <= i < |tests| => PruneTest(tests[i], suff))
  }

  /** What the pruning leaves of the list. */
  function Pruned(tests: seq<Test>, suff: Sufficients): seq<Test> {
    NonEmptyTests(PruneAll(tests, suff))
  }

  // ---------------------------------------------------------------------------
  // The operation, loop by loop.

  /** `keep_requirements`: the requirements that are kept, in order. */
  method FilterRequirements(reqs: seq<string>, suff: Sufficients, config: set<string>)
    returns (keep: seq<string>)
    ensures keep == KeptReqs(reqs, suff, config)
  {
    keep := [];
    for i := 0 to |reqs|
      invariant keep == KeptReqs(reqs[..i], suff, config)
    {
      var rId := reqs[i];
      assert reqs[..i + 1][..i] == reqs[..i];
      if rId in suff {
        if config in suff[rId] {
          keep := keep + [rId];
        }
      } else {
        keep := keep + [rId];
      }
    }
    assert reqs[..|reqs|] == reqs;
  }

  lemma {:induction false} WithoutKeysUnion(qs: seq<QtyEntry>, a: set<string>, b: set<string>)
    ensures WithoutKeys(WithoutKeys(qs, a), b) == WithoutKeys(qs, a + b)
    decreases |qs|
  {
    if qs != [] {
      var p := qs[..|qs| - 1];
      var e := qs[|qs| - 1];
      WithoutKeysUnion(p, a, b);
      var w := WithoutKeys(p, a);
      if e.qty !in a {
        assert (w + [e])[..|w|] == w;
      }
    }
  }

  lemma {:induction false} WithoutNoKeys(qs: seq<QtyEntry>)
    ensures WithoutKeys(qs, {}) == qs
    decreases |qs|
  {
    if qs != [] {
      var p := qs[..|qs| - 1];
      WithoutNoKeys(p);
      assert qs == p + [qs[|qs| - 1]];
    }
  }

  lemma {:induction false} EmptyKeysAreKeys(qs: seq<QtyEntry>)
    ensures forall q :: q in EmptyKeys(qs) ==> q in Keys(qs)
    decreases |qs|
  {
    if qs != [] {
      var p := qs[..|qs| - 1];
      EmptyKeysAreKeys(p);
      forall q | q in EmptyKeys(p)
        ensures q in Keys(qs)
      {
        var i :| 0 <= i < |p| && Keys(p)[i] == q;
        assert Keys(qs)[i] == q;
      }
      assert Keys(qs)[|qs| - 1] == qs[|qs| - 1].qty;
    }
  }

  lemma {:induction false} WithoutAbsentKey(qs: seq<QtyEntry>, ks: set<string>, q: string)
    requires q !in Keys(qs)
    ensures WithoutKeys(qs, ks + {q}) == WithoutKeys(qs, ks)
    decreases |qs|
  {
    if qs != [] {
      var p := qs[..|qs| - 1];
      assert Keys(qs)[|qs| - 1] == qs[|qs| - 1].qty;
      forall i | 0 <= i < |p|
        ensures Keys(p)[i] != q
      {
        assert Keys(qs)[i] == Keys(p)[i];
      }
      WithoutAbsentKey(p, ks, q);
    }
  }

  /** Deleting the keys of the empty entries leaves just the non-empty entries. */
  lemma {:induction false} DeleteEmptyKeys(qs: seq<QtyEntry>)
    requires DistinctKeys(qs)
    ensures WithoutKeys(qs, SetOf(EmptyKeys(qs))) == NonEmptyEntries(qs)
    decreases |qs|
  {
    if qs != [] {
      var p := qs[..|qs| - 1];
      var e := qs[|qs| - 1];
      assert DistinctKeys(p);
      DeleteEmptyKeys(p);
      assert e.qty !in Keys(p) by {
        forall i | 0 <= i < |p|
          ensures Keys(p)[i] != e.qty
        {
          assert qs[i].qty != qs[|qs| - 1].qty;
        }
      }
      EmptyKeysAreKeys(p);
      if e.requirements == [] {
        assert SetOf(EmptyKeys(qs)) == SetOf(EmptyKeys(p)) + {e.qty};
        WithoutAbsentKey(p, SetOf(EmptyKeys(p)), e.qty);
      } else {
        assert SetOf(EmptyKeys(qs)) == SetOf(EmptyKeys(p));
      }
    }
  }

  /** The loop over a test's quantity keys: filter each entry's requirements in
      place and collect the keys left empty. */
  method ReviseQuantities(qs: Quantities, suff: Sufficients, config: set<string>)
    returns (cur: seq<QtyEntry>, dropQ: seq<string>)
    ensures cur == RevisedEntries(qs, suff, config)
    ensures dropQ == EmptyKeys(cur)
  {
    var keys := Keys(qs);
    cur := qs;
    dropQ := [];
    for i := 0 to |keys|
      invariant |cur| == |qs|
      invariant forall j :: 0 <= j < i ==> cur[j] == RevisedEntries(qs, suff, config)[j]
      invariant forall j :: i <= j < |qs| ==> cur[j] == qs[j]
      invariant dropQ == EmptyKeys(cur[..i])
    {
      var q := keys[i];
      var qh := cur[i];
      var keep := FilterRequirements(qh.requirements, suff, config);
      var next := cur[i := QtyEntry(q, keep)];
      assert next[..i] == cur[..i];
      assert next[..i + 1] == cur[..i] + [QtyEntry(q, keep)];
      cur := next;
      if keep == [] {
        dropQ := dropQ + [q];
      }
    }
    assert cur[..|cur|] == cur;
  }

  /** The loop of `del` statements. */
  method DeleteQuantities(qs: seq<QtyEntry>, dropQ: seq<string>) returns (cur: seq<QtyEntry>)
    ensures cur == WithoutKeys(qs, SetOf(dropQ))
  {
    cur := qs;
    WithoutNoKeys(qs);
    assert SetOf(dropQ[..0]) == {};
    for j := 0 to |dropQ|
      invariant cur == WithoutKeys(qs, SetOf(dropQ[..j]))
    {
      assert SetOf(dropQ[..j + 1]) == SetOf(dropQ[..j]) + {dropQ[j]};
      WithoutKeysUnion(qs, SetOf(dropQ[..j]), {dropQ[j]});
      cur := RemoveKey(cur, dropQ[j]);
    }
    assert dropQ[..|dropQ|] == dropQ;
  }

  /** The inner loops for one test: filter each quantity's requirements, collect
      the quantities left empty, then delete them. */
  method PruneQuantities(qs: Quantities, suff: Sufficients, config: set<string>)
    returns (r: Quantities)
    ensures r == PruneEntries(qs, suff, config)
  {
    var revised, dropQ := ReviseQuantities(qs, suff, config);
    assert DistinctKeys(revised);
    var cur := DeleteQuantities(revised, dropQ);
    DeleteEmptyKeys(revised);
    assert cur == PruneEntries(qs, suff, config);
    r := cur;
  }

  // ---------------------------------------------------------------------------
  // Removing the emptied tests with `list.remove`.

  /** `s.remove(x)`: drop the first element equal to `x` (the source raises
      ValueError when there is none). */
  function RemoveFirst(s: seq<Test>, x: Test): seq<Test>
    requires x in s
  {
    if s[0] == x then s[1..] else [s[0]] + RemoveFirst(s[1..], x)
  }

  /** The tests left without a quantity, in order. */
  function EmptiesOf(s: seq<Test>): seq<Test>
    decreases |s|
  {
    if s == [] then []
    else if s[0].quantities == [] then [s[0]] + EmptiesOf(s[1..])
    else EmptiesOf(s[1..])
  }

  /** `s` without its first `k` quantity-less tests. */
  function DropEmpties(s: seq<Test>, k: nat): seq<Test>
    decreases |s|
  {
    if s == [] then []
    else if s[0].quantities == [] && k > 0 then DropEmpties(s[1..], k - 1)
    else [s[0]] + DropEmpties(s[1..], k)
  }

  lemma {:induction false} EmptiesOfSnoc(s: seq<Test>, x: Test)
    ensures EmptiesOf(s + [x]) == EmptiesOf(s) + (if x.quantities == [] then [x] else [])
    decreases |s|
  {
    if s == [] {
      assert [x][1..] == [];
    } else {
      assert (s + [x])[1..] == s[1..] + [x];
      EmptiesOfSnoc(s[1..], x);
    }
  }

  lemma {:induction false} DropNoEmpties(s: seq<Test>)
    ensures DropEmpties(s, 0) == s
    decreases |s|
  {
    if s != [] {
      DropNoEmpties(s[1..]);
    }
  }

  lemma {:induction false} DropAllEmpties(s: seq<Test>)
    ensures DropEmpties(s, |EmptiesOf(s)|) == NonEmptyTests(s)
    decreases |s|
  {
    if s != [] {
      DropAllEmpties(s[1..]);
    }
  }

  /** Removing the next emptied test with `remove` takes out exactly that one:
      every test before it in the list still has a quantity, so none equals it. */
  lemma {:induction false} RemoveNextEmpty(s: seq<Test>, k: nat)
    requires k < |EmptiesOf(s)|
    ensures EmptiesOf(s)[k] in DropEmpties(s, k)
    ensures RemoveFirst(DropEmpties(s, k), EmptiesOf(s)[k]) == DropEmpties(s, k + 1)
    decreases |s|
  {
    var x := EmptiesOf(s)[k];
    if s[0].quantities == [] {
      if k == 0 {
        DropNoEmpties(s);
        DropNoEmpties(s[1..]);
      } else {
        RemoveNextEmpty(s[1..], k - 1);
      }
    } else {
      RemoveNextEmpty(s[1..], k);
      assert x.quantities == [] by {
        EmptiesAreEmpty(s[1..]);
      }
      assert s[0] != x;
      var d := DropEmpties(s[1..], k);
      assert DropEmpties(s, k) == [s[0]] + d;
      assert ([s[0]] + d)[1..] == d;
    }
  }

  lemma {:induction false} EmptiesAreEmpty(s: seq<Test>)
    ensures forall i :: 0 <= i < |EmptiesOf(s)| ==> EmptiesOf(s)[i].quantities == []
    decreases |s|
  {
    if s != [] {
      EmptiesAreEmpty(s[1..]);
    }
  }

  /** The position of the first test without a `uuid`, or the length when all have one. */
  function MissingUuid(tests: seq<Test>): (i: nat)
    ensures i <= |tests|
    ensures forall j :: 0 <= j < i ==> tests[j].uuid.Some?
    ensures i < |tests| ==> tests[i].uuid.None?
    decreases |tests|
  {
    if tests == [] || tests[0].uuid.None? then 0 else MissingUuid(tests[1..]) + 1
  }

  lemma {:induction false} MissingUuidAt(tests: seq<Test>, i: nat)
    requires i < |tests| && tests[i].uuid.None?
    requires forall j :: 0 <= j < i ==> tests[j].uuid.Some?
    ensures MissingUuid(tests) == i
    decreases i
  {
    if i > 0 {
      MissingUuidAt(tests[1..], i - 1);
    }
  }

  /** A list whose first `i` tests are pruned and whose others are untouched. */
  lemma PartlyPruned(original: seq<Test>, items: seq<Test>, i: nat, suff: Sufficients)
    requires |items| == |original| && i <= |original|
    requires forall j :: 0 <= j < i ==> items[j] == PruneTest(original[j], suff)
    requires forall j :: i <= j < |items| ==> items[j] == original[j]
    ensures items == PruneAll(original[..i], suff) + original[i..]
  {
    var p := PruneAll(original[..i], suff);
    forall j | 0 <= j < |items|
      ensures items[j] == (p + original[i..])[j]
    {
      if j < i {
        assert original[..i][j] == original[j];
      }
    }
  }

  /** The loop over the tests: prune each in place and collect the emptied ones.
      Reading `test['uuid']` raises KeyError at the first test without one, when
      the tests before it are already pruned and the rest untouched. */
  method PruneEach(tests: TestList, sufficients: Sufficients) returns (r: Result<seq<Test>, PyError>)
    modifies tests
    ensures r.Success? <==> MissingUuid(old(tests.items)) == |old(tests.items)|
    ensures r.Success? ==> tests.items == PruneAll(old(tests.items), sufficients)
                           && r.value == EmptiesOf(tests.items)
    ensures r.Failure? ==> (r.error == KeyError &&
      var m := MissingUuid(old(tests.items));
      tests.items == PruneAll(old(tests.items)[..m], sufficients) + old(tests.items)[m..])
  {
    ghost var original := tests.items;
    var dropTests := [];
    for i := 0 to |tests.items|
      invariant PrunedUpTo(original, tests.items, i, sufficients)
      invariant dropTests == EmptiesOf(tests.items[..i])
    {
      var test := tests.items[i];
      if test.uuid.None? {
        MissingUuidAt(original, i);
        PartlyPruned(original, tests.items, i, sufficients);
        return Failure(KeyError);
      }
      var config := SetOf(test.scenarios);
      var kept := PruneQuantities(test.quantities, sufficients, config);
      var revised := test.(quantities := kept);
      PrunedUpToStep(original, tests.items, i, sufficients, revised);
      tests.items := tests.items[i := revised];
      if kept == [] {
        dropTests := dropTests + [revised];
      }
    }
    assert tests.items[..|tests.items|] == tests.items;
    r := Success(dropTests);
  }

  /** The invariant of the pruning loop after `i` tests. */
  ghost predicate PrunedUpTo(original: seq<Test>, items: seq<Test>, i: nat, suff: Sufficients) {
    |items| == |original| && i <= |items| &&
    (forall j :: 0 <= j < i ==> original[j].uuid.Some?) &&
    (forall j :: 0 <= j < i ==> items[j] == PruneTest(original[j], suff)) &&
    (forall j :: i <= j < |items| ==> items[j] == original[j])
  }

  /** Pruning test `i` in place extends the loop invariant by one test and the
      collected empties by that test if it is now empty. */
  lemma PrunedUpToStep(original: seq<Test>, items: seq<Test>, i: nat, suff: Sufficients, revised: Test)
    requires PrunedUpTo(original, items, i, suff) && i < |items|
    requires items[i].uuid.Some? && revised == PruneTest(items[i], suff)
    ensures PrunedUpTo(original, items[i := revised], i + 1, suff)
    ensures EmptiesOf(items[i := revised][..i + 1]) ==
      EmptiesOf(items[..i]) + (if revised.quantities == [] then [revised] else [])
  {
    EmptiesOfSnoc(items[..i], revised);
    assert items[i := revised][..i + 1] == items[..i] + [revised];
  }

  /** The loop of `remove` calls. */
  method RemoveDropped(tests: TestList, dropTests: seq<Test>)
    requires dropTests == EmptiesOf(tests.items)
    modifies tests
    ensures tests.items == NonEmptyTests(old(tests.items))
  {
    ghost var all := tests.items;
    DropNoEmpties(all);
    for k := 0 to |dropTests|
      invariant tests.items == DropEmpties(all, k)
    {
      RemoveNextEmpty(all, k);
      tests.items := RemoveFirst(tests.items, dropTests[k]);
    }
    DropAllEmpties(all);
  }

  /** `prune_tests`: the list object is updated in place and returned. A test
      without a `uuid` raises KeyError, leaving the list partly pruned. */
  method PruneTests(tests: TestList, suffs: seq<SuffBinding>) returns (r: Result<TestList, PyError>)
    modifies tests
    ensures r.Success? <==> MissingUuid(old(tests.items)) == |old(tests.items)|
    ensures r.Success? ==> r.value == tests && tests.items == Pruned(old(tests.items), SufficientsOf(suffs))
    ensures r.Failure? ==> (r.error == KeyError &&
      var m := MissingUuid(old(tests.items));
      tests.items == PruneAll(old(tests.items)[..m], SufficientsOf(suffs)) + old(tests.items)[m..])
  {
    var sufficients := BuildSufficients(suffs);
    var dropTests := PruneEach(tests, sufficients);
    if dropTests.Failure? {
      return Failure(dropTests.error);
    }
    RemoveDropped(tests, dropTests.value);
    r := Success(tests);
  }

  // ---------------------------------------------------------------------------
  // What pruning means.

  /** The last sufficiency binding of a requirement decides its scenario set. */
  lemma {:induction false} SufficientsMeaning(suffs: seq<SuffBinding>, r: string)
    ensures r in SufficientsOf(suffs) <==> exists i :: 0 <= i < |suffs| && suffs[i].reqName == r
    ensures r in SufficientsOf(suffs) ==>
      exists i :: 0 <= i < |suffs| && suffs[i].reqName == r
                  && SufficientsOf(suffs)[r] == {SplitSet(suffs[i].scenarios, ',')}
                  && forall j :: i < j < |suffs| ==> suffs[j].reqName != r
    decreases |suffs|
  {
    if suffs != [] {
      var n := |suffs| - 1;
      var p := suffs[..n];
      SufficientsMeaning(p, r);
      assert forall i :: 0 <= i < n ==> suffs[i] == p[i];
      if suffs[n].reqName != r && r in SufficientsOf(p) {
        var i :| 0 <= i < |p| && p[i].reqName == r
                 && SufficientsOf(p)[r] == {SplitSet(p[i].scenarios, ',')}
                 && forall j :: i < j < |p| ==> p[j].reqName != r;
        assert forall j :: i < j < |suffs| ==> suffs[j].reqName != r by {
          forall j | i < j < |suffs|
            ensures suffs[j].reqName != r
          {
            if j < n {
              assert suffs[j] == p[j];
            }
          }
        }
      }
    }
  }

  /** The kept requirements are those of the list that pass, in their order; a
      sorted list stays sorted, and filtering again changes nothing. */
  lemma KeptReqsMeaning(reqs: seq<string>, suff: Sufficients, config: set<string>)
    ensures forall r :: r in KeptReqs(reqs, suff, config) <==> r in reqs && Keeps(suff, config, r)
    ensures |KeptReqs(reqs, suff, config)| <= |reqs|
    ensures StrictlySorted(reqs) ==> StrictlySorted(KeptReqs(reqs, suff, config))
    ensures KeptReqs(KeptReqs(reqs, suff, config), suff, config) == KeptReqs(reqs, suff, config)
  {
    KeptReqsMembers(reqs, suff, config);
    if StrictlySorted(reqs) {
      KeptReqsSorted(reqs, suff, config);
    }
    KeptReqsIdempotent(reqs, suff, config);
  }

  lemma {:induction false} KeptReqsMembers(reqs: seq<string>, suff: Sufficients, config: set<string>)
    ensures forall r :: r in KeptReqs(reqs, suff, config) <==> r in reqs && Keeps(suff, config, r)
    ensures |KeptReqs(reqs, suff, config)| <= |reqs|
    decreases |reqs|
  {
    if reqs != [] {
      var p := reqs[..|reqs| - 1];
      assert reqs == p + [reqs[|reqs| - 1]];
      KeptReqsMembers(p, suff, config);
    }
  }

  lemma {:induction false} KeptReqsSorted(reqs: seq<string>, suff: Sufficients, config: set<string>)
    requires StrictlySorted(reqs)
    ensures StrictlySorted(KeptReqs(reqs, suff, config))
    decreases |reqs|
  {
    if reqs != [] {
      var p := reqs[..|reqs| - 1];
      var r := reqs[|reqs| - 1];
      assert StrictlySorted(p);
      KeptReqsSorted(p, suff, config);
      KeptReqsMembers(p, suff, config);
      var k := KeptReqs(p, suff, config);
      forall x | x in k
        ensures StrLt(x, r)
      {
        var i :| 0 <= i < |p| && p[i] == x;
        assert reqs[i] == x;
      }
    }
  }

  lemma {:induction false} KeptReqsIdempotent(reqs: seq<string>, suff: Sufficients, config: set<string>)
    ensures KeptReqs(KeptReqs(reqs, suff, config), suff, config) == KeptReqs(reqs, suff, config)
    decreases |reqs|
  {
    if reqs != [] {
      var p := reqs[..|reqs| - 1];
      var r := reqs[|reqs| - 1];
      KeptReqsIdempotent(p, suff, config);
      var k := KeptReqs(p, suff, config);
      if Keeps(suff, config, r) {
        assert (k + [r])[..|k|] == k;
      }
    }
  }

  /** Every pruned entry is a non-empty, filtered entry of the original, and every
      original entry that keeps a requirement survives with its key. */
  lemma PruneEntriesMeaning(qs: Quantities, suff: Sufficients, config: set<string>)
    ensures forall e :: e in PruneEntries(qs, suff, config) <==>
      e.requirements != [] &&
      exists j :: 0 <= j < |qs| && e == QtyEntry(qs[j].qty, KeptReqs(qs[j].requirements, suff, config))
  {
    var revised := RevisedEntries(qs, suff, config);
    NonEmptyEntriesSubsequence(revised);
    forall e
      ensures e in revised <==>
        exists j :: 0 <= j < |qs| && e == QtyEntry(qs[j].qty, KeptReqs(qs[j].requirements, suff, config))
    {
      if e in revised {
        var j :| 0 <= j < |revised| && revised[j] == e;
      }
    }
  }

  /** After pruning, every test has a quantity, every quantity has a requirement,
      and every requirement left is sufficient for the test's scenario set. */
  lemma PrunedMeaning(tests: seq<Test>, suff: Sufficients)
    ensures |Pruned(tests, suff)| <= |tests|
    ensures forall t :: t in Pruned(tests, suff) <==>
      t.quantities != [] && exists i :: 0 <= i < |tests| && t == PruneTest(tests[i], suff)
    ensures forall t, e, r :: t in Pruned(tests, suff) && e in t.quantities && r in e.requirements ==>
      Keeps(suff, SetOf(t.scenarios), r)
  {
    NonEmptyTestsSubsequence(PruneAll(tests, suff));
    forall t, e, r | t in Pruned(tests, suff) && e in t.quantities && r in e.requirements
      ensures Keeps(suff, SetOf(t.scenarios), r)
    {
      var i :| 0 <= i < |tests| && t == PruneTest(tests[i], suff);
      PruneEntriesMeaning(tests[i].quantities, suff, SetOf(tests[i].scenarios));
      var j :| 0 <= j < |tests[i].quantities| &&
        e == QtyEntry(tests[i].quantities[j].qty,
                      KeptReqs(tests[i].quantities[j].requirements, suff, SetOf(tests[i].scenarios)));
      KeptReqsMeaning(tests[i].quantities[j].requirements, suff, SetOf(tests[i].scenarios));
    }
  }

  lemma {:induction false} NonEmptyTestsSubsequence(s: seq<Test>)
    ensures |NonEmptyTests(s)| <= |s|
    ensures forall t :: t in NonEmptyTests(s) <==> t in s && t.quantities != []
    decreases |s|
  {
    if s != [] {
      NonEmptyTestsSubsequence(s[1..]);
      assert s == [s[0]] + s[1..];
    }
  }

  /** `ix` lists, in strictly ascending order, the positions of `s` that `r` holds. */
  ghost predicate PicksInOrder(r: seq<Test>, s: seq<Test>, ix: seq<nat>) {
    |ix| == |r| &&
    (forall k :: 0 <= k < |ix| ==> ix[k] < |s| && r[k] == s[ix[k]]) &&
    (forall a, b :: 0 <= a < b < |ix| ==> ix[a] < ix[b])
  }

  /** Every test of `s` that still has a quantity is at one of the positions `ix`. */
  ghost predicate CoversNonEmpty(s: seq<Test>, ix: seq<nat>) {
    forall i :: 0 <= i < |s| && s[i].quantities != [] ==> i in ix
  }

  /** The positions of the tests of `s` that still have a quantity, ascending. */
  ghost function NonEmptyPositions(s: seq<Test>): seq<nat>
    decreases |s|
  {
    if s == [] then []
    else
      var rest := NonEmptyPositions(s[1..]);
      var shifted := seq(|rest|, k requires 0 <= k < |rest| => rest[k] + 1);
      if s[0].quantities == [] then shifted else [0] + shifted
  }

  /** The tests that keep a quantity are picked out of the list in their own order,
      and every one of them is picked. */
  lemma {:induction false} NonEmptyTestsInOrder(s: seq<Test>)
    ensures PicksInOrder(NonEmptyTests(s), s, NonEmptyPositions(s))
    ensures CoversNonEmpty(s, NonEmptyPositions(s))
    decreases |s|
  {
    if s != [] {
      var tail := s[1..];
      NonEmptyTestsInOrder(tail);
      var rest := NonEmptyPositions(tail);
      var shifted := seq(|rest|, k requires 0 <= k < |rest| => rest[k] + 1);
      ShiftedPicks(s, rest, shifted);
      if s[0].quantities == [] {
        assert NonEmptyTests(s) == NonEmptyTests(tail);
        assert NonEmptyPositions(s) == shifted;
      } else {
        assert NonEmptyTests(s) == [s[0]] + NonEmptyTests(tail);
        assert NonEmptyPositions(s) == [0] + shifted;
        ConsPicks(s, shifted);
      }
    }
  }

  /** Position 0 put in front of positions into `s[1..]` picks `s[0]` first. */
  lemma ConsPicks(s: seq<Test>, shifted: seq<nat>)
    requires s != [] && PicksInOrder(NonEmptyTests(s[1..]), s, shifted)
    requires forall i :: 0 < i < |s| && s[i].quantities != [] ==> i in shifted
    requires forall k :: 0 <= k < |shifted| ==> 0 < shifted[k]
    ensures PicksInOrder([s[0]] + NonEmptyTests(s[1..]), s, [0] + shifted)
    ensures CoversNonEmpty(s, [0] + shifted)
  {
    var r := [s[0]] + NonEmptyTests(s[1..]);
    var ix := [0] + shifted;
    forall k | 0 <= k < |ix| ensures ix[k] < |s| && r[k] == s[ix[k]] {
      if k > 0 {
        assert ix[k] == shifted[k - 1] && r[k] == NonEmptyTests(s[1..])[k - 1];
      }
    }
    forall a, b | 0 <= a < b < |ix| ensures ix[a] < ix[b] {
      if a > 0 {
        assert ix[a] == shifted[a - 1] && ix[b] == shifted[b - 1];
      }
    }
    forall i | 0 <= i < |s| && s[i].quantities != [] ensures i in ix {
      if i > 0 {
        assert i in shifted;
      }
    }
  }

  /** Positions into `s[1..]`, each raised by one, are positions into `s`. */
  lemma ShiftedPicks(s: seq<Test>, ix': seq<nat>, shifted: seq<nat>)
    requires s != [] && PicksInOrder(NonEmptyTests(s[1..]), s[1..], ix') && CoversNonEmpty(s[1..], ix')
    requires |shifted| == |ix'| && forall k :: 0 <= k < |ix'| ==> shifted[k] == ix'[k] + 1
    ensures PicksInOrder(NonEmptyTests(s[1..]), s, shifted)
    ensures forall i :: 0 < i < |s| && s[i].quantities != [] ==> i in shifted
    ensures forall k :: 0 <= k < |shifted| ==> 0 < shifted[k]
  {
    forall i | 0 < i < |s| && s[i].quantities != [] ensures i in shifted {
      assert s[1..][i - 1] == s[i];
      var k :| 0 <= k < |ix'| && ix'[k] == i - 1;
      assert shifted[k] == i;
    }
  }

  /** The surviving tests keep their relative order: the k-th survivor is the pruning
      of the input test at the k-th of an ascending list of positions, and every input
      test whose pruning keeps a quantity is among them. */
  lemma PrunedInOrder(tests: seq<Test>, suff: Sufficients)
    ensures exists ix: seq<nat> ::
      |ix| == |Pruned(tests, suff)| &&
      (forall k :: 0 <= k < |ix| ==>
         ix[k] < |tests| && Pruned(tests, suff)[k] == PruneTest(tests[ix[k]], suff)) &&
      (forall a, b :: 0 <= a < b < |ix| ==> ix[a] < ix[b]) &&
      (forall i :: 0 <= i < |tests| && PruneTest(tests[i], suff).quantities != [] ==> i in ix)
  {
    var all := PruneAll(tests, suff);
    var r := Pruned(tests, suff);
    NonEmptyTestsInOrder(all);
    var ix := NonEmptyPositions(all);
    assert |ix| == |r|;
    forall k | 0 <= k < |ix| ensures ix[k] < |tests| && r[k] == PruneTest(tests[ix[k]], suff) {
      assert r[k] == all[ix[k]];
    }
    assert forall a, b :: 0 <= a < b < |ix| ==> ix[a] < ix[b];
    forall i | 0 <= i < |tests| && PruneTest(tests[i], suff).quantities != [] ensures i in ix {
      assert all[i].quantities != [];
    }
  }

  /** Pruning leaves a test unchanged when it lists only sufficient requirements
      and no quantity of it is empty. */
  lemma PruneKeepsSufficientTest(t: Test, suff: Sufficients)
    requires forall j :: 0 <= j < |t.quantities| ==> t.quantities[j].requirements != []
    requires forall j, r :: 0 <= j < |t.quantities| && r in t.quantities[j].requirements ==>
      Keeps(suff, SetOf(t.scenarios), r)
    ensures PruneTest(t, suff) == t
  {
    var config := SetOf(t.scenarios);
    var qs := t.quantities;
    forall j | 0 <= j < |qs|
      ensures KeptReqs(qs[j].requirements, suff, config) == qs[j].requirements
    {
      KeptAll(qs[j].requirements, suff, config);
    }
    var revised := RevisedEntries(qs, suff, config);
    assert revised == qs;
    NonEmptyEntriesAll(qs);
  }

  lemma {:induction false} KeptAll(reqs: seq<string>, suff: Sufficients, config: set<string>)
    requires forall r :: r in reqs ==> Keeps(suff, config, r)
    ensures KeptReqs(reqs, suff, config) == reqs
    decreases |reqs|
  {
    if reqs != [] {
      var p := reqs[..|reqs| - 1];
      assert reqs == p + [reqs[|reqs| - 1]];
      KeptAll(p, suff, config);
    }
  }

  lemma {:induction false} NonEmptyEntriesAll(qs: seq<QtyEntry>)
    requires forall j :: 0 <= j < |qs| ==> qs[j].requirements != []
    ensures NonEmptyEntries(qs) == qs
    decreases |qs|
  {
    if qs != [] {
      var p := qs[..|qs| - 1];
      assert qs == p + [qs[|qs| - 1]];
      NonEmptyEntriesAll(p);
    }
  }

  lemma {:induction false} NonEmptyTestsAll(s: seq<Test>)
    requires forall i :: 0 <= i < |s| ==> s[i].quantities != []
    ensures NonEmptyTests(s) == s
    decreases |s|
  {
    if s != [] {
      NonEmptyTestsAll(s[1..]);
    }
  }

  /** Pruning a second time with the same sufficiency data changes nothing. */
  lemma PruneIdempotent(tests: seq<Test>, suff: Sufficients)
    ensures Pruned(Pruned(tests, suff), suff) == Pruned(tests, suff)
  {
    var once := Pruned(tests, suff);
    PrunedMeaning(tests, suff);
    forall i | 0 <= i < |once|
      ensures PruneTest(once[i], suff) == once[i]
    {
      var t := once[i];
      assert t in once;
      var k :| 0 <= k < |tests| && t == PruneTest(tests[k], suff);
      PruneEntriesMeaning(tests[k].quantities, suff, SetOf(tests[k].scenarios));
      forall j | 0 <= j < |t.quantities|
        ensures t.quantities[j].requirements != []
      {
        assert t.quantities[j] in t.quantities;
      }
      forall j, r | 0 <= j < |t.quantities| && r in t.quantities[j].requirements
        ensures Keeps(suff, SetOf(t.scenarios), r)
      {
        assert t.quantities[j] in t.quantities;
      }
      PruneKeepsSufficientTest(t, suff);
    }
    assert PruneAll(once, suff) == once;
    forall i | 0 <= i < |once|
      ensures once[i].quantities != []
    {
      assert once[i] in once;
    }
    NonEmptyTestsAll(once);
  }
}
