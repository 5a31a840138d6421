/** Test-configuration generation: one test per distinct scenario set named by the
    requirement records, carrying its own requirements, those of every scenario set
    strictly contained in it, and the quantities those requirements measure. */
module Generate {
  import opened Wrappers
  import opened Strings
  import opened Seqs
  import opened TestModel

  /** One binding of the requirements query; a null name or quantity is None, and the
      scenario list is always a string. */
  datatype ReqBinding = ReqBinding(reqName: Option<string>, quaID: Option<string>, scenarios: string)

  /** Records without a requirement name or without a quantity are skipped. */
  predicate Counted(b: ReqBinding) {
    b.reqName.Some? && b.quaID.Some?
  }

  /** `frozenset(scenarios.split(","))`. */
  function ScenarioSetOf(b: ReqBinding): set<string> {
    SplitSet(b.scenarios, ',')
  }

  // ---------------------------------------------------------------------------
  // What the first loop computes, stated directly on the record list.

  /** The scenario set of every counted record, in record order (repetitions kept). */
  function RecordSets(recs: seq<ReqBinding>): seq<set<string>>
    decreases |recs|
  {
    if recs == [] then []
    else
      var p := RecordSets(recs[..|recs| - 1]);
      var b := recs[|recs| - 1];
      if Counted(b) then p + [ScenarioSetOf(b)] else p
  }

  /** The distinct scenario sets, in order of first appearance. */
  function ScenarioSets(recs: seq<ReqBinding>): seq<set<string>> {
    Dedup(RecordSets(recs))
  }

  /** The names of the counted records whose scenario set is `ss`, in record order. */
  function NamesWith(recs: seq<ReqBinding>, ss: set<string>): seq<string>
    decreases |recs|
  {
    if recs == [] then []
    else
      var p := NamesWith(recs[..|recs| - 1], ss);
      var b := recs[|recs| - 1];
      if Counted(b) && ScenarioSetOf(b) == ss then p + [b.reqName.value] else p
  }

  /** The direct requirements of `ss`, without repetitions, in first-seen order. */
  function DirectReqs(recs: seq<ReqBinding>, ss: set<string>): seq<string> {
    Dedup(NamesWith(recs, ss))
  }

  /** Every requirement some counted record pairs with quantity `q`. */
  function ReqsWithQty(recs: seq<ReqBinding>, q: string): set<string>
    decreases |recs|
  {
    if recs == [] then {}
    else
      var p := ReqsWithQty(recs[..|recs| - 1], q);
      var b := recs[|recs| - 1];
      if Counted(b) && b.quaID.value == q then p + {b.reqName.value} else p
  }

  /** The quantity of the last counted record naming requirement `r`. */
  function LastQty(recs: seq<ReqBinding>, r: string): Option<string>
    decreases |recs|
  {
    if recs == [] then None
    else
      var b := recs[|recs| - 1];
      if Counted(b) && b.reqName.value == r then b.quaID
      else LastQty(recs[..|recs| - 1], r)
  }

  // ---------------------------------------------------------------------------
  // The indexes, as the first loop builds them (defaultdict reads give [] / {}).

  function ReqsAt(m: map<set<string>, seq<string>>, ss: set<string>): seq<string> {
    if ss in m then m[ss] else []
  }

  function QtyReqsAt(m: map<string, set<string>>, q: string): set<string> {
    if q in m then m[q] else {}
  }

  ghost predicate BySetIndexed(recs: seq<ReqBinding>, bySet: map<set<string>, seq<string>>) {
    forall ss :: ReqsAt(bySet, ss) == DirectReqs(recs, ss)
  }

  ghost predicate ByQtyIndexed(recs: seq<ReqBinding>, byQty: map<string, set<string>>) {
    forall q :: QtyReqsAt(byQty, q) == ReqsWithQty(recs, q)
  }

  ghost predicate QtyOfIndexed(recs: seq<ReqBinding>, qtyOf: map<string, string>) {
    && (forall r :: r in qtyOf <==> LastQty(recs, r).Some?)
    && (forall r :: r in qtyOf ==> LastQty(recs, r) == Some(qtyOf[r]))
  }

  /** The indexes agree with the record list. */
  ghost predicate IndexesOf(recs: seq<ReqBinding>, sets: seq<set<string>>,
                            bySet: map<set<string>, seq<string>>,
                            byQty: map<string, set<string>>, qtyOf: map<string, string>)
  {
    && sets == ScenarioSets(recs)
    && BySetIndexed(recs, bySet)
    && ByQtyIndexed(recs, byQty)
    && QtyOfIndexed(recs, qtyOf)
  }

  /** How one counted record extends the record-level specifications. */
  lemma {:induction false} ExtendCounted(p: seq<ReqBinding>, b: ReqBinding)
    requires Counted(b)
    ensures RecordSets(p + [b]) == RecordSets(p) + [ScenarioSetOf(b)]
    ensures forall ss :: NamesWith(p + [b], ss) ==
                         (if ss == ScenarioSetOf(b) then NamesWith(p, ss) + [b.reqName.value] else NamesWith(p, ss))
    ensures forall q :: ReqsWithQty(p + [b], q) ==
                        (if q == b.quaID.value then ReqsWithQty(p, q) + {b.reqName.value} else ReqsWithQty(p, q))
    ensures forall r :: LastQty(p + [b], r) == (if r == b.reqName.value then b.quaID else LastQty(p, r))
  {
    assert (p + [b])[..|p|] == p;
    assert (p + [b])[|p|] == b;
  }

  /** A skipped record leaves every record-level specification as it was. */
  lemma {:induction false} ExtendSkipped(p: seq<ReqBinding>, b: ReqBinding)
    requires !Counted(b)
    ensures RecordSets(p + [b]) == RecordSets(p)
    ensures forall ss :: NamesWith(p + [b], ss) == NamesWith(p, ss)
    ensures forall q :: ReqsWithQty(p + [b], q) == ReqsWithQty(p, q)
    ensures forall r :: LastQty(p + [b], r) == LastQty(p, r)
  {
    assert (p + [b])[..|p|] == p;
    assert (p + [b])[|p|] == b;
  }

  lemma ExtendSets(p: seq<ReqBinding>, b: ReqBinding, sets: seq<set<string>>)
    requires sets == ScenarioSets(p) && Counted(b)
    ensures var ss := ScenarioSetOf(b);
      (if ss in sets then sets else sets + [ss]) == ScenarioSets(p + [b])
  {
    ExtendCounted(p, b);
    DedupSnoc(RecordSets(p), ScenarioSetOf(b));
    assert ScenarioSetOf(b) in sets <==> ScenarioSetOf(b) in RecordSets(p);
  }

  lemma ExtendBySetAt(p: seq<ReqBinding>, b: ReqBinding, known: seq<string>, v: set<string>, now: seq<string>)
    requires Counted(b)
    requires known == DirectReqs(p, ScenarioSetOf(b))
    requires v == ScenarioSetOf(b) ==>
      now == if b.reqName.value in known then known else known + [b.reqName.value]
    requires v != ScenarioSetOf(b) ==> now == DirectReqs(p, v)
    ensures now == DirectReqs(p + [b], v)
  {
    assert (p + [b])[..|p|] == p;
    assert (p + [b])[|p|] == b;
    if v == ScenarioSetOf(b) {
      DedupSnoc(NamesWith(p, v), b.reqName.value);
      assert b.reqName.value in known <==> b.reqName.value in NamesWith(p, v);
    }
  }

  lemma ExtendBySet(p: seq<ReqBinding>, b: ReqBinding, bySet: map<set<string>, seq<string>>)
    requires BySetIndexed(p, bySet) && Counted(b)
    ensures var ss := ScenarioSetOf(b);
      var r := b.reqName.value;
      BySetIndexed(p + [b], if r in ReqsAt(bySet, ss) then bySet else bySet[ss := ReqsAt(bySet, ss) + [r]])
  {
    var ss := ScenarioSetOf(b);
    var r := b.reqName.value;
    var known := ReqsAt(bySet, ss);
    var bySet' := if r in known then bySet else bySet[ss := known + [r]];
    forall v
      ensures ReqsAt(bySet', v) == DirectReqs(p + [b], v)
    {
      ExtendBySetAt(p, b, known, v, ReqsAt(bySet', v));
    }
  }

  lemma ExtendByQty(p: seq<ReqBinding>, b: ReqBinding, byQty: map<string, set<string>>)
    requires ByQtyIndexed(p, byQty) && Counted(b)
    ensures var q := b.quaID.value;
      ByQtyIndexed(p + [b], byQty[q := QtyReqsAt(byQty, q) + {b.reqName.value}])
  {
    var q := b.quaID.value;
    var r := b.reqName.value;
    ExtendCounted(p, b);
    var byQty' := byQty[q := QtyReqsAt(byQty, q) + {r}];
    forall v
      ensures QtyReqsAt(byQty', v) == ReqsWithQty(p + [b], v)
    {
      if v == q {
        assert QtyReqsAt(byQty', v) == QtyReqsAt(byQty, q) + {r};
      } else {
        assert QtyReqsAt(byQty', v) == QtyReqsAt(byQty, v);
      }
    }
  }

  lemma ExtendQtyOf(p: seq<ReqBinding>, b: ReqBinding, qtyOf: map<string, string>)
    requires QtyOfIndexed(p, qtyOf) && Counted(b)
    ensures QtyOfIndexed(p + [b], qtyOf[b.reqName.value := b.quaID.value])
  {
    ExtendCounted(p, b);
  }

  lemma IndexesSkip(p: seq<ReqBinding>, b: ReqBinding, sets: seq<set<string>>,
                    bySet: map<set<string>, seq<string>>,
                    byQty: map<string, set<string>>, qtyOf: map<string, string>)
    requires IndexesOf(p, sets, bySet, byQty, qtyOf) && !Counted(b)
    ensures IndexesOf(p + [b], sets, bySet, byQty, qtyOf)
  {
    ExtendSkipped(p, b);
  }

  /** The first loop of the generator: scenario sets in first-seen order, requirements
      by scenario set (no repetitions), requirements by quantity, and the last
      quantity of each requirement. */
  method IndexRequirements(recs: seq<ReqBinding>)
    returns (sets: seq<set<string>>, bySet: map<set<string>, seq<string>>,
             byQty: map<string, set<string>>, qtyOf: map<string, string>)
    ensures IndexesOf(recs, sets, bySet, byQty, qtyOf)
  {
    sets := [];
    var seen: set<set<string>> := {};
    bySet := map[];
    byQty := map[];
    qtyOf := map[];
    var i := 0;
    while i < |recs|
      invariant 0 <= i <= |recs|
      invariant IndexesOf(recs[..i], sets, bySet, byQty, qtyOf)
      invariant forall x :: x in seen <==> x in sets
    {
      var b := recs[i];
      assert recs[..i + 1] == recs[..i] + [b];
      if Counted(b) {
        ExtendSets(recs[..i], b, sets);
        ExtendBySet(recs[..i], b, bySet);
        ExtendByQty(recs[..i], b, byQty);
        ExtendQtyOf(recs[..i], b, qtyOf);
        var reqId := b.reqName.value;
        var quantity := b.quaID.value;
        var ss := SplitSet(b.scenarios, ',');
        if ss !in seen {
          seen := seen + {ss};
          sets := sets + [ss];
        }
        var known := ReqsAt(bySet, ss);
        if reqId !in known {
          bySet := bySet[ss := known + [reqId]];
        }
        byQty := byQty[quantity := QtyReqsAt(byQty, quantity) + {reqId}];
        qtyOf := qtyOf[reqId := quantity];
      } else {
        IndexesSkip(recs[..i], b, sets, bySet, byQty, qtyOf);
      }
      i := i + 1;
    }
    assert recs[..|recs|] == recs;
  }

  // ---------------------------------------------------------------------------
  // The subset graph.

  /** A directed graph on scenario sets; an edge `(u, v)` runs from `u` to `v`. */
  datatype SubsetGraph = SubsetGraph(nodes: set<set<string>>, edges: set<(set<string>, set<string>)>)

  function Successors(g: SubsetGraph, u: set<string>): set<set<string>> {
    set e | e in g.edges && e.0 == u :: e.1
  }

  /** One node per scenario set and an edge from every set to each of its strict subsets. */
  method BuildSubsetGraph(sets: seq<set<string>>) returns (g: SubsetGraph)
    ensures g.nodes == SetOf(sets)
    ensures forall u, v :: (u, v) in g.edges <==> u in sets && v in sets && v < u
  {
    var nodes: set<set<string>> := {};
    for k := 0 to |sets|
      invariant nodes == SetOf(sets[..k])
    {
      assert sets[..k + 1] == sets[..k] + [sets[k]];
      nodes := nodes + {sets[k]};
    }
    assert sets[..|sets|] == sets;
    var edges: set<(set<string>, set<string>)> := {};
    for a := 0 to |sets|
      invariant forall u, v :: (u, v) in edges <==> v in sets[..a] && u in sets && v < u
    {
      assert sets[..a + 1] == sets[..a] + [sets[a]];
      for c := 0 to |sets|
        invariant forall u, v :: (u, v) in edges <==>
          (v in sets[..a] && u in sets && v < u) || (v == sets[a] && u in sets[..c] && v < u)
      {
        assert sets[..c + 1] == sets[..c] + [sets[c]];
        if sets[a] < sets[c] {
          edges := edges + {(sets[c], sets[a])};
        }
      }
    }
    g := SubsetGraph(nodes, edges);
  }

  lemma SuccessorsAreSubsets(sets: seq<set<string>>, g: SubsetGraph, u: set<string>)
    requires forall a, b :: (a, b) in g.edges <==> a in sets && b in sets && b < a
    requires u in sets
    ensures Successors(g, u) == set v | v in sets && v < u
  {
    forall v | v in sets && v < u
      ensures v in Successors(g, u)
    {
      assert (u, v) in g.edges;
    }
  }

  // ---------------------------------------------------------------------------
  // The test generated for one scenario set.

  /** The requirements of `ss`: its own and those of every strictly smaller scenario set. */
  function AllReqs(recs: seq<ReqBinding>, ss: set<string>): set<string> {
    SetOf(DirectReqs(recs, ss))
      + (set v, r | v in ScenarioSets(recs) && v < ss && r in DirectReqs(recs, v) :: r)
  }

  /** The quantities of a set of requirements (their last recorded quantity). */
  function QuantitiesOf(recs: seq<ReqBinding>, reqs: set<string>): set<string> {
    set r | r in reqs && LastQty(recs, r).Some? :: LastQty(recs, r).value
  }

  /** The `quantities` dict: one entry per quantity in ascending order, listing the
      requirements among `reqs` recorded with that quantity, sorted. */
  function QuantityMap(recs: seq<ReqBinding>, reqs: set<string>): (qs: Quantities)
    ensures Keys(qs) == SortedOf(QuantitiesOf(recs, reqs))
  {
    var keys := SortedOf(QuantitiesOf(recs, reqs));
    StrictlySortedDistinct(keys);
    seq(|keys|, i requires 0 <= i < |keys| => QtyEntry(keys[i], SortedOf(ReqsWithQty(recs, keys[i]) * reqs)))
  }

  /** The keys, in order, of the entries listing some requirement of `direct`. */
  function DirectQuantities(keys: seq<string>, qh: seq<QtyEntry>, direct: set<string>): seq<string>
    decreases |keys|
  {
    if keys == [] then []
    else
      var p := DirectQuantities(keys[..|keys| - 1], qh, direct);
      var q := keys[|keys| - 1];
      match Get(qh, q)
      case None => p
      case Some(reqs) => if exists r :: r in reqs && r in direct then p + [q] else p
  }

  /** The test generated for the `k`-th scenario set. Its identifier comes from
      `uuidOf` and its digest is `digestOf` applied to the sorted scenario list. */
  function GeneratedTest(recs: seq<ReqBinding>, k: nat, digestOf: seq<string> -> string,
                         uuidOf: nat -> string): Test
    requires k < |ScenarioSets(recs)|
  {
    var ss := ScenarioSets(recs)[k];
    var direct := DirectReqs(recs, ss);
    var qh := QuantityMap(recs, AllReqs(recs, ss));
    var config := SortedOf(ss);
    Test(None, Some(uuidOf(k)), Some(digestOf(config)), config, qh, Some(direct),
         Some(DirectQuantities(Keys(qh), qh, SetOf(direct))), None, None)
  }

  function Generated(recs: seq<ReqBinding>, digestOf: seq<string> -> string,
                     uuidOf: nat -> string): seq<Test>
  {
    seq(|ScenarioSets(recs)|, k requires 0 <= k < |ScenarioSets(recs)| =>
          GeneratedTest(recs, k, digestOf, uuidOf))
  }

  /** `rqmts`: the direct requirements of `ss`, updated with those of each successor. */
  method CollectRequirements(bySet: map<set<string>, seq<string>>, g: SubsetGraph, ss: set<string>)
    returns (rqmts: set<string>)
    ensures rqmts == SetOf(ReqsAt(bySet, ss))
                     + (set v, r | v in Successors(g, ss) && r in ReqsAt(bySet, v) :: r)
  {
    var direct := SetOf(ReqsAt(bySet, ss));
    rqmts := direct;
    var succ := Successors(g, ss);
    var todo := succ;
    while todo != {}
      invariant todo <= succ
      invariant rqmts == direct + (set v, r | v in succ - todo && r in ReqsAt(bySet, v) :: r)
      decreases |todo|
    {
      var adj :| adj in todo;
      rqmts := rqmts + SetOf(ReqsAt(bySet, adj));
      todo := todo - {adj};
    }
  }

  /** The quantities recorded for the requirements in `rqmts` that have one. */
  method CollectQuantities(rqmts: set<string>, qtyOf: map<string, string>) returns (qset: set<string>)
    ensures qset == set r | r in rqmts && r in qtyOf :: qtyOf[r]
  {
    qset := {};
    var rest := rqmts;
    while rest != {}
      invariant rest <= rqmts
      invariant qset == set r | r in rqmts - rest && r in qtyOf :: qtyOf[r]
      decreases |rest|
    {
      var r :| r in rest;
      if r in qtyOf {
        qset := qset + {qtyOf[r]};
      }
      rest := rest - {r};
    }
  }

  /** One entry per quantity, with the sorted requirements of `rqmts` recorded for it. */
  method QuantityEntries(quantities: seq<string>, byQty: map<string, set<string>>, rqmts: set<string>)
    returns (qh: seq<QtyEntry>)
    ensures |qh| == |quantities|
    ensures forall j :: 0 <= j < |qh| ==>
      qh[j] == QtyEntry(quantities[j], SortedOf(QtyReqsAt(byQty, quantities[j]) * rqmts))
  {
    qh := [];
    for i := 0 to |quantities|
      invariant |qh| == i
      invariant forall j :: 0 <= j < i ==>
        qh[j] == QtyEntry(quantities[j], SortedOf(QtyReqsAt(byQty, quantities[j]) * rqmts))
    {
      var q := quantities[i];
      var reqsForQ := QtyReqsAt(byQty, q) * rqmts;
      qh := qh + [QtyEntry(q, SortedOf(reqsForQ))];
    }
  }

  /** `quantities_direct`: the quantities whose entry lists a direct requirement. */
  method DirectQuantityList(quantities: seq<string>, qh: seq<QtyEntry>, direct: set<string>)
    returns (qd: seq<string>)
    ensures qd == DirectQuantities(quantities, qh, direct)
  {
    qd := [];
    for i := 0 to |quantities|
      invariant qd == DirectQuantities(quantities[..i], qh, direct)
    {
      var q := quantities[i];
      assert quantities[..i + 1][..i] == quantities[..i];
      match Get(qh, q)
      case None =>
      case Some(reqs) =>
        if exists r :: r in reqs && r in direct {
          qd := qd + [q];
        }
    }
    assert quantities[..|quantities|] == quantities;
  }

  lemma AllReqsFromIndex(recs: seq<ReqBinding>, sets: seq<set<string>>,
                         bySet: map<set<string>, seq<string>>, g: SubsetGraph, ss: set<string>)
    requires sets == ScenarioSets(recs) && BySetIndexed(recs, bySet)
    requires Successors(g, ss) == set v | v in sets && v < ss
    ensures SetOf(ReqsAt(bySet, ss)) + (set v, r | v in Successors(g, ss) && r in ReqsAt(bySet, v) :: r)
            == AllReqs(recs, ss)
  {
  }

  lemma QuantitiesFromIndex(recs: seq<ReqBinding>, qtyOf: map<string, string>, rqmts: set<string>)
    requires QtyOfIndexed(recs, qtyOf)
    ensures (set r | r in rqmts && r in qtyOf :: qtyOf[r]) == QuantitiesOf(recs, rqmts)
  {
  }

  /** The body of the generator's last loop for one scenario set. */
  method BuildTest(ghost recs: seq<ReqBinding>, sets: seq<set<string>>,
                   bySet: map<set<string>, seq<string>>, byQty: map<string, set<string>>,
                   qtyOf: map<string, string>, g: SubsetGraph, k: nat,
                   digestOf: seq<string> -> string, uuidOf: nat -> string)
    returns (t: Test)
    requires IndexesOf(recs, sets, bySet, byQty, qtyOf)
    requires forall a, b :: (a, b) in g.edges <==> a in sets && b in sets && b < a
    requires k < |sets|
    ensures t == GeneratedTest(recs, k, digestOf, uuidOf)
  {
    var ss := sets[k];
    var direct := SetOf(ReqsAt(bySet, ss));
    SuccessorsAreSubsets(sets, g, ss);
    var rqmts := CollectRequirements(bySet, g, ss);
    AllReqsFromIndex(recs, sets, bySet, g, ss);
    var qset := CollectQuantities(rqmts, qtyOf);
    QuantitiesFromIndex(recs, qtyOf, rqmts);
    var quantities := SortedOf(qset);
    var entries := QuantityEntries(quantities, byQty, rqmts);
    assert entries == QuantityMap(recs, rqmts);
    var qh: Quantities := entries;
    assert Keys(qh) == quantities;
    var qd := DirectQuantityList(quantities, qh, direct);
    var config := SortedOf(ss);
    t := Test(None, Some(uuidOf(k)), Some(digestOf(config)), config, qh,
              Some(ReqsAt(bySet, ss)), Some(qd), None, None);
  }

  lemma GeneratedPointwise(recs: seq<ReqBinding>, tests: seq<Test>,
                           digestOf: seq<string> -> string, uuidOf: nat -> string)
    requires |tests| == |ScenarioSets(recs)|
    requires forall j :: 0 <= j < |tests| ==> tests[j] == GeneratedTest(recs, j, digestOf, uuidOf)
    ensures tests == Generated(recs, digestOf, uuidOf)
  {
  }

  /** The generator: one test per distinct scenario set, in first-seen order. */
  method GenerateTests(recs: seq<ReqBinding>, digestOf: seq<string> -> string,
                       uuidOf: nat -> string)
    returns (tests: seq<Test>)
    ensures tests == Generated(recs, digestOf, uuidOf)
  {
    var sets, bySet, byQty, qtyOf := IndexRequirements(recs);
    var g := BuildSubsetGraph(sets);
    tests := [];
    for k := 0 to |sets|
      invariant |tests| == k
      invariant forall j :: 0 <= j < k ==> tests[j] == GeneratedTest(recs, j, digestOf, uuidOf)
    {
      var t := BuildTest(recs, sets, bySet, byQty, qtyOf, g, k, digestOf, uuidOf);
      tests := tests + [t];
    }
    GeneratedPointwise(recs, tests, digestOf, uuidOf);
  }

  // ---------------------------------------------------------------------------
  // What the record-level specifications mean.

  lemma {:induction false} RecordSetsMembers(recs: seq<ReqBinding>)
    ensures forall ss :: ss in RecordSets(recs) <==>
      exists i :: 0 <= i < |recs| && Counted(recs[i]) && ScenarioSetOf(recs[i]) == ss
    decreases |recs|
  {
    if recs != [] {
      var p := recs[..|recs| - 1];
      var b := recs[|recs| - 1];
      assert recs == p + [b];
      RecordSetsMembers(p);
      forall ss
        ensures ss in RecordSets(recs) <==>
          exists i :: 0 <= i < |recs| && Counted(recs[i]) && ScenarioSetOf(recs[i]) == ss
      {
        if ss in RecordSets(p) {
          var i :| 0 <= i < |p| && Counted(p[i]) && ScenarioSetOf(p[i]) == ss;
          assert recs[i] == p[i];
        }
        if exists i :: 0 <= i < |recs| && Counted(recs[i]) && ScenarioSetOf(recs[i]) == ss {
          var i :| 0 <= i < |recs| && Counted(recs[i]) && ScenarioSetOf(recs[i]) == ss;
          if i < |p| {
            assert p[i] == recs[i];
          }
        }
      }
    }
  }

  lemma {:induction false} NamesWithMembers(recs: seq<ReqBinding>, ss: set<string>)
    ensures forall r :: r in NamesWith(recs, ss) <==>
      exists i :: 0 <= i < |recs| && Counted(recs[i]) && recs[i].reqName == Some(r)
                  && ScenarioSetOf(recs[i]) == ss
    decreases |recs|
  {
    if recs != [] {
      var p := recs[..|recs| - 1];
      var b := recs[|recs| - 1];
      assert recs == p + [b];
      NamesWithMembers(p, ss);
      forall r
        ensures r in NamesWith(recs, ss) <==>
          exists i :: 0 <= i < |recs| && Counted(recs[i]) && recs[i].reqName == Some(r)
                      && ScenarioSetOf(recs[i]) == ss
      {
        if r in NamesWith(p, ss) {
          var i :| 0 <= i < |p| && Counted(p[i]) && p[i].reqName == Some(r) && ScenarioSetOf(p[i]) == ss;
          assert recs[i] == p[i];
        }
        if exists i :: 0 <= i < |recs| && Counted(recs[i]) && recs[i].reqName == Some(r)
                       && ScenarioSetOf(recs[i]) == ss {
          var i :| 0 <= i < |recs| && Counted(recs[i]) && recs[i].reqName == Some(r)
                   && ScenarioSetOf(recs[i]) == ss;
          if i < |p| {
            assert p[i] == recs[i];
          }
        }
      }
    }
  }

  lemma {:induction false} ReqsWithQtyMembers(recs: seq<ReqBinding>, q: string)
    ensures forall r :: r in ReqsWithQty(recs, q) <==>
      exists i :: 0 <= i < |recs| && Counted(recs[i]) && recs[i].reqName == Some(r)
                  && recs[i].quaID == Some(q)
    decreases |recs|
  {
    if recs != [] {
      var p := recs[..|recs| - 1];
      var b := recs[|recs| - 1];
      assert recs == p + [b];
      ReqsWithQtyMembers(p, q);
      forall r
        ensures r in ReqsWithQty(recs, q) <==>
          exists i :: 0 <= i < |recs| && Counted(recs[i]) && recs[i].reqName == Some(r)
                      && recs[i].quaID == Some(q)
      {
        if r in ReqsWithQty(p, q) {
          var i :| 0 <= i < |p| && Counted(p[i]) && p[i].reqName == Some(r) && p[i].quaID == Some(q);
          assert recs[i] == p[i];
        }
        if exists i :: 0 <= i < |recs| && Counted(recs[i]) && recs[i].reqName == Some(r)
                       && recs[i].quaID == Some(q) {
          var i :| 0 <= i < |recs| && Counted(recs[i]) && recs[i].reqName == Some(r)
                   && recs[i].quaID == Some(q);
          if i < |p| {
            assert p[i] == recs[i];
          }
        }
      }
    }
  }

  /** The quantity index keeps the quantity of the last counted record naming a
      requirement, and nothing is kept for a requirement no counted record names. */
  lemma {:induction false} LastQtyIsLastRecord(recs: seq<ReqBinding>, r: string)
    ensures LastQty(recs, r).None? <==>
      forall i :: 0 <= i < |recs| && Counted(recs[i]) ==> recs[i].reqName != Some(r)
    ensures LastQty(recs, r).Some? ==>
      exists i :: 0 <= i < |recs| && Counted(recs[i]) && recs[i].reqName == Some(r)
                  && recs[i].quaID == LastQty(recs, r)
                  && forall j :: i < j < |recs| && Counted(recs[j]) ==> recs[j].reqName != Some(r)
    decreases |recs|
  {
    if recs != [] {
      var p := recs[..|recs| - 1];
      var b := recs[|recs| - 1];
      var n := |recs| - 1;
      assert recs == p + [b];
      LastQtyIsLastRecord(p, r);
      if Counted(b) && b.reqName.value == r {
        assert recs[n] == b;
      } else {
        assert forall i :: 0 <= i < |p| ==> recs[i] == p[i];
        if LastQty(p, r).Some? {
          var i :| 0 <= i < |p| && Counted(p[i]) && p[i].reqName == Some(r)
                   && p[i].quaID == LastQty(p, r)
                   && forall j :: i < j < |p| && Counted(p[j]) ==> p[j].reqName != Some(r);
          assert recs[i] == p[i];
          assert forall j :: i < j < |recs| && Counted(recs[j]) ==> recs[j].reqName != Some(r) by {
            forall j | i < j < |recs| && Counted(recs[j])
              ensures recs[j].reqName != Some(r)
            {
              if j < n {
                assert recs[j] == p[j];
              }
            }
          }
        }
      }
    }
  }

  lemma {:induction false} LastQtyRecorded(recs: seq<ReqBinding>, r: string)
    requires LastQty(recs, r).Some?
    ensures r in ReqsWithQty(recs, LastQty(recs, r).value)
    decreases |recs|
  {
    var p := recs[..|recs| - 1];
    var b := recs[|recs| - 1];
    if !(Counted(b) && b.reqName.value == r) {
      LastQtyRecorded(p, r);
    }
  }

  // ---------------------------------------------------------------------------
  // What the generated tests mean.

  /** The tests' scenario sets are exactly the distinct sets of the counted records,
      without repetition, in the order in which each first appears. */
  lemma ScenarioSetsMeaning(recs: seq<ReqBinding>)
    ensures forall ss :: ss in ScenarioSets(recs) <==>
      exists i :: 0 <= i < |recs| && Counted(recs[i]) && ScenarioSetOf(recs[i]) == ss
    ensures Distinct(ScenarioSets(recs))
    ensures forall i, j :: 0 <= i < j < |ScenarioSets(recs)| ==>
      FirstIndex(RecordSets(recs), ScenarioSets(recs)[i]) < FirstIndex(RecordSets(recs), ScenarioSets(recs)[j])
  {
    RecordSetsMembers(recs);
    DedupFirstSeen(RecordSets(recs));
    var sets := ScenarioSets(recs);
    forall ss | ss in RecordSets(recs)
      ensures ss in sets
    {
      var k :| 0 <= k < |RecordSets(recs)| && RecordSets(recs)[k] == ss;
    }
  }

  /** A requirement belongs to a scenario set's test exactly when some counted record
      names it with that set or with a set strictly inside it. */
  lemma AllReqsMeaning(recs: seq<ReqBinding>, ss: set<string>)
    ensures forall r :: r in AllReqs(recs, ss) <==>
      exists i :: 0 <= i < |recs| && Counted(recs[i]) && recs[i].reqName == Some(r)
                  && ScenarioSetOf(recs[i]) <= ss
  {
    ScenarioSetsMeaning(recs);
    NamesWithMembers(recs, ss);
    forall r
      ensures r in AllReqs(recs, ss) <==>
        exists i :: 0 <= i < |recs| && Counted(recs[i]) && recs[i].reqName == Some(r)
                    && ScenarioSetOf(recs[i]) <= ss
    {
      if r in AllReqs(recs, ss) {
        if r in DirectReqs(recs, ss) {
          var k :| 0 <= k < |DirectReqs(recs, ss)| && DirectReqs(recs, ss)[k] == r;
          assert r in NamesWith(recs, ss);
        } else {
          var v :| v in ScenarioSets(recs) && v < ss && r in DirectReqs(recs, v);
          var k :| 0 <= k < |DirectReqs(recs, v)| && DirectReqs(recs, v)[k] == r;
          NamesWithMembers(recs, v);
          assert r in NamesWith(recs, v);
        }
      }
      if exists i :: 0 <= i < |recs| && Counted(recs[i]) && recs[i].reqName == Some(r)
                     && ScenarioSetOf(recs[i]) <= ss {
        var i :| 0 <= i < |recs| && Counted(recs[i]) && recs[i].reqName == Some(r)
                 && ScenarioSetOf(recs[i]) <= ss;
        var v := ScenarioSetOf(recs[i]);
        NamesWithMembers(recs, v);
        assert r in NamesWith(recs, v);
        var k :| 0 <= k < |NamesWith(recs, v)| && NamesWith(recs, v)[k] == r;
        assert r in DirectReqs(recs, v);
        if v != ss {
          assert v in ScenarioSets(recs);
        }
      }
    }
  }

  /** Each entry of the quantity map is non-empty, sorted, and lists exactly the
      requirements of `reqs` recorded with its quantity. */
  lemma QuantityMapEntries(recs: seq<ReqBinding>, reqs: set<string>)
    ensures var qs := QuantityMap(recs, reqs);
      forall j :: 0 <= j < |qs| ==>
        && StrictlySorted(qs[j].requirements)
        && qs[j].requirements != []
        && forall r :: r in qs[j].requirements <==> r in reqs && r in ReqsWithQty(recs, qs[j].qty)
  {
    var qs := QuantityMap(recs, reqs);
    var keys := SortedOf(QuantitiesOf(recs, reqs));
    assert Keys(qs) == keys;
    forall j | 0 <= j < |qs|
      ensures qs[j].requirements != []
    {
      var q := qs[j].qty;
      assert q == Keys(qs)[j];
      assert q in QuantitiesOf(recs, reqs);
      var r :| r in reqs && LastQty(recs, r).Some? && LastQty(recs, r).value == q;
      LastQtyRecorded(recs, r);
      assert r in qs[j].requirements;
    }
  }

  /** Every requirement with a recorded quantity is listed under its last quantity. */
  lemma QuantityMapCovers(recs: seq<ReqBinding>, reqs: set<string>, r: string)
    requires r in reqs && LastQty(recs, r).Some?
    ensures var qs := QuantityMap(recs, reqs);
      exists j :: 0 <= j < |qs| && Some(qs[j].qty) == LastQty(recs, r) && r in qs[j].requirements
  {
    var qs := QuantityMap(recs, reqs);
    var keys := Keys(qs);
    var q := LastQty(recs, r).value;
    assert q in QuantitiesOf(recs, reqs);
    var j :| 0 <= j < |keys| && keys[j] == q;
    LastQtyRecorded(recs, r);
    assert r in qs[j].requirements;
  }

  lemma QuantityMapCoversAll(recs: seq<ReqBinding>, reqs: set<string>)
    requires forall r :: r in reqs ==> LastQty(recs, r).Some?
    ensures var qs := QuantityMap(recs, reqs);
      forall r :: r in reqs ==>
        exists j :: 0 <= j < |qs| && Some(qs[j].qty) == LastQty(recs, r) && r in qs[j].requirements
  {
    forall r | r in reqs
      ensures var qs := QuantityMap(recs, reqs);
        exists j :: 0 <= j < |qs| && Some(qs[j].qty) == LastQty(recs, r) && r in qs[j].requirements
    {
      QuantityMapCovers(recs, reqs, r);
    }
  }

  /** Every requirement of a scenario set has a recorded quantity. */
  lemma AllReqsHaveQuantities(recs: seq<ReqBinding>, ss: set<string>)
    ensures forall r :: r in AllReqs(recs, ss) ==> LastQty(recs, r).Some?
  {
    AllReqsMeaning(recs, ss);
    forall r | r in AllReqs(recs, ss)
      ensures LastQty(recs, r).Some?
    {
      LastQtyIsLastRecord(recs, r);
    }
  }

  /** The `quantities` of a test: ascending keys, which are the last recorded quantities
      of its requirements; each entry non-empty, sorted, and listing exactly the test's
      requirements recorded with that quantity; every requirement of the test listed
      under its last recorded quantity. */
  lemma GeneratedQuantities(recs: seq<ReqBinding>, k: nat, digestOf: seq<string> -> string,
                            uuidOf: nat -> string)
    requires k < |ScenarioSets(recs)|
    ensures
      var qs := GeneratedTest(recs, k, digestOf, uuidOf).quantities;
      var reqs := AllReqs(recs, ScenarioSets(recs)[k]);
      && StrictlySorted(Keys(qs))
      && (forall q :: q in Keys(qs) <==> exists r :: r in reqs && LastQty(recs, r) == Some(q))
      && (forall j :: 0 <= j < |qs| ==>
            && StrictlySorted(qs[j].requirements)
            && qs[j].requirements != []
            && forall r :: r in qs[j].requirements <==> r in reqs && r in ReqsWithQty(recs, qs[j].qty))
      && (forall r :: r in reqs ==>
            exists j :: 0 <= j < |qs| && Some(qs[j].qty) == LastQty(recs, r) && r in qs[j].requirements)
  {
    var ss := ScenarioSets(recs)[k];
    var reqs := AllReqs(recs, ss);
    assert GeneratedTest(recs, k, digestOf, uuidOf).quantities == QuantityMap(recs, reqs);
    QuantityMapEntries(recs, reqs);
    AllReqsHaveQuantities(recs, ss);
    QuantityMapCoversAll(recs, reqs);
  }

  /** A subsequence of an ascending list, the membership of `quantities_direct`. */
  lemma {:induction false} DirectQuantitiesMembers(keys: seq<string>, qh: seq<QtyEntry>, direct: set<string>)
    ensures forall q :: q in DirectQuantities(keys, qh, direct) <==>
      q in keys && Get(qh, q).Some? && exists r :: r in Get(qh, q).value && r in direct
    ensures StrictlySorted(keys) ==> StrictlySorted(DirectQuantities(keys, qh, direct))
    decreases |keys|
  {
    if keys != [] {
      var p := keys[..|keys| - 1];
      var q := keys[|keys| - 1];
      assert keys == p + [q];
      DirectQuantitiesMembers(p, qh, direct);
      if StrictlySorted(keys) {
        assert StrictlySorted(p);
        var d := DirectQuantities(p, qh, direct);
        forall x | x in d
          ensures StrLt(x, q)
        {
          var i :| 0 <= i < |p| && p[i] == x;
          assert keys[i] == x;
        }
      }
    }
  }

  lemma DirectEntry(recs: seq<ReqBinding>, reqs: set<string>, direct: set<string>, q: string)
    requires direct <= reqs
    requires q in Keys(QuantityMap(recs, reqs))
    ensures var qs := QuantityMap(recs, reqs);
      Get(qs, q).Some? &&
      ((exists r :: r in Get(qs, q).value && r in direct) <==>
       (exists r :: r in direct && r in ReqsWithQty(recs, q)))
  {
    var qs := QuantityMap(recs, reqs);
    var j :| 0 <= j < |qs| && Keys(qs)[j] == q;
    GetAt(qs, j);
    if exists r :: r in direct && r in ReqsWithQty(recs, q) {
      var r :| r in direct && r in ReqsWithQty(recs, q);
      assert r in qs[j].requirements;
    }
  }

  lemma DirectQuantitiesOfMap(recs: seq<ReqBinding>, reqs: set<string>, direct: set<string>)
    requires direct <= reqs
    ensures var qs := QuantityMap(recs, reqs);
      var qd := DirectQuantities(Keys(qs), qs, direct);
      && StrictlySorted(qd)
      && forall q :: q in qd <==> q in Keys(qs) && exists r :: r in direct && r in ReqsWithQty(recs, q)
  {
    var qs := QuantityMap(recs, reqs);
    DirectQuantitiesMembers(Keys(qs), qs, direct);
    forall q | q in Keys(qs)
      ensures (exists r :: r in Get(qs, q).value && r in direct) <==>
              (exists r :: r in direct && r in ReqsWithQty(recs, q))
    {
      DirectEntry(recs, reqs, direct, q);
    }
  }

  /** `quantities_direct`: in ascending order, the quantities of the test that some
      direct requirement of its scenario set was recorded with. */
  lemma GeneratedDirectQuantities(recs: seq<ReqBinding>, k: nat, digestOf: seq<string> -> string,
                                  uuidOf: nat -> string)
    requires k < |ScenarioSets(recs)|
    ensures
      var t := GeneratedTest(recs, k, digestOf, uuidOf);
      var direct := DirectReqs(recs, ScenarioSets(recs)[k]);
      && t.quantitiesDirect.Some?
      && StrictlySorted(t.quantitiesDirect.value)
      && forall q :: q in t.quantitiesDirect.value <==>
           q in Keys(t.quantities) && exists r :: r in direct && r in ReqsWithQty(recs, q)
  {
    var ss := ScenarioSets(recs)[k];
    var direct := DirectReqs(recs, ss);
    var reqs := AllReqs(recs, ss);
    var qs := QuantityMap(recs, reqs);
    var t := GeneratedTest(recs, k, digestOf, uuidOf);
    assert t.quantities == qs;
    assert t.quantitiesDirect == Some(DirectQuantities(Keys(qs), qs, SetOf(direct)));
    DirectQuantitiesOfMap(recs, reqs, SetOf(direct));
  }

  /** The rest of a test: its scenarios are its set, ascending; the digest is taken of
      that list, so equal sets get equal digests; its direct requirements are the
      requirements recorded with exactly that set, once each, in first-seen order. */
  lemma GeneratedScenarios(recs: seq<ReqBinding>, k: nat, digestOf: seq<string> -> string,
                           uuidOf: nat -> string)
    requires k < |ScenarioSets(recs)|
    ensures
      var t := GeneratedTest(recs, k, digestOf, uuidOf);
      var ss := ScenarioSets(recs)[k];
      && StrictlySorted(t.scenarios)
      && (forall x :: x in t.scenarios <==> x in ss)
      && t.configDigest == Some(digestOf(t.scenarios))
      && t.uuid == Some(uuidOf(k))
      && t.requirementsDirect.Some?
      && Distinct(t.requirementsDirect.value)
      && (forall r :: r in t.requirementsDirect.value <==>
            exists i :: 0 <= i < |recs| && Counted(recs[i]) && recs[i].reqName == Some(r)
                        && ScenarioSetOf(recs[i]) == ss)
  {
    var ss := ScenarioSets(recs)[k];
    NamesWithMembers(recs, ss);
    var d := DirectReqs(recs, ss);
    forall r | r in NamesWith(recs, ss)
      ensures r in d
    {
      var i :| 0 <= i < |NamesWith(recs, ss)| && NamesWith(recs, ss)[i] == r;
    }
  }

  lemma SkippedKeepsQuantityMap(recs: seq<ReqBinding>, b: ReqBinding, reqs: set<string>)
    requires !Counted(b)
    ensures QuantityMap(recs + [b], reqs) == QuantityMap(recs, reqs)
  {
    ExtendSkipped(recs, b);
    assert QuantitiesOf(recs + [b], reqs) == QuantitiesOf(recs, reqs);
  }

  lemma SkippedKeepsAllReqs(recs: seq<ReqBinding>, b: ReqBinding, ss: set<string>)
    requires !Counted(b)
    ensures AllReqs(recs + [b], ss) == AllReqs(recs, ss)
  {
    ExtendSkipped(recs, b);
    assert ScenarioSets(recs + [b]) == ScenarioSets(recs);
    forall v
      ensures DirectReqs(recs + [b], v) == DirectReqs(recs, v)
    {
    }
  }

  lemma SkippedKeepsTest(recs: seq<ReqBinding>, b: ReqBinding, k: nat,
                         digestOf: seq<string> -> string, uuidOf: nat -> string)
    requires !Counted(b) && k < |ScenarioSets(recs)|
    ensures k < |ScenarioSets(recs + [b])|
    ensures GeneratedTest(recs + [b], k, digestOf, uuidOf) == GeneratedTest(recs, k, digestOf, uuidOf)
  {
    ExtendSkipped(recs, b);
    var ss := ScenarioSets(recs)[k];
    SkippedKeepsAllReqs(recs, b, ss);
    SkippedKeepsQuantityMap(recs, b, AllReqs(recs, ss));
    assert DirectReqs(recs + [b], ss) == DirectReqs(recs, ss);
  }

  /** A record without a requirement name or quantity changes nothing. */
  lemma SkippedRecordIsInert(recs: seq<ReqBinding>, b: ReqBinding, digestOf: seq<string> -> string,
                             uuidOf: nat -> string)
    requires !Counted(b)
    ensures Generated(recs + [b], digestOf, uuidOf) == Generated(recs, digestOf, uuidOf)
  {
    ExtendSkipped(recs, b);
    assert |ScenarioSets(recs + [b])| == |ScenarioSets(recs)|;
    forall k | 0 <= k < |ScenarioSets(recs)|
      ensures GeneratedTest(recs + [b], k, digestOf, uuidOf) == GeneratedTest(recs, k, digestOf, uuidOf)
    {
      SkippedKeepsTest(recs, b, k, digestOf, uuidOf);
    }
  }
}
