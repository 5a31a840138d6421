# Test-configuration optimisation, modelled in Dafny

The system plans the tests of a test facility. The plan is built from the results of
SPARQL queries over a requirements model, and it runs in four stages.

1. **Generation** (`generate_tests`) reads requirement records. Each record has a
   requirement name, a quantity and a comma-separated scenario list. The stage emits one
   test configuration per distinct scenario set, in order of first appearance. A test
   carries the requirements recorded for its own set, plus those of every known set
   strictly contained in it. It also carries the quantities those requirements measure.
2. **Pruning** (`prune_tests`) takes the "sufficient configuration" records. A
   requirement listed there is kept in a test only when the test's scenario set is one of
   its sufficient sets. Quantities that lose all their requirements are dropped, and so
   are tests that lose all their quantities.
3. **Ordering** (`optimize_test_order`) puts the empty configuration in front. It fills a
   lower-triangular matrix with the cost of switching from one configuration to
   another: the summed cost of the scenarios to apply and to retract. A 2-opt solver
   (`TSP2Opt`) improves a closed tour through the matrix. The tour is rotated to start
   at the empty configuration. The tests are emitted in tour order, each annotated with
   its `apply` and `retract` lists.
4. **Costing** (`calculate_costs`) sums those apply and retract costs, plus the final
   retraction of the last configuration.

The strategy page (`teststrategy.py`) builds the cost tables from the query results. It
annotates the unoptimised (pruned) order the same way and renumbers the optimised tests
by their position in that order. The plotting module derives two tables from an
annotated list: a scenario-by-test presence matrix and per-test cost columns. The
utilities turn a list of result-file paths into a directory tree and expand a selection
of tree nodes into a unique list of files. `json_to_csv` turns a SPARQL JSON result into
CSV rows.

The model has one Dafny module per source file or concern:

- `Generate`, `Prune`, `OptimizeOrder` with `TwoOpt`, `CostCalc`, `Strategy`, `Plots`,
  `FileTree` and `JsonCsv` follow the source files.
- `TestModel`, `Costs`, `Strings`, `Seqs` and `Wrappers` hold the shared test record, the
  cost lookup with its default of 0, Python's `sorted`/`split`/`str(int)` and
  de-duplication, and `Option`/`Result`.
- `Pipeline` proves how the stages fit together.

A test dictionary is the datatype `TestModel.Test`. A key that may be absent is an
`Option` field. The `quantities` dict is an insertion-ordered list with distinct keys.
Lists that the source mutates in place are classes: the pruned test list
(`TestModel.TestList`), the 2-opt solver state (`TwoOpt.TSP2Opt`, with the tour in an
`array`) and the written CSV file (`JsonCsv.CsvFile`). The presence matrix is an
`array2`. Python exceptions are `Failure(KeyError)`, `Failure(IndexError)`,
`Failure(ValueError)` and `Failure(Exception(msg))`, at the statements that raise them.

## Model

| member | source | states |
|---|---|---|
| Generate.IndexRequirements | testoptimizationsrc/src/generate_tests.py:26-47 | after the record loop, the ordered list of scenario sets, the requirements per set, the requirements per quantity and the last quantity per requirement all agree with a reference reading of the record list; records with a missing name or quantity are skipped |
| Generate.ExtendCounted | testoptimizationsrc/src/generate_tests.py:38-47 | one counted record appends its set, appends its name under its set, adds its name under its quantity and sets its quantity as the name's latest |
| Generate.ExtendSkipped | testoptimizationsrc/src/generate_tests.py:30-31 | a skipped record changes none of the four indexes |
| Generate.ExtendSets | testoptimizationsrc/src/generate_tests.py:38-40 | appending a set only when not yet seen keeps the list equal to the de-duplicated record sets |
| Generate.ExtendBySet | testoptimizationsrc/src/generate_tests.py:42-44 | appending a name to its set's list only when absent keeps each list equal to the de-duplicated names of that set |
| Generate.ExtendByQty | testoptimizationsrc/src/generate_tests.py:46 | adding the name to its quantity's set keeps each set equal to the names recorded with that quantity |
| Generate.ExtendQtyOf | testoptimizationsrc/src/generate_tests.py:47 | overwriting the name's quantity keeps the map equal to the last quantity recorded per name |
| Generate.IndexesSkip | testoptimizationsrc/src/generate_tests.py:30-31 | a skipped record preserves the loop invariant |
| Generate.BuildSubsetGraph | testoptimizationsrc/src/generate_tests.py:50-57 | one node per scenario set, and an edge u to v exactly when v is a strict subset of u |
| Generate.SuccessorsAreSubsets | testoptimizationsrc/src/generate_tests.py:54-57 | the successors of a set are exactly the listed sets strictly contained in it |
| Generate.CollectRequirements | testoptimizationsrc/src/generate_tests.py:62-66 | the collected requirements are those of the set itself together with those of every successor |
| Generate.AllReqsFromIndex | testoptimizationsrc/src/generate_tests.py:62-66 | requirements collected through the index and the graph equal the reference set from the records |
| Generate.CollectQuantities | testoptimizationsrc/src/generate_tests.py:68-71 | the quantities are those recorded for collected requirements that have a quantity |
| Generate.QuantitiesFromIndex | testoptimizationsrc/src/generate_tests.py:68-71 | the quantities read through the index equal the last recorded quantities of the requirements |
| Generate.QuantityMap | testoptimizationsrc/src/generate_tests.py:72-77 | the keys of `quantities` are the collected quantities in ascending order |
| Generate.QuantityEntries | testoptimizationsrc/src/generate_tests.py:74-77 | one entry per quantity, in order, listing sorted the collected requirements recorded with that quantity |
| Generate.DirectQuantityList | testoptimizationsrc/src/generate_tests.py:79-83 | the list is the quantities, in key order, whose entry holds a direct requirement |
| Generate.BuildTest | testoptimizationsrc/src/generate_tests.py:61-99 | the test built for the k-th set is the reference test for that set |
| Generate.GeneratedPointwise | testoptimizationsrc/src/generate_tests.py:60-99 | a list holding the reference test at every position is the reference output |
| Generate.GenerateTests | testoptimizationsrc/src/generate_tests.py:13-101 | the output is one reference test per distinct scenario set, in order of first appearance |
| Generate.RecordSetsMembers | testoptimizationsrc/src/generate_tests.py:34-40 | a set is recorded iff some counted record splits to it |
| Generate.NamesWithMembers | testoptimizationsrc/src/generate_tests.py:42-44 | a name is listed under a set iff some counted record pairs it with that set |
| Generate.ReqsWithQtyMembers | testoptimizationsrc/src/generate_tests.py:46 | a name is listed under a quantity iff some counted record pairs it with that quantity |
| Generate.LastQtyIsLastRecord | testoptimizationsrc/src/generate_tests.py:47 | a requirement's quantity is that of the last counted record naming it, and it has none iff no counted record names it |
| Generate.LastQtyRecorded | testoptimizationsrc/src/generate_tests.py:46-47 | a requirement is listed under its own latest quantity |
| Generate.ScenarioSetsMeaning | testoptimizationsrc/src/generate_tests.py:38-40 | the tests' sets are exactly the counted records' sets, each once, ordered by first appearance |
| Generate.AllReqsMeaning | testoptimizationsrc/src/generate_tests.py:62-66 | a requirement belongs to a test iff some counted record names it with a scenario set contained in the test's set |
| Generate.QuantityMapEntries | testoptimizationsrc/src/generate_tests.py:74-77 | every entry lists, sorted and non-empty, exactly the test's requirements recorded with its quantity |
| Generate.QuantityMapCovers | testoptimizationsrc/src/generate_tests.py:68-77 | a requirement with a quantity appears under that quantity |
| Generate.QuantityMapCoversAll | testoptimizationsrc/src/generate_tests.py:68-77 | every requirement of the test appears under its latest quantity |
| Generate.AllReqsHaveQuantities | testoptimizationsrc/src/generate_tests.py:68-71 | every collected requirement has a quantity, so the `r in qty_by_rqt` guard never drops one |
| Generate.GeneratedQuantities | testoptimizationsrc/src/generate_tests.py:68-77 | a generated test's quantity keys are sorted and are the latest quantities of its requirements; each entry is sorted, non-empty and exact; every requirement is covered |
| Generate.DirectQuantitiesMembers | testoptimizationsrc/src/generate_tests.py:79-83 | a quantity is listed iff it is a key whose entry names a direct requirement; sorted keys give a sorted list |
| Generate.DirectEntry | testoptimizationsrc/src/generate_tests.py:81-82 | an entry names a direct requirement iff some direct requirement is recorded with that quantity |
| Generate.DirectQuantitiesOfMap | testoptimizationsrc/src/generate_tests.py:79-83 | `quantities_direct` is sorted and holds exactly the keys measured by some direct requirement |
| Generate.GeneratedDirectQuantities | testoptimizationsrc/src/generate_tests.py:79-97 | a generated test's `quantities_direct` is sorted and holds exactly the quantities measured by its direct requirements |
| Generate.GeneratedScenarios | testoptimizationsrc/src/generate_tests.py:85-98 | `scenarios` is the set sorted, the digest is taken of that list, the uuid is the k-th fresh one, and `requirements_direct` is distinct and names exactly the records of that set |
| Generate.SkippedKeepsQuantityMap | testoptimizationsrc/src/generate_tests.py:30-31 | a skipped record does not change any quantities dict |
| Generate.SkippedKeepsAllReqs | testoptimizationsrc/src/generate_tests.py:30-31 | a skipped record does not change any test's requirements |
| Generate.SkippedKeepsTest | testoptimizationsrc/src/generate_tests.py:30-31 | a skipped record does not change any generated test |
| Generate.SkippedRecordIsInert | testoptimizationsrc/src/generate_tests.py:30-31 | appending a record with a missing name or quantity leaves the whole output unchanged |
| Prune.BuildSufficients | testoptimizationsrc/src/prune_tests.py:29-33 | the map built from the sufficient-configuration records is the reference map |
| Prune.SufficientsOf | testoptimizationsrc/src/prune_tests.py:29-33 | the reference map: each named requirement maps to the one-element set holding the scenario set of its last record |
| Prune.SufficientsMeaning | testoptimizationsrc/src/prune_tests.py:29-33 | a requirement has an entry iff some record names it, and its entry is the single scenario set of the last such record |
| Prune.FilterRequirements | testoptimizationsrc/src/prune_tests.py:46-56 | the kept requirements are the reference filter of the list |
| Prune.KeptReqsMeaning | testoptimizationsrc/src/prune_tests.py:46-56 | a requirement is kept iff it was listed and is either unconstrained or sufficient for this configuration; the list never grows, stays sorted, and filtering twice changes nothing |
| Prune.KeptReqsMembers | testoptimizationsrc/src/prune_tests.py:46-56 | the membership and length half of the above |
| Prune.KeptReqsSorted | testoptimizationsrc/src/prune_tests.py:46-56 | filtering a strictly sorted list keeps it strictly sorted |
| Prune.KeptReqsIdempotent | testoptimizationsrc/src/prune_tests.py:46-56 | filtering twice equals filtering once |
| Prune.KeptAll | testoptimizationsrc/src/prune_tests.py:46-56 | when every requirement is kept, the list is unchanged |
| Prune.RevisedEntries | testoptimizationsrc/src/prune_tests.py:42-56 | revising keeps every quantity key in place |
| Prune.ReviseQuantities | testoptimizationsrc/src/prune_tests.py:40-60 | every entry's list is filtered, and the keys whose list became empty are collected in order |
| Prune.DeleteQuantities | testoptimizationsrc/src/prune_tests.py:61-62 | deleting the collected keys leaves the entries whose key was not collected |
| Prune.DeleteEmptyKeys | testoptimizationsrc/src/prune_tests.py:57-62 | with distinct keys, deleting the keys of the empty entries leaves exactly the non-empty entries |
| Prune.WithoutKeysSubsequence | testoptimizationsrc/src/prune_tests.py:61-62 | an entry survives deletion iff it was present and its key was not deleted; keys stay distinct |
| Prune.NonEmptyEntriesSubsequence | testoptimizationsrc/src/prune_tests.py:57-62 | an entry survives iff it was present and non-empty; keys stay distinct |
| Prune.WithoutKeysUnion | testoptimizationsrc/src/prune_tests.py:61-62 | deleting one set of keys after another deletes their union |
| Prune.WithoutAbsentKey | testoptimizationsrc/src/prune_tests.py:61-62 | deleting a key that is not there changes nothing |
| Prune.EmptyKeysAreKeys | testoptimizationsrc/src/prune_tests.py:57-60 | every collected key is a key of the dict |
| Prune.PruneQuantities | testoptimizationsrc/src/prune_tests.py:40-62 | the pruned `quantities` dict is the reference pruning of the test's dict |
| Prune.PruneEntriesMeaning | testoptimizationsrc/src/prune_tests.py:40-62 | an entry remains iff it is some original entry with its list filtered and that list is non-empty |
| Prune.PruneAll | testoptimizationsrc/src/prune_tests.py:38-62 | every test is pruned in place and the list keeps its length |
| Prune.PruneTest | testoptimizationsrc/src/prune_tests.py:40-62 | one test with its `quantities` pruned for its own scenario set; every other field kept |
| Prune.Pruned | testoptimizationsrc/src/prune_tests.py:22-71 | the reference output: every test pruned, then the tests without a quantity left out, in order |
| Prune.MissingUuid | testoptimizationsrc/src/prune_tests.py:39 | the index of the first test without a uuid, or the length when all have one |
| Prune.MissingUuidAt | testoptimizationsrc/src/prune_tests.py:39 | a test without a uuid after tests that all have one is that first index |
| Prune.PartlyPruned | testoptimizationsrc/src/prune_tests.py:38-62 | a list pruned up to `i` and untouched after is the pruned prefix followed by the original suffix |
| Prune.PruneEach | testoptimizationsrc/src/prune_tests.py:38-65 | the loop succeeds iff every test has a uuid; it prunes every test in place and collects the emptied tests in order; otherwise KeyError, with the tests before the first uuid-less one pruned and the rest as they were |
| Prune.EmptiesOfSnoc | testoptimizationsrc/src/prune_tests.py:64-65 | a test is collected for dropping exactly when its `quantities` is empty |
| Prune.EmptiesAreEmpty | testoptimizationsrc/src/prune_tests.py:64-65 | every collected test has no quantities |
| Prune.RemoveNextEmpty | testoptimizationsrc/src/prune_tests.py:67-69 | the next collected test is still in the list, and `list.remove` of it drops one more emptied test |
| Prune.RemoveFirst | testoptimizationsrc/src/prune_tests.py:69 | `list.remove(x)`: the list with the first element equal to `x` taken out |
| Prune.DropAllEmpties | testoptimizationsrc/src/prune_tests.py:67-69 | removing every collected test leaves exactly the tests that still have a quantity |
| Prune.DropNoEmpties | testoptimizationsrc/src/prune_tests.py:67-69 | removing nothing leaves the list |
| Prune.RemoveDropped | testoptimizationsrc/src/prune_tests.py:67-69 | the list now holds, in order, the tests that still have a quantity |
| Prune.PruneTests | testoptimizationsrc/src/prune_tests.py:22-71 | succeeds iff every test has a uuid, and then returns the same list object holding the pruned, non-empty tests; otherwise KeyError with the partly pruned list |
| Prune.PrunedMeaning | testoptimizationsrc/src/prune_tests.py:22-71 | the output is never longer; a test is in it iff it is the pruning of some input test and has a quantity; every requirement left in it is kept for its configuration |
| Prune.NonEmptyTestsSubsequence | testoptimizationsrc/src/prune_tests.py:64-69 | a test survives iff it was present and has a quantity |
| Prune.NonEmptyTestsInOrder | testoptimizationsrc/src/prune_tests.py:64-69 | the surviving tests sit at strictly ascending positions of the list, so they keep their relative order, and every test with a quantity is among them |
| Prune.PrunedInOrder | testoptimizationsrc/src/prune_tests.py:38-71 | the k-th surviving test is the pruning of the input test at the k-th of a strictly ascending list of positions, and every input test whose pruning keeps a quantity is among them |
| Prune.NonEmptyEntriesAll | testoptimizationsrc/src/prune_tests.py:57-62 | when no entry is empty nothing is deleted |
| Prune.NonEmptyTestsAll | testoptimizationsrc/src/prune_tests.py:64-69 | when no test is empty nothing is removed |
| Prune.PruneKeepsSufficientTest | testoptimizationsrc/src/prune_tests.py:40-62 | a test whose every requirement is kept and whose entries are non-empty is unchanged |
| Prune.PruneIdempotent | testoptimizationsrc/src/prune_tests.py:22-71 | pruning the pruned list again changes nothing |
| OptimizeOrder.SwitchCostSymmetric | testoptimizationsrc/src/optimize_test_order.py:95-111 | switching from a to b costs the same as from b to a |
| OptimizeOrder.SwitchCostSelf | testoptimizationsrc/src/optimize_test_order.py:95-111 | staying in a configuration costs nothing |
| OptimizeOrder.SwitchCostSplit | testoptimizationsrc/src/optimize_test_order.py:95-111 | a switch costs the scenarios to apply plus the scenarios to retract |
| OptimizeOrder.SwitchCost | testoptimizationsrc/src/optimize_test_order.py:102-107 | the cost of the scenarios in exactly one of the two configurations, each counted once |
| OptimizeOrder.MakeWeights | testoptimizationsrc/src/optimize_test_order.py:95-111 | row i has i+1 entries, and entry j is the switch cost between configurations i and j |
| OptimizeOrder.WeightMatrixDistance | testoptimizationsrc/src/optimize_test_order.py:39-44 | `distance` on that matrix is the switch cost in either direction and is symmetric |
| OptimizeOrder.ObservationCostAppend | testoptimizationsrc/src/optimize_test_order.py:142-145 | the observation cost of two lists is the sum of their costs |
| OptimizeOrder.ObservationCostOfOne | testoptimizationsrc/src/optimize_test_order.py:142-145 | one test costs the observation costs of its distinct quantity keys |
| OptimizeOrder.ObservationCostWithEmpty | testoptimizationsrc/src/optimize_test_order.py:136-145 | the inserted empty configuration adds no observation cost |
| OptimizeOrder.ObservationCost | testoptimizationsrc/src/optimize_test_order.py:142-145 | per test, the summed observation costs of its quantity keys (0 for an unknown quantity), summed over the tests |
| OptimizeOrder.FindStart | testoptimizationsrc/src/optimize_test_order.py:163-171 | returns the first tour position whose test has id 0; KeyError when a test without an id comes first; ValueError when none has id 0 |
| OptimizeOrder.Rotate | testoptimizationsrc/src/optimize_test_order.py:173-176 | the rotated tour starts at the chosen city, is the cyclic shift of the tour and is a permutation of it |
| OptimizeOrder.Transition | testoptimizationsrc/src/optimize_test_order.py:185-202 | the emitted test has the given id, its sorted scenarios, the sorted scenarios to apply (new ones) and to retract (dropped ones), and every other field of the next test |
| OptimizeOrder.EmitTransitions | testoptimizationsrc/src/optimize_test_order.py:179-204 | one emitted test per consecutive pair of the rotated order, numbered from 1 |
| OptimizeOrder.WithEmpty | testoptimizationsrc/src/optimize_test_order.py:136 | the empty configuration is put in front of the pruned tests |
| OptimizeOrder.EmitInTourOrder | testoptimizationsrc/src/optimize_test_order.py:179-204 | one emitted test per step of the tour, from city `tour[k]` to city `tour[k+1]` |
| OptimizeOrder.Run | testoptimizationsrc/src/optimize_test_order.py:113-212 | fails with KeyError iff a cost table is missing; otherwise the matrix is the switch-cost matrix and the order is a tour from the empty configuration; the reported cost is its cycle length and never exceeds the unoptimised order's; with the solver on, the order is 2-opt locally optimal; the observation cost and emitted tests are as above |
| TwoOpt.DistSymmetric | testoptimizationsrc/src/optimize_test_order.py:39-44 | `distance(a, b) == distance(b, a)` |
| TwoOpt.Dist | testoptimizationsrc/src/optimize_test_order.py:39-44 | `distance(a, b)`: the weight stored in the row of the larger city |
| TwoOpt.NextIsMod | testoptimizationsrc/src/optimize_test_order.py:31-37 | the successor used for the closing edge is `(k + 1) % n` |
| TwoOpt.Edges | testoptimizationsrc/src/optimize_test_order.py:31-37 | edge k of a tour is the distance from city k to the next city, wrapping round |
| TwoOpt.ReverseSegment | testoptimizationsrc/src/optimize_test_order.py:46-52 | positions lo..hi are reversed and every other position is unchanged |
| TwoOpt.Identity | testoptimizationsrc/src/optimize_test_order.py:24-29 | the initial tour 0..n-1 is a tour |
| TwoOpt.ReverseSegmentIsTour | testoptimizationsrc/src/optimize_test_order.py:46-52 | reversing a segment that does not include position 0 keeps a tour a tour |
| TwoOpt.SumReverse | testoptimizationsrc/src/optimize_test_order.py:74-78 | reversing edges keeps their sum |
| TwoOpt.EdgesAfterMove | testoptimizationsrc/src/optimize_test_order.py:66-78 | after reversing `tour[i+1..j]` the edge list is the old one with the two cut edges replaced and the inner edges reversed |
| TwoOpt.SumMovedEdges | testoptimizationsrc/src/optimize_test_order.py:66-78 | the new cycle length splits into the untouched edges plus the two new edges |
| TwoOpt.TwoOptMove | testoptimizationsrc/src/optimize_test_order.py:66-78 | reversing `tour[i+1..j]` changes the cycle length by exactly the source's four-distance delta |
| TwoOpt.MoveKeepsTour | testoptimizationsrc/src/optimize_test_order.py:66-78 | the move keeps a tour a tour and changes its length by the delta |
| TwoOpt.NoGainNextRow | testoptimizationsrc/src/optimize_test_order.py:58-72 | a full row of non-improving pairs extends the no-improvement region by one row |
| TwoOpt.NoGainEverywhere | testoptimizationsrc/src/optimize_test_order.py:58-72 | no improving pair in any row means the tour is 2-opt locally optimal |
| TwoOpt.TSP2Opt.constructor | testoptimizationsrc/src/optimize_test_order.py:24-29 | the solver starts with the identity tour and a cost equal to its cycle length |
| TwoOpt.TSP2Opt.CalculateInitialCost | testoptimizationsrc/src/optimize_test_order.py:31-37 | returns the closed-tour length of the current tour |
| TwoOpt.TSP2Opt.SwapEdges | testoptimizationsrc/src/optimize_test_order.py:46-52 | the array now holds the tour with positions i+1..j reversed in place |
| TwoOpt.TSP2Opt.MoveDelta | testoptimizationsrc/src/optimize_test_order.py:66-72 | the computed delta is the change in cycle length the move would make |
| TwoOpt.TSP2Opt.ApplyMove | testoptimizationsrc/src/optimize_test_order.py:74-78 | the tour is reversed in place and the stored cost stays equal to its cycle length |
| TwoOpt.TSP2Opt.TryMove | testoptimizationsrc/src/optimize_test_order.py:66-78 | an improving move is applied and lowers the cost; otherwise nothing changes and the pair is non-improving |
| TwoOpt.TSP2Opt.ImproveRow | testoptimizationsrc/src/optimize_test_order.py:58-78 | one sweep over j never raises the cost; when nothing improved, no pair in row i improves |
| TwoOpt.TSP2Opt.Optimize | testoptimizationsrc/src/optimize_test_order.py:54-79 | the loop ends with a 2-opt locally optimal tour whose stored cost is its length and no higher than before |
| CostCalc.ApplyCostAppend | testoptimizationsrc/src/costcalc2.py:29-37 | the apply cost of two lists is the sum of their costs |
| CostCalc.RetractCostAppend | testoptimizationsrc/src/costcalc2.py:29-37 | the retract cost of two lists is the sum of their costs |
| CostCalc.MissingListsCostNothing | testoptimizationsrc/src/costcalc2.py:29-37 | a test without `apply` or `retract` adds nothing |
| CostCalc.ApplyCost | testoptimizationsrc/src/costcalc2.py:29-36 | the costs of every test's `apply` list (empty when missing), summed in list order |
| CostCalc.RetractCost | testoptimizationsrc/src/costcalc2.py:29-37 | the costs of every test's `retract` list (empty when missing), summed in list order |
| CostCalc.FinalRetract | testoptimizationsrc/src/costcalc2.py:42-43 | the cost of the last test's scenarios |
| CostCalc.Totals | testoptimizationsrc/src/costcalc2.py:29-46 | the combined cost is apply plus retract, and retract includes the final retraction of the last test |
| CostCalc.CalculateCosts | testoptimizationsrc/src/costcalc2.py:5-58 | IndexError iff there are no tests; otherwise the totals over the scenario table, with a missing table read as empty |
| Costs.SeqCostAppend | testoptimizationsrc/src/costcalc2.py:26-27 | `compute_cost` of two lists is the sum of their costs |
| Costs.Lookup | testoptimizationsrc/src/costcalc2.py:27 | `cost_lookup.get(id, 0)`: the table's cost, or 0 for an unknown id |
| Costs.SeqCost | testoptimizationsrc/src/costcalc2.py:26-27 | `compute_cost`: one lookup per list element, with repeats charged again |
| Costs.SetCostUnion | testoptimizationsrc/src/optimize_test_order.py:95-111 | the cost of two disjoint sets is the sum of their costs |
| Costs.SeqCostOfDistinct | testoptimizationsrc/src/costcalc2.py:26-27 | `compute_cost` of a list without repeats is the cost of its set |
| Costs.SeqCostOfSorted | testoptimizationsrc/src/optimize_test_order.py:179-204 | the cost of a sorted set list is the cost of the set |
| Strategy.TableOfMeaning | testoptimizationsrc/teststrategy.py:52-56 | an id has a cost iff some binding names it, and its cost is that of the last such binding |
| Strategy.TableOf | testoptimizationsrc/teststrategy.py:52-56 | the dict built by the assignment loop: each id maps to the cost of its last binding |
| Strategy.BuildCostTable | testoptimizationsrc/teststrategy.py:52-53 | the loop builds the reference cost table |
| Strategy.BuildCostMaps | testoptimizationsrc/teststrategy.py:49-56 | both tables are present and built from their bindings |
| Strategy.Annotated | testoptimizationsrc/teststrategy.py:72-78 | the test gets its position as id, `apply` lists exactly its new scenarios and `retract` exactly the dropped ones, each without repeats; nothing else changes |
| Strategy.AnnotatedFirst | testoptimizationsrc/teststrategy.py:71-78 | the first test applies all its scenarios and retracts none |
| Strategy.AnnotationAt | testoptimizationsrc/teststrategy.py:72-79 | an annotated test keeps its uuid and scenarios and is numbered by position from 1 |
| Strategy.AnnotatedUpToNext | testoptimizationsrc/teststrategy.py:72-79 | annotating position i against the previous test's scenarios extends the invariant by one |
| Strategy.AnnotateUnoptimised | testoptimizationsrc/teststrategy.py:70-79 | every test in the list is annotated in place against its predecessor |
| Strategy.FirstWithUuid | testoptimizationsrc/teststrategy.py:82 | finds the first test with that uuid, or reports that none has it |
| Strategy.MatchedId | testoptimizationsrc/teststrategy.py:82-83 | the id of the first unoptimised test with the same uuid; KeyError when any unoptimised test or the optimised one lacks a uuid, or the match lacks an id; IndexError when nothing matches |
| Strategy.FindTargetId | testoptimizationsrc/teststrategy.py:82-83 | the id looked up for one optimised test, with KeyError for a missing uuid or id and IndexError for no match |
| Strategy.RemapIds | testoptimizationsrc/teststrategy.py:81-83 | without error every optimised test takes the id of its match; on error the tests before the failing one are renumbered and the rest are unchanged |
| Strategy.MatchedIdOfNumbered | testoptimizationsrc/teststrategy.py:81-83 | with distinct uuids, a test matching the k-th test is given id k+1 |
| Strategy.MatchedIdIsPosition | testoptimizationsrc/teststrategy.py:70-83 | after annotation, every optimised test is renumbered with its position in the unoptimised order |
| Pipeline.TransitionCost | testoptimizationsrc/src/costcalc2.py:29-37 | an emitted test's apply and retract costs sum to the switch cost between the two configurations |
| Pipeline.InnerEdges | testoptimizationsrc/src/costcalc2.py:29-37 | each emitted test costs the tour edge it came from |
| Pipeline.ClosingEdge | testoptimizationsrc/src/costcalc2.py:42-44 | the final retraction costs the tour's closing edge back to the empty configuration |
| Pipeline.EmittedCostIsCycleCost | testoptimizationsrc/src/costcalc2.py:5-58 | the combined cost of the emitted order is the length of the solver's closed tour |
| Pipeline.AnnotatedStepCost | testoptimizationsrc/teststrategy.py:70-79 | an annotated unoptimised test costs the switch from its predecessor |
| Pipeline.IdentityInnerEdges | testoptimizationsrc/teststrategy.py:70-79 | each annotated test costs the matching edge of the identity tour |
| Pipeline.IdentityClosingEdge | testoptimizationsrc/src/costcalc2.py:42-44 | the final retraction of the unoptimised order is the identity tour's closing edge |
| Pipeline.UnoptimisedCostIsIdentityCycle | testoptimizationsrc/src/costcalc2.py:5-58 | the combined cost of the unoptimised order is the identity tour's length |
| Pipeline.OptimisedNeverCostsMore | testoptimizationsrc/src/optimize_test_order.py:152-159 | the optimised order never costs more than the unoptimised one |
| Plots.Mentioned | testoptimizationsrc/makeplots.py:247-249 | the row labels are exactly the scenarios some test lists in `scenarios`, `apply` or `retract` |
| Plots.MentionedRows | testoptimizationsrc/makeplots.py:247-249 | the sorted row labels are distinct and include every mentioned scenario |
| Plots.ColumnLabels | testoptimizationsrc/makeplots.py:246 | one column label `str(id)` per test, in list order |
| Plots.ColumnLabelsDistinct | testoptimizationsrc/makeplots.py:246 | tests with distinct ids get distinct column labels |
| Plots.MarkColumn | testoptimizationsrc/makeplots.py:252-266 | the test's column is marked 2 for applied, 1 for carried-over over a 0, -1 for retracted over anything, and no other column changes |
| Plots.Transpose | testoptimizationsrc/makeplots.py:271-273 | the flipped frame is the transpose |
| Plots.PresenceCells | testoptimizationsrc/makeplots.py:250-266 | every cell holds the mark of its scenario in its test |
| Plots.PresenceFrame | testoptimizationsrc/makeplots.py:246-269 | the sorted rows, the id columns, the axis names and the marks |
| Plots.FlippedPresenceFrame | testoptimizationsrc/makeplots.py:246-273 | the same frame with tests as rows |
| Plots.MakePresence | testoptimizationsrc/makeplots.py:246-275 | KeyError iff a test lacks `id`, `apply` or `retract`; otherwise the presence frame, flipped on request, paired with 1 |
| Plots.PresenceOfAnnotation | testoptimizationsrc/makeplots.py:252-266 | on an annotated list, 2 means newly applied, 1 carried over, -1 retracted and 0 inactive, each relative to the previous test |
| Plots.Mark | testoptimizationsrc/makeplots.py:252-266 | the cell code after the three passes: -1 when retracted, else 2 when applied, else 1 when active, else 0 |
| Plots.FirstWithId | testoptimizationsrc/makeplots.py:341 | finds the first test with the row's id, or reports that none has it |
| Plots.SourceOf | testoptimizationsrc/makeplots.py:341 | the test a cost row is read from has the row's id and comes no later than the row |
| Plots.OrderedCost | testoptimizationsrc/makeplots.py:342-348 | the ordered cost is the cost of `apply` followed by `retract` |
| Plots.AbsoluteColumn | testoptimizationsrc/makeplots.py:328-332 | each test's absolute cost is the cost of its scenarios |
| Plots.IdColumn | testoptimizationsrc/makeplots.py:330 | the id column holds each test's id |
| Plots.OrderedColumn | testoptimizationsrc/makeplots.py:339-348 | row k's ordered cost is that of the first test with row k's id |
| Plots.CumSum | testoptimizationsrc/makeplots.py:351 | entry k is the sum of the first k+1 entries |
| Plots.AddToLast | testoptimizationsrc/makeplots.py:354 | only the last entry is raised, by the given amount |
| Plots.CumulativeColumn | testoptimizationsrc/makeplots.py:351-354 | the cumulative column has one entry per test |
| Plots.CumulativeColumnAt | testoptimizationsrc/makeplots.py:351-354 | entry k is the running sum of ordered costs, plus the last test's absolute cost at the last row |
| Plots.ZipRows | testoptimizationsrc/makeplots.py:334 | row k gathers entry k of each column |
| Plots.CostRows | testoptimizationsrc/makeplots.py:328-354 | each row holds the test's id and its absolute, ordered and cumulative costs |
| Plots.OrderedCosts | testoptimizationsrc/makeplots.py:339-348 | the loop computes the ordered column |
| Plots.IdsAndAbsolute | testoptimizationsrc/makeplots.py:328-332 | succeeds iff every test has an id, and then yields the id and absolute columns |
| Plots.CostColumns | testoptimizationsrc/makeplots.py:319-354 | KeyError iff there are no tests or a test lacks an id; otherwise the cost table over the scenario table, read as empty when missing |
| Plots.OrderedColumnOfDistinct | testoptimizationsrc/makeplots.py:339-348 | with distinct ids each row reads its own test |
| Plots.OrderedSumIsCost | testoptimizationsrc/makeplots.py:339-351 | with distinct ids the ordered costs sum to the apply plus retract cost of `calculate_costs` |
| Plots.LastCumulative | testoptimizationsrc/makeplots.py:351-354 | the last cumulative entry is the sum of the ordered costs plus the last test's final retraction |
| Plots.LastCumulativeIsCombined | testoptimizationsrc/makeplots.py:352-354 | with distinct ids the last cumulative entry equals the combined cost of `calculate_costs` |
| Plots.CumulativeMonotone | testoptimizationsrc/makeplots.py:351-354 | the cumulative column never decreases |
| Plots.CumSumMonotone | testoptimizationsrc/makeplots.py:351 | a running sum of nonnegative costs never decreases |
| FileTree.Insert | utilities.py:30-37 | inserting one path only adds keys |
| FileTree.InsertExtends | utilities.py:30-37 | inserting a path keeps every existing file a file and every directory a directory |
| FileTree.InsertFollowsPath | utilities.py:30-37 | when no file lies on the way, the path is afterwards present, a file if it was new, with a directory at every proper prefix |
| FileTree.BuildDict | utilities.py:29-37 | the nested dict built by the cursor loop is the reference insertion of all paths |
| FileTree.InsertAllExtends | utilities.py:29-37 | inserting more paths never loses or retypes an entry |
| FileTree.InsertAllAppend | utilities.py:29-37 | inserting a then b is inserting a, then inserting b into the result |
| FileTree.PathBecomesFile | utilities.py:29-37 | a new path with no file on its way ends up a file under directories |
| FileTree.ToNodes | utilities.py:39-46 | a file becomes a leaf labelled with its name; a directory, labelled with its name or "results", gets one child per entry |
| FileTree.BuildTree | utilities.py:24-47 | the tree is the single root node of the converted dict |
| FileTree.TreeRoot | utilities.py:42-47 | the root is a directory labelled "results" |
| FileTree.InsertAllNoEmpty | utilities.py:29-37 | paths without empty segments give a dict without empty names |
| FileTree.ToNodesSorted | utilities.py:45 | without empty names every directory's children are listed in strictly ascending name order |
| FileTree.TreeSorted | utilities.py:24-47 | the tree of paths without empty segments is sorted at every level |
| FileTree.FileKeysAllAppend | utilities.py:51-55 | the keys of two node lists concatenate |
| FileTree.FileKeysNonEmpty | utilities.py:49-57 | every node has at least one file key |
| FileTree.FileKeys | utilities.py:49-57 | the leaf values under a node, left to right; a node without children is its own key |
| FileTree.FileKeysAll | utilities.py:52-55 | the file keys of a list of nodes, concatenated in list order |
| FileTree.CollectAllFileKeys | utilities.py:49-57 | the collected keys are the leaf values under the node, left to right |
| FileTree.Traverse | utilities.py:63-68 | appends the file keys of checked nodes and searches unchecked directories |
| FileTree.Selected | utilities.py:63-68 | what `_traverse(nodes)` appends, node by node in order |
| FileTree.SelectedOne | utilities.py:64-68 | a checked node gives all its file keys; an unchecked directory its children's selection; an unchecked file nothing |
| FileTree.DedupInOrder | utilities.py:72-73 | keeps the first occurrence of every file, in order |
| FileTree.CollectSelectedFiles | utilities.py:59-74 | the selected files, each once, in order of first selection |
| FileTree.CheckedNodeSelected | utilities.py:63-68 | every file under a checked node of the searched list is selected |
| FileTree.SelectedOneIn | utilities.py:63-68 | what any node of the searched list contributes is in the selection |
| FileTree.ReachedCheckedSelected | utilities.py:63-68 | every file under a checked node is selected, whether the node is in the list or reached through unchecked directories |
| FileTree.SelectedFromChecked | utilities.py:63-68 | every selected file lies under a checked node that is in the list or reached through unchecked directories |
| FileTree.SelectedAreFileKeys | utilities.py:63-68 | only file keys of the tree are selected |
| FileTree.SelectedOneAreFileKeys | utilities.py:63-68 | only file keys under a node are selected from it |
| JsonCsv.Fragment | jsontocsv.py:49-50 | the text after the last '#' holds no '#' |
| JsonCsv.FragmentIsLastPart | jsontocsv.py:49-50 | a value with a '#' is some prefix, a '#' and the fragment |
| JsonCsv.CellText | jsontocsv.py:39-52 | empty for a missing column or value, the value unchanged when it has no '#', otherwise its final '#'-free suffix |
| JsonCsv.RowData | jsontocsv.py:38-52 | one cell per column, in column order |
| JsonCsv.RowOf | jsontocsv.py:38-52 | one cell per column, in column order |
| JsonCsv.RowsAt | jsontocsv.py:37-54 | output row k is the row of binding k |
| JsonCsv.CsvFile.constructor | jsontocsv.py:31 | the file opened for writing is empty |
| JsonCsv.CsvFile.WriteRow | jsontocsv.py:34 | `writerow` appends one row |
| JsonCsv.SourceError | jsontocsv.py:14-17 | an error iff both or neither of the path and the file object are given, with the source's messages |
| JsonCsv.JsonToCsv | jsontocsv.py:7-54 | the argument errors; otherwise KeyError iff one of the four keys is missing, else the file holds the header and one row per binding |
| JsonCsv.TableShape | jsontocsv.py:34-54 | the file has one row more than there are bindings, the header first, and every row as wide as the header |
| JsonCsv.Table | jsontocsv.py:34-54 | the written file: the header row `head.vars`, then one row per binding in order |
| Strings.SortedOf | testoptimizationsrc/src/generate_tests.py:72 | `sorted` of a set: exactly its elements, strictly ascending |
| Strings.StrictlySortedUnique | testoptimizationsrc/src/generate_tests.py:85 | two strictly sorted lists with the same elements are equal |
| Strings.SortedOfSorted | testoptimizationsrc/src/generate_tests.py:85 | sorting the elements of a sorted list gives it back |
| Strings.StrLtTotal | testoptimizationsrc/src/generate_tests.py:72 | string order is total |
| Strings.StrLtTransitive | testoptimizationsrc/src/generate_tests.py:72 | string order is transitive |
| Strings.JoinSplit | testoptimizationsrc/src/generate_tests.py:34 | joining the parts of `split` gives the string back, and no part holds the separator |
| Strings.SplitJoin | testoptimizationsrc/src/generate_tests.py:34 | splitting the join of separator-free parts gives the parts back |
| Strings.SplitLast | jsontocsv.py:49-50 | a string holds the separator iff it splits in two or more parts, and then ends with the separator and the last part |
| Strings.NatToStringValue | testoptimizationsrc/makeplots.py:246 | the numeral of n reads back as n |
| Strings.IntToStringInjective | testoptimizationsrc/makeplots.py:246 | distinct integers have distinct `str` |
| Seqs.Dedup | utilities.py:72-73 | every element kept, each once |
| Seqs.DedupFirstSeen | utilities.py:72-73 | kept elements are ordered by their first occurrence |
| Seqs.DedupOfDistinct | utilities.py:72-73 | a list without repeats is unchanged |
| Seqs.DedupSnoc | utilities.py:72-73 | a new element is appended and a seen one is skipped |
| Seqs.FirstIndex | testoptimizationsrc/src/generate_tests.py:38-40 | the position of the first occurrence |
| TestModel.Get | testoptimizationsrc/src/generate_tests.py:81 | a key lookup succeeds iff the key is in the dict |
| TestModel.GetAt | testoptimizationsrc/src/generate_tests.py:81 | looking up an entry's key yields that entry's list |
| TestModel.EmptyConfiguration | testoptimizationsrc/src/optimize_test_order.py:136 | the inserted empty configuration has id 0, no scenarios and no quantities |

## Left out

- File and console I/O, JSON (de)serialisation, `json.dump` of intermediate results and
  all `print` calls are left out. Parsed documents are parameters and results are values.
- `uuid.uuid4()` and `hashlib.md5` are parameters (`uuidOf`, `digestOf`). The digest's
  input text (`str(config)` with quotes replaced) is not modelled beyond being a
  function of the sorted scenario list.
- The networkx graph is replaced by an explicit node and edge set; only `successors` is
  used.
- Costs are natural numbers. Float and negative costs, and the `int()` parsing of the
  query's cost strings, are not modelled.
- The `resort` shuffle of the tour and the `concorde` solver branch are not modelled. The
  pipeline passes `resort=False` and the concorde branch is not taken.
- `Strategy.Annotated`: `list(set(...))` in the strategy annotation has hash order in
  Python. The model picks ascending order and promises only the members and distinctness.
- `Generate.IndexRequirements`: a binding missing the `reqName`, `quaID` or `scenarios` key
  itself (not just a null value) raises KeyError in the source; the model takes those
  keys as present, with `None` for a null `reqName` or `quaID` value. A null `scenarios`
  value on a counted record raises AttributeError at `.split` in the source; the model's
  `ReqBinding.scenarios` is always a string, so that error path is not modelled.
- `Prune.BuildSufficients`: a sufficiency binding without a `reqName` or `scenarios`
  key raises KeyError in the source; the model's `SuffBinding` always has both.
- `Strategy.BuildCostTable`: a cost binding without a `scenarioID`/`quantityID` or `cost`
  key raises KeyError in the source; the model's `CostBinding` always has both.
- `TestModel.Test`: every test dict is taken to have both a `scenarios` and a
  `quantities` key, because every test produced upstream has both. In the source a test
  without `scenarios` raises KeyError in `make_weights`, in the emission loop of
  `OptimizeTestOrder.run`, in `prune_tests`, in the strategy page's annotation loop and in
  both plot tables; a test without `quantities` raises KeyError in `prune_tests`. Those
  paths are not modelled.
- `CostCalc.CalculateCosts`: a test without a `scenarios` key is not modelled, because
  every test produced upstream has one (see `TestModel.Test`).
- `TwoOpt.TSP2Opt.constructor` requires every matrix row i to have at least i+1 entries.
  `make_weights` always produces such a matrix.
- `Pipeline.UnoptimisedCostIsIdentityCycle` and `Pipeline.OptimisedNeverCostsMore` require
  the last test's scenario list to be without repeats, which generated tests satisfy.
  They relate `compute_cost` (a list) to the switch cost (a set).
- `FileTree.TreeSorted` requires paths without empty segments. A nested directory with an
  empty name is relabelled "results" by `to_nodes` (`name or "results"`), and that label
  can fall out of order among its siblings, which are sorted by their original names. An
  empty-named file keeps the label "" and would still sort first.
- `FileTree.BuildDict`: the shared cursor into the nested dict is modelled as recursion on
  values, not as aliasing of mutable dicts.
- `Plots.MakePresence` addresses cells by row and column position, not by the `str(id)`
  label. The two differ only for tests with duplicate ids, where pandas would share a
  column.
- Pandas dtypes, styling (`style_presence`), display-only string columns (`scenarios`,
  `apply`, `retract` joined with ", ") and the plotly figures of `make_cost_plots` are not
  modelled.
- `validate_csv`, `_fetch_file_bytes`, `_zip_files`, CSV quoting by `csv.writer`, and the
  Streamlit pages are not modelled. They are I/O or UI.
- `Plots.CumulativeColumn` states only its length in its own contract; its pointwise
  meaning is stated separately by `Plots.CumulativeColumnAt`.
