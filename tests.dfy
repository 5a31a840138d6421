/** The test-configuration record that flows through the whole pipeline. In the
    source it is a JSON-style dict whose keys are added stage by stage; every key
    that some stage reads but that is missing on some records is an Option here. */
module TestModel {
  import opened Wrappers
  import opened Seqs

  /** One entry `q_id: {"requirements": [...]}` of a test's `quantities` dict. */
  datatype QtyEntry = QtyEntry(qty: string, requirements: seq<string>)

  predicate DistinctKeys(qs: seq<QtyEntry>) {
    forall i, j :: 0 <= i < j < |qs| ==> qs[i].qty != qs[j].qty
  }

  /** The `quantities` dict: insertion-ordered entries with distinct keys. */
  type Quantities = qs: seq<QtyEntry> | DistinctKeys(qs) witness []

  /** `list(d.keys())`. */
  function Keys(qs: seq<QtyEntry>): (ks: seq<string>)
    ensures |ks| == |qs|
    ensures forall i :: 0 <= i < |qs| ==> ks[i] == qs[i].qty
  {
    seq(|qs|, i requires 0 <= i < |qs| => qs[i].qty)
  }

  /** `qs[q]["requirements"]` when `q in qs`; None when the key is missing. */
  function Get(qs: seq<QtyEntry>, q: string): (r: Option<seq<string>>)
    ensures r.Some? <==> q in Keys(qs)
  {
    if qs == [] then None
    else if qs[0].qty == q then Some(qs[0].requirements)
    else
      assert Keys(qs) == [qs[0].qty] + Keys(qs[1..]);
      Get(qs[1..], q)
  }

  /** With distinct keys, looking up the key of an entry finds that entry. */
  lemma {:induction false} GetAt(qs: Quantities, i: nat)
    requires i < |qs|
    ensures Get(qs, qs[i].qty) == Some(qs[i].requirements)
  {
    if i > 0 {
      assert qs[0].qty != qs[i].qty;
      var rest: Quantities := qs[1..];
      GetAt(rest, i - 1);
    }
  }

  datatype Test = Test(
    id: Option<int>,                      // "id": set by the optimiser and the strategy view
    uuid: Option<string>,                 // "uuid": absent on the synthetic empty configuration
    configDigest: Option<string>,         // "config_digest"
    scenarios: seq<string>,               // "scenarios"
    quantities: Quantities,               // "quantities"
    requirementsDirect: Option<seq<string>>,  // "requirements_direct"
    quantitiesDirect: Option<seq<string>>,    // "quantities_direct"
    apply: Option<seq<string>>,           // "apply"
    retract: Option<seq<string>>)         // "retract"

  /** `{'id': 0, 'scenarios': [], 'quantities': {}}`, the "nothing applied" state the
      optimiser puts in front of the tour. */
  function EmptyConfiguration(): (t: Test)
    ensures t.id == Some(0) && t.scenarios == [] && t.quantities == []
  {
    Test(Some(0), None, None, [], [], None, None, None, None)
  }

  /** A Python list of tests that several stages share and update in place
      (`prune_tests` returns the very list it was given, and the strategy view
      then numbers and annotates the same list). */
  class TestList {
    var items: seq<Test>

    constructor (items: seq<Test>)
      ensures this.items == items
    {
      this.items := items;
    }
  }
}
