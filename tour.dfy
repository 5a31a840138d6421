/** The 2-opt travelling-salesman solver used to order the tests: a cyclic tour
    over the cities 0..n-1 of a lower-triangular weight matrix, improved by
    reversing a segment whenever that shortens the cycle. */
module TwoOpt {
  import opened Seqs

  /** Row `i` holds at least the weights to cities 0..i. */
  predicate Covers(w: seq<seq<nat>>) {
    forall i :: 0 <= i < |w| ==> |w[i]| > i
  }

  predicate InRange(t: seq<nat>, n: nat) {
    forall k :: 0 <= k < |t| ==> t[k] < n
  }

  /** A tour: every city once, starting from city 0. */
  predicate IsTour(t: seq<nat>, n: nat) {
    |t| == n && InRange(t, n) && Distinct(t) && (n > 0 ==> t[0] == 0)
  }

  /** `distance(a, b)`: the weight is read from the row of the larger city. */
  function Dist(w: seq<seq<nat>>, a: nat, b: nat): nat
    requires Covers(w) && a < |w| && b < |w|
  {
    if b < a then w[a][b] else w[b][a]
  }

  lemma DistSymmetric(w: seq<seq<nat>>, a: nat, b: nat)
    requires Covers(w) && a < |w| && b < |w|
    ensures Dist(w, a, b) == Dist(w, b, a)
  {
  }

  /** The position after `k` on a cycle of `n` positions, `(k + 1) % n`. */
  function Next(k: nat, n: nat): nat {
    if k + 1 < n then k + 1 else 0
  }

  lemma NextIsMod(k: nat, n: nat)
    requires k < n
    ensures (k + 1) % n == Next(k, n)
  {
  }

  /** The weight of each edge of the cycle, the last one closing back to the start. */
  function Edges(w: seq<seq<nat>>, t: seq<nat>): (e: seq<nat>)
    requires Covers(w) && InRange(t, |w|)
    ensures |e| == |t|
    ensures forall k :: 0 <= k < |t| ==> e[k] == Dist(w, t[k], t[Next(k, |t|)])
  {
    seq(|t|, k requires 0 <= k < |t| => Dist(w, t[k], t[Next(k, |t|)]))
  }

  function Sum(s: seq<nat>): nat
    decreases |s|
  {
    if s == [] then 0 else Sum(s[..|s| - 1]) + s[|s| - 1]
  }

  /** The length of the closed tour. */
  function CycleCost(w: seq<seq<nat>>, t: seq<nat>): nat
    requires Covers(w) && InRange(t, |w|)
  {
    Sum(Edges(w, t))
  }

  /** The change in length from replacing the edges after positions `i` and `j`
      by the edges (t[i], t[j]) and (t[i+1], t[j+1]), cyclically. */
  function Delta(w: seq<seq<nat>>, t: seq<nat>, i: nat, j: nat): int
    requires Covers(w) && InRange(t, |w|) && i + 2 <= j < |t|
  {
    var n := |t|;
    0 - Dist(w, t[i], t[i + 1]) - Dist(w, t[j], t[Next(j, n)])
      + Dist(w, t[i], t[j]) + Dist(w, t[i + 1], t[Next(j, n)])
  }

  /** The positions lo..hi in reverse order, the rest unchanged. */
  function ReverseSegment(t: seq<nat>, lo: nat, hi: nat): (r: seq<nat>)
    requires hi < |t|
    ensures |r| == |t|
    ensures forall k :: 0 <= k < |t| ==> r[k] == if lo <= k <= hi then t[lo + hi - k] else t[k]
  {
    seq(|t|, k requires 0 <= k < |t| => if lo <= k <= hi then t[lo + hi - k] else t[k])
  }

  /** No move the optimiser considers would shorten the tour. */
  predicate LocallyOptimal(w: seq<seq<nat>>, t: seq<nat>)
    requires Covers(w) && InRange(t, |w|)
  {
    forall i, j :: 0 <= i && i + 2 <= j < |t| ==> Delta(w, t, i, j) >= 0
  }

  function Identity(n: nat): (t: seq<nat>)
    ensures IsTour(t, n)
    ensures forall k :: 0 <= k < n ==> t[k] == k
  {
    seq(n, k requires 0 <= k < n => k)
  }

  // ---------------------------------------------------------------------------
  // Sums.

  function Reverse(s: seq<nat>): (r: seq<nat>)
    ensures |r| == |s|
    ensures forall k :: 0 <= k < |s| ==> r[k] == s[|s| - 1 - k]
  {
    seq(|s|, k requires 0 <= k < |s| => s[|s| - 1 - k])
  }

  lemma {:induction false} SumConcat(a: seq<nat>, b: seq<nat>)
    ensures Sum(a + b) == Sum(a) + Sum(b)
    decreases |b|
  {
    if b == [] {
      assert a + b == a;
    } else {
      var p := b[..|b| - 1];
      assert (a + b)[..|a + b| - 1] == a + p;
      SumConcat(a, p);
    }
  }

  lemma {:induction false} SumReverse(s: seq<nat>)
    ensures Sum(Reverse(s)) == Sum(s)
    decreases |s|
  {
    if s != [] {
      var p := s[..|s| - 1];
      var x := s[|s| - 1];
      SumReverse(p);
      assert Reverse(s) == [x] + Reverse(p);
      SumConcat([x], Reverse(p));
      assert Sum([x]) == x by {
        assert [x][..0] == [];
      }
    }
  }

  lemma SumSingle(x: nat)
    ensures Sum([x]) == x
  {
    assert [x][..0] == [];
  }

  // ---------------------------------------------------------------------------
  // The 2-opt move.

  lemma ReverseSegmentIsTour(w: seq<seq<nat>>, t: seq<nat>, lo: nat, hi: nat)
    requires IsTour(t, |t|) && hi < |t| && lo >= 1
    ensures IsTour(ReverseSegment(t, lo, hi), |t|)
  {
    var r := ReverseSegment(t, lo, hi);
    forall a, b | 0 <= a < b < |r|
      ensures r[a] != r[b]
    {
      var a' := if lo <= a <= hi then lo + hi - a else a;
      var b' := if lo <= b <= hi then lo + hi - b else b;
      assert r[a] == t[a'] && r[b] == t[b'];
      assert a' != b';
    }
  }

  lemma SumFive(a: seq<nat>, x: nat, m: seq<nat>, y: nat, b: seq<nat>)
    ensures Sum(a + [x] + m + [y] + b) == Sum(a) + x + Sum(m) + y + Sum(b)
  {
    SumConcat(a + [x] + m + [y], b);
    SumConcat(a + [x] + m, [y]);
    SumConcat(a + [x], m);
    SumConcat(a, [x]);
    SumSingle(x);
    SumSingle(y);
  }

  lemma FiveLength<T>(a: seq<T>, x: T, m: seq<T>, y: T, b: seq<T>)
    ensures |a + [x] + m + [y] + b| == |a| + |m| + |b| + 2
  {
  }

  lemma FiveIndex<T>(a: seq<T>, x: T, m: seq<T>, y: T, b: seq<T>, k: nat)
    requires k < |a| + |m| + |b| + 2
    ensures (a + [x] + m + [y] + b)[k] ==
      if k < |a| then a[k]
      else if k == |a| then x
      else if k < |a| + 1 + |m| then m[k - |a| - 1]
      else if k == |a| + 1 + |m| then y
      else b[k - |a| - |m| - 2]
  {
  }

  /** The edges of the tour after reversing positions i+1..j: the two replaced
      edges, the inner edges in reverse order, the rest unchanged. */
  function MovedEdges(w: seq<seq<nat>>, t: seq<nat>, i: nat, j: nat): seq<nat>
    requires Covers(w) && InRange(t, |w|) && i + 2 <= j < |t|
  {
    var e := Edges(w, t);
    e[..i] + [Dist(w, t[i], t[j])] + Reverse(e[i + 1..j])
      + [Dist(w, t[i + 1], t[Next(j, |t|)])] + e[j + 1..]
  }

  lemma ReverseSegmentInRange(t: seq<nat>, lo: nat, hi: nat, n: nat)
    requires InRange(t, n) && hi < |t|
    ensures InRange(ReverseSegment(t, lo, hi), n)
  {
  }

  /** Edge `k` after the move, by where `k` lies relative to the reversed segment. */
  function MovedEdge(w: seq<seq<nat>>, t: seq<nat>, i: nat, j: nat, k: nat): nat
    requires Covers(w) && InRange(t, |w|) && i + 2 <= j < |t| && k < |t|
  {
    var e := Edges(w, t);
    if k < i then e[k]
    else if k == i then Dist(w, t[i], t[j])
    else if k < j then e[i + j - k]
    else if k == j then Dist(w, t[i + 1], t[Next(j, |t|)])
    else e[k]
  }

  lemma MovedEdgesIndex(w: seq<seq<nat>>, t: seq<nat>, i: nat, j: nat, k: nat)
    requires Covers(w) && InRange(t, |w|) && i + 2 <= j < |t| && k < |t|
    ensures |MovedEdges(w, t, i, j)| == |t|
    ensures MovedEdges(w, t, i, j)[k] == MovedEdge(w, t, i, j, k)
  {
    var n := |t|;
    var e := Edges(w, t);
    var x := Dist(w, t[i], t[j]);
    var m := Reverse(e[i + 1..j]);
    var y := Dist(w, t[i + 1], t[Next(j, n)]);
    assert MovedEdges(w, t, i, j) == e[..i] + [x] + m + [y] + e[j + 1..];
    FiveLength(e[..i], x, m, y, e[j + 1..]);
    FiveIndex(e[..i], x, m, y, e[j + 1..], k);
  }

  lemma ReversedEdgesIndex(w: seq<seq<nat>>, t: seq<nat>, i: nat, j: nat, k: nat)
    requires Covers(w) && InRange(t, |w|) && i + 2 <= j < |t| && k < |t|
    requires InRange(ReverseSegment(t, i + 1, j), |w|)
    ensures Edges(w, ReverseSegment(t, i + 1, j))[k] == MovedEdge(w, t, i, j, k)
  {
    var n := |t|;
    var r := ReverseSegment(t, i + 1, j);
    if i < k < j {
      assert r[k] == t[i + 1 + j - k] && r[k + 1] == t[i + j - k];
      DistSymmetric(w, t[i + 1 + j - k], t[i + j - k]);
    } else if k == j {
      assert r[Next(j, n)] == t[Next(j, n)];
    } else {
      assert r[k] == t[k] || k == i;
      assert r[Next(k, n)] == t[Next(k, n)] || k == i;
    }
  }

  lemma MovedEdgeAt(w: seq<seq<nat>>, t: seq<nat>, i: nat, j: nat, k: nat)
    requires Covers(w) && InRange(t, |w|) && i + 2 <= j < |t| && k < |t|
    requires InRange(ReverseSegment(t, i + 1, j), |w|)
    ensures |MovedEdges(w, t, i, j)| == |t|
    ensures Edges(w, ReverseSegment(t, i + 1, j))[k] == MovedEdges(w, t, i, j)[k]
  {
    MovedEdgesIndex(w, t, i, j, k);
    ReversedEdgesIndex(w, t, i, j, k);
  }

  lemma EdgesAfterMove(w: seq<seq<nat>>, t: seq<nat>, i: nat, j: nat)
    requires Covers(w) && InRange(t, |w|) && i + 2 <= j < |t|
    ensures InRange(ReverseSegment(t, i + 1, j), |w|)
    ensures Edges(w, ReverseSegment(t, i + 1, j)) == MovedEdges(w, t, i, j)
  {
    ReverseSegmentInRange(t, i + 1, j, |w|);
    MovedEdgeAt(w, t, i, j, 0);
    forall k | 0 <= k < |t|
      ensures Edges(w, ReverseSegment(t, i + 1, j))[k] == MovedEdges(w, t, i, j)[k]
    {
      MovedEdgeAt(w, t, i, j, k);
    }
  }

  lemma SumAround(e: seq<nat>, i: nat, j: nat)
    requires i < j < |e|
    ensures Sum(e) == Sum(e[..i]) + e[i] + Sum(e[i + 1..j]) + e[j] + Sum(e[j + 1..])
  {
    SumSplit(e, i);
    SumHead(e[i..]);
    assert e[i..][1..] == e[i + 1..];
    SumSplit(e[i + 1..], j - i - 1);
    assert e[i + 1..][..j - i - 1] == e[i + 1..j];
    assert e[i + 1..][j - i - 1..] == e[j..];
    SumHead(e[j..]);
    assert e[j..][1..] == e[j + 1..];
  }

  lemma SumSplit(s: seq<nat>, k: nat)
    requires k <= |s|
    ensures Sum(s) == Sum(s[..k]) + Sum(s[k..])
  {
    assert s == s[..k] + s[k..];
    SumConcat(s[..k], s[k..]);
  }

  lemma SumHead(s: seq<nat>)
    requires s != []
    ensures Sum(s) == s[0] + Sum(s[1..])
  {
    assert s == [s[0]] + s[1..];
    SumConcat([s[0]], s[1..]);
    SumSingle(s[0]);
  }

  lemma SumMovedEdges(w: seq<seq<nat>>, t: seq<nat>, i: nat, j: nat)
    requires Covers(w) && InRange(t, |w|) && i + 2 <= j < |t|
    ensures var e := Edges(w, t);
      Sum(MovedEdges(w, t, i, j)) ==
        Sum(e[..i]) + Dist(w, t[i], t[j]) + Sum(e[i + 1..j])
          + Dist(w, t[i + 1], t[Next(j, |t|)]) + Sum(e[j + 1..])
  {
    var e := Edges(w, t);
    SumFive(e[..i], Dist(w, t[i], t[j]), Reverse(e[i + 1..j]), Dist(w, t[i + 1], t[Next(j, |t|)]), e[j + 1..]);
    SumReverse(e[i + 1..j]);
  }

  /** Reversing the positions i+1..j changes the length of the cycle by exactly the
      delta the optimiser computes. */
  lemma TwoOptMove(w: seq<seq<nat>>, t: seq<nat>, i: nat, j: nat)
    requires Covers(w) && InRange(t, |w|) && i + 2 <= j < |t|
    ensures InRange(ReverseSegment(t, i + 1, j), |w|)
    ensures CycleCost(w, ReverseSegment(t, i + 1, j)) == CycleCost(w, t) + Delta(w, t, i, j)
  {
    var e := Edges(w, t);
    EdgesAfterMove(w, t, i, j);
    SumAround(e, i, j);
    SumMovedEdges(w, t, i, j);
    assert e[i] == Dist(w, t[i], t[i + 1]);
    assert e[j] == Dist(w, t[j], t[Next(j, |t|)]);
  }

  /** A tour stays a tour under the move, and its length changes by the delta. */
  lemma MoveKeepsTour(w: seq<seq<nat>>, t: seq<nat>, moved: seq<nat>, i: nat, j: nat)
    requires Covers(w) && IsTour(t, |w|) && i + 2 <= j < |t|
    requires moved == ReverseSegment(t, i + 1, j)
    ensures IsTour(moved, |w|)
    ensures CycleCost(w, moved) == CycleCost(w, t) + Delta(w, t, i, j)
  {
    assert IsTour(moved, |w|) by {
      ReverseSegmentIsTour(w, t, i + 1, j);
    }
    assert CycleCost(w, moved) == CycleCost(w, t) + Delta(w, t, i, j) by {
      TwoOptMove(w, t, i, j);
    }
  }

  // ---------------------------------------------------------------------------
  // Progress of one pass of the optimiser.

  /** No move with first position below `i` shortens `t`. */
  predicate NoGainBelow(w: seq<seq<nat>>, t: seq<nat>, i: nat)
    requires Covers(w) && InRange(t, |w|)
  {
    forall a, b :: 0 <= a < i && a + 2 <= b < |t| ==> Delta(w, t, a, b) >= 0
  }

  /** No move (i, b) with b below `j` shortens `t`. */
  predicate NoGainAt(w: seq<seq<nat>>, t: seq<nat>, i: nat, j: nat)
    requires Covers(w) && InRange(t, |w|)
  {
    forall b :: i + 2 <= b < j && b < |t| ==> Delta(w, t, i, b) >= 0
  }

  lemma NoGainNextRow(w: seq<seq<nat>>, t: seq<nat>, i: nat)
    requires Covers(w) && InRange(t, |w|)
    requires NoGainBelow(w, t, i) && NoGainAt(w, t, i, |t|)
    ensures NoGainBelow(w, t, i + 1)
  {
  }

  /** A pass that reaches the last row without a gain leaves a locally optimal tour. */
  lemma NoGainEverywhere(w: seq<seq<nat>>, t: seq<nat>, i: nat)
    requires Covers(w) && InRange(t, |w|)
    requires NoGainBelow(w, t, i) && i + 1 >= |t|
    ensures LocallyOptimal(w, t)
  {
  }

  // ---------------------------------------------------------------------------
  // The solver object.

  class TSP2Opt {
    const dimension: nat
    const weights: seq<seq<nat>>
    const tour: array<nat>
    var cost: int

    ghost predicate Valid()
      reads this, tour
    {
      && Covers(weights)
      && dimension == |weights|
      && tour.Length == dimension
      && IsTour(tour[..], dimension)
    }

    /** `cost` is the length of the current tour. */
    ghost predicate CostIsTourLength()
      reads this, tour
      requires Valid()
    {
      cost == CycleCost(weights, tour[..])
    }

    /** `__init__`: the identity tour and its length. */
    constructor (weights: seq<seq<nat>>)
      requires Covers(weights)
      ensures Valid() && CostIsTourLength()
      ensures this.weights == weights && dimension == |weights|
      ensures tour[..] == Identity(|weights|)
      ensures fresh(tour)
    {
      this.dimension := |weights|;
      this.weights := weights;
      var t := new nat[|weights|](k => k);
      this.tour := t;
      new;
      assert tour[..] == Identity(|weights|);
      cost := CalculateInitialCost();
    }

    /** `_calculate_initial_cost`: the sum of the cycle's edges. */
    method CalculateInitialCost() returns (total: int)
      requires Valid()
      ensures total == CycleCost(weights, tour[..])
    {
      total := 0;
      ghost var e := Edges(weights, tour[..]);
      for i := 0 to dimension
        invariant total == Sum(e[..i])
      {
        var j := (i + 1) % dimension;
        NextIsMod(i, dimension);
        assert e[..i + 1][..i] == e[..i];
        total := total + Dist(weights, tour[i], tour[j]);
      }
      assert e[..dimension] == e;
    }

    /** `swap_edges(i, j)`: reverse the positions i+1..j of the tour in place. */
    method SwapEdges(i: nat, j: nat)
      requires Valid() && j < dimension
      modifies tour
      ensures tour[..] == ReverseSegment(old(tour[..]), i + 1, j)
    {
      ghost var orig := tour[..];
      assert j < tour.Length;
      var lo := i + 1;
      var hi := j;
      while lo < hi
        invariant i + 1 <= lo && hi <= j && lo + hi == i + 1 + j
        invariant i <= j ==> lo <= hi + 1
        invariant i > j ==> lo == i + 1
        invariant forall k :: 0 <= k < tour.Length && !(i + 1 <= k < lo || hi < k <= j) ==> tour[k] == orig[k]
        invariant forall k :: (i + 1 <= k < lo || hi < k <= j) ==> tour[k] == orig[i + 1 + j - k]
        decreases hi - lo
      {
        tour[lo], tour[hi] := tour[hi], tour[lo];
        lo := lo + 1;
        hi := hi - 1;
      }
      forall k | 0 <= k < tour.Length
        ensures tour[k] == ReverseSegment(orig, i + 1, j)[k]
      {
        if i + 1 <= k <= j && lo <= k <= hi {
          assert k == lo && k == hi;
        }
      }
      assert tour[..] == ReverseSegment(orig, i + 1, j);
    }

    /** The cost delta `optimize` computes for the move (i, j) from four distances. */
    method MoveDelta(i: nat, j: nat) returns (costDelta: int)
      requires Valid() && i + 2 <= j < dimension
      ensures costDelta == Delta(weights, tour[..], i, j)
    {
      var n := dimension;
      NextIsMod(j, n);
      costDelta := 0
        - Dist(weights, tour[i], tour[i + 1])
        - Dist(weights, tour[j], tour[(j + 1) % n])
        + Dist(weights, tour[i], tour[j])
        + Dist(weights, tour[i + 1], tour[(j + 1) % n]);
    }

    /** One step of `optimize`'s inner loop: the change in length of reversing
        positions i+1..j, applied when it is negative. */
    method TryMove(i: nat, j: nat) returns (improved: bool)
      requires Valid() && CostIsTourLength() && i + 2 <= j < dimension
      modifies this, tour
      ensures Valid() && CostIsTourLength()
      ensures improved ==> cost < old(cost)
      ensures improved ==> tour[..] == ReverseSegment(old(tour[..]), i + 1, j)
      ensures !improved ==> cost == old(cost) && tour[..] == old(tour[..])
      ensures !improved ==> Delta(weights, tour[..], i, j) >= 0
    {
      var costDelta := MoveDelta(i, j);
      improved := false;
      if costDelta < 0 {
        ApplyMove(i, j, costDelta);
        improved := true;
      }
    }

    /** Reversing positions i+1..j and adding the delta keeps `cost` the tour's length. */
    method ApplyMove(i: nat, j: nat, costDelta: int)
      requires Valid() && CostIsTourLength() && i + 2 <= j < dimension
      requires costDelta == Delta(weights, tour[..], i, j)
      modifies this, tour
      ensures Valid() && CostIsTourLength()
      ensures cost == old(cost) + costDelta
      ensures tour[..] == ReverseSegment(old(tour[..]), i + 1, j)
    {
      ghost var before := tour[..];
      SwapEdges(i, j);
      MoveKeepsTour(weights, before, tour[..], i, j);
      cost := cost + costDelta;
    }

    /** The inner loop of one `optimize` pass: every move (i, j) in turn, for the
        current tour. */
    method ImproveRow(i: nat) returns (improved: bool)
      requires Valid() && CostIsTourLength() && i + 1 < dimension
      modifies this, tour
      ensures Valid() && CostIsTourLength()
      ensures cost <= old(cost)
      ensures improved ==> cost < old(cost)
      ensures !improved ==> cost == old(cost) && tour[..] == old(tour[..])
      ensures !improved ==> NoGainAt(weights, tour[..], i, dimension)
    {
      improved := false;
      var j := i + 2;
      while j < dimension
        invariant i + 2 <= j
        invariant Valid() && CostIsTourLength()
        invariant cost <= old(cost)
        invariant improved ==> cost < old(cost)
        invariant !improved ==> cost == old(cost) && tour[..] == old(tour[..])
        invariant !improved ==> NoGainAt(weights, old(tour[..]), i, j)
      {
        var moved := TryMove(i, j);
        improved := improved || moved;
        j := j + 1;
      }
    }

    /** `optimize`: repeated passes over all moves, applying each that shortens the
        tour, until a pass applies none. */
    method Optimize()
      requires Valid() && CostIsTourLength()
      modifies this, tour
      ensures Valid() && CostIsTourLength()
      ensures LocallyOptimal(weights, tour[..])
      ensures cost <= old(cost)
    {
      var foundImprovement := true;
      while foundImprovement
        invariant Valid() && CostIsTourLength()
        invariant cost <= old(cost)
        invariant !foundImprovement ==> LocallyOptimal(weights, tour[..])
        decreases cost + (if foundImprovement then 1 else 0)
      {
        foundImprovement := false;
        ghost var start := tour[..];
        ghost var startCost := cost;
        var i := 0;
        while i + 1 < dimension
          invariant Valid() && CostIsTourLength()
          invariant cost <= startCost
          invariant foundImprovement ==> cost < startCost
          invariant !foundImprovement ==> tour[..] == start && cost == startCost
          invariant !foundImprovement ==> NoGainBelow(weights, start, i)
        {
          var improved := ImproveRow(i);
          if !foundImprovement && !improved {
            NoGainNextRow(weights, start, i);
          }
          foundImprovement := foundImprovement || improved;
          i := i + 1;
        }
        if !foundImprovement {
          NoGainEverywhere(weights, start, i);
        }
      }
    }
  }
}
