/**
 * Sample mode: the requested sample size is clamped to the store size, the
 * positions 0..n-1 are shuffled and truncated, and every pair of sample
 * positions i < j is measured once.
 */
module Sampling {
  import opened Records

  function Min(a: nat, b: nat): nat {
    if a <= b then a else b
  }

  /** `perm` lists each of 0..n-1 exactly once: a possible result of the shuffle. */
  predicate IsPermutation(perm: seq<nat>, n: nat) {
    |perm| == n &&
    (forall i :: 0 <= i < n ==> perm[i] < n) &&
    (forall i, j :: 0 <= i < j < n ==> perm[i] != perm[j])
  }

  /**
   * Clamps `requested` to `n`, fills the vector with 0..n-1, shuffles it into the
   * order `perm` chooses and truncates it to the clamped size.
   */
  method SelectSample(n: nat, requested: uint32, perm: seq<nat>) returns (sample: seq<nat>)
    requires n > 0 && requested > 0
    requires IsPermutation(perm, n)
    ensures |sample| == Min(requested as nat, n)
    ensures forall i :: 0 <= i < |sample| ==> sample[i] < n
    ensures forall i, j :: 0 <= i < j < |sample| ==> sample[i] != sample[j]
    ensures sample == perm[..|sample|]
  {
    var size: nat := requested as nat;
    if size > n {
      size := n;
    }
    sample := [];
    var i := 0;
    while i < n
      invariant 0 <= i <= n
      invariant |sample| == i
      invariant forall k :: 0 <= k < i ==> sample[k] == k
    {
      sample := sample + [i];
      i := i + 1;
    }
    sample := seq(n, k requires 0 <= k < n => sample[perm[k]]);
    sample := sample[..size];
  }

  // ---------------------------------------------------------------------------
  // The pairs of sample positions, in the order the nested loops visit them

  /** The pairs (i, i+1), …, (i, j-1): the inner loop's visits up to, not including, `j`. */
  function Row(i: nat, j: nat): (r: seq<(nat, nat)>)
    requires i < j
    ensures |r| == j - i - 1
    ensures forall k :: 0 <= k < |r| ==> r[k] == (i, i + 1 + k)
  {
    if j == i + 1 then [] else Row(i, j - 1) + [(i, j - 1)]
  }

  /** The pairs the nested loops have visited before the outer index reaches `i`. */
  function PairsBefore(i: nat, s: nat): (r: seq<(nat, nat)>)
    requires i <= s
    ensures forall k :: 0 <= k < |r| ==> r[k].0 < i && r[k].0 < r[k].1 < s
  {
    if i == 0 then [] else PairsBefore(i - 1, s) + Row(i - 1, s)
  }

  /** Every pair the nested loops visit for a sample of size `s`. */
  function PositionPairs(s: nat): seq<(nat, nat)>
  {
    if s == 0 then [] else PairsBefore(s - 1, s)
  }

  lemma {:induction false} PairsBeforeCount(i: nat, s: nat)
    requires i <= s
    ensures 2 * |PairsBefore(i, s)| == 2 * i * s - i * (i + 1)
  {
    if i > 0 {
      PairsBeforeCount(i - 1, s);
      assert |PairsBefore(i, s)| == |PairsBefore(i - 1, s)| + (s - i);
      CountStep(i, s);
    }
  }

  lemma CountStep(i: int, s: int)
    ensures 2 * i * s - i * (i + 1) == 2 * (i - 1) * s - (i - 1) * i + 2 * (s - i)
  {
  }

  /** A sample of size s yields s·(s−1)/2 pairs; a sample of size 1 yields none. */
  lemma PositionPairsCount(s: nat)
    ensures |PositionPairs(s)| == s * (s - 1) / 2
    ensures s <= 1 ==> PositionPairs(s) == []
  {
    if s > 0 {
      PairsBeforeCount(s - 1, s);
      assert 2 * (s - 1) * s - (s - 1) * s == s * (s - 1);
    }
  }

  lemma {:induction false} PairsBeforeMembers(i: nat, s: nat, p: nat, q: nat)
    requires i <= s
    ensures (p, q) in PairsBefore(i, s) <==> p < i && p < q < s
  {
    if i > 0 {
      PairsBeforeMembers(i - 1, s, p, q);
      if p == i - 1 && p < q < s {
        assert Row(i - 1, s)[q - i] == (p, q);
      }
    }
  }

  lemma PairsBeforeLast(s: nat, p: nat, q: nat)
    requires s > 0
    ensures (p, q) in PairsBefore(s - 1, s) <==> p < q < s
  {
    PairsBeforeMembers(s - 1, s, p, q);
  }

  /** Exactly the pairs of positions p < q < s are visited, the earlier position first. */
  lemma PositionPairsMembers(s: nat, p: nat, q: nat)
    ensures (p, q) in PositionPairs(s) <==> p < q < s
  {
    if s > 0 {
      PairsBeforeLast(s, p, q);
      assert PositionPairs(s) == PairsBefore(s - 1, s);
    }
  }

  /** Pair `x` comes strictly before pair `y` in lexicographic order. */
  predicate LexLess(x: (nat, nat), y: (nat, nat)) {
    x.0 < y.0 || (x.0 == y.0 && x.1 < y.1)
  }

  lemma {:induction false} PairsBeforeOrdered(i: nat, s: nat)
    requires i <= s
    ensures forall a, b :: 0 <= a < b < |PairsBefore(i, s)| ==> LexLess(PairsBefore(i, s)[a], PairsBefore(i, s)[b])
    ensures forall a :: 0 <= a < |PairsBefore(i, s)| ==> PairsBefore(i, s)[a].0 < i
  {
    if i > 0 {
      PairsBeforeOrdered(i - 1, s);
      var front := PairsBefore(i - 1, s);
      var row := Row(i - 1, s);
      var all := front + row;
      forall a, b | 0 <= a < b < |all| ensures LexLess(all[a], all[b]) {
        if b < |front| {
          assert all[a] == front[a] && all[b] == front[b];
        } else if a < |front| {
          assert all[a] == front[a] && all[b] == row[b - |front|];
        } else {
          assert all[a] == row[a - |front|] && all[b] == row[b - |front|];
        }
      }
    }
  }

  /** No pair is visited twice: the visiting order is strictly increasing. */
  lemma PositionPairsOnce(s: nat)
    ensures forall a, b :: 0 <= a < b < |PositionPairs(s)| ==> PositionPairs(s)[a] != PositionPairs(s)[b]
  {
    if s > 0 {
      PairsBeforeOrdered(s - 1, s);
    }
  }

  // ---------------------------------------------------------------------------
  // Measuring the sample

  /** The store's iteration order: every key exactly once. */
  predicate Enumerates(order: seq<Id>, m: map<Id, Val>) {
    |order| == |m| &&
    (forall i :: 0 <= i < |order| ==> order[i] in m) &&
    (forall i, j :: 0 <= i < j < |order| ==> order[i] != order[j])
  }

  /** The observation for sample positions (p, q): the records `std::advance` reaches. */
  function ObserveAt(m: map<Id, Val>, order: seq<Id>, sample: seq<nat>, ncd: (Val, Val) -> real, pq: (nat, nat)): Observation
    requires forall i :: 0 <= i < |order| ==> order[i] in m
    requires forall i :: 0 <= i < |sample| ==> sample[i] < |order|
    requires pq.0 < |sample| && pq.1 < |sample|
  {
    var a := order[sample[pq.0]];
    var b := order[sample[pq.1]];
    Observation(a, b, ncd(m[a], m[b]))
  }

  /** The observations for a list of position pairs, in list order. */
  function ObserveAll(m: map<Id, Val>, order: seq<Id>, sample: seq<nat>, ncd: (Val, Val) -> real, ps: seq<(nat, nat)>): seq<Observation>
    requires forall i :: 0 <= i < |order| ==> order[i] in m
    requires forall i :: 0 <= i < |sample| ==> sample[i] < |order|
    requires forall k :: 0 <= k < |ps| ==> ps[k].0 < |sample| && ps[k].1 < |sample|
  {
    seq(|ps|, k requires 0 <= k < |ps| => ObserveAt(m, order, sample, ncd, ps[k]))
  }

  lemma ObserveAllSnoc(m: map<Id, Val>, order: seq<Id>, sample: seq<nat>, ncd: (Val, Val) -> real, ps: seq<(nat, nat)>, pq: (nat, nat))
    requires forall i :: 0 <= i < |order| ==> order[i] in m
    requires forall i :: 0 <= i < |sample| ==> sample[i] < |order|
    requires forall k :: 0 <= k < |ps| ==> ps[k].0 < |sample| && ps[k].1 < |sample|
    requires pq.0 < |sample| && pq.1 < |sample|
    ensures ObserveAll(m, order, sample, ncd, ps + [pq]) == ObserveAll(m, order, sample, ncd, ps) + [ObserveAt(m, order, sample, ncd, pq)]
  {
    assert (ps + [pq])[..|ps|] == ps;
  }

  /** What sample mode emits: one observation per visited pair of sample positions. */
  function SampleObservations(m: map<Id, Val>, order: seq<Id>, sample: seq<nat>, ncd: (Val, Val) -> real): seq<Observation>
    requires forall i :: 0 <= i < |order| ==> order[i] in m
    requires forall i :: 0 <= i < |sample| ==> sample[i] < |order|
  {
    ObserveAll(m, order, sample, ncd, PositionPairs(|sample|))
  }

  lemma ObserveAllAppend(m: map<Id, Val>, order: seq<Id>, sample: seq<nat>, ncd: (Val, Val) -> real, ps: seq<(nat, nat)>, qs: seq<(nat, nat)>)
    requires forall i :: 0 <= i < |order| ==> order[i] in m
    requires forall i :: 0 <= i < |sample| ==> sample[i] < |order|
    requires forall k :: 0 <= k < |ps| ==> ps[k].0 < |sample| && ps[k].1 < |sample|
    requires forall k :: 0 <= k < |qs| ==> qs[k].0 < |sample| && qs[k].1 < |sample|
    ensures ObserveAll(m, order, sample, ncd, ps + qs) == ObserveAll(m, order, sample, ncd, ps) + ObserveAll(m, order, sample, ncd, qs)
  {
  }

  /**
   * One pass of the inner loop: for i < j < |sample|, the distance between the
   * records at positions sample[i] and sample[j] of the store's iteration order.
   */
  method MeasureRow(m: map<Id, Val>, order: seq<Id>, sample: seq<nat>, ncd: (Val, Val) -> real, i: nat)
    returns (row: seq<Observation>)
    requires forall k :: 0 <= k < |order| ==> order[k] in m
    requires forall k :: 0 <= k < |sample| ==> sample[k] < |order|
    requires i < |sample|
    ensures row == ObserveAll(m, order, sample, ncd, Row(i, |sample|))
  {
    row := [];
    var j := i + 1;
    while j < |sample|
      invariant i + 1 <= j <= |sample|
      invariant row == ObserveAll(m, order, sample, ncd, Row(i, j))
    {
      var a := order[sample[i]];
      var b := order[sample[j]];
      ObserveAllSnoc(m, order, sample, ncd, Row(i, j), (i, j));
      row := row + [Observation(a, b, ncd(m[a], m[b]))];
      j := j + 1;
    }
  }

  /**
   * The nested loops over the sample: the outer index runs over every sample
   * position but the last, and each pass of the inner loop measures its row.
   */
  method MeasureSample(m: map<Id, Val>, order: seq<Id>, sample: seq<nat>, ncd: (Val, Val) -> real)
    returns (obs: seq<Observation>)
    requires forall i :: 0 <= i < |order| ==> order[i] in m
    requires |sample| >= 1
    requires forall i :: 0 <= i < |sample| ==> sample[i] < |order|
    ensures obs == SampleObservations(m, order, sample, ncd)
  {
    var s := |sample|;
    obs := [];
    var i := 0;
    while i < s - 1
      invariant 0 <= i <= s - 1
      invariant obs == ObserveAll(m, order, sample, ncd, PairsBefore(i, s))
    {
      var row := MeasureRow(m, order, sample, ncd, i);
      ObserveAllAppend(m, order, sample, ncd, PairsBefore(i, s), Row(i, s));
      obs := obs + row;
      i := i + 1;
    }
  }

  /**
   * Sample mode on a sample of distinct positions emits s·(s−1)/2 observations:
   * one for every pair of sample positions p < q, the earlier one first, each pair
   * of records once and no record paired with itself.
   */
  lemma SampleObservationsSpec(m: map<Id, Val>, order: seq<Id>, sample: seq<nat>, ncd: (Val, Val) -> real)
    requires Enumerates(order, m)
    requires forall i :: 0 <= i < |sample| ==> sample[i] < |order|
    requires forall i, j :: 0 <= i < j < |sample| ==> sample[i] != sample[j]
    ensures |SampleObservations(m, order, sample, ncd)| == |sample| * (|sample| - 1) / 2
    ensures forall p, q :: 0 <= p < q < |sample| ==>
      Observation(order[sample[p]], order[sample[q]], ncd(m[order[sample[p]]], m[order[sample[q]]]))
        in SampleObservations(m, order, sample, ncd)
    ensures var obs := SampleObservations(m, order, sample, ncd);
      forall k :: 0 <= k < |obs| ==> obs[k].a != obs[k].b
    ensures var obs := SampleObservations(m, order, sample, ncd);
      forall k, l :: 0 <= k < l < |obs| ==> (obs[k].a, obs[k].b) != (obs[l].a, obs[l].b)
  {
    var s := |sample|;
    var ps := PositionPairs(s);
    var obs := SampleObservations(m, order, sample, ncd);
    PositionPairsCount(s);
    PositionPairsOnce(s);
    forall p, q | 0 <= p < q < s
      ensures Observation(order[sample[p]], order[sample[q]], ncd(m[order[sample[p]]], m[order[sample[q]]])) in obs
    {
      PositionPairsMembers(s, p, q);
      var k :| 0 <= k < |ps| && ps[k] == (p, q);
      assert obs[k] == ObserveAt(m, order, sample, ncd, (p, q));
    }
    forall k, l | 0 <= k < l < |obs| ensures (obs[k].a, obs[k].b) != (obs[l].a, obs[l].b) {
      DistinctPositionsDistinctIds(order, sample, ps[k], ps[l]);
    }
    forall k | 0 <= k < |obs| ensures obs[k].a != obs[k].b {
      assert ps[k].0 < ps[k].1;
    }
  }

  lemma DistinctPositionsDistinctIds(order: seq<Id>, sample: seq<nat>, x: (nat, nat), y: (nat, nat))
    requires forall i, j :: 0 <= i < j < |order| ==> order[i] != order[j]
    requires forall i :: 0 <= i < |sample| ==> sample[i] < |order|
    requires forall i, j :: 0 <= i < j < |sample| ==> sample[i] != sample[j]
    requires x.0 < |sample| && x.1 < |sample| && y.0 < |sample| && y.1 < |sample|
    requires x != y
    ensures (order[sample[x.0]], order[sample[x.1]]) != (order[sample[y.0]], order[sample[y.1]])
  {
    if x.0 != y.0 {
      assert sample[x.0] != sample[y.0];
    } else {
      assert sample[x.1] != sample[y.1];
    }
  }
}
