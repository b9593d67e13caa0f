/**
 * What one round of canopy clustering does to the pool, and what a whole run
 * (a trace of pools and pivots) guarantees.
 */
module CanopySpec {
  import opened Records

  /** The records a round puts into the pivot's canopy: the pivot and every other record closer than t1. */
  function Tight(pool: map<Id, Val>, pivot: Id, ncd: (Val, Val) -> real, t1: real): set<Id>
    requires pivot in pool
  {
    {pivot} + set r | r in pool && r != pivot && ncd(pool[r], pool[pivot]) < t1
  }

  /** The records a round takes out of the pool: the pivot and every other record closer than t2. */
  function Removed(pool: map<Id, Val>, pivot: Id, ncd: (Val, Val) -> real, t2: real): set<Id>
    requires pivot in pool
  {
    {pivot} + set r | r in pool && r != pivot && ncd(pool[r], pool[pivot]) < t2
  }

  /** The pool after the round. */
  function Remaining(pool: map<Id, Val>, pivot: Id, ncd: (Val, Val) -> real, t2: real): map<Id, Val>
    requires pivot in pool
  {
    pool - Removed(pool, pivot, ncd, t2)
  }

  /**
   * The threshold rule for one record of the pool other than the pivot: it joins the
   * canopy iff it is closer than t1, it leaves the pool iff it is closer than t2, and
   * otherwise it stays with its value unchanged. The pivot joins and leaves.
   */
  lemma RoundRule(pool: map<Id, Val>, pivot: Id, ncd: (Val, Val) -> real, t1: real, t2: real, r: Id)
    requires pivot in pool && r in pool && r != pivot
    ensures r in Tight(pool, pivot, ncd, t1) <==> ncd(pool[r], pool[pivot]) < t1
    ensures r !in Remaining(pool, pivot, ncd, t2) <==> ncd(pool[r], pool[pivot]) < t2
    ensures r in Remaining(pool, pivot, ncd, t2) ==> Remaining(pool, pivot, ncd, t2)[r] == pool[r]
    ensures pivot in Tight(pool, pivot, ncd, t1) && pivot !in Remaining(pool, pivot, ncd, t2)
  {
  }

  // ---------------------------------------------------------------------------
  // Traces

  /**
   * `pools[k]` is the pool before round k and `pivots[k]` the pivot drawn from it;
   * `pools[k + 1]` is what round k leaves.
   */
  predicate IsTrace(pools: seq<map<Id, Val>>, pivots: seq<Id>, ncd: (Val, Val) -> real, t2: real) {
    |pools| == |pivots| + 1 &&
    forall k :: 0 <= k < |pivots| ==>
      pivots[k] in pools[k] && pools[k + 1] == Remaining(pools[k], pivots[k], ncd, t2)
  }

  /** Canopy k of a trace. */
  function CanopyOf(pools: seq<map<Id, Val>>, pivots: seq<Id>, ncd: (Val, Val) -> real, t1: real, t2: real, k: nat): set<Id>
    requires IsTrace(pools, pivots, ncd, t2) && k < |pivots|
  {
    Tight(pools[k], pivots[k], ncd, t1)
  }

  /** Extending a trace by one round keeps it a trace and leaves the earlier canopies as they were. */
  lemma TraceExtends(pools: seq<map<Id, Val>>, pivots: seq<Id>, pivot: Id, ncd: (Val, Val) -> real, t1: real, t2: real)
    requires IsTrace(pools, pivots, ncd, t2) && pivot in pools[|pivots|]
    ensures var pools' := pools + [Remaining(pools[|pivots|], pivot, ncd, t2)];
      var pivots' := pivots + [pivot];
      IsTrace(pools', pivots', ncd, t2) &&
      pools'[|pivots'|] == Remaining(pools[|pivots|], pivot, ncd, t2) &&
      CanopyOf(pools', pivots', ncd, t1, t2, |pivots|) == Tight(pools[|pivots|], pivot, ncd, t1) &&
      forall k :: 0 <= k < |pivots| ==> CanopyOf(pools', pivots', ncd, t1, t2, k) == CanopyOf(pools, pivots, ncd, t1, t2, k)
  {
    var pools' := pools + [Remaining(pools[|pivots|], pivot, ncd, t2)];
    var pivots' := pivots + [pivot];
    assert forall k :: 0 <= k < |pools| ==> pools'[k] == pools[k];
    assert forall k :: 0 <= k < |pivots| ==> pivots'[k] == pivots[k];
  }

  /** One round takes at least its pivot out of the pool and adds nothing. */
  lemma RoundShrinks(pool: map<Id, Val>, pivot: Id, ncd: (Val, Val) -> real, t2: real)
    requires pivot in pool
    ensures Remaining(pool, pivot, ncd, t2).Keys < pool.Keys
    ensures |Remaining(pool, pivot, ncd, t2)| < |pool|
  {
    var rest := Remaining(pool, pivot, ncd, t2);
    assert pivot !in rest;
    SubsetCardinality(rest.Keys, pool.Keys);
  }

  /** Pools only shrink, by at least one record per round. */
  lemma {:induction false} PoolShrinks(pools: seq<map<Id, Val>>, pivots: seq<Id>, ncd: (Val, Val) -> real, t2: real, k: nat, l: nat)
    requires IsTrace(pools, pivots, ncd, t2)
    requires k <= l <= |pivots|
    ensures pools[l].Keys <= pools[k].Keys
    ensures |pools[l]| + (l - k) <= |pools[k]|
    decreases l
  {
    if k < l {
      PoolShrinks(pools, pivots, ncd, t2, k, l - 1);
      RoundShrinks(pools[l - 1], pivots[l - 1], ncd, t2);
    }
  }

  /** There are never more rounds, hence canopies, than loaded records. */
  lemma RoundsBounded(pools: seq<map<Id, Val>>, pivots: seq<Id>, ncd: (Val, Val) -> real, t2: real)
    requires IsTrace(pools, pivots, ncd, t2)
    ensures |pivots| <= |pools[0]|
  {
    PoolShrinks(pools, pivots, ncd, t2, 0, |pivots|);
  }

  /** No record is drawn as pivot twice. */
  lemma PivotsDistinct(pools: seq<map<Id, Val>>, pivots: seq<Id>, ncd: (Val, Val) -> real, t2: real, k: nat, l: nat)
    requires IsTrace(pools, pivots, ncd, t2)
    requires k < l < |pivots|
    ensures pivots[k] != pivots[l]
  {
    PoolShrinks(pools, pivots, ncd, t2, k + 1, l);
    assert pivots[k] !in pools[k + 1];
  }

  /** Every canopy member is a record that was loaded, and each canopy holds its pivot. */
  lemma CanopyMembersLoaded(pools: seq<map<Id, Val>>, pivots: seq<Id>, ncd: (Val, Val) -> real, t1: real, t2: real, k: nat)
    requires IsTrace(pools, pivots, ncd, t2) && k < |pivots|
    ensures pivots[k] in CanopyOf(pools, pivots, ncd, t1, t2, k)
    ensures CanopyOf(pools, pivots, ncd, t1, t2, k) <= pools[0].Keys
  {
    PoolShrinks(pools, pivots, ncd, t2, 0, k);
  }

  /**
   * With t1 <= t2 no record is in two canopies: each canopy member is also taken
   * out of the pool, and later canopies are drawn from what is left.
   */
  lemma CanopiesDisjoint(pools: seq<map<Id, Val>>, pivots: seq<Id>, ncd: (Val, Val) -> real, t1: real, t2: real, k: nat, l: nat)
    requires IsTrace(pools, pivots, ncd, t2) && t1 <= t2
    requires k < l < |pivots|
    ensures CanopyOf(pools, pivots, ncd, t1, t2, k) !! CanopyOf(pools, pivots, ncd, t1, t2, l)
  {
    var tk := CanopyOf(pools, pivots, ncd, t1, t2, k);
    assert tk <= Removed(pools[k], pivots[k], ncd, t2);
    assert tk !! pools[k + 1].Keys;
    PoolShrinks(pools, pivots, ncd, t2, k + 1, l);
  }

  /**
   * With t1 <= t2, a record that round k removes without taking it into its canopy
   * (t1 <= distance < t2) ends up in no canopy at all: the canopies need not cover
   * every loaded record.
   */
  lemma LooseOnlyInNoCanopy(pools: seq<map<Id, Val>>, pivots: seq<Id>, ncd: (Val, Val) -> real, t1: real, t2: real, k: nat, r: Id)
    requires IsTrace(pools, pivots, ncd, t2) && t1 <= t2
    requires k < |pivots| && r in pools[k] && r != pivots[k]
    requires t1 <= ncd(pools[k][r], pools[k][pivots[k]]) < t2
    ensures r !in pools[k + 1]
    ensures forall l :: 0 <= l < |pivots| ==> r !in CanopyOf(pools, pivots, ncd, t1, t2, l)
  {
    forall l | 0 <= l < |pivots| ensures r !in CanopyOf(pools, pivots, ncd, t1, t2, l) {
      if l < k {
        // r survived round l, so it was not within t2, hence not within t1, of pivot l
        PoolShrinks(pools, pivots, ncd, t2, l + 1, k);
        assert r in pools[l + 1];
        RoundRule(pools[l], pivots[l], ncd, t1, t2, r);
      } else if l > k {
        PoolShrinks(pools, pivots, ncd, t2, k + 1, l);
      }
    }
  }

  lemma {:induction false} RemovedFrom(pools: seq<map<Id, Val>>, pivots: seq<Id>, ncd: (Val, Val) -> real, t2: real, r: Id, i: nat)
    requires IsTrace(pools, pivots, ncd, t2)
    requires i <= |pivots| && r in pools[i] && r !in pools[|pivots|]
    ensures exists k :: i <= k < |pivots| && r in pools[k] && r !in pools[k + 1]
    decreases |pivots| - i
  {
    if r !in pools[i + 1] {
      assert i < |pivots| && r in pools[i] && r !in pools[i + 1];
    } else {
      RemovedFrom(pools, pivots, ncd, t2, r, i + 1);
    }
  }

  /**
   * A run that drains the pool removes every loaded record in some round, and a
   * record once removed never returns: each record is removed exactly once.
   */
  lemma DrainedRemovesEachOnce(pools: seq<map<Id, Val>>, pivots: seq<Id>, ncd: (Val, Val) -> real, t2: real, r: Id)
    requires IsTrace(pools, pivots, ncd, t2)
    requires pools[|pivots|] == map[] && r in pools[0]
    ensures exists k :: 0 <= k < |pivots| && r in pools[k] && r !in pools[k + 1]
    ensures forall k, l :: 0 <= k < l <= |pivots| && r !in pools[k] ==> r !in pools[l]
  {
    RemovedFrom(pools, pivots, ncd, t2, r, 0);
    forall k, l | 0 <= k < l <= |pivots| && r !in pools[k] ensures r !in pools[l] {
      PoolShrinks(pools, pivots, ncd, t2, k, l);
    }
  }

  // ---------------------------------------------------------------------------
  // Thresholds in the wrong order

  const ExampleStore: map<Id, Val> := map[1 := Val("a", 1), 2 := Val("b", 1)]

  /** A constant distance of 0.3 between any two records. */
  function ExampleDistance(x: Val, y: Val): real {
    0.3
  }

  /**
   * Nothing checks t1 < t2. With t1 = 0.5 and t2 = 0.25, drawing record 1 and then
   * record 2 puts record 2 into both canopies.
   */
  lemma InvertedThresholdsOverlap()
    ensures var pools := [ExampleStore, ExampleStore - {1}, map[]];
      IsTrace(pools, [1, 2], ExampleDistance, 0.25) &&
      2 in CanopyOf(pools, [1, 2], ExampleDistance, 0.5, 0.25, 0) &&
      2 in CanopyOf(pools, [1, 2], ExampleDistance, 0.5, 0.25, 1)
  {
    var pools := [ExampleStore, ExampleStore - {1}, map[]];
    assert Removed(pools[0], 1, ExampleDistance, 0.25) == {1};
    assert Remaining(pools[0], 1, ExampleDistance, 0.25) == pools[1];
    assert pools[1].Keys == {2};
    assert Removed(pools[1], 2, ExampleDistance, 0.25) == {2};
    assert Remaining(pools[1], 2, ExampleDistance, 0.25) == pools[2];
    assert 2 in ExampleStore && ExampleDistance(ExampleStore[2], ExampleStore[1]) < 0.5;
  }
}
