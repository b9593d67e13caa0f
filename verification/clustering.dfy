/**
 * Canopy mode: after the compressed-length pre-pass, repeatedly draw a pivot from
 * the pool, put it and every record closer than t1 into a new canopy, and take it
 * and every record closer than t2 out of the pool, until the pool is empty.
 */
module Clustering {
  import opened Records
  import opened CanopySpec
  import opened Store

  /** The records of `pool` other than `pivot`, among `done`, closer to the pivot than `t`. */
  function Within(pool: map<Id, Val>, pivot: Id, ncd: (Val, Val) -> real, t: real, done: set<Id>): set<Id>
    requires pivot in pool
  {
    set r | r in done && r in pool && r != pivot && ncd(pool[r], pool[pivot]) < t
  }

  lemma WithinStep(pool: map<Id, Val>, pivot: Id, ncd: (Val, Val) -> real, t: real, done: set<Id>, r: Id)
    requires pivot in pool && r in pool
    ensures Within(pool, pivot, ncd, t, done + {r}) ==
      Within(pool, pivot, ncd, t, done) + (if r != pivot && ncd(pool[r], pool[pivot]) < t then {r} else {})
  {
  }

  class CanopyRun {
    /** The record store the run drains (`m_map`). */
    const store: RecordStore
    const t1: real
    const t2: real
    /** The normalised compression distance, left opaque. */
    const ncd: (Val, Val) -> real
    /** `canopies`: canopy number to its member identifiers. */
    var canopies: map<nat, set<Id>>
    /** `c`: the number of the next canopy. */
    var c: nat
    /** The pool before each round so far, and after the last one. */
    ghost var pools: seq<map<Id, Val>>
    /** The pivot drawn in each round so far. */
    ghost var pivots: seq<Id>

    /**
     * The run so far is a trace of rounds from the first pool, the store holds what
     * the last round left, and canopy k is round k's canopy.
     */
    ghost predicate Valid()
      reads this, store
    {
      IsTrace(pools, pivots, ncd, t2) &&
      store.records == pools[|pivots|] &&
      c == |pivots| &&
      (forall k: nat :: k in canopies <==> k < c) &&
      forall k: nat :: k < c ==> canopies[k] == CanopyOf(pools, pivots, ncd, t1, t2, k)
    }

    constructor (store: RecordStore, t1: real, t2: real, ncd: (Val, Val) -> real)
      ensures this.store == store && this.t1 == t1 && this.t2 == t2 && this.ncd == ncd
      ensures Valid()
      ensures canopies == map[] && c == 0
      ensures pools == [store.records] && pivots == []
    {
      this.store := store;
      this.t1 := t1;
      this.t2 := t2;
      this.ncd := ncd;
      canopies := map[];
      c := 0;
      pools := [store.records];
      pivots := [];
      new;
    }

    /**
     * The sweep of one round: canopy `c` becomes the pivot and every other pooled
     * record closer than t1, and the collected elements are the pivot and every
     * other pooled record closer than t2.
     */
    method Sweep(pivot: Id) returns (elements: seq<Id>)
      requires pivot in store.records
      modifies this`canopies
      ensures canopies == old(canopies)[c := Tight(store.records, pivot, ncd, t1)]
      ensures Elements(elements) == Removed(store.records, pivot, ncd, t2)
    {
      var pool := store.records;
      canopies := canopies[c := {pivot}];
      elements := [pivot];
      var rest := pool.Keys;
      assert Within(pool, pivot, ncd, t1, pool.Keys - rest) == {};
      assert Within(pool, pivot, ncd, t2, pool.Keys - rest) == {};
      assert {pivot} + Within(pool, pivot, ncd, t1, pool.Keys - rest) == {pivot};
      while rest != {}
        invariant rest <= pool.Keys
        invariant c in canopies && canopies == old(canopies)[c := canopies[c]]
        invariant canopies[c] == {pivot} + Within(pool, pivot, ncd, t1, pool.Keys - rest)
        invariant Elements(elements) == {pivot} + Within(pool, pivot, ncd, t2, pool.Keys - rest)
        decreases rest
      {
        var r :| r in rest;
        ghost var done := pool.Keys - rest;
        assert pool.Keys - (rest - {r}) == done + {r};
        WithinStep(pool, pivot, ncd, t1, done, r);
        WithinStep(pool, pivot, ncd, t2, done, r);
        if r != pivot {
          var d := ncd(pool[r], pool[pivot]);
          if d < t1 {
            canopies := canopies[c := canopies[c] + {r}];
          }
          if d < t2 {
            assert Elements(elements + [r]) == Elements(elements) + {r};
            elements := elements + [r];
          }
        }
        rest := rest - {r};
      }
      assert pool.Keys - rest == pool.Keys;
      assert canopies[c] == Tight(pool, pivot, ncd, t1);
    }

    /**
     * One round with the given pivot: the sweep, then the collected elements leave
     * the pool, and `c` moves on.
     */
    method Round(pivot: Id)
      requires Valid() && pivot in store.records
      modifies this, store
      ensures Valid()
      ensures pools == old(pools) + [store.records] && pivots == old(pivots) + [pivot]
      ensures c == old(c) + 1
      ensures canopies == old(canopies)[old(c) := Tight(old(store.records), pivot, ncd, t1)]
      ensures store.records == Remaining(old(store.records), pivot, ncd, t2)
      ensures forall r :: r in old(store.records) && r != pivot ==>
        (r in canopies[old(c)] <==> ncd(old(store.records)[r], old(store.records)[pivot]) < t1) &&
        (r !in store.records <==> ncd(old(store.records)[r], old(store.records)[pivot]) < t2)
    {
      var pool := store.records;
      var elements := Sweep(pivot);
      store.EraseAll(elements);
      c := c + 1;
      pools := pools + [store.records];
      pivots := pivots + [pivot];
      forall r | r in pool && r != pivot
        ensures (r in canopies[old(c)] <==> ncd(pool[r], pool[pivot]) < t1)
        ensures (r !in store.records <==> ncd(pool[r], pool[pivot]) < t2)
      {
        RoundRule(pool, pivot, ncd, t1, t2, r);
      }
      TraceExtends(old(pools), old(pivots), pivot, ncd, t1, t2);
    }

    /**
     * The canopy loop: rounds with an arbitrary pooled pivot until the pool is empty.
     * Afterwards the canopies are numbered 0 to c - 1, each holds its pivot and only
     * loaded records, there are at most as many canopies as loaded records, and with
     * t1 <= t2 no record is in two canopies.
     */
    method Run()
      requires Valid()
      modifies this, store
      ensures Valid() && store.records == map[]
      ensures pools[0] == old(pools)[0]
      ensures forall k: nat :: k in canopies <==> k < c
      ensures forall k: nat :: k < c ==> pivots[k] in canopies[k] && canopies[k] <= pools[0].Keys
      ensures c <= |pools[0]|
      ensures t1 <= t2 ==> forall k: nat, l: nat :: k < l < c ==> canopies[k] !! canopies[l]
    {
      while |store.records| > 0
        invariant Valid() && pools[0] == old(pools)[0]
        decreases store.records.Keys
      {
        var pivot :| pivot in store.records;
        Round(pivot);
        RoundShrinks(pools[|pivots| - 1], pivot, ncd, t2);
      }
      assert store.records == map[];
      forall k: nat | k < c
        ensures pivots[k] in canopies[k] && canopies[k] <= pools[0].Keys
      {
        CanopyMembersLoaded(pools, pivots, ncd, t1, t2, k);
      }
      RoundsBounded(pools, pivots, ncd, t2);
      if t1 <= t2 {
        forall k: nat, l: nat | k < l < c
          ensures canopies[k] !! canopies[l]
        {
          CanopiesDisjoint(pools, pivots, ncd, t1, t2, k, l);
        }
      }
    }
  }

  /**
   * Canopy mode as a whole: the compressed-length pre-pass over every record, then
   * the canopy loop over the store.
   */
  method CanopyMode(store: RecordStore, t1: real, t2: real, compress: string -> uint32, ncd: (Val, Val) -> real)
    returns (run: CanopyRun)
    modifies store
    ensures fresh(run) && run.store == store && run.Valid()
    ensures run.pools[0] == Compressed(old(store.records), old(store.records).Keys, compress)
    ensures store.records == map[]
    ensures run.c <= |old(store.records)|
    ensures forall k: nat :: k < run.c ==> run.canopies[k] <= old(store.records).Keys
  {
    store.Compress(store.records.Keys, compress);
    run := new CanopyRun(store, t1, t2, ncd);
    run.Run();
  }
}
