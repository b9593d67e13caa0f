/**
 * The record store of `main` (`m_map`): loading the record file, the
 * compressed-length pre-pass, and the explicit-pairs and sample modes.
 */
module Store {
  import opened Records
  import opened LineParsing
  import opened Sampling

  // ---------------------------------------------------------------------------
  // Loading the record file

  /** Every line of the record file, parsed on its own. */
  function RecordLines(lines: seq<string>): (r: seq<RecordLine>)
    ensures |r| == |lines|
  {
    seq(|lines|, i requires 0 <= i < |lines| => ParseRecordLine(lines[i]))
  }

  /** What one parsed line does to the store: `None` when the line stops the load. */
  function Enter(m: map<Id, Val>, entry: RecordLine): Option<map<Id, Val>> {
    match entry
    case BlankRecord => Some(m)
    case Record(id, sequence) => Some(m[id := Val(sequence, 0)])
    case BadRecordId(_) => None
    case ShortRecord(_) => None
  }

  /** The store after applying `entries` to `m` in order, or `None` once a line stopped the load. */
  function Apply(m: map<Id, Val>, entries: seq<RecordLine>): Option<map<Id, Val>>
    decreases |entries|
  {
    if entries == [] then Some(m)
    else
      match Apply(m, entries[..|entries| - 1])
      case None => None
      case Some(m') => Enter(m', entries[|entries| - 1])
  }

  lemma ApplyStep(m: map<Id, Val>, entries: seq<RecordLine>, i: nat, m': map<Id, Val>)
    requires i < |entries| && Apply(m, entries[..i]) == Some(m')
    ensures Apply(m, entries[..i + 1]) == Enter(m', entries[i])
  {
    assert entries[..i + 1][..i] == entries[..i];
  }

  /** The store after reading the record file into `m`. */
  function Loaded(m: map<Id, Val>, lines: seq<string>): Option<map<Id, Val>>
  {
    Apply(m, RecordLines(lines))
  }

  /** The ids the record entries name. */
  function RecordIds(entries: seq<RecordLine>): set<Id> {
    set i | 0 <= i < |entries| && entries[i].Record? :: entries[i].id
  }

  /** Loading fails exactly when some line holds an id that does not parse or a single token. */
  lemma {:induction false} LoadFailsOnBadLine(m: map<Id, Val>, entries: seq<RecordLine>)
    ensures Apply(m, entries).None? <==> exists i :: 0 <= i < |entries| && entries[i].Fails()
    decreases |entries|
  {
    if entries != [] {
      var front := entries[..|entries| - 1];
      LoadFailsOnBadLine(m, front);
      assert forall i :: 0 <= i < |front| ==> front[i] == entries[i];
    }
  }

  /**
   * A successful load holds the ids it started with plus every id a record line
   * names; blank lines add nothing.
   */
  lemma {:induction false} LoadedKeys(m: map<Id, Val>, entries: seq<RecordLine>)
    requires Apply(m, entries).Some?
    ensures Apply(m, entries).value.Keys == m.Keys + RecordIds(entries)
    decreases |entries|
  {
    if entries != [] {
      var front := entries[..|entries| - 1];
      LoadedKeys(m, front);
      assert forall i :: 0 <= i < |front| ==> front[i] == entries[i];
      var last := |entries| - 1;
      if entries[last].Record? {
        assert RecordIds(entries) == RecordIds(front) + {entries[last].id};
      } else {
        assert RecordIds(entries) == RecordIds(front);
      }
    }
  }

  /** For an id named on several lines, the last such line decides the stored value. */
  lemma {:induction false} LastLineWins(m: map<Id, Val>, entries: seq<RecordLine>, i: nat, id: Id, sequence: string)
    requires Apply(m, entries).Some?
    requires i < |entries| && entries[i] == Record(id, sequence)
    requires forall j :: i < j < |entries| ==> !(entries[j].Record? && entries[j].id == id)
    ensures id in Apply(m, entries).value && Apply(m, entries).value[id] == Val(sequence, 0)
    decreases |entries|
  {
    var front := entries[..|entries| - 1];
    assert forall k :: 0 <= k < |front| ==> front[k] == entries[k];
    if i < |entries| - 1 {
      LastLineWins(m, front, i, id, sequence);
    }
  }

  /** An id no record line names keeps the value it had before the load. */
  lemma {:induction false} UnnamedIdsKept(m: map<Id, Val>, entries: seq<RecordLine>, id: Id)
    requires Apply(m, entries).Some? && id in m
    requires forall j :: 0 <= j < |entries| ==> !(entries[j].Record? && entries[j].id == id)
    ensures id in Apply(m, entries).value && Apply(m, entries).value[id] == m[id]
    decreases |entries|
  {
    if entries != [] {
      var front := entries[..|entries| - 1];
      assert forall k :: 0 <= k < |front| ==> front[k] == entries[k];
      UnnamedIdsKept(m, front, id);
    }
  }

  /** A file of blank lines leaves the store as it was. */
  lemma {:induction false} BlankLinesLoadNothing(m: map<Id, Val>, entries: seq<RecordLine>)
    requires forall i :: 0 <= i < |entries| ==> entries[i].BlankRecord?
    ensures Apply(m, entries) == Some(m)
    decreases |entries|
  {
    if entries != [] {
      BlankLinesLoadNothing(m, entries[..|entries| - 1]);
    }
  }

  /** Once a line has failed, the lines after it do not matter. */
  lemma {:induction false} LoadFailureSticks(m: map<Id, Val>, entries: seq<RecordLine>, i: nat)
    requires i <= |entries|
    requires Apply(m, entries[..i]).None?
    ensures Apply(m, entries).None?
    decreases |entries| - i
  {
    if i < |entries| {
      assert entries[..i + 1][..i] == entries[..i];
      LoadFailureSticks(m, entries, i + 1);
    } else {
      assert entries[..i] == entries;
    }
  }

  // ---------------------------------------------------------------------------
  // Reading the pairs file

  /** Every line of the pairs file, parsed on its own. */
  function PairLines(lines: seq<string>): (r: seq<PairLine>)
    ensures |r| == |lines|
  {
    seq(|lines|, i requires 0 <= i < |lines| => ParsePairLine(lines[i]))
  }

  /** What one parsed line does to the pairs list: `None` when an id did not parse. */
  function AddPair(ps: seq<(Id, Id)>, entry: PairLine): Option<seq<(Id, Id)>> {
    match entry
    case BlankPair => Some(ps)
    case Pair(a, b) => Some(ps + [(a, b)])
    case BadPairId(_) => None
    case ShortPair(_) => None
  }

  /** The pairs list the entries build, or `None` once a line stopped the load. */
  function CollectPairs(entries: seq<PairLine>): Option<seq<(Id, Id)>>
    decreases |entries|
  {
    if entries == [] then Some([])
    else
      match CollectPairs(entries[..|entries| - 1])
      case None => None
      case Some(ps) => AddPair(ps, entries[|entries| - 1])
  }

  lemma CollectStep(entries: seq<PairLine>, i: nat, ps: seq<(Id, Id)>)
    requires i < |entries| && CollectPairs(entries[..i]) == Some(ps)
    ensures CollectPairs(entries[..i + 1]) == AddPair(ps, entries[i])
  {
    assert entries[..i + 1][..i] == entries[..i];
  }

  /** The pairs list after reading the pairs file. */
  function ParsedPairs(lines: seq<string>): Option<seq<(Id, Id)>>
  {
    CollectPairs(PairLines(lines))
  }

  /** The entries that are pairs, in file order. */
  function PairsOnly(entries: seq<PairLine>): (r: seq<PairLine>)
    ensures forall k :: 0 <= k < |r| ==> r[k].Pair?
  {
    if entries == [] then []
    else if entries[0].Pair? then [entries[0]] + PairsOnly(entries[1..])
    else PairsOnly(entries[1..])
  }

  lemma {:induction false} PairsOnlySnoc(entries: seq<PairLine>, e: PairLine)
    ensures PairsOnly(entries + [e]) == PairsOnly(entries) + (if e.Pair? then [e] else [])
    decreases |entries|
  {
    if entries == [] {
      assert entries + [e] == [e];
      assert [e][1..] == [];
    } else {
      assert (entries + [e])[1..] == entries[1..] + [e];
      PairsOnlySnoc(entries[1..], e);
    }
  }

  /**
   * A successful read yields one pair per non-blank line, in file order, holding
   * that line's two ids.
   */
  lemma {:induction false} PairsFollowFile(entries: seq<PairLine>)
    requires CollectPairs(entries).Some?
    ensures var ps := CollectPairs(entries).value;
      |ps| == |PairsOnly(entries)| &&
      forall k :: 0 <= k < |ps| ==> PairsOnly(entries)[k] == Pair(ps[k].0, ps[k].1)
    decreases |entries|
  {
    if entries != [] {
      var front := entries[..|entries| - 1];
      var last := entries[|entries| - 1];
      assert front + [last] == entries;
      var before := CollectPairs(front);
      assert before.Some?;
      PairsFollowFile(front);
      PairsOnlySnoc(front, last);
      var ps := CollectPairs(entries).value;
      assert ps == if last.Pair? then before.value + [(last.first, last.second)] else before.value;
    }
  }

  /** Reading the pairs file fails exactly when some line holds an id that does not parse or a single token. */
  lemma {:induction false} PairsFailOnBadLine(entries: seq<PairLine>)
    ensures CollectPairs(entries).None? <==> exists i :: 0 <= i < |entries| && entries[i].Fails()
    decreases |entries|
  {
    if entries != [] {
      var front := entries[..|entries| - 1];
      PairsFailOnBadLine(front);
      assert forall i :: 0 <= i < |front| ==> front[i] == entries[i];
    }
  }

  /** Once a pairs line has failed, the lines after it do not matter. */
  lemma {:induction false} PairsFailureSticks(entries: seq<PairLine>, i: nat)
    requires i <= |entries|
    requires CollectPairs(entries[..i]).None?
    ensures CollectPairs(entries).None?
    decreases |entries| - i
  {
    if i < |entries| {
      assert entries[..i + 1][..i] == entries[..i];
      PairsFailureSticks(entries, i + 1);
    } else {
      assert entries[..i] == entries;
    }
  }

  /** Reads the pairs file line by line into a list, as the source's `while` loop does. */
  method ReadPairs(lines: seq<string>) returns (ok: bool, pairs: seq<(Id, Id)>)
    ensures ok <==> ParsedPairs(lines).Some?
    ensures ok ==> ParsedPairs(lines) == Some(pairs)
  {
    var entries := PairLines(lines);
    pairs := [];
    var i := 0;
    while i < |entries|
      invariant 0 <= i <= |entries|
      invariant CollectPairs(entries[..i]) == Some(pairs)
    {
      CollectStep(entries, i, pairs);
      match entries[i] {
        case BlankPair =>
        case Pair(a, b) =>
          pairs := pairs + [(a, b)];
        case BadPairId(_) | ShortPair(_) =>
          PairsFailureSticks(entries, i + 1);
          return false, pairs;
      }
      i := i + 1;
    }
    assert entries[..i] == entries;
    ok := true;
  }

  // ---------------------------------------------------------------------------
  // Explicit-pairs dispatch

  /** The ids a list of pairs names. */
  function PairIds(ps: seq<(Id, Id)>): set<Id> {
    (set p | p in ps :: p.0) + (set p | p in ps :: p.1)
  }

  /** The store after `m_map[a]` and `m_map[b]` for every pair: missing ids default-inserted. */
  function WithDefaults(m: map<Id, Val>, ps: seq<(Id, Id)>): map<Id, Val> {
    map id | id in m.Keys + PairIds(ps) :: ValueOrDefault(m, id)
  }

  /** The observation for each pair, in list order, over the store with defaults. */
  function PairObservations(m: map<Id, Val>, ps: seq<(Id, Id)>, ncd: (Val, Val) -> real): seq<Observation> {
    seq(|ps|, k requires 0 <= k < |ps| =>
      Observation(ps[k].0, ps[k].1, ncd(ValueOrDefault(m, ps[k].0), ValueOrDefault(m, ps[k].1))))
  }

  lemma WithDefaultsSnoc(m: map<Id, Val>, ps: seq<(Id, Id)>, p: (Id, Id))
    ensures WithDefaults(m, ps + [p]) ==
      WithDefaults(m, ps)[p.0 := ValueOrDefault(m, p.0)][p.1 := ValueOrDefault(m, p.1)]
  {
    PairIdsSnoc(ps, p);
  }

  lemma PairIdsSnoc(ps: seq<(Id, Id)>, p: (Id, Id))
    ensures PairIds(ps + [p]) == PairIds(ps) + {p.0, p.1}
  {
    assert (set x | x in ps + [p] :: x.0) == (set x | x in ps :: x.0) + {p.0};
    assert (set x | x in ps + [p] :: x.1) == (set x | x in ps :: x.1) + {p.1};
  }

  lemma PairObservationsSnoc(m: map<Id, Val>, ps: seq<(Id, Id)>, p: (Id, Id), ncd: (Val, Val) -> real)
    ensures PairObservations(m, ps + [p], ncd) ==
      PairObservations(m, ps, ncd) + [Observation(p.0, p.1, ncd(ValueOrDefault(m, p.0), ValueOrDefault(m, p.1)))]
  {
  }

  /**
   * Looking up missing ids grows the store by exactly those ids, each holding an
   * empty sequence with compressed length 0, and changes no stored record.
   */
  lemma DefaultsGrowStore(m: map<Id, Val>, ps: seq<(Id, Id)>)
    ensures WithDefaults(m, ps).Keys == m.Keys + PairIds(ps)
    ensures forall id :: id in m ==> WithDefaults(m, ps)[id] == m[id]
    ensures forall id :: id in PairIds(ps) && id !in m ==> WithDefaults(m, ps)[id] == Val("", 0)
    ensures !(PairIds(ps) <= m.Keys) ==> |WithDefaults(m, ps)| > |m|
  {
    var w := WithDefaults(m, ps);
    SubsetCardinality(m.Keys, w.Keys);
  }

  /**
   * The dispatch loop runs for indices below `|pairs| - 1`: the observations are the
   * pairs in file order except the last, which is measured only if it also occurs
   * earlier in the list.
   */
  lemma LastPairSkipped(m: map<Id, Val>, pairs: seq<(Id, Id)>, ncd: (Val, Val) -> real)
    requires |pairs| > 0
    ensures var obs := PairObservations(m, pairs[..|pairs| - 1], ncd);
      |obs| == |pairs| - 1 &&
      (forall k :: 0 <= k < |obs| ==> (obs[k].a, obs[k].b) == pairs[k]) &&
      ((forall k :: 0 <= k < |pairs| - 1 ==> pairs[k] != pairs[|pairs| - 1]) ==>
        forall k :: 0 <= k < |obs| ==> (obs[k].a, obs[k].b) != pairs[|pairs| - 1])
  {
  }

  // ---------------------------------------------------------------------------
  // The store

  /** `m` with the compressed length of every record named in `ids` computed. */
  function Compressed(m: map<Id, Val>, ids: set<Id>, compress: string -> uint32): (r: map<Id, Val>)
    ensures r.Keys == m.Keys && |r| == |m|
  {
    map id | id in m :: if id in ids then Val(m[id].sequence, compress(m[id].sequence)) else m[id]
  }

  class RecordStore {
    /** `m_map`: identifier to (sequence, compressed length). */
    var records: map<Id, Val>

    constructor ()
      ensures records == map[]
    {
      records := map[];
    }

    /**
     * Reads the record file: each non-blank trimmed line is split, its first token
     * parsed as the id and its second stored as the sequence with compressed length
     * 0, overwriting an earlier entry. A bad id stops the load (the cast throws).
     */
    method Load(lines: seq<string>) returns (ok: bool)
      modifies this
      ensures ok <==> Loaded(old(records), lines).Some?
      ensures ok ==> Loaded(old(records), lines) == Some(records)
    {
      ghost var m := records;
      var entries := RecordLines(lines);
      var i := 0;
      while i < |entries|
        invariant 0 <= i <= |entries|
        invariant Apply(m, entries[..i]) == Some(records)
      {
        ApplyStep(m, entries, i, records);
        match entries[i] {
          case BlankRecord =>
          case Record(id, sequence) =>
            records := records[id := Val(sequence, 0)];
          case BadRecordId(_) | ShortRecord(_) =>
            LoadFailureSticks(m, entries, i + 1);
            return false;
        }
        i := i + 1;
      }
      assert entries[..i] == entries;
      ok := true;
    }

    /**
     * The compressed-length pre-pass over the records named in `ids`: each one's
     * length becomes `compress` of its sequence; nothing else changes.
     */
    method Compress(ids: set<Id>, compress: string -> uint32)
      requires ids <= records.Keys
      modifies this
      ensures records == Compressed(old(records), ids, compress)
    {
      var rest := ids;
      while rest != {}
        invariant rest <= ids
        invariant records == Compressed(old(records), ids - rest, compress)
        decreases rest
      {
        var id :| id in rest;
        records := records[id := Val(records[id].sequence, compress(records[id].sequence))];
        rest := rest - {id};
      }
    }

    /** `m_map[id]`: the stored value, default-inserting `("", 0)` for a missing id. */
    method Get(id: Id) returns (v: Val)
      modifies this
      ensures records == old(records)[id := ValueOrDefault(old(records), id)]
      ensures v == ValueOrDefault(old(records), id)
    {
      if id !in records {
        records := records[id := DefaultVal];
      }
      v := records[id];
    }

    /**
     * `m_map.find` and `m_map.erase` for each listed identifier: every one that is
     * still stored is removed, and nothing else changes.
     */
    method EraseAll(ids: seq<Id>)
      modifies this
      ensures records == old(records) - Elements(ids)
    {
      var k := 0;
      while k < |ids|
        invariant 0 <= k <= |ids|
        invariant records == old(records) - Elements(ids[..k])
      {
        assert Elements(ids[..k + 1]) == Elements(ids[..k]) + {ids[k]};
        if ids[k] in records {
          records := records - {ids[k]};
        }
        k := k + 1;
      }
      assert ids[..k] == ids;
    }

    /**
     * The explicit-pairs loop: for i < |pairs| - 1, the distance between the records
     * of pairs[i], looked up with `operator[]`.
     */
    method DispatchPairs(pairs: seq<(Id, Id)>, ncd: (Val, Val) -> real) returns (obs: seq<Observation>)
      requires |pairs| > 0
      modifies this
      ensures records == WithDefaults(old(records), pairs[..|pairs| - 1])
      ensures obs == PairObservations(old(records), pairs[..|pairs| - 1], ncd)
    {
      obs := [];
      var i := 0;
      while i < |pairs| - 1
        invariant 0 <= i <= |pairs| - 1
        invariant records == WithDefaults(old(records), pairs[..i])
        invariant obs == PairObservations(old(records), pairs[..i], ncd)
      {
        ghost var m := old(records);
        assert pairs[..i + 1] == pairs[..i] + [pairs[i]];
        WithDefaultsSnoc(m, pairs[..i], pairs[i]);
        PairObservationsSnoc(m, pairs[..i], pairs[i], ncd);
        var va := Get(pairs[i].0);
        var vb := Get(pairs[i].1);
        assert va == ValueOrDefault(m, pairs[i].0);
        assert vb == ValueOrDefault(m, pairs[i].1);
        obs := obs + [Observation(pairs[i].0, pairs[i].1, ncd(va, vb))];
        i := i + 1;
      }
    }

    /**
     * Explicit-pairs mode: read the pairs file, run the pre-pass over every record,
     * then dispatch. A bad id in the pairs file stops before the pre-pass.
     */
    method PairsMode(pairLines: seq<string>, compress: string -> uint32, ncd: (Val, Val) -> real)
      returns (ok: bool, obs: seq<Observation>)
      requires ParsedPairs(pairLines).Some? ==> |ParsedPairs(pairLines).value| > 0
      modifies this
      ensures ok <==> ParsedPairs(pairLines).Some?
      ensures !ok ==> records == old(records)
      ensures ok ==>
        var pairs := ParsedPairs(pairLines).value;
        var prepared := Compressed(old(records), old(records).Keys, compress);
        records == WithDefaults(prepared, pairs[..|pairs| - 1]) &&
        obs == PairObservations(prepared, pairs[..|pairs| - 1], ncd)
    {
      var pairs;
      ok, pairs := ReadPairs(pairLines);
      if !ok {
        return false, [];
      }
      Compress(records.Keys, compress);
      obs := DispatchPairs(pairs, ncd);
    }

    /**
     * Sample mode: clamp the requested size, shuffle and truncate the positions,
     * run the pre-pass over the sampled records, then measure every pair of them.
     */
    method SampleMode(requested: uint32, order: seq<Id>, perm: seq<nat>, compress: string -> uint32, ncd: (Val, Val) -> real)
      returns (obs: seq<Observation>)
      requires requested > 0 && |records| > 0
      requires Enumerates(order, records) && IsPermutation(perm, |records|)
      modifies this
      ensures var s := Min(requested as nat, |old(records)|);
        var sample := perm[..s];
        records == Compressed(old(records), set i | 0 <= i < s :: order[sample[i]], compress) &&
        obs == SampleObservations(records, order, sample, ncd) &&
        |obs| == s * (s - 1) / 2
    {
      var sample := SelectSample(|records|, requested, perm);
      var ids := set i | 0 <= i < |sample| :: order[sample[i]];
      Compress(ids, compress);
      assert Enumerates(order, records);
      obs := MeasureSample(records, order, sample, ncd);
      SampleObservationsSpec(records, order, sample, ncd);
    }
  }
}
