# canopyClustering: a Dafny model of the clustering driver

This project models `src/main/main.cc` of canopyClustering, the program that clusters
sequences by normalised compression distance (NCD). It covers four parts:

- Loading the record file into the record store `m_map`: each line is trimmed and split on
  commas, and the first field is cast to a 32-bit id.
- The explicit-pairs mode: reading the pairs file, the compressed-length pre-pass, and the
  dispatch loop over the pairs.
- The sample mode: clamping the sample size, shuffling and truncating the positions, and
  measuring every pair of sample positions.
- The canopy mode: repeatedly drawing a pivot from the pool, gathering the tight canopy (the
  pivot and every record closer than `t1`), and taking the pivot and every record closer than
  `t2` out of the pool until the pool is empty.

Modules, one per file:

- `Records` (`records.dfy`): ids, stored values, observations, and `operator[]`'s default value.
- `LineParsing` (`line_parsing.dfy`): `boost::trim`, `boost::split` with token compression,
  `lexical_cast<uint32_t>`, and the parse of one record line and one pairs line.
- `Sampling` (`sampling.dfy`): the sample selection and the nested loops over the sample.
- `Store` (`store.dfy`): the record store as a class whose `records` field the load, the
  pre-pass, the pairs dispatch and the canopy erasures update. It also holds the
  specification functions of loading and of the pairs file.
- `CanopySpec` (`canopy_spec.dfy`): one canopy round as functions of the pool. It also
  defines a *trace* (the pool before each round and the pivot drawn in it) and proves what a
  whole run guarantees.
- `Clustering` (`clustering.dfy`): the canopy loop as a class. Its ghost trace ties the
  canopies it builds to `CanopySpec`.

The distance `NCD` and the compressor `compressStr` are opaque function parameters. The
random pivot is an arbitrary pooled record. The shuffle is any permutation the caller
supplies, and the store's iteration order is any enumeration of its keys.

Where the code departs from what canopy clustering is expected to do (unique ids, pairs naming
only stored ids, t1 < t2, every record in some canopy), the model follows the code:

- A duplicate id in the record file is not an error: the last line naming it wins (`LastLineWins`).
- A pair naming an id that is not stored is not an error. `m_map[id]` inserts `("", 0)` and the
  distance is taken against that empty record (`DefaultsGrowStore`).
- The dispatch loop runs for `i < pairs.size() - 1`, so the last pair of the pairs file is never
  measured on its own (`LastPairSkipped`).
- Nothing checks `t1 < t2`. With `t1 <= t2` the canopies are disjoint (`CanopiesDisjoint`).
  With `t1 > t2` a record can be in two canopies (`InvertedThresholdsOverlap`).
- A record removed at a distance between `t1` and `t2` of the pivot ends in no canopy
  (`LooseOnlyInNoCanopy`).
- Fields after the second one on a record line are ignored.
- A record line with a single field (no comma) is not rejected. The code then reads
  `splitVec[1]` past the end of a one-element vector. The model makes that line stop the load,
  as a line with a bad id does.

## Model

| member | source | states |
|---|---|---|
| LineParsing.Trim | src/main/main.cc:86 | the trimmed line is a piece of the line, neither starts nor ends with white space, and is empty exactly when the line is all white space |
| LineParsing.TrimPadding | src/main/main.cc:86 | trimming a white-space-padded tidy text gives that text back |
| LineParsing.Split | src/main/main.cc:90 | splitting gives at least one token, no token holds a comma, and a comma-free line is its own single token |
| LineParsing.SplitJoin | src/main/main.cc:90 | splitting inverts joining with single commas for comma-free fields whose inner fields are non-empty |
| LineParsing.SplitAtCommaRun | src/main/main.cc:90 | token compression: a run of one or more commas after a comma-free field splits exactly like a single comma |
| LineParsing.ParseId | src/main/main.cc:91 | a token the cast accepts is a non-empty string of decimal digits, and the id is its decimal value |
| LineParsing.ParseLeadingZero | src/main/main.cc:91 | a leading zero does not change what a token parses to |
| LineParsing.ParseShow | src/main/main.cc:91 | every 32-bit id written in decimal parses back to itself |
| LineParsing.ParseRejectsNonDigit | src/main/main.cc:91 | a token holding a non-digit makes the cast fail |
| LineParsing.ParseRecordLine | src/main/main.cc:85-93 | a record line is skipped exactly when it is all white space; a stored sequence holds no comma; a short line is one comma-free token |
| LineParsing.ParsePairLine | src/main/main.cc:107-115 | a pairs line is skipped exactly when it is all white space; a short line is one comma-free token |
| LineParsing.RecordLineRoundTrip | src/main/main.cc:84-94 | a padded line `id,sequence[,more…]` whose last field does not end in white space parses to that id and sequence, ignoring the extra fields; white space inside the line, as in `7, ACGT`, stays in the sequence |
| LineParsing.PairLineRoundTrip | src/main/main.cc:107-115 | a padded pairs line `a,b[,more…]` whose last field does not end in white space parses to the pair (a, b), ignoring the extra fields |
| Store.RecordStore.constructor | src/main/main.cc:65 | the store starts empty |
| Store.RecordStore.Load | src/main/main.cc:84-94 | the loop leaves the store its specification function gives, and fails exactly when that function does |
| Store.LoadFailsOnBadLine | src/main/main.cc:91-92 | loading fails exactly when some line has an id that does not parse or has a single token |
| Store.LoadedKeys | src/main/main.cc:88-92 | a successful load holds the earlier ids plus every id a record line names; blank lines add none |
| Store.LastLineWins | src/main/main.cc:92 | of several lines naming one id, the last decides its sequence, with compressed length 0 |
| Store.UnnamedIdsKept | src/main/main.cc:92 | an id no line names keeps its earlier value |
| Store.BlankLinesLoadNothing | src/main/main.cc:88 | a file of blank lines leaves the store unchanged |
| Store.LoadFailureSticks | src/main/main.cc:91 | once a line fails, the later lines do not matter |
| Store.ReadPairs | src/main/main.cc:106-117 | the loop yields the pairs list its specification function gives, and fails exactly when that function does |
| Store.PairsFollowFile | src/main/main.cc:110-115 | a successful read holds one pair per non-blank line, in file order, with that line's two ids |
| Store.PairsFailOnBadLine | src/main/main.cc:113-114 | reading the pairs file fails exactly when some line has an id that does not parse or has a single token, so after a successful read every non-blank line is a pair |
| Store.PairsFailureSticks | src/main/main.cc:113-114 | once a pairs line fails, the later lines do not matter |
| Store.Compressed | src/main/main.cc:121-131 | the pre-pass keeps the set of ids and the store size |
| Store.RecordStore.Compress | src/main/main.cc:121-131 | each named record's compressed length becomes the compressor's value on its sequence, and nothing else changes |
| Store.RecordStore.Get | src/main/main.cc:138 | `operator[]` returns the stored value or `("", 0)`, and inserts the latter for a missing id |
| Store.RecordStore.DispatchPairs | src/main/main.cc:137-140 | after the loop, the store holds the defaults for pairs[0..n-2]; the observations are theirs, in order |
| Store.DefaultsGrowStore | src/main/main.cc:138 | looking up missing ids adds exactly those ids as `("", 0)`, keeps every stored record, and grows the store when some id was missing |
| Store.LastPairSkipped | src/main/main.cc:137-140 | there is one observation per pair but the last, in file order; the last pair is measured only if it also occurs earlier |
| Store.RecordStore.PairsMode | src/main/main.cc:97-147 | a bad pairs file leaves the store alone; otherwise pre-pass then dispatch over the parsed pairs |
| Sampling.SelectSample | src/main/main.cc:151-159 | the sample has min(requested, n) distinct positions below n: the first ones of the shuffle |
| Sampling.MeasureRow | src/main/main.cc:186-191 | one pass of the inner loop measures positions i and j for every j above i |
| Sampling.MeasureSample | src/main/main.cc:183-192 | the nested loops produce one observation for each visited pair of sample positions, in visiting order |
| Sampling.PositionPairsCount | src/main/main.cc:183-192 | a sample of size s gives s(s-1)/2 pairs, and none for s = 1 |
| Sampling.PositionPairsMembers | src/main/main.cc:183-192 | the visited pairs are exactly the pairs p < q < s |
| Sampling.PositionPairsOnce | src/main/main.cc:183-192 | no pair of positions is visited twice |
| Sampling.SampleObservationsSpec | src/main/main.cc:183-192 | there are s(s-1)/2 observations: each pair of sampled records once, earlier position first, never a record with itself |
| Store.RecordStore.SampleMode | src/main/main.cc:148-199 | the sampled records are pre-passed, and the observations are those of the first min(requested, n) shuffled positions, s(s-1)/2 of them |
| CanopySpec.RoundRule | src/main/main.cc:232-256 | another record joins the canopy iff its distance is below t1, leaves the pool iff below t2, and otherwise stays unchanged; the pivot joins and leaves |
| CanopySpec.TraceExtends | src/main/main.cc:218-257 | adding a round to a trace gives a trace with the new canopy and leaves the earlier canopies as they were |
| CanopySpec.RoundShrinks | src/main/main.cc:251-256 | a round removes at least its pivot and adds nothing |
| CanopySpec.PoolShrinks | src/main/main.cc:218-257 | pools only shrink, by at least one record per round |
| CanopySpec.RoundsBounded | src/main/main.cc:218-257 | there are at most as many rounds (canopies) as loaded records |
| CanopySpec.PivotsDistinct | src/main/main.cc:219-222 | no record is drawn as pivot twice |
| CanopySpec.CanopyMembersLoaded | src/main/main.cc:226-244 | each canopy holds its pivot and only loaded records |
| CanopySpec.CanopiesDisjoint | src/main/main.cc:242-256 | with t1 <= t2 no record is in two canopies |
| CanopySpec.LooseOnlyInNoCanopy | src/main/main.cc:242-256 | with t1 <= t2, a record removed at a distance in [t1, t2) is in no canopy |
| CanopySpec.DrainedRemovesEachOnce | src/main/main.cc:218-258 | a drained run removes each loaded record in exactly one round, and it never returns |
| CanopySpec.InvertedThresholdsOverlap | src/main/main.cc:242-247 | with t1 = 0.5 > t2 = 0.25, a two-record store yields a record in two canopies |
| Clustering.CanopyRun.constructor | src/main/main.cc:202-203 | no canopies, c = 0, and the trace is the loaded pool alone |
| Clustering.CanopyRun.Sweep | src/main/main.cc:223-250 | canopy c becomes the pivot plus every other record closer than t1; the collected elements are the pivot plus every other record closer than t2 |
| Store.RecordStore.EraseAll | src/main/main.cc:251-256 | every listed id still stored is removed, and nothing else changes |
| Clustering.CanopyRun.Round | src/main/main.cc:218-257 | one round extends the trace; the store becomes the remaining pool; c goes up by one; each record follows the t1/t2 iff rules |
| Clustering.CanopyRun.Run | src/main/main.cc:218-258 | the pool ends empty; canopies are numbered 0..c-1, each holds its pivot and only loaded records; c is at most the store size; with t1 <= t2 the canopies are disjoint |
| Clustering.CanopyMode | src/main/main.cc:200-258 | the pre-pass over every record, then the canopy loop: store empty, no more canopies than loaded records, every canopy member loaded |

## Left out

- `NCD` and `ncd::compressStr` are opaque parameters `ncd` and `compress`. The NCD formula, the compressor, and floating-point rounding and NaN are not modelled. A NaN distance behaves as a real that is not below either threshold.
- OpenMP parallelism (the `parallel for` loops, `critical` sections and per-thread `dists` buffers) is modelled as sequential loops. The interleaving of output lines between threads is not modelled. In explicit-pairs mode `m_map[...]` default-inserts a missing id inside the `omp for` loop (src/main/main.cc:136-138) with no critical section, an unsynchronised insert into the map; `DispatchPairs` and `DefaultsGrowStore` describe single-threaded execution.
- The Mersenne Twister, `uniform_int` and `random_shuffle` are left out. The canopy pivot is any pooled record, and the shuffle is any permutation `perm` the caller supplies. Their distribution is not modelled.
- The order in which `std::advance` walks the unordered store is the caller-supplied enumeration `order` (sample mode). In the canopy sweep it is an arbitrary iteration over the pool's keys.
- Boost flyweight interning of ids: ids are plain 32-bit values.
- Opening and reading files: the files are given as sequences of lines. An unopenable file is not modelled. The empty line `getline` yields at end of file is a blank line like any other.
- Writing to `std::cout` is not modelled: observations are returned as sequences. Canopies stay in the run's `canopies` map; the final printing loop (src/main/main.cc:259-263) and the `NDEBUG` trace output are not modelled.
- Command-line parsing (`CL.cc`) is not part of this model. The mode switch (pairs file given, sample size positive, otherwise canopies) is left to the caller of `PairsMode`, `SampleMode` and `CanopyMode`.
- LineParsing.ParseId accepts only non-empty strings of decimal digits whose value is below 2^32. Other forms `lexical_cast<uint32_t>` handles, such as a leading sign, are treated as a failed cast.
- LineParsing.ParseRecordLine: a line with a single token reads past the end of the token vector in the source. The model treats it as a load failure (`ShortRecord`, and `ShortPair` for pairs lines).
- Store.RecordStore.PairsMode requires a non-empty pairs list when the file parses. On an empty list `pairs.size() - 1` wraps around and the loop reads past the vector.
- Store.RecordStore.SampleMode requires a non-empty store and a positive sample size. `uniform_int(0, size - 1)` and `sample.size() - 1` are ill-formed on an empty store.
- Clustering.CanopyRun.Run counts canopies with an unbounded `c`. It is proved to stay at most the number of loaded records, but the 32-bit wrap of the source's counter is not modelled.
