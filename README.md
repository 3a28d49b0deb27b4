# Cache simulator core

This project models the cache simulator of `cachelab-handout/csim.c`: a
set-associative cache with `2^s` sets of `E` lines, `2^b`-byte blocks and
least-recently-used replacement driven by one global recency counter, fed a
trace of memory references. What is modelled:

- the address decomposition of `cache_access` into set index and tag;
- `cache_init`, which builds the sets and lines;
- `cache_access`, which does the lookup, fills the first empty line, or
  evicts the LRU line;
- the counting loop of `main`, which skips instruction fetches, tallies
  hits, misses and evictions, and accesses modify references twice.

The project has two layers.

- **Specification on values.**
  - `Decoder` covers the decomposition. Addresses are naturals below
    2^64, so the 64-bit `unsigned long` never wraps.
  - `CacheSet` covers one set: lines, outcomes, the three scans as
    functions, and `AccessSet`.
  - `CacheModel` covers the whole cache: `Init` and `Step`, one call of
    `cache_access`.
  - `Simulation` covers the loop: `Feed` handles one trace record and
    `Run` a whole trace.
  - `Scenarios` holds small worked traces.
- **The program itself (`Csim`).**
  - `class Cache` holds the array of sets, each an array of lines, and
    the counter `global_counter` as a field.
  - Its constructor is `cache_init`.
  - `Access` is `cache_access`, proved equal to `Step` on the abstract
    state.
  - `RunTrace` is the loop of `main`, proved equal to `Run`.
  - `Simulate` is `cache_init` followed by the loop.

Modelling decisions:

- **Outcome.**
  The `int` return codes 1, 0 and -1 of `cache_access` are the datatype
  `Outcome` (`Hit`, `Miss`, `Evict`).
- **Scans.**
  The two scans of `cache_access` are the read-only methods `ScanForHit` and
  `ScanForFill`. The writes to the chosen line go through `Cache.Store`.
  - The code writes valid and tag before the increment and the counter
    after. The model writes the whole line once, with the incremented
    counter value, and then increments. Nothing reads the line in
    between, so the resulting state is the same.
- **LRU start value.**
  The LRU scan starts from `min_lru = 2147483647` with `lru_index = 0`. The
  model starts from line 0's own stamp with index 0.
  - This is the same choice whenever stamps fit in an `int`. The first
    comparison then either picks line 0 or leaves index 0.
  - Every later comparison is the same strict `<`.
- **Operation characters.**
  The operation is the trace's character. Only `'I'` is skipped and only
  `'M'` is accessed twice, so any other character counts like `'L'` or
  `'S'`, as in the code.
- **Configuration.**
  The model requires `E >= 1`, `s <= 30` and `s + b < 64` (`ValidConfig`).
  - With `E = 0` the eviction path writes line 0 of an empty set.
  - `1 << s` is an `int` shift, so `s` must stay below 31.
  - The tag shift `address >> (s + b)` needs `s + b` below 64.
- **Modify references.**
  The code adds a hit for the second access of a modify without looking at
  its return value. `ModifySecondAccessHits` proves that this second access
  really is a hit, so the counts agree with tallying it.

## Model

| member | source | states |
|---|---|---|
| Decoder.Pow2 | cachelab-handout/csim.c:131 | `1 << s` as a power of two, at least 1 |
| Decoder.ShiftRight | cachelab-handout/csim.c:162-163 | `x >> k` drops the low k bits: the result times 2^k plus those bits is x |
| Decoder.LowBits | cachelab-handout/csim.c:162 | masking with `(1 << s) - 1` leaves a value below 2^s |
| Decoder.Decode | cachelab-handout/csim.c:162-163 | the set index is below 2^s and the tag is below 2^(64-s-b) |
| Decoder.TagBound | cachelab-handout/csim.c:163 | a 64-bit address shifted right by k is below 2^(64-k) |
| Decoder.TagOfBlock | cachelab-handout/csim.c:162-163 | the tag is the block number shifted by s, and the set index is the block number's low s bits |
| Decoder.DecodeRecompose | cachelab-handout/csim.c:162-163 | tag, set index and block offset put back together give the address again: the decomposition loses nothing |
| Decoder.DecodeSameBlock | cachelab-handout/csim.c:162-163 | two addresses decode alike if and only if they lie in the same 2^b-byte block |
| CacheSet.EmptySet | cachelab-handout/csim.c:135-139 | a set has E lines, each invalid with tag 0 and counter 0 |
| CacheSet.FirstMatch | cachelab-handout/csim.c:167-174 | the hit scan finds the first valid line that holds the tag, or reports none; no earlier line matches |
| CacheSet.FirstInvalid | cachelab-handout/csim.c:179-187 | the fill scan finds the first invalid line, or reports none; every earlier line is valid |
| CacheSet.MinIndex | cachelab-handout/csim.c:177-191 | the LRU choice among the lines scanned is a victim (`IsVictim`): it has the least counter there, and every earlier line has a strictly larger one (the lowest index wins ties) |
| CacheSet.AccessSet | cachelab-handout/csim.c:166-198 | one access keeps the set's size; which line it rewrites and how is stated by the AccessSet lemmas below |
| CacheSet.AccessSetOutcome | cachelab-handout/csim.c:166-198 | hit if and only if a valid line holds the tag; miss if and only if none does and some line is invalid; eviction if and only if none does and the set is full |
| CacheSet.AccessSetHit | cachelab-handout/csim.c:167-172 | on a hit the matching line gets the new counter value and nothing else changes |
| CacheSet.AccessSetFill | cachelab-handout/csim.c:179-186 | on a miss the first invalid line becomes valid with the tag and the new counter, and nothing else changes |
| CacheSet.AccessSetEvict | cachelab-handout/csim.c:177-198 | with no hit and a full set, the LRU victim gets the tag and the new counter, and nothing else changes |
| CacheSet.AccessSetTouchesOneLine | cachelab-handout/csim.c:161-199 | every access rewrites exactly one line, to a valid line holding the tag and the new counter |
| CacheSet.AccessSetChangesExactlyOne | cachelab-handout/csim.c:161-199 | when every stamp is below the new one, exactly one line really differs afterwards |
| CacheSet.AccessSetHolds | cachelab-handout/csim.c:161-199 | after an access the set holds the tag |
| CacheSet.AccessSetKeepsTagsDistinct | cachelab-handout/csim.c:166-198 | valid lines of a set keep pairwise distinct tags |
| CacheSet.AccessSetKeepsStampsBounded | cachelab-handout/csim.c:170-197 | no stamp exceeds the counter after an access |
| CacheSet.AccessSetKeepsStampsDistinct | cachelab-handout/csim.c:170-197 | when every stamp is older than the new one, the valid lines keep pairwise distinct stamps, each at least 1 |
| CacheSet.AccessSetKeepsInvariant | cachelab-handout/csim.c:166-198 | an access with the next counter value keeps distinct tags, stamps at most the counter, and distinct positive stamps |
| CacheSet.VictimUnique | cachelab-handout/csim.c:188-191 | in a full set with distinct stamps the victim's stamp is strictly below every other line's, so the lowest-index tie-break never decides anything |
| CacheSet.DirectMapped | cachelab-handout/csim.c:161-199 | with E = 1 an access hits if and only if the line is valid with the tag, and evicts if and only if it is valid with another tag |
| CacheModel.Init | cachelab-handout/csim.c:130-144 | 2^s sets, each of E empty lines, counter 0 |
| CacheModel.Step | cachelab-handout/csim.c:161-199 | an access keeps the cache's shape and advances the counter by exactly one |
| CacheModel.InitConsistent | cachelab-handout/csim.c:130-144 | the initial cache satisfies the invariants (per set: distinct tags, stamps at most the counter, distinct positive stamps on valid lines) |
| CacheModel.StepOutcome | cachelab-handout/csim.c:161-199 | the outcome is decided by the addressed set and the decoded tag alone, for each of the three outcomes in both directions |
| CacheModel.StepFrame | cachelab-handout/csim.c:164-198 | only the addressed set changes, and only one line of it, which becomes valid with the tag and the new counter |
| CacheModel.StepChangesExactlyOne | cachelab-handout/csim.c:164-198 | whenever no stamp exceeds the counter (as in every consistent state) exactly one line of the whole cache differs |
| CacheModel.StepKeepsConsistent | cachelab-handout/csim.c:161-199 | every access keeps the invariants, including the total order of the stamps |
| CacheModel.StepEvictsOldest | cachelab-handout/csim.c:177-198 | from a consistent state an eviction rewrites the one line of strictly least stamp in the addressed set, giving it the tag and the new counter |
| CacheModel.StepCaches | cachelab-handout/csim.c:161-199 | an access hits if and only if its block is cached, and leaves it cached |
| CacheModel.StepThenHit | cachelab-handout/csim.c:109-114 | repeating an access at once is a hit |
| CacheModel.StepSameBlock | cachelab-handout/csim.c:162-163 | addresses in the same block have the same effect on the cache |
| Simulation.Tally | cachelab-handout/csim.c:97-107 | a hit adds one hit, a miss or an eviction adds one miss, an eviction also adds one eviction, and nothing else changes |
| Simulation.Feed | cachelab-handout/csim.c:86-114 | one trace record keeps the cache's shape |
| Simulation.Run | cachelab-handout/csim.c:85-117 | a whole trace keeps the cache's shape |
| Simulation.FeedInstruction | cachelab-handout/csim.c:86-88 | an instruction fetch changes neither the cache nor the counters |
| Simulation.FeedCounts | cachelab-handout/csim.c:91-114 | any other record adds one to hits + misses, plus one for a modify, and evictions grow by at most what misses grow by |
| Simulation.ModifySecondAccessHits | cachelab-handout/csim.c:109-114 | the hit added for a modify's second access is the outcome that access really has |
| Simulation.RunTotal | cachelab-handout/csim.c:85-117 | hits + misses equals the number of non-instruction records plus the number of modifies |
| Simulation.RunEvictionsBounded | cachelab-handout/csim.c:97-107 | a run never reports more evictions than misses |
| Simulation.RunKeepsConsistent | cachelab-handout/csim.c:85-117 | a run keeps the cache invariants |
| Simulation.RunSnoc | cachelab-handout/csim.c:85-117 | appending a record to the trace feeds it to the run so far |
| Simulation.RunConcat | cachelab-handout/csim.c:85-117 | running two traces one after the other is running their concatenation: the state carries over and the counters add |
| Simulation.RepeatedAccessHits | cachelab-handout/csim.c:161-174 | once an address is cached, loading or storing it n times gives n hits and keeps it cached |
| Simulation.RepeatedAccessMissesOnce | cachelab-handout/csim.c:161-199 | from a state where it is not cached, loading or storing an address n + 1 times gives one miss, n hits, and one eviction exactly when its set is full |
| Simulation.StepKeepsCached | cachelab-handout/csim.c:161-199 | an access to another set or to the same block leaves a cached address cached |
| Simulation.RunKeepsCached | cachelab-handout/csim.c:85-117 | a cached address stays cached through any trace that does not touch another block of its set, so its next access is a hit |
| Simulation.RunSkipsInstructions | cachelab-handout/csim.c:86-88 | deleting an instruction fetch from a trace does not change the run |
| Scenarios.DirectMappedThrash | cachelab-handout/csim.c:161-199 | s = 0, E = 1, b = 0 on 0, 1, 0: miss, eviction, eviction, with the line after each of the first two |
| Scenarios.DirectMappedThrashCounts | cachelab-handout/csim.c:85-117 | the same trace reports counters 0, 3, 2 |
| Scenarios.TwoLineSetTrace | cachelab-handout/csim.c:166-198 | on one set of two lines the accesses with tags 0, 1, 2, 0 fill, fill, evict line 0, evict line 1, with the exact lines |
| Scenarios.FullyAssociativeLru | cachelab-handout/csim.c:177-198 | s = 0, E = 2, b = 0 on 0, 1, 2, 0: miss, miss, then the evictions of tag 0 and of tag 1, with the exact set contents |
| Scenarios.FullyAssociativeLruCounts | cachelab-handout/csim.c:85-117 | the same trace reports counters 0, 4, 2 |
| Scenarios.RepeatThenNew | cachelab-handout/csim.c:85-117 | s = 0, E = 2, b = 0 on 0, 0, 1: counters 1, 2, 0 |
| Scenarios.ModifyOnEmpty | cachelab-handout/csim.c:109-114 | a modify on an empty cache: one miss and one hit |
| Csim.Cache.constructor | cachelab-handout/csim.c:130-144 | the arrays are fresh, distinct and of sizes 2^s and E, and their contents are exactly `Init` |
| Csim.Cache.Access | cachelab-handout/csim.c:161-199 | the outcome and the new sets and counter are exactly `Step` of the old state; only the addressed set's array is written |
| Csim.ScanForHit | cachelab-handout/csim.c:167-174 | the loop returns `FirstMatch`; it stops early exactly when a valid line holds the tag |
| Csim.ScanForFill | cachelab-handout/csim.c:177-192 | the loop returns `FirstInvalid`, and when there is no invalid line it returns the LRU victim `MinIndex` |
| Csim.Cache.Store | cachelab-handout/csim.c:182-185 | writing one line of one set keeps the representation valid, changes exactly that line of the abstract contents, and leaves the counter alone (also the writes at lines 171 and 195-197) |
| Csim.RunTrace | cachelab-handout/csim.c:84-117 | the loop's counters and the cache afterwards are exactly `Run` of the trace |
| Csim.Simulate | cachelab-handout/csim.c:71-122 | the counters are `Run` from the initial cache; hits + misses is the number of non-instruction records plus modifies; evictions at most misses |

## Left out

- Option parsing with `getopt` (csim.c:41-70) is not modelled. The code also leaves `size`, `E` and `bsize` uninitialised when an option is missing; the model takes a valid `(s, E, b)` instead.
- Trace-file I/O is not modelled (`fopen`, `fscanf`, `fclose`, and the error exits for a missing or unreadable file). The trace is a sequence of already-parsed `(operation, address)` records, and the size field is dropped because the counting never uses it.
- The verbose `printf` output and `printSummary` are not modelled. They are output only, and `cachelab.h` is not part of this model.
- Memory management is not modelled: `cache_free`, `malloc`, and the null-pointer `Cache` before initialisation. The arrays are allocated by the constructor.
- Integer widths: `global_counter`, `lru_counter`, `hits`, `misses` and `evictions` are `int` in C. The model uses unbounded naturals, so it does not model their overflow after 2^31 accesses.
- Decoder.Decode: takes `s <= 30` and `s + b < 64` as preconditions instead of modelling the undefined shifts C has outside that range.
- Csim.Cache.Access: its contract does not restate the invariant-preservation property. That property follows from `Step` together with `CacheModel.StepKeepsConsistent`.
- CacheSet.DirectMapped: states the per-state characterisation with E = 1. It is not phrased as a statement about the history of earlier accesses to the set. The history-based LRU characterisation ("E other distinct tags since the last use") is likewise stated only per state, through `IsVictim`, `AccessSetEvict` and `StepEvictsOldest`.
- Simulation.RepeatedAccessMissesOnce: counts hits and misses only for traces that repeat one address. For traces that interleave other sets or the same block, `RunKeepsCached` states that the address stays cached and its next access hits; the counters over such a mixed trace are not stated.
- `test.c` and `is_little_endian.c` are not part of this model. They are separate programs, not the simulator.
