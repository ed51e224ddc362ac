# elsim similarity: the caching engine and the signature database

This project models the core of `elsim/similarity/similarity.py`. It has two stateful parts.

**The similarity engine (`SIMILARITY`).** The engine wraps a native compression library. It keeps:
- a compression level;
- the active backend (zlib, bz2, smaz, lzma, xz, snappy, vcblocksort, ids 0 to 6);
- seven per-backend size caches;
- seven per-backend pair-result caches;
- one entropy cache.

Every cache is keyed by the Adler-32 checksum of a buffer, as defined in section 2.2 of RFC 1950.

The distance metrics ncd, ncs and cmid share one protocol:
- look the pair up in the active pair cache, in either concatenation order;
- on a hit, return the cached score and status without calling the library;
- on a miss, call the library once, passing the cached sizes of both buffers as hints;
- then record both sizes and the pair result, each insert keeping the first value written under its key.

The entropy cache follows the same rule.

The model is split into five modules:
- `Checksum`: Adler-32, defined byte by byte.
- `Caches`: one cache partition as a value, with its lookups and its first-write-wins insert.
- `Engine`: the engine's whole state as a value (`State`), with the protocol stated as the relations `SimStep` and `EntropyStep` between the state before and after a call. It also holds the lemmas about repeated, reversed and cross-backend calls.
- `Similarity`: the class `Similarity`, whose fields are updated in place. Its methods are proved to move the state exactly as `Engine` allows.
- `SignatureDb`: the class `DBFormat` and the functions and lemmas that specify it.

The native library is a parameter of the constructor: a `NativeLibrary` value of total functions. A ghost counter, `oracleCalls`, counts the native calls that compute something: the metrics, entropy, compress, the two estimators and the edit distance. Selecting a backend also calls the library, at line 208 of the source, and that call is not counted; the model passes the active backend to every computing call instead. The class lookups `GetInCaches` and `GetInRcaches` read the active backend's partition, and `GetInEcaches` reads the whole entropy cache, which is shared by all backends; `Sim` uses the first two as `_sim` does.

One detail of the source is modelled as it is. On a size-cache hit, the cached size cell itself is handed to the library, so the size the library writes back lands in the cache. `Engine.WrittenBack` states this.

**The signature database (`DBFormat`).** The database maps a name to a map from a sub-name to a list of elements. The constructor also builds a set view `H` of that map, once. `add_element` changes only `D`: it may create a name, create a sub-name, or append to a list. `is_present` and `elems_are_presents` are queries.

The duplicate guard of `add_element` and the test in `is_present` compare the element with the sub-name keys, not with the elements. Both are modelled as written, with names, sub-names and elements sharing the type `string`. The fuzzy-match rule, "shared count over half the total, times 100, at least 20", is stated as `10 * common >= total`. `SignatureDb.MatchedIffRatio` proves the two forms agree.

## Model

| member | source | states |
|---|---|---|
| Checksum.Update | elsim/similarity/similarity.py:119 | feeding no bytes leaves the sums unchanged; after any byte both sums are reduced modulo 65521 |
| Checksum.Adler32 | elsim/similarity/similarity.py:119 | the cache key of a buffer is an unsigned 32-bit value |
| Checksum.UpdateConcat | elsim/similarity/similarity.py:111 | the checksum is streaming: the sums of `x + y` are the sums of `x` fed with `y` |
| Checksum.AdlerCollision | elsim/similarity/similarity.py:105 | the key is not injective: the distinct buffers [1, 0, 1] and [0, 2, 0] have the same checksum |
| Caches.SizeLookup | elsim/similarity/similarity.py:103-107 | the size stored under the buffer's checksum, or 0 when the key is absent |
| Caches.PairLookup | elsim/similarity/similarity.py:109-116 | the entry under the checksum of `s1 + s2` when that key is present, whatever `s2 + s1` holds; else the entry under `s2 + s1`; else (-1, -1) |
| Caches.EntropyLookup | elsim/similarity/similarity.py:137-141 | the entry stored under the buffer's checksum, or (-1, -1) when the key is absent |
| Caches.InsertFirst | elsim/similarity/similarity.py:118-126 | an insert adds the key, never overwrites an existing entry, and stores the value only when the key was absent |
| Caches.PairMissIff | elsim/similarity/similarity.py:109-116 | with no stored score equal to -1, the pair lookup misses exactly when neither `s1 + s2` nor `s2 + s1` is a key, and then answers (-1, -1) |
| Caches.PairLookupAfterInsert | elsim/similarity/similarity.py:168 | after the insert under `s1 + s2` into a partition holding neither order, the lookup of the pair in either order answers the inserted entry |
| Caches.SizeLookupAfterInsert | elsim/similarity/similarity.py:103-107 | a cached size is answered for every buffer with the same checksum |
| Caches.CollisionSharesSize | elsim/similarity/similarity.py:103-107 | after a size is cached for [1, 0, 1], the lookup of the different buffer [0, 2, 0] answers that size |
| Caches.InsertKeepsNoSentinel | elsim/similarity/similarity.py:123-126 | inserting an entry whose score is not -1 keeps every stored score off the sentinel |
| Engine.Initial | elsim/similarity/similarity.py:68-94 | a new engine has level 9, zlib active, all seven partitions of both partitioned caches present and empty, an empty entropy cache and no computing native call made |
| Engine.WrittenBack | elsim/similarity/similarity.py:158-167 | after a native metric call, the size partition has both buffers' keys and no other entry changed; for distinct keys each key holds the size the library resolved for its buffer; for one key that was absent it holds the first buffer's size, because the first insert wins |
| Engine.SimStep | elsim/similarity/similarity.py:147-170 | a step of the shared protocol makes no native call exactly on a pair-cache hit and one call exactly on a miss; it keeps the backend, the level and the entropy cache, and leaves the pair cached under one of its two orders |
| Engine.EntropyStep | elsim/similarity/similarity.py:189-197 | an entropy step makes no native call exactly on a hit and one call exactly on a miss; afterwards the buffer's key is cached, and the other caches, the backend and the level are unchanged |
| Engine.MissIsSimStep | elsim/similarity/similarity.py:147-170 | on a pair-cache miss, the state with the written-back sizes, the inserted result and one more native call is a step of the shared protocol |
| Engine.Switched | elsim/similarity/similarity.py:206-208 | switching the backend changes only the active backend, keeps every cache, the level and the call count |
| Engine.Cleared | elsim/similarity/similarity.py:128-130 | clearing keeps the partition keys, empties every size partition, and changes nothing else |
| Engine.ClearedSizesMiss | elsim/similarity/similarity.py:128-130 | after clearing, all seven backend keys remain, every size lookup answers 0, and the pair cache, the entropy cache, the backend and the call count are unchanged |
| Engine.StepLeavesPairCached | elsim/similarity/similarity.py:147-170 | after a step, the lookup of the pair answers the step's result; after a miss the reversed pair also answers it; a result other than -1 keeps every stored score off the sentinel |
| Engine.RepeatedSimIsCached | elsim/similarity/similarity.py:172-179 | once a pair is computed with a score other than -1, asking for it again with any of ncd, ncs and cmid makes no native call, returns the same result and changes nothing |
| Engine.ReversedSimIsCached | elsim/similarity/similarity.py:109-116 | after the pair `(a, b)`, the pair `(b, a)` makes no native call and, when `(a, b)` was computed, returns the same result |
| Engine.SwitchAndBackKeepsEntries | elsim/similarity/similarity.py:206-208 | switching to another backend, computing any pair there and switching back leaves every pair lookup and the whole size partition of the first backend as they were |
| Engine.SwitchedBackendMisses | elsim/similarity/similarity.py:111 | a pair absent from another backend's partition costs one native call after switching to it, with the result the library computes under that backend |
| Engine.RepeatedEntropyIsCached | elsim/similarity/similarity.py:189-197 | once an entropy other than -1 is computed, asking again makes no native call and returns the same entry |
| Similarity.Similarity.constructor | elsim/similarity/similarity.py:68-94 | the new engine's state is `Engine.Initial()` |
| Similarity.Similarity.SetLevel | elsim/similarity/similarity.py:100-101 | only the level changes, to the given value |
| Similarity.Similarity.GetInCaches | elsim/similarity/similarity.py:103-107 | the size stored under the buffer's checksum in the active partition, or 0 |
| Similarity.Similarity.GetInRcaches | elsim/similarity/similarity.py:109-116 | in the active partition: the entry under `s1 + s2` if present, else the entry under `s2 + s1`, else (-1, -1) |
| Similarity.Similarity.GetInEcaches | elsim/similarity/similarity.py:137-141 | the entry stored under the buffer's checksum, or (-1, -1) |
| Similarity.Similarity.AddInCaches | elsim/similarity/similarity.py:118-121 | the active size partition gets a first-write-wins insert; every other partition is unchanged |
| Similarity.Similarity.AddInRcaches | elsim/similarity/similarity.py:123-126 | the active pair partition gets a first-write-wins insert of (score, status); every other partition is unchanged |
| Similarity.Similarity.AddInEcaches | elsim/similarity/similarity.py:132-135 | the entropy cache gets a first-write-wins insert of (value, status) |
| Similarity.Similarity.ClearCaches | elsim/similarity/similarity.py:128-130 | the new state is `Engine.Cleared` of the old one: every size partition emptied, nothing else changed |
| Similarity.Similarity.SetCompressType | elsim/similarity/similarity.py:206-208 | the new state is `Engine.Switched` of the old one |
| Similarity.Similarity.NativeMetric | elsim/similarity/similarity.py:152-164 | one native metric call under the active backend and level, with the given size hints |
| Similarity.Similarity.Sim | elsim/similarity/similarity.py:147-170 | the call and its result are a `SimStep`: no native call on a hit in either order, exactly one on a miss with all inserts done, and no other partition touched |
| Similarity.Similarity.Ncd | elsim/similarity/similarity.py:172-173 | a `SimStep` with the ncd metric |
| Similarity.Similarity.Ncs | elsim/similarity/similarity.py:175-176 | a `SimStep` with the ncs metric |
| Similarity.Similarity.Cmid | elsim/similarity/similarity.py:178-179 | a `SimStep` with the cmid metric |
| Similarity.Similarity.Entropy | elsim/similarity/similarity.py:189-197 | the call and its result are an `EntropyStep`: no native call on a hit, and on a miss one call whose value is returned and cached with status 0 |
| Similarity.Similarity.Compress | elsim/similarity/similarity.py:143-145 | one native call under the active backend and level, whose result is returned and not cached |
| Similarity.Similarity.Kolmogorov | elsim/similarity/similarity.py:181-183 | one native call, returned with status 0 and not cached |
| Similarity.Similarity.Bennett | elsim/similarity/similarity.py:185-187 | one native call, returned with status 0 and not cached |
| Similarity.Similarity.Levenshtein | elsim/similarity/similarity.py:202-204 | one native call, returned with status 0 and not cached |
| SignatureDb.ElementsCount | elsim/similarity/similarity.py:239-245 | the set view of a list is never larger than the list, and exactly as large if and only if the list has no repeated element |
| SignatureDb.SetViewCounts | elsim/similarity/similarity.py:239-245 | when no list repeats an element, each set of the view is exactly as large as its list |
| SignatureDb.AddedElement | elsim/similarity/similarity.py:247-258 | a new name gets `{sname: [elem]}`; for a known name, an `elem` that is a sub-name key changes nothing, and otherwise `elem` is appended to the list of `sname` (created when absent) with every other list and name unchanged |
| SignatureDb.AddedElementSubNames | elsim/similarity/similarity.py:247-258 | after an add, a string is a known sub-name exactly when it was one already, or it is `sname` and the add was not suppressed |
| SignatureDb.AddElementTwiceDuplicates | elsim/similarity/similarity.py:249-250 | as written, adding the same element twice to an empty database records it twice |
| SignatureDb.AddedElementOnce | elsim/similarity/similarity.py:249-250 | the intended add: the name and `sname` exist afterwards; other names and the name's other lists are unchanged; an existing list of `sname` is kept, with `elem` appended once at the end when it did not hold it; a new list is `[elem]` |
| SignatureDb.AddedElementOnceKeepsDistinct | elsim/similarity/similarity.py:249-250 | the intended add keeps every list free of repetitions |
| SignatureDb.AddedElementOnceIdempotent | elsim/similarity/similarity.py:249-250 | with the intended add, adding an element twice is the same as adding it once |
| SignatureDb.MatchedIffRatio | elsim/similarity/similarity.py:271 | for a non-empty set, `10 * common >= total` holds exactly when the shared count over half the total, times 100, is at least 20 |
| SignatureDb.MatchOf | elsim/similarity/similarity.py:268-275 | a report entry holds the intersection (a subset of both sets, containing every shared element), the set's size and the owning name; its flag holds exactly when `10 * common >= total`, and for a non-empty set exactly when the ratio of line 271 is at least 20 |
| SignatureDb.DBFormat.constructor | elsim/similarity/similarity.py:227-245 | the database is the stored one, or empty when none could be read, and the set view has exactly its names and sub-names, each with the set of its list's elements |
| SignatureDb.DBFormat.BuildSetView | elsim/similarity/similarity.py:239-245 | the nested loops build exactly `SetView(d)` |
| SignatureDb.DBFormat.AddElement | elsim/similarity/similarity.py:247-258 | the database becomes `AddedElement` of the old one and the set view is unchanged |
| SignatureDb.DBFormat.IsPresent | elsim/similarity/similarity.py:260-264 | it answers true exactly when some name has `elem` as a sub-name key, then with such a name, and (false, None) otherwise |
| SignatureDb.DBFormat.ElemsArePresents | elsim/similarity/similarity.py:266-277 | it divides by zero exactly when some element set is empty; otherwise the report has one entry per sub-name of the set view, each the `MatchOf` entry of some name that has that sub-name, with a positive total and a flag that holds exactly when the ratio is at least 20 |

## Left out

- The native library's loading, its ctypes signatures, the shared argument struct and pointer casts, and `raz`: the library is a parameter whose results are values.
- `RDTSC` and `simhash`: they read a hardware counter or call an outside module, so they hold no cache logic.
- `show` and `__nb_caches`: they only print counts.
- The JSON load and save of `DBFormat`, and its file name: the constructor takes what the file held, or None when it could not be opened.
- Floating point: scores and entropies are exact `real`s; the match ratio is proved equal to the integer rule in exact arithmetic, and float rounding is not modelled.
- Adler-32 under Python 2 can be negative (a signed 32-bit value); the model uses the unsigned value, which gives the same equality of keys.
- Similarity.Similarity.Sim: when both buffers have the same checksum and that key is already cached, the library writes through two pointers to the same cell; the model keeps the second write, and `SizesWritten` states no value for that one case, because the write order inside the library is not visible.
- Similarity.Similarity.SetCompressType: requires a backend id from 0 to 6. With another id the source's size lookup answers 0 and its inserts raise `KeyError`; that path is not modelled.
- Similarity.Similarity.Entropy: the library's entropy is a function of the buffer alone, as the call passes no level and no backend.
- SignatureDb.DBFormat.IsPresent: the source answers the first matching name in dictionary order; the model answers some matching name.
- SignatureDb.DBFormat.ElemsArePresents: the source keeps, for a sub-name shared by several names, the entry of the last such name in dictionary order; the model states that the entry belongs to some name with that sub-name. On division by zero the source raises after it has written entries; the model returns `ZeroDivision` and no partial report.
- Elements loaded from JSON could be of any JSON type; the model types names, sub-names and elements as strings.
- `DBFormat` keeps the as-written duplicate guard listed under Findings; the corrected add is the function `SignatureDb.AddedElementOnce` with its lemmas.

## Findings

| source | as written | input that shows it | evidently intended | confidence | as-written member | corrected member |
|---|---|---|---|---|---|---|
| elsim/similarity/similarity.py:249 | the duplicate guard tests `elem` against the sub-name keys of `D[name]`, so an element already in the list is appended again | `add_element("app", "method", "bb")` twice on an empty database gives `D["app"]["method"] == ["bb", "bb"]` | an element is appended only when the list of `sname` does not hold it, so lists have no repetitions | not executed | SignatureDb.AddElementTwiceDuplicates | SignatureDb.AddedElementOnce |
