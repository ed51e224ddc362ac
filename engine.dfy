/**
  The state of a similarity engine as a value, and the specification of its
  cached operations as relations between the state before and after a call.
  The class `Similarity.Similarity` is proved to move between states only as
  these relations allow; the lemmas here state what that buys its callers.
 */
module Engine {
  import opened Checksum
  import opened Caches

  /** The compression backends of the native library. */
  const ZLIB_COMPRESS: int := 0
  const BZ2_COMPRESS: int := 1
  const SMAZ_COMPRESS: int := 2
  const LZMA_COMPRESS: int := 3
  const XZ_COMPRESS: int := 4
  const SNAPPY_COMPRESS: int := 5
  const VCBLOCKSORT_COMPRESS: int := 6

  /** The backend ids; each has its own size-cache and pair-cache partition. */
  const Backends: set<int> := {ZLIB_COMPRESS, BZ2_COMPRESS, SMAZ_COMPRESS, LZMA_COMPRESS,
                               XZ_COMPRESS, SNAPPY_COMPRESS, VCBLOCKSORT_COMPRESS}

  /** The compression level the engine starts with. */
  const DEFAULT_LEVEL: int := 9

  /** The three pairwise metrics that share the cached protocol. */
  datatype Metric = Ncd | Ncs | Cmid

  /**
    What one native metric call hands back: the score it leaves in the shared
    argument struct, its return code, and the compressed sizes of the two
    buffers that it writes through the two size pointers it is given.
   */
  datatype MetricReply = MetricReply(score: real, status: int, sizeA: nat, sizeB: nat)

  /**
    The native library, as the functions it computes. The metric receives the
    backend, the level, the metric, each buffer and the size cached for it
    (0 when none is).
   */
  datatype NativeLibrary = NativeLibrary(
    metric: (int, int, Metric, Bytes, nat, Bytes, nat) -> MetricReply,
    entropy: Bytes -> real,
    compress: (int, int, Bytes) -> nat,
    kolmogorov: (int, int, Bytes) -> nat,
    bennett: (int, int, Bytes) -> real,
    levenshtein: (Bytes, Bytes) -> nat)

  /**
    Everything a similarity engine holds: the level, the active backend, the
    per-backend size caches and pair-result caches, the entropy cache, and
    the number of computing native calls made so far (selecting a backend
    also calls the library, but computes nothing and is not counted).
   */
  datatype State = State(
    level: int,
    backend: int,
    caches: map<int, map<Key, nat>>,
    rcaches: map<int, map<Key, Cached>>,
    ecaches: map<Key, Cached>,
    calls: nat)

  /** All seven partitions of both partitioned caches exist and the active backend is one of them. */
  predicate WellFormed(st: State) {
    st.caches.Keys == Backends && st.rcaches.Keys == Backends && st.backend in Backends
  }

  /** A fresh engine: level 9, zlib active, every cache empty, no native call made. */
  function Initial(): (st: State)
    ensures WellFormed(st)
    ensures st.level == DEFAULT_LEVEL && st.backend == ZLIB_COMPRESS && st.calls == 0
    ensures forall t :: t in Backends ==> st.caches[t] == map[] && st.rcaches[t] == map[]
    ensures st.ecaches == map[]
  {
    State(DEFAULT_LEVEL, ZLIB_COMPRESS,
          map t | t in Backends :: map[], map t | t in Backends :: map[], map[], 0)
  }

  /**
    The size partition after a native metric call on buffers with checksums
    `h1` and `h2`: both keys are present, no other entry changed, and for two
    distinct keys each holds the size the library resolved for its buffer.
    When the two keys coincide and were absent, the two cells were distinct
    fresh ones and the first insert, of the first buffer's size, wins.
   */
  predicate SizesWritten(before: map<Key, nat>, after: map<Key, nat>, h1: Key, h2: Key, a: nat, b: nat) {
    && after.Keys == before.Keys + {h1, h2}
    && (forall k :: k in before && k != h1 && k != h2 ==> after[k] == before[k])
    && (h1 != h2 ==> after[h1] == a && after[h2] == b)
    && (h1 == h2 && h1 !in before ==> after[h1] == a)
  }

  /**
    The size partition after a native metric call, step by step: the sizes
    written through pointers to cells that were cached, then the first-write
    inserts of the two cells.
   */
  function WrittenBack(part: map<Key, nat>, h1: Key, a: nat, h2: Key, b: nat): (r: map<Key, nat>)
    ensures SizesWritten(part, r, h1, h2, a, b)
  {
    var p1 := if h1 in part then part[h1 := a] else part;
    var p2 := if h2 in part then p1[h2 := b] else p1;
    InsertFirst(InsertFirst(p2, h1, a), h2, b)
  }

  /**
    The protocol shared by ncd, ncs and cmid, from state `st` to `st2` with
    result `r`. A pair-cache hit (in either concatenation order) returns the
    cached entry and changes nothing. A miss makes exactly one native call,
    passing the cached sizes as hints, returns its (score, status), inserts
    that under the checksum of `s1 + s2` unless the key is taken, and records
    both buffers' sizes; partitions of other backends are not touched.
   */
  predicate SimStep(lib: NativeLibrary, kind: Metric, st: State, st2: State, s1: Bytes, s2: Bytes, r: Cached): (ok: bool)
    ensures ok ==> WellFormed(st) && WellFormed(st2)
    ensures ok ==> (IsHit(PairLookup(st.rcaches[st.backend], s1, s2)) <==> st2.calls == st.calls)
    ensures ok ==> (!IsHit(PairLookup(st.rcaches[st.backend], s1, s2)) <==> st2.calls == st.calls + 1)
    ensures ok ==> st2.backend == st.backend && st2.level == st.level && st2.ecaches == st.ecaches
    ensures ok ==> Adler32(s1 + s2) in st2.rcaches[st2.backend] || Adler32(s2 + s1) in st2.rcaches[st2.backend]
  {
    && WellFormed(st)
    && WellFormed(st2)
    && var t := st.backend;
       var found := PairLookup(st.rcaches[t], s1, s2);
       if IsHit(found) then
         st2 == st && r == found
       else
         var reply := lib.metric(t, st.level, kind, s1, SizeLookup(st.caches[t], s1),
                                 s2, SizeLookup(st.caches[t], s2));
         && r == Cached(reply.score, reply.status)
         && st2.level == st.level && st2.backend == t && st2.ecaches == st.ecaches
         && st2.calls == st.calls + 1
         && st2.rcaches[t] == InsertFirst(st.rcaches[t], Adler32(s1 + s2), r)
         && (forall u :: u in Backends && u != t ==> st2.rcaches[u] == st.rcaches[u] && st2.caches[u] == st.caches[u])
         && SizesWritten(st.caches[t], st2.caches[t], Adler32(s1), Adler32(s2), reply.sizeA, reply.sizeB)
  }

  /**
    The successor state on a pair-cache miss, with the library's sizes written
    back and both inserts done, is a step of the protocol.
   */
  lemma MissIsSimStep(lib: NativeLibrary, kind: Metric, st: State, st2: State, s1: Bytes, s2: Bytes, reply: MetricReply)
    requires WellFormed(st) && !IsHit(PairLookup(st.rcaches[st.backend], s1, s2))
    requires reply == lib.metric(st.backend, st.level, kind, s1, SizeLookup(st.caches[st.backend], s1),
                                 s2, SizeLookup(st.caches[st.backend], s2))
    requires var t := st.backend;
             st2 == st.(caches := st.caches[t := WrittenBack(st.caches[t], Adler32(s1), reply.sizeA, Adler32(s2), reply.sizeB)],
                        rcaches := st.rcaches[t := InsertFirst(st.rcaches[t], Adler32(s1 + s2), Cached(reply.score, reply.status))],
                        calls := st.calls + 1)
    ensures SimStep(lib, kind, st, st2, s1, s2, Cached(reply.score, reply.status))
  {
    var t := st.backend;
    assert st2.caches.Keys == Backends;
    assert st2.rcaches.Keys == Backends;
  }

  /**
    The entropy protocol: a hit returns the cached entry and changes nothing;
    a miss makes one native call and returns and caches (entropy, 0) unless
    the key is taken.
   */
  predicate EntropyStep(lib: NativeLibrary, st: State, st2: State, s: Bytes, r: Cached): (ok: bool)
    ensures ok ==> (IsHit(EntropyLookup(st.ecaches, s)) <==> st2.calls == st.calls)
    ensures ok ==> (!IsHit(EntropyLookup(st.ecaches, s)) <==> st2.calls == st.calls + 1)
    ensures ok ==> Adler32(s) in st2.ecaches && st2.caches == st.caches && st2.rcaches == st.rcaches
    ensures ok ==> st2.backend == st.backend && st2.level == st.level
  {
    var found := EntropyLookup(st.ecaches, s);
    if IsHit(found) then
      st2 == st && r == found
    else
      && r == Cached(lib.entropy(s), 0)
      && st2 == st.(ecaches := InsertFirst(st.ecaches, Adler32(s), r), calls := st.calls + 1)
  }

  /** The state after `set_compress_type(t)`. */
  function Switched(st: State, t: int): (st2: State)
    requires WellFormed(st) && t in Backends
    ensures WellFormed(st2) && st2.backend == t
    ensures st2.caches == st.caches && st2.rcaches == st.rcaches && st2.ecaches == st.ecaches
    ensures st2.level == st.level && st2.calls == st.calls
  {
    st.(backend := t)
  }

  /** The state after `clear_caches()`: every size partition emptied, the pair and entropy caches kept. */
  function Cleared(st: State): (st2: State)
    ensures st2.caches.Keys == st.caches.Keys
    ensures forall t :: t in st2.caches ==> st2.caches[t] == map[]
    ensures st2.rcaches == st.rcaches && st2.ecaches == st.ecaches
    ensures st2.level == st.level && st2.backend == st.backend && st2.calls == st.calls
  {
    st.(caches := map t | t in st.caches :: map[])
  }

  /**
    Clearing keeps all seven backend keys, empties every size partition so
    that every size lookup misses, and leaves the other caches alone.
   */
  lemma ClearedSizesMiss(st: State, t: int, s: Bytes)
    requires WellFormed(st) && t in Backends
    ensures WellFormed(Cleared(st))
    ensures SizeLookup(Cleared(st).caches[t], s) == 0
    ensures Cleared(st).rcaches == st.rcaches && Cleared(st).ecaches == st.ecaches
    ensures Cleared(st).backend == st.backend && Cleared(st).calls == st.calls
  {
  }

  /**
    A pair result computed on a miss is stored so that the lookup of the same
    pair, in either order, answers it; a hit leaves the state as it was. So,
    while no stored score is -1, the pair lookup after a step answers the
    step's result whenever that result is not the sentinel score.
   */
  lemma StepLeavesPairCached(lib: NativeLibrary, kind: Metric, st: State, st2: State, a: Bytes, b: Bytes, r: Cached)
    requires SimStep(lib, kind, st, st2, a, b, r)
    requires NoSentinelScores(st.rcaches[st.backend])
    ensures st2.backend == st.backend
    ensures PairLookup(st2.rcaches[st2.backend], a, b) == r
    ensures !IsHit(PairLookup(st.rcaches[st.backend], a, b)) ==> PairLookup(st2.rcaches[st2.backend], b, a) == r
    ensures IsHit(r) ==> NoSentinelScores(st2.rcaches[st2.backend])
  {
    var t := st.backend;
    var p := st.rcaches[t];
    if !IsHit(PairLookup(p, a, b)) {
      PairMissIff(p, a, b);
      PairLookupAfterInsert(p, a, b, r);
      if IsHit(r) {
        InsertKeepsNoSentinel(p, Adler32(a + b), r);
      }
    }
  }

  /**
    Cache idempotence, also across metrics: once `(a, b)` has been computed
    with a score other than -1, computing `(a, b)` again, with any metric,
    makes no native call, returns the same result and changes nothing; the
    two calls together make at most one native call.
   */
  lemma RepeatedSimIsCached(lib: NativeLibrary, k1: Metric, k2: Metric, st0: State, st1: State, st2: State,
                            a: Bytes, b: Bytes, r1: Cached, r2: Cached)
    requires SimStep(lib, k1, st0, st1, a, b, r1)
    requires SimStep(lib, k2, st1, st2, a, b, r2)
    requires NoSentinelScores(st0.rcaches[st0.backend]) && IsHit(r1)
    ensures r2 == r1 && st2 == st1
    ensures st2.calls <= st0.calls + 1
  {
    StepLeavesPairCached(lib, k1, st0, st1, a, b, r1);
  }

  /**
    Cache symmetry: after `(a, b)`, the reversed pair `(b, a)` makes no native
    call. When the first call computed its result, the reversed call returns
    that same result; when the first call hit, the reversed call answers
    whatever entry its own first lookup finds.
   */
  lemma ReversedSimIsCached(lib: NativeLibrary, k1: Metric, k2: Metric, st0: State, st1: State, st2: State,
                            a: Bytes, b: Bytes, r1: Cached, r2: Cached)
    requires SimStep(lib, k1, st0, st1, a, b, r1)
    requires SimStep(lib, k2, st1, st2, b, a, r2)
    requires NoSentinelScores(st0.rcaches[st0.backend]) && IsHit(r1)
    ensures st2 == st1 && st2.calls <= st0.calls + 1
    ensures !IsHit(PairLookup(st0.rcaches[st0.backend], a, b)) ==> r2 == r1
  {
    var t := st0.backend;
    StepLeavesPairCached(lib, k1, st0, st1, a, b, r1);
    if IsHit(PairLookup(st0.rcaches[t], a, b)) {
      assert st1 == st0;
      PairMissIff(st0.rcaches[t], a, b);
      PairMissIff(st0.rcaches[t], b, a);
    }
  }

  /**
    Backend switching keeps other partitions: a pair cached under backend
    `t0` is still answered, and every size cached under `t0` is still there,
    after switching to another backend, computing any pair there, and
    switching back.
   */
  lemma SwitchAndBackKeepsEntries(lib: NativeLibrary, kind: Metric, st0: State, u: int, st2: State,
                                  c: Bytes, d: Bytes, r: Cached, a: Bytes, b: Bytes)
    requires WellFormed(st0) && u in Backends && u != st0.backend
    requires SimStep(lib, kind, Switched(st0, u), st2, c, d, r)
    ensures var st3 := Switched(st2, st0.backend);
            && PairLookup(st3.rcaches[st3.backend], a, b) == PairLookup(st0.rcaches[st0.backend], a, b)
            && st3.caches[st3.backend] == st0.caches[st0.backend]
  {
    var t0 := st0.backend;
    var st1 := Switched(st0, u);
    if !IsHit(PairLookup(st1.rcaches[u], c, d)) {
      assert st2.rcaches[t0] == st1.rcaches[t0];
      assert st2.caches[t0] == st1.caches[t0];
    }
  }

  /**
    Backend isolation: what is cached under the active backend is not
    consulted under another. If the other backend's partition holds neither
    concatenation order, the pair costs a native call there, whatever the
    active partition holds.
   */
  lemma SwitchedBackendMisses(lib: NativeLibrary, kind: Metric, st: State, u: int, st2: State,
                              a: Bytes, b: Bytes, r: Cached)
    requires WellFormed(st) && u in Backends
    requires Adler32(a + b) !in st.rcaches[u] && Adler32(b + a) !in st.rcaches[u]
    requires SimStep(lib, kind, Switched(st, u), st2, a, b, r)
    ensures st2.calls == st.calls + 1
    ensures r == Cached(lib.metric(u, st.level, kind, a, SizeLookup(st.caches[u], a),
                                   b, SizeLookup(st.caches[u], b)).score,
                        lib.metric(u, st.level, kind, a, SizeLookup(st.caches[u], a),
                                   b, SizeLookup(st.caches[u], b)).status)
  {
    assert PairLookup(st.rcaches[u], a, b) == Miss;
  }

  /**
    Entropy idempotence: once the entropy of `s` has been computed with a
    value other than -1, asking again makes no native call and returns the
    same entry; the two calls together make at most one native call.
   */
  lemma RepeatedEntropyIsCached(lib: NativeLibrary, st0: State, st1: State, st2: State,
                                s: Bytes, r1: Cached, r2: Cached)
    requires EntropyStep(lib, st0, st1, s, r1)
    requires EntropyStep(lib, st1, st2, s, r2)
    requires NoSentinelScores(st0.ecaches) && IsHit(r1)
    ensures r2 == r1 && st2 == st1
    ensures st2.calls <= st0.calls + 1
  {
    if !IsHit(EntropyLookup(st0.ecaches, s)) {
      assert Adler32(s) !in st0.ecaches;
      assert EntropyLookup(st1.ecaches, s) == r1;
    }
  }
}
