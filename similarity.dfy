/**
  The similarity engine: an object holding the compression level, the active
  backend and the three caches, which it updates in place around calls into
  the native compression library. Every cached operation is proved to move
  the engine as the relations of module `Engine` allow.
 */
module Similarity {
  import opened Checksum
  import opened Caches
  import opened Engine

  class Similarity {
    /** The native library the engine was loaded with. */
    const native: NativeLibrary
    var level: int
    /** The active backend. */
    var backend: int
    /** Per-backend size caches: checksum of a buffer to its compressed size. */
    var caches: map<int, map<Key, nat>>
    /** Per-backend pair-result caches: checksum of a concatenation to (score, status). */
    var rcaches: map<int, map<Key, Cached>>
    /** The entropy cache, shared by all backends. */
    var ecaches: map<Key, Cached>
    /** Computing calls into the native library made so far; backend selection is not counted. */
    ghost var oracleCalls: nat

    ghost predicate Valid()
      reads this
    {
      WellFormed(Snapshot())
    }

    /** The engine's state as a value. */
    ghost function Snapshot(): State
      reads this
    {
      State(level, backend, caches, rcaches, ecaches, oracleCalls)
    }

    constructor (lib: NativeLibrary)
      ensures Valid() && native == lib
      ensures Snapshot() == Initial()
    {
      native := lib;
      level := DEFAULT_LEVEL;
      caches := map t | t in Backends :: map[];
      rcaches := map t | t in Backends :: map[];
      ecaches := map[];
      oracleCalls := 0;
      backend := ZLIB_COMPRESS;
      new;
      SetCompressType(ZLIB_COMPRESS);
    }

    method SetLevel(l: int)
      modifies this`level
      ensures level == l
    {
      level := l;
    }

    /** The size cached for `s` under the active backend, or 0. */
    function GetInCaches(s: Bytes): (n: nat)
      reads this
      requires Valid()
      ensures Adler32(s) in caches[backend] ==> n == caches[backend][Adler32(s)]
      ensures Adler32(s) !in caches[backend] ==> n == 0
    {
      SizeLookup(caches[backend], s)
    }

    /** The pair result cached for `s1`, `s2` under the active backend, in either order, or (-1, -1). */
    function GetInRcaches(s1: Bytes, s2: Bytes): (r: Cached)
      reads this
      requires Valid()
      ensures Adler32(s1 + s2) in rcaches[backend] ==> r == rcaches[backend][Adler32(s1 + s2)]
      ensures Adler32(s1 + s2) !in rcaches[backend] && Adler32(s2 + s1) in rcaches[backend] ==>
                r == rcaches[backend][Adler32(s2 + s1)]
      ensures Adler32(s1 + s2) !in rcaches[backend] && Adler32(s2 + s1) !in rcaches[backend] ==> r == Miss
    {
      PairLookup(rcaches[backend], s1, s2)
    }

    /** The entropy cached for `s`, or (-1, -1). */
    function GetInEcaches(s: Bytes): (r: Cached)
      reads this
      ensures Adler32(s) in ecaches ==> r == ecaches[Adler32(s)]
      ensures Adler32(s) !in ecaches ==> r == Miss
    {
      EntropyLookup(ecaches, s)
    }

    method AddInCaches(s: Bytes, v: nat)
      requires Valid()
      modifies this`caches
      ensures Valid()
      ensures caches[backend] == InsertFirst(old(caches[backend]), Adler32(s), v)
      ensures forall u :: u in caches && u != backend ==> caches[u] == old(caches[u])
    {
      var h := Adler32(s);
      if h !in caches[backend] {
        var part: map<Key, nat> := caches[backend][h := v];
        caches := caches[backend := part];
      }
    }

    method AddInRcaches(s: Bytes, v: real, r: int)
      requires Valid()
      modifies this`rcaches
      ensures Valid()
      ensures rcaches[backend] == InsertFirst(old(rcaches[backend]), Adler32(s), Cached(v, r))
      ensures forall u :: u in rcaches && u != backend ==> rcaches[u] == old(rcaches[u])
    {
      var h := Adler32(s);
      if h !in rcaches[backend] {
        rcaches := rcaches[backend := rcaches[backend][h := Cached(v, r)]];
      }
    }

    method AddInEcaches(s: Bytes, v: real, r: int)
      modifies this`ecaches
      ensures ecaches == InsertFirst(old(ecaches), Adler32(s), Cached(v, r))
    {
      var h := Adler32(s);
      if h !in ecaches {
        ecaches := ecaches[h := Cached(v, r)];
      }
    }

    /** Empties every size partition, one backend at a time. */
    method ClearCaches()
      requires Valid()
      modifies this`caches
      ensures Valid()
      ensures Snapshot() == Cleared(old(Snapshot()))
    {
      var todo := caches.Keys;
      while todo != {}
        invariant todo <= caches.Keys == old(caches.Keys)
        invariant forall t :: t in caches && t !in todo ==> caches[t] == map[]
        decreases todo
      {
        var t :| t in todo;
        caches := caches[t := map[]];
        todo := todo - {t};
      }
    }

    /** Selects the backend that later calls use, in the engine and in the native library. */
    method SetCompressType(t: int)
      requires t in Backends
      requires Valid()
      modifies this`backend
      ensures Valid()
      ensures Snapshot() == Switched(old(Snapshot()), t)
    {
      backend := t;
    }

    /** One call of a native metric function, with the sizes cached for the two buffers as hints. */
    method NativeMetric(kind: Metric, a: Bytes, hintA: nat, b: Bytes, hintB: nat) returns (reply: MetricReply)
      modifies this`oracleCalls
      ensures oracleCalls == old(oracleCalls) + 1
      ensures reply == native.metric(backend, level, kind, a, hintA, b, hintB)
    {
      oracleCalls := oracleCalls + 1;
      reply := native.metric(backend, level, kind, a, hintA, b, hintB);
    }

    /**
      The protocol shared by ncd, ncs and cmid. The size cells handed to the
      library are the cached ones on a hit, so the sizes it writes back land
      in the cache; on a miss they are fresh cells, cached afterwards. The
      three first-write inserts of `AddInCaches` and `AddInRcaches` are done
      here on the active partitions as values, with the same `InsertFirst`.
     */
    method Sim(kind: Metric, s1: Bytes, s2: Bytes) returns (score: real, status: int)
      requires Valid()
      modifies this`caches, this`rcaches, this`oracleCalls
      ensures Valid()
      ensures SimStep(native, kind, old(Snapshot()), Snapshot(), s1, s2, Cached(score, status))
    {
      ghost var st := Snapshot();
      var t := backend;
      var sizes, results := caches[t], rcaches[t];
      var found := GetInRcaches(s1, s2);
      if IsHit(found) {
        return found.value, found.status;
      }
      var h1, h2 := Adler32(s1), Adler32(s2);
      var corig, ccmp := GetInCaches(s1), GetInCaches(s2);
      var reply := NativeMetric(kind, s1, corig, s2, ccmp);
      // The library wrote the sizes through pointers to the cells it was
      // given; a cell that came from a hit is the cached one.
      var written := sizes;
      if h1 in sizes {
        written := written[h1 := reply.sizeA];
      }
      if h2 in sizes {
        written := written[h2 := reply.sizeB];
      }
      // The first-write inserts of both size cells, then of the pair result.
      written := InsertFirst(InsertFirst(written, h1, reply.sizeA), h2, reply.sizeB);
      caches := caches[t := written];
      rcaches := rcaches[t := InsertFirst(results, Adler32(s1 + s2), Cached(reply.score, reply.status))];
      assert written == WrittenBack(sizes, h1, reply.sizeA, h2, reply.sizeB);
      MissIsSimStep(native, kind, st, Snapshot(), s1, s2, reply);
      return reply.score, reply.status;
    }

    method Ncd(s1: Bytes, s2: Bytes) returns (score: real, status: int)
      requires Valid()
      modifies this`caches, this`rcaches, this`oracleCalls
      ensures Valid()
      ensures SimStep(native, Metric.Ncd, old(Snapshot()), Snapshot(), s1, s2, Cached(score, status))
    {
      score, status := Sim(Metric.Ncd, s1, s2);
    }

    method Ncs(s1: Bytes, s2: Bytes) returns (score: real, status: int)
      requires Valid()
      modifies this`caches, this`rcaches, this`oracleCalls
      ensures Valid()
      ensures SimStep(native, Metric.Ncs, old(Snapshot()), Snapshot(), s1, s2, Cached(score, status))
    {
      score, status := Sim(Metric.Ncs, s1, s2);
    }

    method Cmid(s1: Bytes, s2: Bytes) returns (score: real, status: int)
      requires Valid()
      modifies this`caches, this`rcaches, this`oracleCalls
      ensures Valid()
      ensures SimStep(native, Metric.Cmid, old(Snapshot()), Snapshot(), s1, s2, Cached(score, status))
    {
      score, status := Sim(Metric.Cmid, s1, s2);
    }

    method Entropy(s: Bytes) returns (value: real, status: int)
      modifies this`ecaches, this`oracleCalls
      ensures EntropyStep(native, old(Snapshot()), Snapshot(), s, Cached(value, status))
    {
      var found := GetInEcaches(s);
      if IsHit(found) {
        return found.value, found.status;
      }
      oracleCalls := oracleCalls + 1;
      var res := native.entropy(s);
      AddInEcaches(s, res, 0);
      return res, 0;
    }

    /** Compression is never cached. */
    method Compress(s: Bytes) returns (size: nat)
      modifies this`oracleCalls
      ensures oracleCalls == old(oracleCalls) + 1
      ensures size == native.compress(backend, level, s)
    {
      oracleCalls := oracleCalls + 1;
      size := native.compress(backend, level, s);
    }

    /** The Kolmogorov estimate, never cached, with the fixed status 0. */
    method Kolmogorov(s: Bytes) returns (estimate: nat, status: int)
      modifies this`oracleCalls
      ensures oracleCalls == old(oracleCalls) + 1
      ensures estimate == native.kolmogorov(backend, level, s) && status == 0
    {
      oracleCalls := oracleCalls + 1;
      estimate := native.kolmogorov(backend, level, s);
      status := 0;
    }

    /** The Bennett logical-depth estimate, never cached, with the fixed status 0. */
    method Bennett(s: Bytes) returns (estimate: real, status: int)
      modifies this`oracleCalls
      ensures oracleCalls == old(oracleCalls) + 1
      ensures estimate == native.bennett(backend, level, s) && status == 0
    {
      oracleCalls := oracleCalls + 1;
      estimate := native.bennett(backend, level, s);
      status := 0;
    }

    /** The edit distance, never cached, with the fixed status 0. */
    method Levenshtein(s1: Bytes, s2: Bytes) returns (distance: nat, status: int)
      modifies this`oracleCalls
      ensures oracleCalls == old(oracleCalls) + 1
      ensures distance == native.levenshtein(s1, s2) && status == 0
    {
      oracleCalls := oracleCalls + 1;
      distance := native.levenshtein(s1, s2);
      status := 0;
    }
  }
}
