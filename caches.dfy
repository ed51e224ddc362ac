/**
  One partition of each of the engine's three caches, as a value: a map from
  the Adler-32 checksum of a buffer (or of the concatenation of two buffers)
  to what was cached for it. Lookups answer a sentinel on a miss; inserts keep
  the first value written under a key.
 */
module Caches {
  import opened Checksum

  type Bytes = seq<bv8>

  /** A checksum, the key of every cache. */
  type Key = nat

  /** A cached (score, status) pair of the pair-result and entropy caches. */
  datatype Cached = Cached(value: real, status: int)

  /** What the pair-result and entropy lookups answer on a miss: (-1, -1). */
  const Miss: Cached := Cached(-1.0, -1)

  /**
    How the engine tells a hit from a miss: it compares only the score with
    -1, so a stored score of -1 reads as a miss.
   */
  predicate IsHit(c: Cached) {
    c.value != -1.0
  }

  /** No stored score can be mistaken for the sentinel. */
  predicate NoSentinelScores(part: map<Key, Cached>) {
    forall k :: k in part ==> part[k].value != -1.0
  }

  /** The size-cache lookup: the stored size, or 0 when the key is absent. */
  function SizeLookup(part: map<Key, nat>, s: Bytes): (n: nat)
    ensures Adler32(s) in part ==> n == part[Adler32(s)]
    ensures Adler32(s) !in part ==> n == 0
  {
    if Adler32(s) in part then part[Adler32(s)] else 0
  }

  /**
    The pair-result lookup: the entry under the checksum of `s1 + s2`, else
    the one under the checksum of `s2 + s1`, else the sentinel.
   */
  function PairLookup(part: map<Key, Cached>, s1: Bytes, s2: Bytes): (r: Cached)
    ensures Adler32(s1 + s2) in part ==> r == part[Adler32(s1 + s2)]
    ensures Adler32(s1 + s2) !in part && Adler32(s2 + s1) in part ==> r == part[Adler32(s2 + s1)]
    ensures Adler32(s1 + s2) !in part && Adler32(s2 + s1) !in part ==> r == Miss
  {
    if Adler32(s1 + s2) in part then part[Adler32(s1 + s2)]
    else if Adler32(s2 + s1) in part then part[Adler32(s2 + s1)]
    else Miss
  }

  /** The entropy lookup: the stored entry, or the sentinel. */
  function EntropyLookup(part: map<Key, Cached>, s: Bytes): (r: Cached)
    ensures Adler32(s) in part ==> r == part[Adler32(s)]
    ensures Adler32(s) !in part ==> r == Miss
  {
    if Adler32(s) in part then part[Adler32(s)] else Miss
  }

  /**
    The insert shared by the three caches: it writes only when the key is
    absent, so the first value written under a key is the one kept.
   */
  function InsertFirst<V>(part: map<Key, V>, k: Key, v: V): (r: map<Key, V>)
    ensures r.Keys == part.Keys + {k}
    ensures forall k' :: k' in part ==> r[k'] == part[k']
    ensures k !in part ==> r[k] == v
  {
    if k in part then part else part[k := v]
  }

  /**
    With no stored score equal to -1, a pair lookup misses exactly when
    neither concatenation order is a key, and then it answers the sentinel.
   */
  lemma PairMissIff(part: map<Key, Cached>, s1: Bytes, s2: Bytes)
    requires NoSentinelScores(part)
    ensures !IsHit(PairLookup(part, s1, s2)) <==> Adler32(s1 + s2) !in part && Adler32(s2 + s1) !in part
    ensures !IsHit(PairLookup(part, s1, s2)) ==> PairLookup(part, s1, s2) == Miss
  {
  }

  /**
    After a pair result is inserted under `s1 + s2`, a lookup of the pair in
    either order answers it, unless something was already cached for one of
    the two orders.
   */
  lemma PairLookupAfterInsert(part: map<Key, Cached>, s1: Bytes, s2: Bytes, v: Cached)
    requires Adler32(s1 + s2) !in part && Adler32(s2 + s1) !in part
    ensures PairLookup(InsertFirst(part, Adler32(s1 + s2), v), s1, s2) == v
    ensures PairLookup(InsertFirst(part, Adler32(s1 + s2), v), s2, s1) == v
  {
  }

  /** A size cached for one buffer is answered for every buffer with the same checksum. */
  lemma SizeLookupAfterInsert(part: map<Key, nat>, s: Bytes, t: Bytes, n: nat)
    requires Adler32(s) !in part && Adler32(t) == Adler32(s)
    ensures SizeLookup(InsertFirst(part, Adler32(s), n), t) == n
  {
  }

  /**
    The checksum collision of `Checksum.AdlerCollision` in the size cache:
    once a size is cached for [1, 0, 1], the lookup of the different buffer
    [0, 2, 0] answers that size.
   */
  lemma CollisionSharesSize(part: map<Key, nat>, n: nat)
    requires part == map[]
    ensures var x: Bytes, y: Bytes := [1, 0, 1], [0, 2, 0];
            x != y && SizeLookup(InsertFirst(part, Adler32(x), n), y) == n
  {
    AdlerCollision();
  }

  /** Inserting an entry whose score is not -1 keeps every stored score off the sentinel. */
  lemma InsertKeepsNoSentinel(part: map<Key, Cached>, k: Key, v: Cached)
    requires NoSentinelScores(part) && IsHit(v)
    ensures NoSentinelScores(InsertFirst(part, k, v))
  {
  }
}
