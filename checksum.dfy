/**
  The cache key of every cache in the similarity engine: the Adler-32 checksum
  of section 2.2 of RFC 1950. Two running sums are kept modulo 65521: A starts
  at 1 and adds each byte, B adds every intermediate value of A. The checksum
  is B * 65536 + A.
 */
module Checksum {

  /** The largest prime smaller than 65536, the modulus of both sums. */
  const BASE: nat := 65521

  /** The two running sums of the checksum. */
  datatype Sums = Sums(a: nat, b: nat)

  predicate Reduced(s: Sums) {
    s.a < BASE && s.b < BASE
  }

  /** Feeds one byte into the running sums. */
  function Step(s: Sums, x: bv8): (r: Sums)
    ensures Reduced(r)
  {
    var a := (s.a + x as nat) % BASE;
    Sums(a, (s.b + a) % BASE)
  }

  /** Feeds `data` into the running sums, one byte at a time. */
  function Update(s: Sums, data: seq<bv8>): (r: Sums)
    ensures data == [] ==> r == s
    ensures data != [] ==> Reduced(r)
    decreases |data|
  {
    if data == [] then s else Update(Step(s, data[0]), data[1..])
  }

  /** The Adler-32 checksum of `data`, as an unsigned 32-bit value. */
  function Adler32(data: seq<bv8>): (h: nat)
    ensures h < 0x1_0000_0000
  {
    var s := Update(Sums(1, 0), data);
    s.b * 65536 + s.a
  }

  /**
    The checksum is streaming: the sums after `x + y` are the sums after `x`
    fed with `y`.
   */
  lemma {:induction false} UpdateConcat(s: Sums, x: seq<bv8>, y: seq<bv8>)
    ensures Update(s, x + y) == Update(Update(s, x), y)
    decreases |x|
  {
    if x == [] {
      assert x + y == y;
    } else {
      assert (x + y)[0] == x[0];
      assert (x + y)[1..] == x[1..] + y;
      UpdateConcat(Step(s, x[0]), x[1..], y);
    }
  }

  /**
    The checksum is not injective: two different three-byte buffers share a
    checksum, so every cache keyed by it answers for both.
   */
  lemma AdlerCollision()
    ensures var x: seq<bv8>, y: seq<bv8> := [1, 0, 1], [0, 2, 0];
            x != y && Adler32(x) == Adler32(y)
  {
    var x: seq<bv8> := [1, 0, 1];
    var y: seq<bv8> := [0, 2, 0];
    assert x[0] != y[0];
    // The sums after each byte of x: (2, 2), (2, 4), (3, 7).
    assert Update(Sums(1, 0), x) == Update(Sums(2, 2), x[1..]);
    assert Update(Sums(2, 2), x[1..]) == Update(Sums(2, 4), x[2..]);
    assert Update(Sums(2, 4), x[2..]) == Update(Sums(3, 7), x[3..]);
    // The sums after each byte of y: (1, 1), (3, 4), (3, 7).
    assert Update(Sums(1, 0), y) == Update(Sums(1, 1), y[1..]);
    assert Update(Sums(1, 1), y[1..]) == Update(Sums(3, 4), y[2..]);
    assert Update(Sums(3, 4), y[2..]) == Update(Sums(3, 7), y[3..]);
    assert x[3..] == y[3..] == [];
  }
}
