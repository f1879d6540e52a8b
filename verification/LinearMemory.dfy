/** Byte-addressed linear memory with little-endian 32-bit words. */
module LinearMemory {

  type Byte = x: int | 0 <= x < 256
  type Memory = seq<Byte>

  const WORD := 0x1_0000_0000

  function Load32(m: Memory, a: nat): (r: nat)
    requires a + 4 <= |m|
    ensures r < WORD
  {
    m[a] as int + 0x100 * m[a + 1] as int + 0x1_0000 * m[a + 2] as int + 0x100_0000 * m[a + 3] as int
  }

  lemma BytesOf(v: nat)
    requires v < WORD
    ensures v / 0x100_0000 < 0x100
    ensures v == v % 0x100 + 0x100 * (v / 0x100 % 0x100) + 0x1_0000 * (v / 0x1_0000 % 0x100)
                 + 0x100_0000 * (v / 0x100_0000)
  {
    var q := v / 0x100;
    var r := q / 0x100;
    assert v / 0x1_0000 == r;
    assert v / 0x100_0000 == r / 0x100;
  }

  function Store32(m: Memory, a: nat, v: nat): (r: Memory)
    requires a + 4 <= |m| && v < WORD
    ensures |r| == |m| && Load32(r, a) == v
    ensures forall k :: 0 <= k < |m| && !(a <= k < a + 4) ==> r[k] == m[k]
  {
    BytesOf(v);
    m[a := v % 0x100][a + 1 := v / 0x100 % 0x100][a + 2 := v / 0x1_0000 % 0x100][a + 3 := v / 0x100_0000]
  }

  /** Two memories agree on the bytes in [lo, hi). */
  ghost predicate Same(m: Memory, n: Memory, lo: nat, hi: nat) {
    hi <= |m| && hi <= |n| && forall k :: lo <= k < hi ==> n[k] == m[k]
  }

  lemma SameLoad(m: Memory, n: Memory, lo: nat, hi: nat, a: nat)
    requires Same(m, n, lo, hi) && lo <= a && a + 4 <= hi
    ensures Load32(m, a) == Load32(n, a)
  {
  }
}
