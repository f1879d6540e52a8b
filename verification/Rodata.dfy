/** The literal pool packed below the shadow stack, and where stack and heap go above it. */
module Rodata {
  import opened LinearMemory
  import opened Cells
  import opened Wrappers

  const RODATA_BASE := 0x2000
  const STACK_LIMIT := 0x1_0000
  const STACK_AREA := 0x1_0000
  const INITIAL_PAGES := 4

  /** Only strings and byte blobs are stored. */
  datatype Literal = Blob(bytes: seq<Byte>) | Scalar

  ghost predicate Included(pool: seq<Literal>, used: set<nat>, id: nat) {
    id < |pool| && id in used && pool[id].Blob?
  }

  /** At its offset the table holds the literal's bytes and a NUL. */
  ghost predicate Holds(table: seq<Byte>, offset: nat, bytes: seq<Byte>) {
    && RODATA_BASE <= offset && offset % 4 == 0
    && offset - RODATA_BASE + |bytes| + 1 <= |table|
    && table[offset - RODATA_BASE..offset - RODATA_BASE + |bytes| + 1] == bytes + [0]
  }

  ghost predicate Packed(pool: seq<Literal>, used: set<nat>, n: nat, table: seq<Byte>, offsets: map<nat, nat>) {
    && n <= |pool|
    && (forall id: nat :: id in offsets <==> id < n && Included(pool, used, id))
    && (forall id :: id in offsets ==> Holds(table, offsets[id], pool[id].bytes))
    && forall a, b :: a in offsets && b in offsets && a < b ==> offsets[a] + |pool[a].bytes| < offsets[b]
  }

  /** Where a literal and its NUL end. */
  ghost function EndOf(pool: seq<Literal>, offsets: map<nat, nat>, id: nat): nat
    requires id in offsets && id < |pool| && pool[id].Blob?
  {
    offsets[id] + |pool[id].bytes| + 1
  }

  ghost predicate InPool(pool: seq<Literal>, offsets: map<nat, nat>) {
    forall id :: id in offsets ==> id < |pool| && pool[id].Blob?
  }

  /** Some literal ends at `end`, or there is none and `end` is the base. */
  ghost predicate EndsAt(pool: seq<Literal>, offsets: map<nat, nat>, end: nat)
    requires InPool(pool, offsets)
  {
    if offsets == map[] then end == RODATA_BASE else exists id :: id in offsets && EndOf(pool, offsets, id) == end
  }

  /** A literal starts less than four bytes behind the base or the end of one before it. */
  ghost predicate FollowsOn(pool: seq<Literal>, offsets: map<nat, nat>, id: nat)
    requires InPool(pool, offsets) && id in offsets
  {
    || offsets[id] < RODATA_BASE + 4
    || exists a :: a in offsets && a < id && offsets[id] < EndOf(pool, offsets, a) + 4
  }

  ghost predicate Snug(pool: seq<Literal>, offsets: map<nat, nat>, end: nat) {
    InPool(pool, offsets) && EndsAt(pool, offsets, end) && forall id :: id in offsets ==> FollowsOn(pool, offsets, id)
  }

  /** The next literal, right after those before it. */
  lemma SnugMore(pool: seq<Literal>, offsets: map<nat, nat>, end: nat, id: nat, offset: nat)
    requires Snug(pool, offsets, end) && id < |pool| && pool[id].Blob? && offset < end + 4
    requires forall a :: a in offsets ==> a < id
    ensures Snug(pool, offsets[id := offset], offset + |pool[id].bytes| + 1)
  {
    var now := offsets[id := offset];
    assert EndOf(pool, now, id) == offset + |pool[id].bytes| + 1 && id in now;
    forall k | k in now ensures FollowsOn(pool, now, k) {
      if k in offsets {
        assert FollowsOn(pool, offsets, k);
        if a :| a in offsets && a < k && offsets[k] < EndOf(pool, offsets, a) + 4 {
          assert EndOf(pool, now, a) == EndOf(pool, offsets, a);
        }
      } else if offsets != map[] {
        var a :| a in offsets && EndOf(pool, offsets, a) == end;
        assert EndOf(pool, now, a) == end;
      }
    }
  }

  lemma HoldsMore(table: seq<Byte>, extra: seq<Byte>, offset: nat, bytes: seq<Byte>)
    requires Holds(table, offset, bytes)
    ensures Holds(table + extra, offset, bytes)
  {
    var at := offset - RODATA_BASE;
    assert (table + extra)[at..at + |bytes| + 1] == table[at..at + |bytes| + 1];
  }

  /** Every literal in use is stored whole, aligned and apart from the others, in pool order, with no
      more padding than the alignment asks for. */
  method Collect(pool: seq<Literal>, used: set<nat>) returns (table: seq<Byte>, offsets: map<nat, nat>)
    ensures Packed(pool, used, |pool|, table, offsets) && Snug(pool, offsets, RODATA_BASE + |table|)
  {
    hide Snug;
    table, offsets := [], map[];
    var current := RODATA_BASE;
    assert Snug(pool, offsets, RODATA_BASE) by { NoneSnug(pool); }
    for id := 0 to |pool|
      invariant current == RODATA_BASE + |table|
      invariant Packed(pool, used, id, table, offsets) && Snug(pool, offsets, current)
    {
      if id in used && pool[id].Blob? {
        var was := table;
        var padding := (4 - |table| % 4) % 4;
        for k := 0 to padding
          invariant |table| == |was| + k && was <= table && current == RODATA_BASE + |table|
        {
          table := table + [0];
          current := current + 1;
        }
        var offset := current;
        var start := |table|;
        table := table + pool[id].bytes + [0];
        current := current + |pool[id].bytes| + 1;
        assert table[start..start + |pool[id].bytes| + 1] == pool[id].bytes + [0];
        Placed(pool, used, id, was, table, offsets, offset);
        SnugMore(pool, offsets, RODATA_BASE + |was|, id, offset);
        offsets := offsets[id := offset];
      }
    }
  }

  lemma NoneSnug(pool: seq<Literal>)
    ensures Snug(pool, map[], RODATA_BASE)
  {
  }

  lemma Placed(pool: seq<Literal>, used: set<nat>, id: nat, was: seq<Byte>, table: seq<Byte>,
               offsets: map<nat, nat>, offset: nat)
    requires Packed(pool, used, id, was, offsets) && was <= table && id < |pool| && Included(pool, used, id)
    requires Holds(table, offset, pool[id].bytes) && RODATA_BASE + |was| <= offset
    ensures Packed(pool, used, id + 1, table, offsets[id := offset])
  {
    forall k | k in offsets
      ensures Holds(table, offsets[k], pool[k].bytes) && offsets[k] + |pool[k].bytes| < offset
    {
      HoldsMore(was, table[|was|..], offsets[k], pool[k].bytes);
      assert table == was + table[|was|..];
    }
  }

  /** The least heap base and page count for a module whose literals take `len` bytes. */
  function MemoryRegions(len: nat): (r: Option<(nat, nat)>)
    ensures r.Some? <==> RODATA_BASE + len <= 0x7FFE_FFF0
    ensures r.Some? ==>
              && RODATA_BASE + len <= r.value.0 - STACK_AREA
              && STACK_LIMIT <= r.value.0 - STACK_AREA
              && IsAligned(r.value.0) && r.value.0 < 0x8000_0000
              && r.value.0 + 0x1_0000 <= r.value.1 * 0x1_0000 <= WORD
              && INITIAL_PAGES <= r.value.1
    ensures r.Some? ==>
              && (r.value.0 == STACK_LIMIT + STACK_AREA || r.value.0 - 16 < RODATA_BASE + len + STACK_AREA)
              && (r.value.1 == INITIAL_PAGES || (r.value.1 - 1) * 0x1_0000 < r.value.0 + 0x1_0000)
  {
    var end := RODATA_BASE + len;
    var aligned := (end + 15) / 16 * 16;
    var limit := if aligned < STACK_LIMIT then STACK_LIMIT else aligned;
    var base := limit + STACK_AREA;
    var pages := (base + 0x1_0000 + 0xFFFF) / 0x1_0000;
    if base > 0x7FFF_FFFF then None
    else Some((base, if pages < INITIAL_PAGES then INITIAL_PAGES else pages))
  }
}
