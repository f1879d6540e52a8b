/** The guest allocator: a best-fit free list and a bump frontier, and the canonical realloc. */
module Allocator {
  import opened LinearMemory
  import opened Cells
  import opened Handles
  import opened Wrappers

  datatype Outcome = Trap | Done(ptr: nat)

  /** A request rounded up to the cell alignment. */
  function Rounded(size: nat): (r: nat)
    ensures IsAligned(r) && size <= r < size + 16
    ensures size <= 0xFFFF_FFF0 ==> r <= 0xFFFF_FFF0
  {
    (size + 15) / 16 * 16
  }

  /** Pages a memory must have to hold every byte below `end`. */
  function RequiredPages(end: nat): (r: nat)
    requires 0 < end
    ensures (r - 1) * 0x1_0000 < end <= r * 0x1_0000
  {
    (end - 1) / 0x1_0000 + 1
  }

  ghost function Before(cells: seq<Cell>, free: seq<nat>, k: nat): nat
    requires Listed(cells, free) && k <= |free|
  {
    if k == 0 then 0 else cells[free[k - 1]].base
  }

  /** The scan's two results name the best fit and the cell before it, or no cell at all. */
  ghost predicate Names(cells: seq<Cell>, free: seq<nat>, fit: Option<nat>, best: nat, bestPrev: nat)
    requires Listed(cells, free) && (fit.Some? ==> fit.value < |free|)
  {
    match fit
    case None => best == 0
    case Some(k) => best == cells[free[k]].base && bestPrev == Before(cells, free, k)
  }

  /** The free-list scan. */
  method FindFit(m: Memory, head: nat, want: nat,
                 ghost lo: nat, ghost hi: nat, ghost cells: seq<Cell>, ghost free: seq<nat>)
    returns (best: nat, bestPrev: nat)
    requires Sound(m, lo, hi, head, cells, free)
    ensures Names(cells, free, BestFit(cells, free, want, |free|), best, bestPrev)
    ensures best == 0 <==> BestFit(cells, free, want, |free|).None?
  {
    hide Tiled, Aligned, Load32;
    var node, prev := head, 0;
    best, bestPrev := 0, 0;
    ghost var k := 0;
    while node != 0
      invariant k <= |free| && node == LinkTo(cells, free, k) && prev == Before(cells, free, k)
      invariant Names(cells, free, BestFit(cells, free, want, k), best, bestPrev)
      invariant best == 0 <==> BestFit(cells, free, want, k).None?
      decreases |free| - k
    {
      NodeFacts(m, lo, hi, head, cells, free, k);
      ghost var fit := BestFit(cells, free, want, k);
      if fit.Some? {
        NodeFacts(m, lo, hi, head, cells, free, fit.value);
      }
      var size := Load32(m, node + 4);
      if size >= want {
        if best == 0 {
          best, bestPrev := node, prev;
        } else if size < Load32(m, best + 4) {
          best, bestPrev := node, prev;
        }
      }
      prev := node;
      node := Load32(m, node + NEXT);
      k := k + 1;
    }
    if k < |free| {
      NodeFacts(m, lo, hi, head, cells, free, k);
    }
  }

  lemma NodeFacts(m: Memory, lo: nat, hi: nat, head: nat, cells: seq<Cell>, free: seq<nat>, k: nat)
    requires Sound(m, lo, hi, head, cells, free) && k < |free|
    ensures 0 < cells[free[k]].base && End(cells[free[k]]) <= |m|
    ensures Load32(m, cells[free[k]].base + 4) == cells[free[k]].size
    ensures Load32(m, cells[free[k]].base + NEXT) == LinkTo(cells, free, k + 1)
  {
    TiledWithin(cells, lo, hi, free[k]);
    assert HeaderAt(m, cells[free[k]]) && LinkAt(m, cells, free, k);
  }

  lemma HeapParts(m: Memory, lo: nat, hi: nat, head: nat, cells: seq<Cell>, free: seq<nat>)
    requires Sound(m, lo, hi, head, cells, free)
    ensures Headers(m, cells) && Listed(cells, free) && Kept(m, m, lo, cells)
    ensures 0x2_0000 <= lo < 0x8000_0000 && lo <= hi < WORD && hi <= |m| <= WORD && |cells| !in free
  {
    hide Tiled, Aligned, Kept, LinkTo;
    KeptSelf(m, lo, cells);
  }

  lemma CellParts(m: Memory, lo: nat, hi: nat, head: nat, cells: seq<Cell>, free: seq<nat>, i: nat)
    requires Sound(m, lo, hi, head, cells, free) && i < |cells|
    ensures lo <= cells[i].base && End(cells[i]) <= hi && End(cells[i]) <= |m|
    ensures IsAligned(Payload(cells[i]))
    ensures Load32(m, cells[i].base) == MAGIC
  {
    hide Load32, Linked;
    TiledWithin(cells, lo, hi, i);
    assert HeaderAt(m, cells[i]);
  }

  lemma SamePayload(m: Memory, lo: nat, hi: nat, head: nat, cells: seq<Cell>, free: seq<nat>, i: nat, j: nat)
    requires Sound(m, lo, hi, head, cells, free) && i < |cells| && j < |cells|
    requires Payload(cells[i]) == Payload(cells[j])
    ensures i == j
  {
    hide Tiled, Aligned, Headers, Linked;
    if i != j {
      PayloadsDistinct(cells, lo, hi, i, j);
    }
  }

  /** What the unlinking reads and writes, and what comes of it. */
  lemma TakeSound(m: Memory, lo: nat, hi: nat, head: nat, cells: seq<Cell>, free: seq<nat>, k: nat)
    requires Sound(m, lo, hi, head, cells, free) && Headers(m, cells) && Listed(cells, free) && k < |free|
    ensures free[k] < |cells| && End(cells[free[k]]) <= |m| && IsAligned(Payload(cells[free[k]]))
    ensures Load32(m, cells[free[k]].base + NEXT) == LinkTo(cells, free, k + 1) < WORD
    ensures Before(cells, free, k) == 0 <==> k == 0
    ensures k > 0 ==> Before(cells, free, k) + HEADER <= |m|
    ensures k > 0 ==> Unlinked(m, cells, free, k)
                      == Store32(m, Before(cells, free, k) + NEXT, LinkTo(cells, free, k + 1))
    ensures k == 0 ==> Unlinked(m, cells, free, k) == m
    ensures Sound(Unlinked(m, cells, free, k), lo, hi, if k == 0 then LinkTo(cells, free, 1) else head,
                  cells, Without(free, k))
    ensures Kept(m, Unlinked(m, cells, free, k), lo, cells) && GenerationOf(m, cells[free[k]]) == 0
    ensures free[k] !in Without(free, k) && forall j :: j in Without(free, k) ==> j in free
  {
    hide Sound, Kept, GenerationOf, Load32, Store32, Headers, HeaderAt, IsAligned;
    CellParts(m, lo, hi, head, cells, free, free[k]);
    NodeFacts(m, lo, hi, head, cells, free, k);
    if k > 0 {
      NodeFacts(m, lo, hi, head, cells, free, k - 1);
    }
    UnlinkSound(m, lo, hi, head, cells, free, k);
    WithoutListed(cells, free, k);
  }

  lemma PreviousCell(m: Memory, lo: nat, hi: nat, head: nat, cells: seq<Cell>, free: seq<nat>, k: nat)
    requires Sound(m, lo, hi, head, cells, free) && Listed(cells, free) && 0 < k < |free|
    ensures free[k - 1] < |cells| && Payload(cells[free[k - 1]]) <= |m|
    ensures Before(cells, free, k) == cells[free[k - 1]].base
  {
    hide Sound;
    CellParts(m, lo, hi, head, cells, free, free[k - 1]);
  }

  lemma FewerHeaders(m: Memory, cells: seq<Cell>, c: Cell)
    requires Headers(m, cells + [c])
    ensures Headers(m, cells)
  {
    assert forall i :: 0 <= i < |cells| ==> (cells + [c])[i] == cells[i];
  }

  lemma KeptGeneration(m: Memory, n: Memory, lo: nat, cells: seq<Cell>, i: nat)
    requires Kept(m, n, lo, cells) && i < |cells|
    ensures End(cells[i]) <= |m| && End(cells[i]) <= |n|
    ensures GenerationOf(n, cells[i]) == GenerationOf(m, cells[i])
  {
    assert SameCell(m, n, cells[i]);
  }

  lemma SameElsewhere(m: Memory, n: Memory, lo: nat, cells: seq<Cell>, j: nat)
    requires KeptBut(m, n, lo, cells, j)
    ensures forall k :: 0 <= k < |cells| && k != j ==> SameCell(m, n, cells[k])
  {
  }

  lemma SameThrough(m: Memory, n: Memory, o: Memory, c: Cell)
    requires SameCell(m, n, c) && SameCell(n, o, c)
    ensures SameCell(m, o, c)
  {
  }

  lemma AllSame(m: Memory, n: Memory, lo: nat, cells: seq<Cell>)
    requires Kept(m, n, lo, cells)
    ensures forall k :: 0 <= k < |cells| ==> SameCell(m, n, cells[k]) && SameBytes(m, n, cells[k])
  {
  }

  /** The counter word, then the tag of cell i. */
  lemma IssueParts(m: Memory, n: Memory, o: Memory, lo: nat, cells: seq<Cell>, i: nat)
    requires SameCells(m, n, cells) && KeptBut(n, o, lo, cells, i) && COUNTER + 4 <= lo <= |n|
    requires i < |cells| && SameBytes(n, o, cells[i])
    ensures COUNTER + 4 <= |o| && Load32(o, COUNTER) == Load32(n, COUNTER)
    ensures forall k :: 0 <= k < |cells| && k != i ==> SameCell(m, o, cells[k])
    ensures SameBytes(m, o, cells[i])
  {
    hide Load32, Contents, GenerationOf;
    assert SameCell(m, n, cells[i]);
    SameLoad(n, o, 0, lo, COUNTER);
    forall k | 0 <= k < |cells| && k != i
      ensures SameCell(m, o, cells[k])
    {
      assert SameCell(m, n, cells[k]) && SameCell(n, o, cells[k]);
    }
  }

  /** A cell's generation word matches the tag of g exactly when g is good and was issued for it;
      a free cell's never does. */
  lemma CheckMeaning(m: Memory, lo: nat, hi: nat, head: nat, cells: seq<Cell>, free: seq<nat>,
                     owner: seq<nat>, i: nat, g: nat)
    requires Sound(m, lo, hi, head, cells, free) && Tagged(m, cells, owner) && i < |cells|
    ensures GenerationOf(m, cells[i]) == Tag(g) && g > 0 <==> g in Good(m, cells, owner) && owner[g - 1] == i
    ensures i in free ==> GenerationOf(m, cells[i]) == 0
  {
    hide Tiled, Aligned, GenerationOf, Load32, HeaderAt;
    assert TagAt(GenerationOf(m, cells[i]), i, owner);
    if i in free {
      var k :| 0 <= k < |free| && free[k] == i;
      assert LinkAt(m, cells, free, k);
    }
  }

  /** What a new header past the frontier makes of the heap. */
  lemma AppendParts(m: Memory, lo: nat, hi: nat, head: nat, cells: seq<Cell>, free: seq<nat>, size: nat)
    requires Sound(m, lo, hi, head, cells, free) && IsAligned(size)
    requires hi + HEADER + size < WORD && hi + HEADER + size <= |m|
    ensures Sound(Headed(m, hi, size), lo, hi + HEADER + size, head, cells + [Cell(hi, size)], free)
    ensures Headers(Headed(m, hi, size), cells) && Headers(Headed(m, hi, size), cells + [Cell(hi, size)])
    ensures GenerationOf(Headed(m, hi, size), Cell(hi, size)) == 0 && IsAligned(hi + HEADER)
    ensures Kept(m, Headed(m, hi, size), lo, cells)
  {
    hide Tiled, Headers, Aligned, Linked, Kept, Headed, GenerationOf, LinkTo;
    FrontierAligned(cells, lo, hi);
    AppendSound(m, lo, hi, head, cells, free, size);
    FewerHeaders(Headed(m, hi, size), cells, Cell(hi, size));
  }

  lemma CounterOnly(m: Memory, cells: seq<Cell>, g: nat)
    requires COUNTER + 4 <= |m| && g < WORD
    ensures OnlyHeaders(m, Store32(m, COUNTER, g), cells, COUNTER, COUNTER + 4)
  {
    hide Store32, InHeader;
  }

  lemma HeadedOnly(m: Memory, cells: seq<Cell>, i: nat)
    requires i < |cells| && Payload(cells[i]) <= |m| && cells[i].size < WORD
    ensures OnlyHeaders(m, Headed(m, cells[i].base, cells[i].size), cells, 0, 0)
  {
    hide Store32, Load32, OnlyHeaders;
    var a, size := cells[i].base, cells[i].size;
    var m1 := Store32(m, a, MAGIC);
    var m2 := Store32(m1, a + 4, size);
    StoreInHeader(m, cells, i, 0, MAGIC);
    StoreInHeader(m1, cells, i, 4, size);
    StoreInHeader(m2, cells, i, GENERATION, 0);
    OnlyThrough(m, m1, m2, cells, 0, 0);
    OnlyThrough(m, m2, Store32(m2, a + GENERATION, 0), cells, 0, 0);
  }

  /** How large the memory is, how far the cells reach, the cells, and those on the free list. */
  datatype State = State(bytes: nat, hi: nat, cells: seq<Cell>, free: seq<nat>)

  /** Whether a request stops the program. */
  ghost predicate Fails(s: State, size: nat, canGrow: bool)
    requires Listed(s.cells, s.free)
  {
    || size > WORD - 16
    || (BestFit(s.cells, s.free, Rounded(size), |s.free|).None?
        && (s.hi + HEADER + Rounded(size) >= WORD
            || (s.hi + HEADER + Rounded(size) > s.bytes && !canGrow)))
  }

  /** The memory grows only when it has to, and by no page more than it has to. */
  ghost predicate GrowsTo(was: nat, now: nat, end: nat) {
    now % 0x1_0000 == 0 && if end <= was then now == was else end <= now < end + 0x1_0000
  }

  /** A request is met by cell i: the best fit leaves the free list, or a new cell is made at the end. */
  ghost predicate Allocates(was: State, size: nat, i: nat, now: State)
    requires Listed(was.cells, was.free)
  {
    match BestFit(was.cells, was.free, Rounded(size), |was.free|)
    case Some(k) =>
      k < |was.free| && i == was.free[k] && now == was.(free := Without(was.free, k))
    case None =>
      var made := Cell(was.hi, Rounded(size));
      && i == |was.cells| && now.cells == was.cells + [made] && now.free == was.free
      && now.hi == End(made) && GrowsTo(was.bytes, now.bytes, now.hi)
  }

  /** Cell i comes first on the free list. */
  function Freed(s: State, i: nat): State {
    s.(free := [i] + s.free)
  }

  /** The guards on the wrapped sums catch exactly the ones past the address space. */
  lemma BumpSums(base: nat, want: nat)
    requires base < WORD && want <= WORD - 16
    ensures (base + HEADER) % 0x1_0000_0000 <= base <==> base + HEADER >= WORD
    ensures base + HEADER < WORD ==>
              (((base + HEADER) % 0x1_0000_0000 + want) % 0x1_0000_0000 <= base <==> base + HEADER + want >= WORD)
    ensures base + HEADER + want < WORD ==>
              ((base + HEADER) % 0x1_0000_0000 + want) % 0x1_0000_0000 == base + HEADER + want
  {
  }

  function ZeroBytes(n: nat): Memory {
    seq(n, i => 0)
  }

  function Min(a: nat, b: nat): nat {
    if a < b then a else b
  }

  /** The alignments the host may ask for. */
  predicate Supported(align: bv32) {
    align == 1 || align == 2 || align == 4 || align == 8 || align == 16
  }

  lemma AlignmentTest(align: bv32)
    ensures align == 0 || align > 16 || (align & (align - 1)) != 0 <==> !Supported(align)
  {
  }

  /** The n bytes at `dst` of memory m' are those at `src` of memory m. */
  ghost predicate Moved(m: Memory, src: nat, m': Memory, dst: nat, n: nat) {
    src + n <= |m| && dst + n <= |m'| && m'[dst..dst + n] == m[src..src + n]
  }

  lemma SlicesOf(m: Memory, n: Memory, c: Cell, len: nat)
    requires SameCell(m, n, c) && len <= c.size
    ensures m[Payload(c)..Payload(c) + len] == n[Payload(c)..Payload(c) + len]
  {
    hide GenerationOf;
    FrontOf(m, Payload(c), End(c), len);
    FrontOf(n, Payload(c), End(c), len);
  }

  lemma FrontOf(m: Memory, lo: nat, hi: nat, len: nat)
    requires lo + len <= hi <= |m|
    ensures m[lo..hi][..len] == m[lo..lo + len]
  {
  }

  /** A move is also one between any memories where the two cells hold the same. */
  lemma MovedBetween(m: Memory, m1: Memory, m2: Memory, m3: Memory, c: Cell, d: Cell, n: nat)
    requires SameCell(m, m1, c) && SameCell(m2, m3, d) && n <= c.size && n <= d.size
    requires Moved(m1, Payload(c), m2, Payload(d), n)
    ensures Moved(m, Payload(c), m3, Payload(d), n)
  {
    SlicesOf(m, m1, c, n);
    SlicesOf(m2, m3, d, n);
  }

  /** The memory after n bytes are copied from `src` to `dst`. */
  function Copied(m: Memory, dst: nat, src: nat, n: nat): (r: Memory)
    requires dst + n <= |m| && src + n <= |m|
    ensures |r| == |m| && Moved(m, src, r, dst, n)
    ensures forall a :: 0 <= a < |m| && !(dst <= a < dst + n) ==> r[a] == m[a]
  {
    m[..dst] + m[src..src + n] + m[dst + n..]
  }

  lemma CopiedOnly(m: Memory, dst: nat, src: nat, n: nat, cells: seq<Cell>)
    requires dst + n <= |m| && src + n <= |m|
    ensures OnlyHeaders(m, Copied(m, dst, src, n), cells, dst, dst + n)
  {
    hide Copied, InHeader;
  }

  class Heap {
    var mem: Memory
    const heapBase: nat
    var heapPtr: nat
    var freeHead: nat

    // Every cell made so far, in address order; the indices of those on the free list, in list
    // order; and for each generation issued the cell it was issued for.
    ghost var cells: seq<Cell>
    ghost var free: seq<nat>
    ghost var owner: seq<nat>

    ghost predicate Valid()
      reads this
    {
      && Sound(mem, heapBase, heapPtr, freeHead, cells, free)
      && Tagged(mem, cells, owner)
      && |mem| % 0x1_0000 == 0
    }

    ghost function Now(): State
      reads this
    {
      State(|mem|, heapPtr, cells, free)
    }

    /** Cell i is in use. */
    ghost predicate Live(i: nat)
      reads this
    {
      i < |cells| && i !in free
    }

    /** The generations whose handles still name a cell in use. */
    ghost function Handles(): set<nat>
      requires Valid()
      reads this
    {
      Good(mem, cells, owner)
    }

    constructor (base: nat, pages: nat)
      requires 0x2_0000 <= base < 0x8000_0000 && IsAligned(base) && base <= pages * 0x1_0000 <= WORD
      ensures Valid() && cells == [] && free == [] && Handles() == {}
      ensures heapBase == base && mem == ZeroBytes(pages * 0x1_0000)
    {
      mem := ZeroBytes(pages * 0x1_0000);
      heapBase, heapPtr, freeHead := base, base, 0;
      cells, free, owner := [], [], [];
    }

    /** Takes the best fit off the free list, else a new cell at the frontier. A request fails in
        exactly the cases of `Fails`. No payload, no generation and nothing below the heap changes. */
    method Alloc(size: nat, canGrow: bool) returns (r: Outcome, ghost i: nat)
      requires Valid() && size < WORD
      modifies `mem, `heapPtr, `freeHead, `cells, `free
      ensures Valid() && Handles() == old(Handles())
      ensures forall k: nat :: old(Live(k)) ==> Live(k)
      ensures r.Trap? <==> Fails(old(Now()), size, canGrow)
      ensures r.Trap? ==> unchanged(this)
      ensures r.Done? ==> Allocates(old(Now()), size, i, Now())
      ensures r.Done? ==> Live(i) && !old(Live(i)) && r.ptr == Payload(cells[i]) && size <= cells[i].size
      ensures r.Done? ==> GenerationOf(mem, cells[i]) == 0 && IsAligned(r.ptr)
      ensures old(cells) <= cells && Kept(old(mem), mem, heapBase, old(cells))
      ensures OnlyHeaders(old(mem), mem, cells, 0, 0)
    {
      hide Sound, Kept, BestFit, GenerationOf, Without, LinkTo, Headers, Listed, IsAligned, Rounded, Tagged, Good,
        OnlyHeaders;
      OnlyNothing(mem, cells);
      HeapParts(mem, heapBase, heapPtr, freeHead, cells, free);
      if size > WORD - 16 {
        return Trap, 0;
      }
      var want := Rounded(size);
      BestFitMeaning(cells, free, want, |free|);
      var best, bestPrev := FindFit(mem, freeHead, want, heapBase, heapPtr, cells, free);
      if best != 0 {
        i := Take(best, bestPrev, want);
        r := Done(best + HEADER);
      } else {
        i := |cells|;
        r := Bump(want, canGrow);
      }
    }

    method Take(best: nat, bestPrev: nat, ghost want: nat) returns (ghost i: nat)
      requires Valid() && best != 0 && Headers(mem, cells) && Listed(cells, free)
      requires Names(cells, free, BestFit(cells, free, want, |free|), best, bestPrev)
      modifies `mem, `freeHead, `free
      ensures Valid() && Handles() == old(Handles())
      ensures var k := old(BestFit(cells, free, want, |free|)).value;
              i == old(free)[k] && free == Without(old(free), k)
      ensures Live(i) && best == cells[i].base && IsAligned(best + HEADER)
      ensures forall k :: k in free ==> k in old(free)
      ensures |mem| == |old(mem)| && OnlyHeaders(old(mem), mem, cells, 0, 0)
      ensures Headers(mem, cells) && GenerationOf(mem, cells[i]) == 0
      ensures Kept(old(mem), mem, heapBase, cells)
    {
      hide Sound, Headers, Listed, Kept, Load32, Store32, BestFit, GenerationOf, LinkTo, Without, Tagged, Good,
        Unlinked, IsAligned, OnlyHeaders;
      ghost var fit := BestFit(cells, free, want, |free|);
      ghost var k := fit.value;
      i := free[k];
      HeapParts(mem, heapBase, heapPtr, freeHead, cells, free);
      TakeSound(mem, heapBase, heapPtr, freeHead, cells, free, k);
      ghost var was, head := mem, freeHead;
      assert best == cells[i].base && bestPrev == Before(cells, free, k);
      OnlyNothing(mem, cells);
      if k > 0 {
        PreviousCell(mem, heapBase, heapPtr, freeHead, cells, free, k);
        StoreInHeader(mem, cells, free[k - 1], NEXT, Load32(mem, best + NEXT));
      }
      hide Before;
      if bestPrev == 0 {
        freeHead := Load32(mem, best + NEXT);
      } else {
        mem := Store32(mem, bestPrev + NEXT, Load32(mem, best + NEXT));
      }
      assert mem == Unlinked(was, cells, free, k);
      free := Without(free, k);
      HeapParts(mem, heapBase, heapPtr, freeHead, cells, free);
      KeptTags(was, mem, heapBase, cells, owner);
      KeptGeneration(was, mem, heapBase, cells, i);
    }

    /** A new cell at the frontier, growing the memory when it has to. */
    method Bump(want: nat, canGrow: bool) returns (r: Outcome)
      requires Valid() && IsAligned(want) && want <= WORD - 16
      modifies `mem, `heapPtr, `cells
      ensures Valid() && Handles() == old(Handles())
      ensures r.Trap? <==> old(heapPtr) + HEADER + want >= WORD
                           || (old(heapPtr) + HEADER + want > |old(mem)| && !canGrow)
      ensures r.Trap? ==> unchanged(this)
      ensures r.Done? ==> cells == old(cells) + [Cell(old(heapPtr), want)]
      ensures r.Done? ==> heapPtr == old(heapPtr) + HEADER + want && GrowsTo(|old(mem)|, |mem|, heapPtr)
      ensures r.Done? ==> r.ptr == Payload(cells[|old(cells)|]) && IsAligned(r.ptr)
      ensures r.Done? ==> Headers(mem, cells) && GenerationOf(mem, cells[|old(cells)|]) == 0
      ensures Kept(old(mem), mem, heapBase, old(cells)) && OnlyHeaders(old(mem), mem, cells, 0, 0)
    {
      hide Sound, Kept, GenerationOf, Headers, IsAligned, Listed, Tagged, Good, OnlyHeaders;
      OnlyNothing(mem, cells);
      HeapParts(mem, heapBase, heapPtr, freeHead, cells, free);
      BumpSums(heapPtr, want);
      // 32-bit sums: a wrapped one is not above the frontier.
      var base := heapPtr;
      var end := (base + HEADER) % 0x1_0000_0000;
      if end <= base {
        return Trap;
      }
      end := (end + want) % 0x1_0000_0000;
      if end <= base {
        return Trap;
      }
      var required := RequiredPages(end);
      if required > |mem| / 0x1_0000 {
        if !canGrow {
          return Trap;
        }
        Grow(required - |mem| / 0x1_0000);
      }
      ghost var grown := mem;
      Append(end, want);
      OnlyWider(old(mem), grown, old(cells), 0, 0, cells, 0, 0);
      OnlyThrough(old(mem), grown, mem, cells, 0, 0);
      KeptThrough(old(mem), grown, mem, heapBase, old(cells));
      return Done(base + HEADER);
    }

    method Grow(pages: nat)
      requires Valid() && |mem| + pages * 0x1_0000 <= WORD
      modifies `mem
      ensures Valid() && Handles() == old(Handles()) && mem == old(mem) + ZeroBytes(pages * 0x1_0000)
      ensures Kept(old(mem), mem, heapBase, cells) && OnlyHeaders(old(mem), mem, cells, 0, 0)
    {
      hide Sound, Kept, Tagged, Good, Headers;
      ghost var was := mem;
      HeapParts(mem, heapBase, heapPtr, freeHead, cells, free);
      GrowSound(mem, heapBase, heapPtr, freeHead, cells, free, ZeroBytes(pages * 0x1_0000));
      mem := mem + ZeroBytes(pages * 0x1_0000);
      HeapParts(mem, heapBase, heapPtr, freeHead, cells, free);
      KeptTags(was, mem, heapBase, cells, owner);
    }

    method Append(end: nat, want: nat)
      requires Valid() && IsAligned(want)
      requires end == heapPtr + HEADER + want < WORD && end <= |mem|
      modifies `mem, `heapPtr, `cells
      ensures Valid() && Handles() == old(Handles())
      ensures heapPtr == end && cells == old(cells) + [Cell(old(heapPtr), want)] && |mem| == |old(mem)|
      ensures Headers(mem, cells) && GenerationOf(mem, cells[|old(cells)|]) == 0
      ensures IsAligned(old(heapPtr) + HEADER)
      ensures Kept(old(mem), mem, heapBase, old(cells)) && OnlyHeaders(old(mem), mem, cells, 0, 0)
    {
      hide Sound, Kept, GenerationOf, Load32, Store32, Headers, IsAligned, Tagged, Good, OnlyHeaders;
      HeapParts(mem, heapBase, heapPtr, freeHead, cells, free);
      AppendParts(mem, heapBase, heapPtr, freeHead, cells, free, want);
      ghost var was, before := mem, cells;
      var base := heapPtr;
      heapPtr := end;
      mem := Store32(mem, base, MAGIC);
      mem := Store32(mem, base + 4, want);
      mem := Store32(mem, base + GENERATION, 0);
      cells := cells + [Cell(base, want)];
      assert mem == Headed(was, base, want);
      HeadedOnly(was, cells, |before|);
      hide Headed;
      KeptTags(was, mem, heapBase, before, owner);
      GrownTags(mem, before, Cell(base, want), owner);
    }

    /** The bytes before p look like the header of a cell in use. */
    ghost predicate Tracked(p: nat)
      reads this
    {
      heapBase + HEADER <= p && p - HEADER + 4 <= |mem| && Load32(mem, p - HEADER) == MAGIC
    }

    /** Puts a cell in use on the free list and ends every handle to it; ignores a pointer that is
        not tracked. False when the header lies outside the memory, which traps. The caller never
        passes a cell twice, nor an address whose bytes only look like a header. */
    method Free(p: nat) returns (ok: bool)
      requires Valid() && p < WORD
      requires Tracked(p) ==> exists i: nat :: Live(i) && p == Payload(cells[i])
      modifies `mem, `freeHead, `free
      ensures Valid()
      ensures ok <==> p < heapBase + HEADER || p - HEADER + 4 <= |old(mem)|
      ensures Evolves(owner, old(Handles()), owner, Handles())
      ensures !old(Tracked(p)) ==> unchanged(this)
      ensures |mem| == |old(mem)|
      ensures forall i: nat :: old(Live(i)) && p == Payload(cells[i]) ==>
                ok && free == [i] + old(free) && KeptBut(old(mem), mem, heapBase, cells, i)
                && OnlyHeaders(old(mem), mem, [cells[i]], 0, 0)
                && Handles() == Elsewhere(old(Handles()), owner, i)
    {
      hide Sound, Tagged, Good, KeptBut, Load32, Store32, Headers, Listed, OnlyHeaders;
      HeapParts(mem, heapBase, heapPtr, freeHead, cells, free);
      forall i: nat | Live(i) && p == Payload(cells[i])
        ensures Tracked(p)
      {
        CellParts(mem, heapBase, heapPtr, freeHead, cells, free, i);
      }
      if p == 0 {
        return true;
      }
      if p < heapBase + HEADER {
        return true;
      }
      var base := p - HEADER;
      if base + 4 > |mem| {
        return false;
      }
      if Load32(mem, base) != MAGIC {
        return true;
      }
      ghost var i: nat :| Live(i) && p == Payload(cells[i]);
      forall j: nat | Live(j) && p == Payload(cells[j])
        ensures j == i
      {
        SamePayload(mem, heapBase, heapPtr, freeHead, cells, free, i, j);
      }
      Release(base, i);
      return true;
    }

    method Release(base: nat, ghost i: nat)
      requires Valid() && Live(i) && base == cells[i].base
      modifies `mem, `freeHead, `free
      ensures Valid() && free == [i] + old(free) && |mem| == |old(mem)| && KeptBut(old(mem), mem, heapBase, cells, i)
      ensures Handles() == Elsewhere(old(Handles()), owner, i) && OnlyHeaders(old(mem), mem, [cells[i]], 0, 0)
    {
      hide Sound, Tagged, Good, KeptBut, Load32, Store32, Headers, Listed, GenerationOf, OnlyHeaders;
      HeapParts(mem, heapBase, heapPtr, freeHead, cells, free);
      CellParts(mem, heapBase, heapPtr, freeHead, cells, free, i);
      PushSound(mem, heapBase, heapPtr, freeHead, cells, free, i);
      ghost var was := mem;
      StoreInHeader(mem, [cells[i]], 0, GENERATION, 0);
      mem := Store32(mem, base + GENERATION, 0);
      ghost var cleared := mem;
      StoreInHeader(mem, [cells[i]], 0, NEXT, freeHead);
      mem := Store32(mem, base + NEXT, freeHead);
      OnlyThrough(was, cleared, mem, [cells[i]], 0, 0);
      assert mem == Pushed(was, cells[i], freeHead);
      hide Pushed;
      freeHead := base;
      free := [i] + free;
      HeapParts(mem, heapBase, heapPtr, freeHead, cells, free);
      ClearedTags(was, mem, heapBase, cells, owner, i);
    }

    /** The program stores a byte in a cell it holds. */
    method Write(a: nat, b: Byte, ghost i: nat)
      requires Valid() && Live(i) && Payload(cells[i]) <= a < End(cells[i])
      modifies `mem
      ensures Valid() && Handles() == old(Handles()) && |mem| == |old(mem)| && a < |mem|
      ensures mem == old(mem)[a := b] && KeptBut(old(mem), mem, heapBase, cells, i)
    {
      hide Sound, Tagged, Good, KeptBut, Load32, Headers, Listed, GenerationOf;
      CellParts(mem, heapBase, heapPtr, freeHead, cells, free, i);
      Overwrite(mem[a := b], i);
    }

    /** Replaces bytes inside the payload of cell i. */
    method Overwrite(n: Memory, ghost i: nat)
      requires Valid() && i < |cells| && OnlyPayload(mem, n, cells[i])
      modifies `mem
      ensures Valid() && Handles() == old(Handles()) && mem == n
      ensures KeptBut(old(mem), mem, heapBase, cells, i)
    {
      hide Sound, Tagged, Good, KeptBut, Headers, Listed, GenerationOf, OnlyPayload;
      HeapParts(mem, heapBase, heapPtr, freeHead, cells, free);
      PayloadSound(mem, n, heapBase, heapPtr, freeHead, cells, free, i);
      ghost var was := mem;
      mem := n;
      HeapParts(mem, heapBase, heapPtr, freeHead, cells, free);
      WrittenTags(was, mem, heapBase, cells, owner, i);
    }

    // ---- generational references ----

    /** Tags a cell in use with the next generation; none is left after LAST_GENERATION. */
    method Issue(p: nat, ghost i: nat) returns (r: Option<nat>)
      requires Valid() && Live(i) && p == Payload(cells[i])
      modifies `mem, `owner
      ensures Valid() && Evolves(old(owner), old(Handles()), owner, Handles())
      ensures r.None? <==> |old(owner)| == LAST_GENERATION
      ensures r.None? ==> unchanged(this)
      ensures r.Some? ==>
                && owner == old(owner) + [i] && r.value == |owner| && |mem| == |old(mem)|
                && Handles() == Elsewhere(old(Handles()), old(owner), i) + {r.value}
      ensures forall k :: 0 <= k < |cells| && k != i ==> SameCell(old(mem), mem, cells[k])
      ensures SameBytes(old(mem), mem, cells[i])
      ensures OnlyHeaders(old(mem), mem, [cells[i]], COUNTER, COUNTER + 4)
    {
      hide Sound, Good, KeptBut, Load32, Store32, Headers, Listed, GenerationOf, SameCell, Kept, SameBytes, OnlyHeaders;
      OnlyNothing(mem, [cells[i]]);
      OnlyWider(mem, mem, [cells[i]], 0, 0, [cells[i]], COUNTER, COUNTER + 4);
      HeapParts(mem, heapBase, heapPtr, freeHead, cells, free);
      AllSame(mem, mem, heapBase, cells);
      if Load32(mem, COUNTER) >= LAST_GENERATION {
        return None;
      }
      ghost var was := mem;
      var g := Load32(mem, COUNTER) + 1;
      hide Tagged;
      LowStoreSound(mem, heapBase, heapPtr, freeHead, cells, free, COUNTER, g);
      mem := Store32(mem, COUNTER, g);
      ghost var counted := mem;
      TagSound(mem, heapBase, heapPtr, freeHead, cells, free, i, Tag(g));
      CounterOnly(was, [cells[i]], g);
      CellParts(mem, heapBase, heapPtr, freeHead, cells, free, i);
      StoreInHeader(mem, [cells[i]], 0, GENERATION, Tag(g));
      OnlyWider(mem, Store32(mem, p - 4, Tag(g)), [cells[i]], 0, 0, [cells[i]], COUNTER, COUNTER + 4);
      OnlyThrough(was, mem, Store32(mem, p - 4, Tag(g)), [cells[i]], COUNTER, COUNTER + 4);
      mem := Store32(mem, p - 4, Tag(g));
      IssueParts(was, counted, mem, heapBase, cells, i);
      HeapParts(mem, heapBase, heapPtr, freeHead, cells, free);
      IssuedTags(was, mem, heapBase, cells, owner, i);
      owner := owner + [i];
      return Some(g);
    }

    /** Takes the tag off a cell in use: every handle to it ends. */
    method Clear(p: nat, ghost i: nat)
      requires Valid() && Live(i) && p == Payload(cells[i])
      modifies `mem
      ensures Valid() && Evolves(owner, old(Handles()), owner, Handles())
      ensures Handles() == Elsewhere(old(Handles()), owner, i) && |mem| == |old(mem)|
      ensures KeptBut(old(mem), mem, heapBase, cells, i) && SameBytes(old(mem), mem, cells[i])
      ensures OnlyHeaders(old(mem), mem, [cells[i]], 0, 0)
    {
      hide Sound, Good, KeptBut, Load32, Store32, Headers, Listed, GenerationOf, Tagged, SameBytes, OnlyHeaders;
      HeapParts(mem, heapBase, heapPtr, freeHead, cells, free);
      TagSound(mem, heapBase, heapPtr, freeHead, cells, free, i, 0);
      ghost var was := mem;
      CellParts(mem, heapBase, heapPtr, freeHead, cells, free, i);
      StoreInHeader(mem, [cells[i]], 0, GENERATION, 0);
      mem := Store32(mem, p - 4, 0);
      HeapParts(mem, heapBase, heapPtr, freeHead, cells, free);
      ClearedTags(was, mem, heapBase, cells, owner, i);
    }

    /** The check before a handle (p, g) is used; false stops the program. It passes exactly when
        generation g was issued for the cell at p and has not ended since. */
    method Check(p: nat, g: nat) returns (ok: bool)
      requires Valid() && p < WORD && g < WORD
      ensures forall i: nat :: i < |cells| && p == Payload(cells[i]) ==>
                (ok <==> g in Handles() && owner[g - 1] == i)
      ensures forall i: nat :: i < |cells| && p == Payload(cells[i]) && ok ==> Live(i)
    {
      if p < heapBase + HEADER || g == 0 || g > LAST_GENERATION {
        ok := false;
      } else if p > |mem| {
        ok := false;
      } else {
        ok := Load32(mem, p - 4) == Tag(g);
      }
      forall i: nat | i < |cells| && p == Payload(cells[i])
        ensures ok <==> g in Handles() && owner[g - 1] == i
        ensures ok ==> Live(i)
      {
        CellParts(mem, heapBase, heapPtr, freeHead, cells, free, i);
        CheckMeaning(mem, heapBase, heapPtr, freeHead, cells, free, owner, i, g);
      }
    }

    // ---- the host's entry point ----

    /** Frees on a zero size; otherwise allocates, moves the common prefix, and frees the old cell.
        `j` names the cell of the old pointer. */
    method Realloc(oldPtr: nat, oldSize: nat, align: bv32, newSize: nat, canGrow: bool, ghost j: nat)
      returns (r: Outcome, ghost i: nat)
      requires Valid() && oldPtr < WORD && oldSize < WORD && newSize < WORD
      requires oldPtr != 0 ==> Live(j) && oldPtr == Payload(cells[j]) && oldSize <= cells[j].size
      modifies `mem, `heapPtr, `freeHead, `cells, `free
      ensures Valid() && Evolves(owner, old(Handles()), owner, Handles())
      ensures r.Trap? <==>
                newSize != 0 && (!Supported(align) || Fails(old(Now()), newSize, canGrow))
      ensures r.Trap? ==> unchanged(this)
      ensures newSize == 0 ==> r == Done(0)
      ensures newSize == 0 ==> Now() == if oldPtr == 0 then old(Now()) else Freed(old(Now()), j)
      ensures newSize != 0 && r.Done? && oldPtr == 0 ==> Allocates(old(Now()), newSize, i, Now())
      ensures newSize != 0 && r.Done? && oldPtr != 0 ==>
                exists s: State :: Allocates(old(Now()), newSize, i, s) && Now() == Freed(s, j)
      ensures newSize != 0 && r.Done? ==>
                && Live(i) && !old(Live(i)) && r.ptr == Payload(cells[i]) && newSize <= cells[i].size
                && IsAligned(r.ptr)
      ensures newSize != 0 && r.Done? && oldPtr != 0 ==> Moved(old(mem), oldPtr, mem, r.ptr, Min(oldSize, newSize))
      ensures r.Done? && oldPtr != 0 ==> !Live(j) && Handles() == Elsewhere(old(Handles()), owner, j)
      ensures r.Done? && oldPtr == 0 ==> Handles() == old(Handles())
      ensures var n := if newSize == 0 || r.Trap? || oldPtr == 0 then 0 else Min(oldSize, newSize);
              OnlyHeaders(old(mem), mem, cells, if r.Done? then r.ptr else 0, if r.Done? then r.ptr + n else 0)
      ensures forall k: nat :: old(Live(k)) && (oldPtr == 0 || r.Trap? || k != j) ==>
                Live(k) && old(cells[k]) == cells[k] && SameCell(old(mem), mem, cells[k])
    {
      hide Sound, Good, KeptBut, Kept, SameCell, SameCells, Listed, Headers, Tagged, Fails, IsAligned, BestFit, Rounded,
        Without, GenerationOf, Load32, OnlyHeaders, Allocates, Moved;
      i := 0;
      HeapParts(mem, heapBase, heapPtr, freeHead, cells, free);
      AllSame(mem, mem, heapBase, cells);
      OnlyNothing(mem, cells);
      if newSize == 0 {
        if oldPtr == 0 {
          var _ := Free(0);
        } else {
          ghost var was := mem;
          var _ := Free(oldPtr);
          SameElsewhere(was, mem, heapBase, cells, j);
          OnlyWider(was, mem, [cells[j]], 0, 0, cells, 0, 0);
        }
        return Done(0), 0;
      }
      AlignmentTest(align);
      if align == 0 || align > 16 || (align & (align - 1)) != 0 {
        return Trap, 0;
      }
      r, i := Renew(oldPtr, oldSize, newSize, canGrow, j);
    }

    /** Allocates, and moves what the old cell holds when there is one. */
    method Renew(oldPtr: nat, oldSize: nat, newSize: nat, canGrow: bool, ghost j: nat)
      returns (r: Outcome, ghost i: nat)
      requires Valid() && oldPtr < WORD && oldSize < WORD && newSize < WORD
      requires oldPtr != 0 ==> Live(j) && oldPtr == Payload(cells[j]) && oldSize <= cells[j].size
      modifies `mem, `heapPtr, `freeHead, `cells, `free
      ensures Valid() && Evolves(owner, old(Handles()), owner, Handles())
      ensures r.Trap? <==> Fails(old(Now()), newSize, canGrow)
      ensures r.Trap? ==> unchanged(this)
      ensures r.Done? && oldPtr == 0 ==> Allocates(old(Now()), newSize, i, Now())
      ensures r.Done? && oldPtr != 0 ==>
                exists s: State :: Allocates(old(Now()), newSize, i, s) && Now() == Freed(s, j)
      ensures r.Done? ==> Live(i) && !old(Live(i)) && r.ptr == Payload(cells[i]) && newSize <= cells[i].size
      ensures r.Done? ==> IsAligned(r.ptr)
      ensures r.Done? && oldPtr != 0 ==> Moved(old(mem), oldPtr, mem, r.ptr, Min(oldSize, newSize))
      ensures r.Done? && oldPtr != 0 ==> !Live(j) && Handles() == Elsewhere(old(Handles()), owner, j)
      ensures r.Done? && oldPtr == 0 ==> Handles() == old(Handles())
      ensures r.Done? ==>
                OnlyHeaders(old(mem), mem, cells, r.ptr, r.ptr + if oldPtr == 0 then 0 else Min(oldSize, newSize))
      ensures forall k: nat :: old(Live(k)) && (oldPtr == 0 || r.Trap? || k != j) ==>
                Live(k) && old(cells[k]) == cells[k] && SameCell(old(mem), mem, cells[k])
    {
      hide Sound, Good, KeptBut, Kept, SameCell, SameCells, Listed, Headers, Tagged, Fails, IsAligned, BestFit, Rounded,
        Without, GenerationOf, Load32, OnlyHeaders, Allocates, Moved;
      HeapParts(mem, heapBase, heapPtr, freeHead, cells, free);
      AllSame(mem, mem, heapBase, cells);
      ghost var was, before := mem, cells;
      r, i := Alloc(newSize, canGrow);
      AllSame(was, mem, heapBase, before);
      if r.Done? {
        var n := if oldPtr == 0 then 0 else Min(oldSize, newSize);
        OnlyWider(was, mem, cells, 0, 0, cells, r.ptr, r.ptr + n);
        if oldPtr != 0 {
          ghost var made, grown := mem, Now();
          MoveAndFree(oldPtr, r.ptr, n, i, j);
          assert Now() == Freed(grown, j);
          OnlyThrough(was, made, mem, cells, r.ptr, r.ptr + n);
          MovedBetween(was, made, mem, mem, cells[j], cells[i], n);
          forall k: nat | old(Live(k)) && k != j
            ensures Live(k) && old(cells[k]) == cells[k] && SameCell(old(mem), mem, cells[k])
          {
            SameThrough(was, made, mem, cells[k]);
          }
        }
      }
    }

    /** Copies n bytes from cell j to cell i and frees cell j. */
    method MoveAndFree(oldPtr: nat, newPtr: nat, n: nat, ghost i: nat, ghost j: nat)
      requires Valid() && Live(i) && Live(j) && i != j
      requires oldPtr == Payload(cells[j]) && newPtr == Payload(cells[i]) && n <= cells[i].size && n <= cells[j].size
      modifies `mem, `freeHead, `free
      ensures Valid() && free == [j] + old(free) && |mem| == |old(mem)|
      ensures Handles() == Elsewhere(old(Handles()), owner, j)
      ensures Moved(old(mem), oldPtr, mem, newPtr, n) && SameCell(mem, mem, cells[i])
      ensures forall k :: 0 <= k < |cells| && k != i && k != j ==> SameCell(old(mem), mem, cells[k])
      ensures OnlyHeaders(old(mem), mem, cells, newPtr, newPtr + n)
    {
      hide Sound, Good, KeptBut, Kept, SameCell, SameCells, Listed, Headers, Tagged, Load32, Copied, OnlyHeaders;
      HeapParts(mem, heapBase, heapPtr, freeHead, cells, free);
      AllSame(mem, mem, heapBase, cells);
      CellParts(mem, heapBase, heapPtr, freeHead, cells, free, i);
      CellParts(mem, heapBase, heapPtr, freeHead, cells, free, j);
      ghost var was := mem;
      OnlyNothing(mem, cells);
      OnlyWider(mem, mem, cells, 0, 0, cells, newPtr, newPtr + n);
      if n > 0 {
        CopiedOnly(mem, newPtr, oldPtr, n, cells);
        Overwrite(Copied(mem, newPtr, oldPtr, n), i);
        SameElsewhere(was, mem, heapBase, cells, i);
      }
      ghost var copied := mem;
      assert Moved(was, oldPtr, copied, newPtr, n);
      hide Moved;
      var _ := Free(oldPtr);
      SameElsewhere(copied, mem, heapBase, cells, j);
      OnlyWider(copied, mem, [cells[j]], 0, 0, cells, newPtr, newPtr + n);
      OnlyThrough(was, copied, mem, cells, newPtr, newPtr + n);
      MovedBetween(was, was, copied, mem, cells[j], cells[i], n);
      forall k | 0 <= k < |cells| && k != i && k != j
        ensures SameCell(was, mem, cells[k])
      {
        SameThrough(was, copied, mem, cells[k]);
      }
      HeapParts(mem, heapBase, heapPtr, freeHead, cells, free);
      AllSame(mem, mem, heapBase, cells);
    }
  }
}
