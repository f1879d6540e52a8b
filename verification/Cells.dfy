/** Cells of the guest heap in linear memory, and the invariant that every operation keeps. */
module Cells {
  import opened LinearMemory
  import opened Wrappers

  const HEADER := 16
  const MAGIC := 0x5A5A_5A5A
  const NEXT := 8
  const GENERATION := 12

  /** Cell starts and payload sizes are multiples of 16. */
  predicate IsAligned(a: nat) { a % 16 == 0 }

  /** A cell: its header starts at `base`, its payload is `size` bytes long. */
  datatype Cell = Cell(base: nat, size: nat)

  function Payload(c: Cell): nat { c.base + HEADER }

  function End(c: Cell): nat { c.base + HEADER + c.size }

  // ---- tiling ----

  /** Where cell i begins, or where the cells end. */
  ghost function Start(cells: seq<Cell>, lo: nat, i: nat): nat
    requires i <= |cells|
  {
    if i == 0 then lo else End(cells[i - 1])
  }

  /** The cells fill [lo, hi) one after the other. */
  ghost predicate Tiled(cells: seq<Cell>, lo: nat, hi: nat) {
    && hi == Start(cells, lo, |cells|)
    && forall i {:trigger Start(cells, lo, i)} :: 0 <= i < |cells| ==> cells[i].base == Start(cells, lo, i)
  }

  lemma {:induction false} TiledApart(cells: seq<Cell>, lo: nat, hi: nat, i: nat, j: nat)
    requires Tiled(cells, lo, hi) && i < j < |cells|
    ensures End(cells[i]) <= cells[j].base
    decreases j
  {
    assert cells[j].base == Start(cells, lo, j);
    if i + 1 < j {
      TiledApart(cells, lo, hi, i, j - 1);
    }
  }

  lemma TiledWithin(cells: seq<Cell>, lo: nat, hi: nat, i: nat)
    requires Tiled(cells, lo, hi) && i < |cells|
    ensures lo <= cells[i].base && End(cells[i]) <= hi
  {
    assert cells[0].base == Start(cells, lo, 0);
    if i > 0 {
      TiledApart(cells, lo, hi, 0, i);
    }
    if i < |cells| - 1 {
      TiledApart(cells, lo, hi, i, |cells| - 1);
    }
  }

  /** Nothing leaks: each byte below the frontier belongs to exactly one cell. */
  lemma {:induction false} EveryByteOnce(cells: seq<Cell>, lo: nat, hi: nat, a: nat)
    requires Tiled(cells, lo, hi) && lo <= a < hi
    ensures exists i :: 0 <= i < |cells| && cells[i].base <= a < End(cells[i])
    ensures forall i, j ::
              0 <= i < |cells| && 0 <= j < |cells|
              && cells[i].base <= a < End(cells[i]) && cells[j].base <= a < End(cells[j])
              ==> i == j
    decreases |cells|
  {
    forall i, j | 0 <= i < j < |cells|
      ensures End(cells[i]) <= cells[j].base
    {
      TiledApart(cells, lo, hi, i, j);
    }
    var last := cells[|cells| - 1];
    if last.base <= a {
      assert cells[|cells| - 1].base <= a < End(cells[|cells| - 1]);
    } else {
      var init := cells[..|cells| - 1];
      assert last.base == Start(cells, lo, |init|);
      assert Tiled(init, lo, last.base) by {
        assert forall i :: 0 <= i <= |init| ==> Start(init, lo, i) == Start(cells, lo, i);
      }
      EveryByteOnce(init, lo, last.base, a);
      var i :| 0 <= i < |init| && init[i].base <= a < End(init[i]);
      assert cells[i] == init[i];
    }
  }

  // ---- headers and links ----

  ghost predicate Aligned(cells: seq<Cell>) {
    forall i :: 0 <= i < |cells| ==> IsAligned(cells[i].base) && IsAligned(cells[i].size)
  }

  ghost predicate HeaderAt(m: Memory, c: Cell): (r: bool)
    ensures r ==> End(c) <= |m|
  {
    End(c) <= |m| && Load32(m, c.base) == MAGIC && Load32(m, c.base + 4) == c.size
  }

  ghost function NextOf(m: Memory, c: Cell): nat
    requires End(c) <= |m|
  {
    Load32(m, c.base + NEXT)
  }

  ghost function GenerationOf(m: Memory, c: Cell): nat
    requires End(c) <= |m|
  {
    Load32(m, c.base + GENERATION)
  }

  ghost predicate Headers(m: Memory, cells: seq<Cell>) {
    forall i :: 0 <= i < |cells| ==> HeaderAt(m, cells[i])
  }

  /** The address the k-th link holds: the k-th free cell, or 0 past the last. */
  ghost function LinkTo(cells: seq<Cell>, free: seq<nat>, k: nat): nat
    requires k < |free| ==> free[k] < |cells|
  {
    if k < |free| then cells[free[k]].base else 0
  }

  /** `free` lists distinct cells, by index. */
  ghost predicate Listed(cells: seq<Cell>, free: seq<nat>) {
    && (forall k :: 0 <= k < |free| ==> free[k] < |cells|)
    && forall j, k :: 0 <= j < k < |free| ==> free[j] != free[k]
  }

  /** The k-th free cell leads to the one after it and holds no live generation. */
  ghost predicate LinkAt(m: Memory, cells: seq<Cell>, free: seq<nat>, k: nat)
    requires Headers(m, cells) && Listed(cells, free) && k < |free|
  {
    && NextOf(m, cells[free[k]]) == LinkTo(cells, free, k + 1)
    && GenerationOf(m, cells[free[k]]) == 0
  }

  ghost predicate Linked(m: Memory, cells: seq<Cell>, free: seq<nat>)
    requires Headers(m, cells)
  {
    && Listed(cells, free)
    && forall k {:trigger LinkAt(m, cells, free, k)} :: 0 <= k < |free| ==> LinkAt(m, cells, free, k)
  }

  /** What every heap operation keeps. */
  ghost predicate Sound(m: Memory, lo: nat, hi: nat, head: nat, cells: seq<Cell>, free: seq<nat>) {
    && 0x2_0000 <= lo < 0x8000_0000 && IsAligned(lo)
    && lo <= hi < WORD && hi <= |m| <= WORD
    && Tiled(cells, lo, hi) && Aligned(cells)
    && Headers(m, cells) && Linked(m, cells, free)
    && head == LinkTo(cells, free, 0)
  }

  ghost function Contents(m: Memory, c: Cell): seq<Byte>
    requires End(c) <= |m|
  {
    m[Payload(c)..End(c)]
  }

  /** A cell's payload is the same in both memories. */
  ghost predicate SameBytes(m: Memory, n: Memory, c: Cell) {
    End(c) <= |m| && End(c) <= |n| && Contents(n, c) == Contents(m, c)
  }

  /** A cell's payload and generation are the same in both memories. */
  ghost predicate SameCell(m: Memory, n: Memory, c: Cell): (r: bool)
    ensures r ==> End(c) <= |m| && End(c) <= |n|
  {
    && End(c) <= |m| && End(c) <= |n|
    && Contents(n, c) == Contents(m, c) && GenerationOf(n, c) == GenerationOf(m, c)
  }

  /** Nothing below `lo` and no cell but j differs. */
  ghost predicate KeptBut(m: Memory, n: Memory, lo: nat, cells: seq<Cell>, j: nat) {
    Same(m, n, 0, lo) && forall i :: 0 <= i < |cells| && i != j ==> SameCell(m, n, cells[i])
  }

  ghost predicate SameCells(m: Memory, n: Memory, cells: seq<Cell>) {
    forall i :: 0 <= i < |cells| ==> SameCell(m, n, cells[i])
  }

  /** Nothing below `lo` and no cell differs. */
  ghost predicate Kept(m: Memory, n: Memory, lo: nat, cells: seq<Cell>) {
    Same(m, n, 0, lo) && SameCells(m, n, cells)
  }

  lemma KeptSelf(m: Memory, lo: nat, cells: seq<Cell>)
    requires Headers(m, cells) && lo <= |m|
    ensures Kept(m, m, lo, cells)
  {
    hide Contents, GenerationOf, HeaderAt;
    assert forall i :: 0 <= i < |cells| ==> HeaderAt(m, cells[i]);
  }

  lemma KeptThrough(m: Memory, n: Memory, o: Memory, lo: nat, cells: seq<Cell>)
    requires Kept(m, n, lo, cells) && Kept(n, o, lo, cells)
    ensures Kept(m, o, lo, cells)
  {
    hide Contents, GenerationOf;
    forall i | 0 <= i < |cells|
      ensures SameCell(m, o, cells[i])
    {
      assert SameCell(m, n, cells[i]) && SameCell(n, o, cells[i]);
    }
  }

  /** Writing a word that is not in a part of a cell leaves that part alone. */
  lemma StoreKeepsCell(m: Memory, c: Cell, a: nat, v: nat)
    requires a + 4 <= |m| && v < WORD && HeaderAt(m, c)
    ensures a + 4 <= c.base || c.base + NEXT <= a ==> HeaderAt(Store32(m, a, v), c)
    ensures a + 4 <= c.base + NEXT || c.base + GENERATION <= a ==>
              NextOf(Store32(m, a, v), c) == NextOf(m, c)
    ensures a + 4 <= c.base + GENERATION || Payload(c) <= a ==>
              GenerationOf(Store32(m, a, v), c) == GenerationOf(m, c)
    ensures a + 4 <= Payload(c) || End(c) <= a ==> Contents(Store32(m, a, v), c) == Contents(m, c)
  {
  }

  /** Memory n differs from m only in the next and generation words of cell j. */
  ghost predicate OnlyLinksOf(m: Memory, n: Memory, lo: nat, cells: seq<Cell>, j: nat)
    requires Headers(m, cells)
  {
    && |n| == |m| && Headers(n, cells) && KeptBut(m, n, lo, cells, j)
    && (j < |cells| ==> Contents(n, cells[j]) == Contents(m, cells[j]))
    && forall i :: 0 <= i < |cells| && i != j ==> NextOf(n, cells[i]) == NextOf(m, cells[i])
  }

  lemma StoreOwnLink(m: Memory, c: Cell, off: nat, v: nat)
    requires HeaderAt(m, c) && v < WORD && (off == NEXT || off == GENERATION)
    ensures NextOf(Store32(m, c.base + off, v), c) == if off == NEXT then v else NextOf(m, c)
    ensures GenerationOf(Store32(m, c.base + off, v), c) == if off == NEXT then GenerationOf(m, c) else v
  {
    StoreKeepsCell(m, c, c.base + off, v);
  }

  lemma StoreLink(m: Memory, lo: nat, hi: nat, cells: seq<Cell>, j: nat, off: nat, v: nat)
    requires Tiled(cells, lo, hi) && Headers(m, cells) && j < |cells| && v < WORD
    requires off == NEXT || off == GENERATION
    ensures End(cells[j]) <= |m| && OnlyLinksOf(m, Store32(m, cells[j].base + off, v), lo, cells, j)
    ensures NextOf(Store32(m, cells[j].base + off, v), cells[j]) == if off == NEXT then v else NextOf(m, cells[j])
    ensures GenerationOf(Store32(m, cells[j].base + off, v), cells[j])
            == if off == NEXT then GenerationOf(m, cells[j]) else v
  {
    hide Load32, Store32, Tiled, Contents, HeaderAt, NextOf, GenerationOf;
    assert HeaderAt(m, cells[j]);
    var a := cells[j].base + off;
    var n := Store32(m, a, v);
    StoreOwnLink(m, cells[j], off, v);
    TiledWithin(cells, lo, hi, j);
    forall i | 0 <= i < |cells|
      ensures HeaderAt(n, cells[i]) && Contents(n, cells[i]) == Contents(m, cells[i])
      ensures i != j ==> NextOf(n, cells[i]) == NextOf(m, cells[i]) && SameCell(m, n, cells[i])
    {
      if i < j {
        TiledApart(cells, lo, hi, i, j);
      } else if j < i {
        TiledApart(cells, lo, hi, j, i);
      }
      StoreKeepsCell(m, cells[i], a, v);
    }
  }

  lemma RegionKeepsCell(m: Memory, n: Memory, lo: nat, hi: nat, c: Cell)
    requires Same(m, n, lo, hi) && lo <= c.base && End(c) <= hi && HeaderAt(m, c)
    ensures HeaderAt(n, c) && SameCell(m, n, c) && NextOf(n, c) == NextOf(m, c)
  {
    SameLoad(m, n, lo, hi, c.base);
    SameLoad(m, n, lo, hi, c.base + 4);
    SameLoad(m, n, lo, hi, c.base + NEXT);
    SameLoad(m, n, lo, hi, c.base + GENERATION);
  }

  /** Nothing about the cells depends on the bytes outside their region. */
  lemma RegionKeeps(m: Memory, n: Memory, lo: nat, hi: nat, cells: seq<Cell>, free: seq<nat>)
    requires Tiled(cells, lo, hi) && Same(m, n, lo, hi)
    requires Headers(m, cells) && Linked(m, cells, free)
    ensures Headers(n, cells) && Linked(n, cells, free)
    ensures SameCells(m, n, cells)
  {
    hide Tiled, HeaderAt, NextOf, GenerationOf, Contents, Same;
    forall i | 0 <= i < |cells|
      ensures HeaderAt(n, cells[i]) && SameCell(m, n, cells[i]) && NextOf(n, cells[i]) == NextOf(m, cells[i])
    {
      TiledWithin(cells, lo, hi, i);
      RegionKeepsCell(m, n, lo, hi, cells[i]);
    }
    forall k | 0 <= k < |free|
      ensures LinkAt(n, cells, free, k)
    {
      assert LinkAt(m, cells, free, k);
      assert SameCell(m, n, cells[free[k]]);
    }
  }

  /** The memory after cell j is linked in front of a list that starts at `head`. */
  ghost function Pushed(m: Memory, c: Cell, head: nat): Memory
    requires End(c) <= |m| && head < WORD
  {
    Store32(Store32(m, c.base + GENERATION, 0), c.base + NEXT, head)
  }

  lemma PushStores(m: Memory, lo: nat, hi: nat, cells: seq<Cell>, j: nat, head: nat)
    requires Tiled(cells, lo, hi) && Headers(m, cells) && j < |cells| && head < WORD
    ensures OnlyLinksOf(m, Pushed(m, cells[j], head), lo, cells, j)
    ensures NextOf(Pushed(m, cells[j], head), cells[j]) == head
    ensures GenerationOf(Pushed(m, cells[j], head), cells[j]) == 0
  {
    hide Load32, Store32, Contents, Tiled, HeaderAt, NextOf, GenerationOf;
    StoreLink(m, lo, hi, cells, j, GENERATION, 0);
    var m1 := Store32(m, cells[j].base + GENERATION, 0);
    StoreLink(m1, lo, hi, cells, j, NEXT, head);
    OnlyLinksThrough(m, m1, Store32(m1, cells[j].base + NEXT, head), lo, cells, j);
  }

  lemma OnlyLinksThrough(m: Memory, n: Memory, o: Memory, lo: nat, cells: seq<Cell>, j: nat)
    requires Headers(m, cells) && OnlyLinksOf(m, n, lo, cells, j) && OnlyLinksOf(n, o, lo, cells, j)
    ensures OnlyLinksOf(m, o, lo, cells, j)
  {
    hide HeaderAt, NextOf, GenerationOf, Contents;
    forall i | 0 <= i < |cells| && i != j
      ensures SameCell(m, o, cells[i]) && NextOf(o, cells[i]) == NextOf(m, cells[i])
    {
      assert SameCell(m, n, cells[i]) && SameCell(n, o, cells[i]);
    }
  }

  /** Linking cell j in front of the list. */
  lemma PushSound(m: Memory, lo: nat, hi: nat, head: nat, cells: seq<Cell>, free: seq<nat>, j: nat)
    requires Sound(m, lo, hi, head, cells, free) && j < |cells| && j !in free
    ensures End(cells[j]) <= |m| && head < WORD
    ensures Sound(Pushed(m, cells[j], head), lo, hi, cells[j].base, cells, [j] + free)
    ensures KeptBut(m, Pushed(m, cells[j], head), lo, cells, j)
    ensures GenerationOf(Pushed(m, cells[j], head), cells[j]) == 0
  {
    hide Contents, Tiled, HeaderAt, NextOf, GenerationOf, Aligned, OnlyLinksOf, Pushed, KeptBut;
    if free != [] {
      TiledWithin(cells, lo, hi, free[0]);
    }
    PushStores(m, lo, hi, cells, j, head);
    var n := Pushed(m, cells[j], head);
    PushLinked(m, n, lo, cells, free, j);
    OnlyLinksKept(m, n, lo, cells, j);
  }

  lemma OnlyLinksKept(m: Memory, n: Memory, lo: nat, cells: seq<Cell>, j: nat)
    requires Headers(m, cells) && OnlyLinksOf(m, n, lo, cells, j)
    ensures |n| == |m| && Headers(n, cells) && KeptBut(m, n, lo, cells, j)
    ensures (j < |cells| ==> GenerationOf(n, cells[j]) == GenerationOf(m, cells[j])) ==> Kept(m, n, lo, cells)
  {
    hide Contents, GenerationOf, HeaderAt, NextOf;
  }

  lemma PushLinked(m: Memory, n: Memory, lo: nat, cells: seq<Cell>, free: seq<nat>, j: nat)
    requires Headers(m, cells) && OnlyLinksOf(m, n, lo, cells, j) && Linked(m, cells, free)
    requires j < |cells| && j !in free
    requires NextOf(n, cells[j]) == LinkTo(cells, free, 0) && GenerationOf(n, cells[j]) == 0
    ensures Linked(n, cells, [j] + free)
  {
    hide HeaderAt, NextOf, GenerationOf, Contents;
    var longer := [j] + free;
    assert Listed(cells, longer);
    forall k | 0 <= k < |longer|
      ensures LinkAt(n, cells, longer, k)
    {
      if k > 0 {
        assert LinkAt(m, cells, free, k - 1);
        assert longer[k] == free[k - 1] && LinkTo(cells, longer, k + 1) == LinkTo(cells, free, k);
        assert SameCell(m, n, cells[free[k - 1]]);
      }
    }
  }

  /** A link to the base of cell i, in a list of the cells, leads to cell i. */
  lemma LeadsToCell(cells: seq<Cell>, lo: nat, hi: nat, free: seq<nat>, k: nat, i: nat)
    requires Tiled(cells, lo, hi) && lo > 0 && Listed(cells, free) && i < |cells|
    requires LinkTo(cells, free, k) == cells[i].base
    ensures k < |free| && free[k] == i
  {
    hide Tiled;
    TiledWithin(cells, lo, hi, i);
    if k < |free| && free[k] != i {
      PayloadsDistinct(cells, lo, hi, free[k], i);
    }
  }

  /** After cell j = free[p] is linked in front once more, any list of the cells runs j, free[0], free[1], … */
  lemma {:induction false} PushedAgain(m: Memory, n: Memory, lo: nat, hi: nat, cells: seq<Cell>, free: seq<nat>, p: nat,
                                       again: seq<nat>, k: nat)
    requires Tiled(cells, lo, hi) && lo > 0 && Headers(m, cells) && Linked(m, cells, free) && k <= p < |free|
    requires OnlyLinksOf(m, n, lo, cells, free[p]) && NextOf(n, cells[free[p]]) == LinkTo(cells, free, 0)
    requires Linked(n, cells, again) && LinkTo(cells, again, 0) == cells[free[p]].base
    ensures k + 1 < |again| && again[0] == free[p] && again[k + 1] == free[k]
    decreases k
  {
    hide Tiled, HeaderAt, NextOf, GenerationOf, Contents, KeptBut;
    LeadsToCell(cells, lo, hi, again, 0, free[p]);
    if k == 0 {
      assert LinkAt(n, cells, again, 0);
    } else {
      PushedAgain(m, n, lo, hi, cells, free, p, again, k - 1);
      assert LinkAt(n, cells, again, k) && LinkAt(m, cells, free, k - 1);
    }
    LeadsToCell(cells, lo, hi, again, k + 1, free[k]);
  }

  /** Linking a cell in front keeps the heap sound exactly when the cell is not on the list yet: freed
      twice, it closes the list to a ring. */
  lemma PushSoundExactly(m: Memory, lo: nat, hi: nat, head: nat, cells: seq<Cell>, free: seq<nat>, j: nat)
    requires Sound(m, lo, hi, head, cells, free) && j < |cells|
    ensures End(cells[j]) <= |m| && head < WORD
    ensures j !in free <==> exists again :: Sound(Pushed(m, cells[j], head), lo, hi, cells[j].base, cells, again)
  {
    hide Contents, Tiled, HeaderAt, NextOf, GenerationOf, Aligned, OnlyLinksOf, Pushed, KeptBut;
    TiledWithin(cells, lo, hi, j);
    if free != [] {
      TiledWithin(cells, lo, hi, free[0]);
    }
    var n := Pushed(m, cells[j], head);
    if j !in free {
      PushSound(m, lo, hi, head, cells, free, j);
    } else {
      var p :| 0 <= p < |free| && free[p] == j;
      PushStores(m, lo, hi, cells, j, head);
      forall again
        ensures !Sound(n, lo, hi, cells[j].base, cells, again)
      {
        if Sound(n, lo, hi, cells[j].base, cells, again) {
          PushedAgain(m, n, lo, hi, cells, free, p, again, p);
        }
      }
    }
  }

  function Without(free: seq<nat>, k: nat): seq<nat>
    requires k < |free|
  {
    free[..k] + free[k + 1..]
  }

  lemma WithoutListed(cells: seq<Cell>, free: seq<nat>, k: nat)
    requires Listed(cells, free) && k < |free|
    ensures Listed(cells, Without(free, k))
    ensures forall i :: i in Without(free, k) <==> i in free && i != free[k]
  {
    var shorter := Without(free, k);
    forall i | i in free && i != free[k]
      ensures i in shorter
    {
      var q :| 0 <= q < |free| && free[q] == i;
      assert shorter[if q < k then q else q - 1] == i;
    }
  }

  /** Taking the k-th cell off the list, by the word that leads to it. */
  lemma UnlinkLinked(m: Memory, n: Memory, lo: nat, cells: seq<Cell>, free: seq<nat>, k: nat)
    requires Headers(m, cells) && Linked(m, cells, free) && k < |free|
    requires OnlyLinksOf(m, n, lo, cells, if k == 0 then |cells| else free[k - 1])
    requires k > 0 ==> NextOf(n, cells[free[k - 1]]) == LinkTo(cells, free, k + 1)
                       && GenerationOf(n, cells[free[k - 1]]) == GenerationOf(m, cells[free[k - 1]])
    ensures Linked(n, cells, Without(free, k))
  {
    hide HeaderAt, NextOf, GenerationOf, Contents;
    var shorter := Without(free, k);
    WithoutListed(cells, free, k);
    forall q | 0 <= q < |shorter|
      ensures LinkAt(n, cells, shorter, q)
    {
      var at := if q < k then q else q + 1;
      var next := if q + 1 < k then q + 1 else q + 2;
      assert LinkAt(m, cells, free, at);
      assert shorter[q] == free[at] && LinkTo(cells, shorter, q + 1) == LinkTo(cells, free, next);
      if k == 0 || at != k - 1 {
        assert SameCell(m, n, cells[free[at]]);
      }
    }
  }

  /** The memory after the k-th cell is taken off the list; the first one is named by no cell. */
  ghost function Unlinked(m: Memory, cells: seq<Cell>, free: seq<nat>, k: nat): Memory
    requires Headers(m, cells) && Listed(cells, free) && k < |free| && LinkTo(cells, free, k + 1) < WORD
  {
    if k == 0 then m
    else
      assert HeaderAt(m, cells[free[k - 1]]);
      Store32(m, cells[free[k - 1]].base + NEXT, LinkTo(cells, free, k + 1))
  }

  lemma UnlinkStores(m: Memory, lo: nat, hi: nat, cells: seq<Cell>, free: seq<nat>, k: nat)
    requires Tiled(cells, lo, hi) && Headers(m, cells) && Linked(m, cells, free) && k < |free|
    requires hi < WORD && lo <= |m|
    ensures LinkTo(cells, free, k + 1) < WORD
    ensures Headers(Unlinked(m, cells, free, k), cells) && |Unlinked(m, cells, free, k)| == |m|
    ensures Kept(m, Unlinked(m, cells, free, k), lo, cells)
    ensures Linked(Unlinked(m, cells, free, k), cells, Without(free, k))
  {
    hide Load32, Store32, Contents, Tiled, HeaderAt, NextOf, GenerationOf;
    if k + 1 < |free| {
      TiledWithin(cells, lo, hi, free[k + 1]);
    }
    hide Linked;
    var n := Unlinked(m, cells, free, k);
    var j := if k == 0 then |cells| else free[k - 1];
    if k == 0 {
      KeptSelf(m, lo, cells);
      assert OnlyLinksOf(m, n, lo, cells, j);
    } else {
      StoreLink(m, lo, hi, cells, j, NEXT, LinkTo(cells, free, k + 1));
    }
    hide OnlyLinksOf, Headers, Unlinked, Kept;
    UnlinkLinked(m, n, lo, cells, free, k);
    OnlyLinksKept(m, n, lo, cells, j);
  }

  lemma UnlinkSound(m: Memory, lo: nat, hi: nat, head: nat, cells: seq<Cell>, free: seq<nat>, k: nat)
    requires Sound(m, lo, hi, head, cells, free) && k < |free|
    ensures LinkTo(cells, free, k + 1) < WORD
    ensures Sound(Unlinked(m, cells, free, k), lo, hi, if k == 0 then LinkTo(cells, free, 1) else head,
                  cells, Without(free, k))
    ensures Kept(m, Unlinked(m, cells, free, k), lo, cells)
    ensures GenerationOf(m, cells[free[k]]) == 0
  {
    hide Contents, HeaderAt, GenerationOf, Aligned, Kept, Tiled;
    assert LinkAt(m, cells, free, k);
    TiledWithin(cells, lo, hi, free[k]);
    UnlinkStores(m, lo, hi, cells, free, k);
    hide Unlinked;
    if k > 0 {
      assert Without(free, k)[0] == free[0];
    }
  }

  lemma FrontierAligned(cells: seq<Cell>, lo: nat, hi: nat)
    requires Tiled(cells, lo, hi) && Aligned(cells) && IsAligned(lo)
    ensures IsAligned(hi)
  {
  }

  lemma AppendTiled(cells: seq<Cell>, lo: nat, hi: nat, size: nat)
    requires Tiled(cells, lo, hi)
    ensures Tiled(cells + [Cell(hi, size)], lo, hi + HEADER + size)
  {
    var more := cells + [Cell(hi, size)];
    assert forall i :: 0 <= i <= |cells| ==> Start(more, lo, i) == Start(cells, lo, i);
  }

  lemma AppendLinked(m: Memory, cells: seq<Cell>, c: Cell, free: seq<nat>)
    requires Headers(m, cells) && Linked(m, cells, free) && HeaderAt(m, c)
    ensures Headers(m, cells + [c]) && Linked(m, cells + [c], free)
    ensures LinkTo(cells + [c], free, 0) == LinkTo(cells, free, 0)
  {
    hide HeaderAt, NextOf, GenerationOf;
    var more := cells + [c];
    assert Headers(m, more) && Listed(more, free);
    forall k | 0 <= k < |free|
      ensures LinkAt(m, more, free, k)
    {
      assert LinkAt(m, cells, free, k);
      assert more[free[k]] == cells[free[k]];
    }
  }

  /** The memory after the three words of a new header are written at `a`. */
  ghost function Headed(m: Memory, a: nat, size: nat): (n: Memory)
    requires a + HEADER <= |m| && size < WORD
    ensures |n| == |m| && Same(m, n, 0, a)
    ensures Load32(n, a) == MAGIC && Load32(n, a + 4) == size && Load32(n, a + GENERATION) == 0
  {
    var m1 := Store32(m, a, MAGIC);
    var m2 := Store32(m1, a + 4, size);
    var n := Store32(m2, a + GENERATION, 0);
    SameLoad(m1, m2, a, a + 4, a);
    SameLoad(m2, n, a, a + 8, a);
    SameLoad(m2, n, a, a + 8, a + 4);
    n
  }

  lemma SameParts(m: Memory, n: Memory, lo: nat, hi: nat)
    requires Same(m, n, 0, hi) && lo <= hi
    ensures Same(m, n, 0, lo) && Same(m, n, lo, hi)
  {
  }

  lemma HeadedCell(m: Memory, a: nat, size: nat)
    requires a + HEADER + size <= |m| && size < WORD
    ensures HeaderAt(Headed(m, a, size), Cell(a, size)) && GenerationOf(Headed(m, a, size), Cell(a, size)) == 0
  {
    hide Load32, Headed;
  }

  /** A header written past the frontier makes a new live cell. */
  lemma AppendSound(m: Memory, lo: nat, hi: nat, head: nat, cells: seq<Cell>, free: seq<nat>, size: nat)
    requires Sound(m, lo, hi, head, cells, free) && IsAligned(size)
    requires hi + HEADER + size < WORD && hi + HEADER + size <= |m|
    ensures Sound(Headed(m, hi, size), lo, hi + HEADER + size, head, cells + [Cell(hi, size)], free)
    ensures GenerationOf(Headed(m, hi, size), Cell(hi, size)) == 0
    ensures Kept(m, Headed(m, hi, size), lo, cells)
  {
    hide Load32, Store32, Tiled, Headed, HeaderAt, GenerationOf, Linked, SameCells, Headers, Same, LinkTo, IsAligned;
    var n, c := Headed(m, hi, size), Cell(hi, size);
    HeadedCell(m, hi, size);
    FrontierAligned(cells, lo, hi);
    SameParts(m, n, lo, hi);
    RegionKeeps(m, n, lo, hi, cells, free);
    AppendTiled(cells, lo, hi, size);
    AppendLinked(n, cells, c, free);
    assert Aligned(cells + [c]);
  }

  // ---- best fit ----

  /** The position the scan prefers among the first k on the list. */
  ghost function BestFit(cells: seq<Cell>, free: seq<nat>, want: nat, k: nat): (r: Option<nat>)
    requires Listed(cells, free) && k <= |free|
    ensures r.Some? ==> r.value < k
  {
    if k == 0 then None
    else
      var b := BestFit(cells, free, want, k - 1);
      var size := cells[free[k - 1]].size;
      if size >= want && (b.None? || size < cells[free[b.value]].size) then Some(k - 1) else b
  }

  /** It is the first of the smallest cells that hold `want` bytes, if any does. */
  lemma {:induction false} BestFitMeaning(cells: seq<Cell>, free: seq<nat>, want: nat, k: nat)
    requires Listed(cells, free) && k <= |free|
    ensures var r := BestFit(cells, free, want, k);
            && (r.None? <==> forall q :: 0 <= q < k ==> cells[free[q]].size < want)
            && (r.Some? ==> cells[free[r.value]].size >= want)
            && (r.Some? ==>
                  forall q :: 0 <= q < k && cells[free[q]].size >= want ==>
                    && cells[free[r.value]].size <= cells[free[q]].size
                    && (cells[free[q]].size == cells[free[r.value]].size ==> r.value <= q))
  {
    if k > 0 {
      BestFitMeaning(cells, free, want, k - 1);
    }
  }

  /** Bytes added past the end change nothing. */
  lemma GrowSound(m: Memory, lo: nat, hi: nat, head: nat, cells: seq<Cell>, free: seq<nat>, extra: Memory)
    requires Sound(m, lo, hi, head, cells, free) && |m| + |extra| <= WORD
    ensures Sound(m + extra, lo, hi, head, cells, free) && Kept(m, m + extra, lo, cells)
  {
    hide Tiled, Headers, Linked, SameCells, Aligned, LinkTo, IsAligned;
    SameParts(m, m + extra, lo, hi);
    RegionKeeps(m, m + extra, lo, hi, cells, free);
  }

  // ---- payload writes ----

  /** Memory n differs from m only inside the payload of c. */
  ghost predicate OnlyPayload(m: Memory, n: Memory, c: Cell) {
    |n| == |m| && forall a :: 0 <= a < |m| && !(Payload(c) <= a < End(c)) ==> n[a] == m[a]
  }

  lemma PayloadKeepsHeader(m: Memory, n: Memory, c: Cell, d: Cell)
    requires OnlyPayload(m, n, c) && HeaderAt(m, d) && (d == c || End(d) <= c.base || End(c) <= d.base)
    ensures HeaderAt(n, d) && NextOf(n, d) == NextOf(m, d) && GenerationOf(n, d) == GenerationOf(m, d)
    ensures d != c ==> SameCell(m, n, d)
  {
    hide Load32;
    assert Same(m, n, d.base, Payload(d));
    SameLoad(m, n, d.base, Payload(d), d.base);
    SameLoad(m, n, d.base, Payload(d), d.base + 4);
    SameLoad(m, n, d.base, Payload(d), d.base + NEXT);
    SameLoad(m, n, d.base, Payload(d), d.base + GENERATION);
  }

  /** A program that writes inside its own cells cannot harm the heap or another cell. */
  lemma PayloadSound(m: Memory, n: Memory, lo: nat, hi: nat, head: nat, cells: seq<Cell>, free: seq<nat>, i: nat)
    requires Sound(m, lo, hi, head, cells, free) && i < |cells| && OnlyPayload(m, n, cells[i])
    ensures Sound(n, lo, hi, head, cells, free) && KeptBut(m, n, lo, cells, i) && |n| == |m|
    ensures GenerationOf(n, cells[i]) == GenerationOf(m, cells[i])
  {
    hide OnlyPayload, HeaderAt, NextOf, GenerationOf, Contents, Tiled, Aligned, SameCell;
    forall j | 0 <= j < |cells|
      ensures HeaderAt(n, cells[j]) && NextOf(n, cells[j]) == NextOf(m, cells[j])
      ensures GenerationOf(n, cells[j]) == GenerationOf(m, cells[j])
      ensures j != i ==> SameCell(m, n, cells[j])
    {
      if j < i {
        TiledApart(cells, lo, hi, j, i);
      } else if i < j {
        TiledApart(cells, lo, hi, i, j);
      }
      PayloadKeepsHeader(m, n, cells[i], cells[j]);
    }
    TiledWithin(cells, lo, hi, i);
    SameBelow(m, n, lo, cells[i]);
    assert Headers(n, cells);
    forall k | 0 <= k < |free|
      ensures LinkAt(n, cells, free, k)
    {
      assert LinkAt(m, cells, free, k);
    }
  }

  lemma SameBelow(m: Memory, n: Memory, lo: nat, c: Cell)
    requires OnlyPayload(m, n, c) && lo <= c.base && lo <= |m|
    ensures |n| == |m| && Same(m, n, 0, lo)
  {
  }

  /** No two cells share an address. */
  lemma PayloadsDistinct(cells: seq<Cell>, lo: nat, hi: nat, i: nat, j: nat)
    requires Tiled(cells, lo, hi) && i < |cells| && j < |cells| && i != j
    ensures Payload(cells[i]) != Payload(cells[j])
    ensures End(cells[i]) <= Payload(cells[j]) || End(cells[j]) <= Payload(cells[i])
  {
    if i < j {
      TiledApart(cells, lo, hi, i, j);
    } else {
      TiledApart(cells, lo, hi, j, i);
    }
  }

  /** Words below the heap are no part of it. */
  lemma LowStoreSound(m: Memory, lo: nat, hi: nat, head: nat, cells: seq<Cell>, free: seq<nat>, a: nat, v: nat)
    requires Sound(m, lo, hi, head, cells, free) && a + 4 <= lo && v < WORD
    ensures Sound(Store32(m, a, v), lo, hi, head, cells, free) && SameCells(m, Store32(m, a, v), cells)
  {
    hide Tiled, Headers, Linked, SameCells, Aligned, LinkTo, IsAligned, Store32, Load32;
    RegionKeeps(m, Store32(m, a, v), lo, hi, cells, free);
  }

  /** The generation word of a cell in use is free to change. */
  lemma TagSound(m: Memory, lo: nat, hi: nat, head: nat, cells: seq<Cell>, free: seq<nat>, i: nat, v: nat)
    requires Sound(m, lo, hi, head, cells, free) && i < |cells| && i !in free && v < WORD
    ensures End(cells[i]) <= |m|
    ensures Sound(Store32(m, cells[i].base + GENERATION, v), lo, hi, head, cells, free)
    ensures KeptBut(m, Store32(m, cells[i].base + GENERATION, v), lo, cells, i)
    ensures SameBytes(m, Store32(m, cells[i].base + GENERATION, v), cells[i])
    ensures GenerationOf(Store32(m, cells[i].base + GENERATION, v), cells[i]) == v
  {
    hide Tiled, HeaderAt, Aligned, IsAligned, Store32, Load32, GenerationOf, NextOf, Contents;
    StoreLink(m, lo, hi, cells, i, GENERATION, v);
    var n := Store32(m, cells[i].base + GENERATION, v);
    forall k | 0 <= k < |free|
      ensures LinkAt(n, cells, free, k)
    {
      assert LinkAt(m, cells, free, k);
      assert SameCell(m, n, cells[free[k]]);
    }
  }

  // ---- which bytes an operation writes ----

  ghost predicate InHeader(cells: seq<Cell>, a: nat) {
    exists i :: 0 <= i < |cells| && cells[i].base <= a < Payload(cells[i])
  }

  /** Only headers of these cells and the bytes in [lo, hi) differ; what was added is zero elsewhere. */
  ghost predicate OnlyHeaders(m: Memory, n: Memory, cells: seq<Cell>, lo: nat, hi: nat) {
    && |m| <= |n|
    && forall a: nat :: a < |n| && !InHeader(cells, a) && !(lo <= a < hi) ==> n[a] == if a < |m| then m[a] else 0
  }

  lemma StoreInHeader(m: Memory, cells: seq<Cell>, i: nat, offset: nat, v: nat)
    requires i < |cells| && offset + 4 <= HEADER && Payload(cells[i]) <= |m| && v < WORD
    ensures OnlyHeaders(m, Store32(m, cells[i].base + offset, v), cells, 0, 0)
  {
    hide Store32;
    var n := Store32(m, cells[i].base + offset, v);
    forall a: nat | a < |n| && !InHeader(cells, a) ensures n[a] == m[a] {
      assert !(cells[i].base <= a < Payload(cells[i]));
    }
  }

  lemma OnlyThrough(m: Memory, n: Memory, o: Memory, cells: seq<Cell>, lo: nat, hi: nat)
    requires OnlyHeaders(m, n, cells, lo, hi) && OnlyHeaders(n, o, cells, lo, hi)
    ensures OnlyHeaders(m, o, cells, lo, hi)
  {
    hide InHeader;
  }

  lemma OnlyWider(m: Memory, n: Memory, cells: seq<Cell>, lo: nat, hi: nat, more: seq<Cell>, lo': nat, hi': nat)
    requires OnlyHeaders(m, n, cells, lo, hi) && (lo < hi ==> lo' <= lo && hi <= hi')
    requires forall i :: 0 <= i < |cells| ==> cells[i] in more
    ensures OnlyHeaders(m, n, more, lo', hi')
  {
    forall a: nat | InHeader(cells, a) ensures InHeader(more, a) {
      var i :| 0 <= i < |cells| && cells[i].base <= a < Payload(cells[i]);
      var j :| 0 <= j < |more| && more[j] == cells[i];
    }
    hide InHeader;
  }

  lemma OnlyNothing(m: Memory, cells: seq<Cell>)
    ensures OnlyHeaders(m, m, cells, 0, 0)
  {
  }
}
