/** Runs of a program that uses the heap: it frees, writes, tags and resizes only what it was given. */
module HeapRuns {
  import opened LinearMemory
  import opened Cells
  import opened Handles
  import opened Allocator

  /** What the program does next; k counts the cells it holds. */
  datatype Op =
    | Allocate(size: nat, canGrow: bool)
    | Release(k: nat)
    | Store(k: nat, offset: nat, b: Byte)
    | Mark(k: nat)
    | Unmark(k: nat)
    | Resize(k: nat, align: bv32, size: nat, canGrow: bool)

  /** A pointer the program was given and the size it asked for. */
  datatype Held = Held(ptr: nat, size: nat)

  ghost predicate HeldAt(cells: seq<Cell>, free: seq<nat>, p: Held, i: nat) {
    && i < |cells| && i !in free
    && p.ptr == Payload(cells[i]) && p.size <= cells[i].size && p.size < WORD && p.ptr < WORD
  }

  /** The program holds distinct cells in use. */
  ghost predicate HeldIn(cells: seq<Cell>, free: seq<nat>, held: seq<Held>, ids: seq<nat>) {
    && |held| == |ids|
    && (forall j, k :: 0 <= j < k < |ids| ==> ids[j] != ids[k])
    && forall k :: 0 <= k < |ids| ==> HeldAt(cells, free, held[k], ids[k])
  }

  ghost predicate Holds(h: Heap, held: seq<Held>, ids: seq<nat>)
    reads h
  {
    HeldIn(h.cells, h.free, held, ids)
  }

  function Dropped<T>(s: seq<T>, k: nat): (r: seq<T>)
    requires k < |s|
    ensures |r| == |s| - 1 && forall j :: 0 <= j < |r| ==> r[j] == s[if j < k then j else j + 1]
  {
    s[..k] + s[k + 1..]
  }

  // ---- the program's buffers ----

  /** What the program finds where a pointer leads. */
  ghost function Buffer(m: Memory, p: Held): seq<Byte> {
    if p.ptr + p.size <= |m| then m[p.ptr..p.ptr + p.size] else []
  }

  ghost function Buffers(m: Memory, held: seq<Held>): (r: seq<seq<Byte>>)
    ensures |r| == |held| && forall k :: 0 <= k < |held| ==> r[k] == Buffer(m, held[k])
  {
    seq(|held|, k requires 0 <= k < |held| => Buffer(m, held[k]))
  }

  function Stored(buffer: seq<Byte>, offset: nat, b: Byte): seq<Byte>
    requires offset < |buffer|
  {
    buffer[offset := b]
  }

  /** A buffer of the given size that begins like another one. */
  ghost predicate Begins(a: seq<Byte>, b: seq<Byte>, size: nat) {
    |b| == size && b[..Min(|a|, size)] == a[..Min(|a|, size)]
  }

  /** An operation that stops: a request that is not met, an alignment that is not supported, a buffer the
      program does not hold. */
  ghost predicate Stops(op: Op, s: State, held: nat)
    requires Listed(s.cells, s.free)
  {
    match op
    case Allocate(size, canGrow) => size >= WORD || Fails(s, size, canGrow)
    case Resize(k, align, size, canGrow) =>
      k >= held || size >= WORD || (size != 0 && (!Supported(align) || Fails(s, size, canGrow)))
    case Release(k) => k >= held
    case Store(k, _, _) => k >= held
    case Mark(k) => k >= held
    case Unmark(k) => k >= held
  }

  /** What an operation does to the buffers, said without a heap: a store changes one byte, a release or
      resize takes one buffer away, an allocation or resize adds one, and one that stops changes nothing. */
  ghost predicate Does(op: Op, stops: bool, was: seq<seq<Byte>>, now: seq<seq<Byte>>) {
    if stops then now == was else
    match op
    case Allocate(size, _) => exists b: seq<Byte> :: |b| == size && now == was + [b]
    case Release(k) => now == if k < |was| then Dropped(was, k) else was
    case Store(k, offset, b) =>
      now == if k < |was| && offset < |was[k]| then was[k := Stored(was[k], offset, b)] else was
    case Mark(_) => now == was
    case Unmark(_) => now == was
    case Resize(k, _, size, _) =>
      k < |was| &&
      if size == 0 then now == Dropped(was, k)
      else exists b: seq<Byte> :: Begins(was[k], b, size) && now == Dropped(was, k) + [b]
  }

  /** What an operation does to the heap, ids naming the cells the program holds. */
  ghost predicate Steps(op: Op, was: State, ids: seq<nat>, now: State, ids': seq<nat>)
    requires Listed(was.cells, was.free)
  {
    if Stops(op, was, |ids|) then now == was && ids' == ids else
    match op
    case Allocate(size, _) => ids' != [] && ids'[..|ids'| - 1] == ids && Allocates(was, size, ids'[|ids'| - 1], now)
    case Release(k) => now == Freed(was, ids[k]) && ids' == Dropped(ids, k)
    case Store(_, _, _) => now == was && ids' == ids
    case Mark(_) => now == was && ids' == ids
    case Unmark(_) => now == was && ids' == ids
    case Resize(k, _, size, _) =>
      if size == 0 then now == Freed(was, ids[k]) && ids' == Dropped(ids, k)
      else
        && ids' != [] && ids'[..|ids'| - 1] == Dropped(ids, k)
        && exists s: State :: Allocates(was, size, ids'[|ids'| - 1], s) && now == Freed(s, ids[k])
  }

  /** The buffer of a cell whose payload stays. */
  lemma SameBuffer(m: Memory, n: Memory, c: Cell, p: Held)
    requires SameBytes(m, n, c) && p.ptr == Payload(c) && p.size <= c.size
    ensures Buffer(n, p) == Buffer(m, p) && |Buffer(m, p)| == p.size
  {
    FrontOf(m, Payload(c), End(c), p.size);
    FrontOf(n, Payload(c), End(c), p.size);
  }

  // ---- one operation ----

  method DoAllocate(h: Heap, size: nat, canGrow: bool, held: seq<Held>, ghost ids: seq<nat>)
    returns (held': seq<Held>, ghost ids': seq<nat>)
    requires h.Valid() && Holds(h, held, ids) && size < WORD
    modifies h
    ensures h.Valid() && Holds(h, held', ids') && Evolves(old(h.owner), old(h.Handles()), h.owner, h.Handles())
    ensures Listed(old(h.cells), old(h.free))
    ensures Does(Allocate(size, canGrow), Stops(Allocate(size, canGrow), old(h.Now()), |ids|),
                 old(Buffers(h.mem, held)),
                 Buffers(h.mem, held'))
    ensures Steps(Allocate(size, canGrow), old(h.Now()), ids, h.Now(), ids')
  {
    hide Kept, GenerationOf, BestFit, Fails, IsAligned, Rounded, Good, SameCell, SameBytes, Buffer, Sound, Tagged;
    FreeListed(h);
    ghost var was, before := h.mem, h.cells;
    var r, i := h.Alloc(size, canGrow);
    AllSame(was, h.mem, h.heapBase, before);
    forall k | 0 <= k < |held| ensures Buffer(h.mem, held[k]) == Buffer(was, held[k]) {
      SameBuffer(was, h.mem, before[ids[k]], held[k]);
    }
    assert Buffers(h.mem, held) == Buffers(was, held);
    held', ids' := held, ids;
    if r.Done? {
      PayloadBelow(h, i);
      held', ids' := held + [Held(r.ptr, size)], ids + [i];
      WholeBuffer(h, i, Held(r.ptr, size));
      assert Buffers(h.mem, held') == Buffers(was, held) + [Buffer(h.mem, Held(r.ptr, size))];
    }
  }

  lemma FreeListed(h: Heap)
    requires h.Valid()
    ensures Listed(h.cells, h.free)
  {
    hide Sound;
    HeapParts(h.mem, h.heapBase, h.heapPtr, h.freeHead, h.cells, h.free);
  }

  lemma PayloadBelow(h: Heap, i: nat)
    requires h.Valid() && i < |h.cells|
    ensures 0 < Payload(h.cells[i]) <= Payload(h.cells[i]) + h.cells[i].size < WORD
    ensures End(h.cells[i]) <= |h.mem|
  {
    hide Sound;
    HeapParts(h.mem, h.heapBase, h.heapPtr, h.freeHead, h.cells, h.free);
    CellParts(h.mem, h.heapBase, h.heapPtr, h.freeHead, h.cells, h.free, i);
  }

  lemma WholeBuffer(h: Heap, i: nat, p: Held)
    requires h.Valid() && i < |h.cells| && p.ptr == Payload(h.cells[i]) && p.size <= h.cells[i].size
    ensures p.ptr + p.size <= |h.mem| && |Buffer(h.mem, p)| == p.size
  {
    PayloadBelow(h, i);
  }

  /** Buffers of the other cells, when only cell ids[k] may have changed. */
  lemma OthersSame(m: Memory, n: Memory, cells: seq<Cell>, held: seq<Held>, ids: seq<nat>, k: nat)
    requires |held| == |ids| && k < |ids| && (forall j, l :: 0 <= j < l < |ids| ==> ids[j] != ids[l])
    requires forall j :: 0 <= j < |ids| ==>
               ids[j] < |cells| && held[j].ptr == Payload(cells[ids[j]]) && held[j].size <= cells[ids[j]].size
    requires forall j :: 0 <= j < |ids| && j != k ==> SameBytes(m, n, cells[ids[j]])
    ensures forall j :: 0 <= j < |held| && j != k ==> Buffer(n, held[j]) == Buffer(m, held[j])
    ensures Buffers(n, Dropped(held, k)) == Dropped(Buffers(m, held), k)
  {
    hide SameBytes, Buffer;
    forall j | 0 <= j < |held| && j != k ensures Buffer(n, held[j]) == Buffer(m, held[j]) {
      SameBuffer(m, n, cells[ids[j]], held[j]);
    }
  }

  method DoRelease(h: Heap, k: nat, held: seq<Held>, ghost ids: seq<nat>)
    returns (held': seq<Held>, ghost ids': seq<nat>)
    requires h.Valid() && Holds(h, held, ids) && k < |held|
    modifies h
    ensures h.Valid() && Holds(h, held', ids') && Evolves(old(h.owner), old(h.Handles()), h.owner, h.Handles())
    ensures Listed(old(h.cells), old(h.free))
    ensures Does(Release(k), false, old(Buffers(h.mem, held)), Buffers(h.mem, held'))
    ensures Steps(Release(k), old(h.Now()), ids, h.Now(), ids')
  {
    hide KeptBut, Good, Sound, Tagged, Buffer, SameBytes, Listed;
    FreeListed(h);
    assert HeldAt(h.cells, h.free, held[k], ids[k]);
    ghost var was := h.mem;
    var _ := h.Free(held[k].ptr);
    ButOne(was, h.mem, h.heapBase, h.cells, ids[k]);
    OthersSame(was, h.mem, h.cells, held, ids, k);
    held', ids' := Dropped(held, k), Dropped(ids, k);
  }

  lemma ButOne(m: Memory, n: Memory, lo: nat, cells: seq<Cell>, i: nat)
    requires KeptBut(m, n, lo, cells, i)
    ensures forall j :: 0 <= j < |cells| && j != i ==> SameBytes(m, n, cells[j])
  {
    forall j | 0 <= j < |cells| && j != i ensures SameBytes(m, n, cells[j]) {
      assert SameCell(m, n, cells[j]);
    }
  }

  method DoResize(h: Heap, k: nat, align: bv32, size: nat, canGrow: bool, held: seq<Held>, ghost ids: seq<nat>)
    returns (held': seq<Held>, ghost ids': seq<nat>)
    requires h.Valid() && Holds(h, held, ids) && k < |held| && size < WORD
    modifies h
    ensures h.Valid() && Holds(h, held', ids') && Evolves(old(h.owner), old(h.Handles()), h.owner, h.Handles())
    ensures Listed(old(h.cells), old(h.free))
    ensures Does(Resize(k, align, size, canGrow), Stops(Resize(k, align, size, canGrow), old(h.Now()), |ids|),
                 old(Buffers(h.mem, held)), Buffers(h.mem, held'))
    ensures Steps(Resize(k, align, size, canGrow), old(h.Now()), ids, h.Now(), ids')
  {
    hide KeptBut, Good, Sound, Tagged, SameCell, Moved, Fails, IsAligned, Buffer, SameBytes, Begins, Does, Buffers,
         HeldIn, Listed, Allocates;
    FreeListed(h);
    HeldParts(h.cells, h.free, held, ids);
    assert HeldAt(h.cells, h.free, held[k], ids[k]);
    PayloadBelow(h, ids[k]);
    ghost var was, before, unused := h.mem, h.cells, h.free;
    var r, i := h.Realloc(held[k].ptr, held[k].size, align, size, canGrow, ids[k]);
    held', ids' := held, ids;
    if r.Done? {
      held', ids' := Dropped(held, k), Dropped(ids, k);
      DroppedHolds(before, unused, h.cells, h.free, held, ids, k);
      DroppedLive(before, unused, held, ids, k);
      if size != 0 {
        PayloadBelow(h, i);
        AddedHolds(h.cells, h.free, held', ids', Held(r.ptr, size), i);
        held', ids' := held' + [Held(r.ptr, size)], ids' + [i];
      }
      ResizeDone(was, h.mem, before, held, ids, k, align, size, canGrow, r.ptr);
    } else {
      NothingDone(Buffers(was, held), k, align, size, canGrow);
    }
  }

  lemma HeldParts(cells: seq<Cell>, free: seq<nat>, held: seq<Held>, ids: seq<nat>)
    requires HeldIn(cells, free, held, ids)
    ensures |held| == |ids| && (forall j, k :: 0 <= j < k < |ids| ==> ids[j] != ids[k])
    ensures forall k :: 0 <= k < |ids| ==> HeldAt(cells, free, held[k], ids[k])
  {
  }

  /** The other cells, when they stay in use. */
  lemma DroppedHolds(cells: seq<Cell>, free: seq<nat>, cells': seq<Cell>, free': seq<nat>, held: seq<Held>,
                     ids: seq<nat>, k: nat)
    requires HeldIn(cells, free, held, ids) && k < |ids|
    requires forall j :: 0 <= j < |ids| && j != k ==>
               ids[j] < |cells| && ids[j] < |cells'| && ids[j] !in free' && cells'[ids[j]] == cells[ids[j]]
    ensures HeldIn(cells', free', Dropped(held, k), Dropped(ids, k))
  {
    hide Dropped;
    var ps, rest := Dropped(held, k), Dropped(ids, k);
    forall j | 0 <= j < |rest| ensures HeldAt(cells', free', ps[j], rest[j]) {
      var l := if j < k then j else j + 1;
      assert HeldAt(cells, free, held[l], ids[l]);
    }
  }

  lemma DroppedLive(cells: seq<Cell>, free: seq<nat>, held: seq<Held>, ids: seq<nat>, k: nat)
    requires HeldIn(cells, free, held, ids) && k < |ids|
    ensures forall i :: i in Dropped(ids, k) ==> i < |cells| && i !in free
  {
    hide Dropped;
    var rest := Dropped(ids, k);
    forall i | i in rest ensures i < |cells| && i !in free {
      var j :| 0 <= j < |rest| && rest[j] == i;
      var l := if j < k then j else j + 1;
      assert HeldAt(cells, free, held[l], ids[l]);
    }
  }

  lemma AddedHolds(cells: seq<Cell>, free: seq<nat>, held: seq<Held>, ids: seq<nat>, p: Held, i: nat)
    requires HeldIn(cells, free, held, ids) && HeldAt(cells, free, p, i) && i !in ids
    ensures HeldIn(cells, free, held + [p], ids + [i])
  {
  }

  lemma NothingDone(was: seq<seq<Byte>>, k: nat, align: bv32, size: nat, canGrow: bool)
    ensures Does(Resize(k, align, size, canGrow), true, was, was)
  {
  }

  /** The buffers after a resize: the others as they were, and the new one begins like the old. */
  lemma ResizeDone(m: Memory, n: Memory, cells: seq<Cell>, held: seq<Held>, ids: seq<nat>, k: nat, align: bv32,
                   size: nat, canGrow: bool, ptr: nat)
    requires |held| == |ids| && k < |ids| && (forall j, l :: 0 <= j < l < |ids| ==> ids[j] != ids[l])
    requires forall j :: 0 <= j < |ids| ==>
               ids[j] < |cells| && held[j].ptr == Payload(cells[ids[j]]) && held[j].size <= cells[ids[j]].size
    requires forall j :: 0 <= j < |ids| && j != k ==> SameCell(m, n, cells[ids[j]])
    requires size != 0 ==> held[k].ptr + held[k].size <= |m| && ptr + size <= |n|
    requires size != 0 ==> Moved(m, held[k].ptr, n, ptr, Min(held[k].size, size))
    ensures Does(Resize(k, align, size, canGrow), false, Buffers(m, held),
                 Buffers(n, if size == 0 then Dropped(held, k) else Dropped(held, k) + [Held(ptr, size)]))
  {
    hide SameCell, SameBytes, Buffer, Moved, Begins;
    forall j | 0 <= j < |ids| && j != k ensures SameBytes(m, n, cells[ids[j]]) {
      CellBytes(m, n, cells[ids[j]]);
    }
    OthersSame(m, n, cells, held, ids, k);
    if size != 0 {
      var p := Held(ptr, size);
      MovedBegins(m, n, held[k], p);
      assert Buffers(n, Dropped(held, k) + [p]) == Dropped(Buffers(m, held), k) + [Buffer(n, p)];
    }
  }

  lemma CellBytes(m: Memory, n: Memory, c: Cell)
    requires SameCell(m, n, c)
    ensures SameBytes(m, n, c)
  {
  }

  lemma MovedBegins(m: Memory, n: Memory, p: Held, q: Held)
    requires p.ptr + p.size <= |m| && q.ptr + q.size <= |n| && Moved(m, p.ptr, n, q.ptr, Min(p.size, q.size))
    ensures Begins(Buffer(m, p), Buffer(n, q), q.size)
  {
    var l := Min(p.size, q.size);
    assert Buffer(m, p)[..l] == m[p.ptr..p.ptr + l];
    assert Buffer(n, q)[..l] == n[q.ptr..q.ptr + l];
  }

  method DoStore(h: Heap, k: nat, offset: nat, b: Byte, held: seq<Held>, ghost ids: seq<nat>)
    requires h.Valid() && Holds(h, held, ids) && k < |held| && offset < held[k].size
    modifies h
    ensures h.Valid() && Holds(h, held, ids) && Evolves(old(h.owner), old(h.Handles()), h.owner, h.Handles())
    ensures h.Now() == old(h.Now())
    ensures Does(Store(k, offset, b), false, old(Buffers(h.mem, held)), Buffers(h.mem, held))
  {
    hide KeptBut, Good, Sound, Tagged, SameBytes;
    assert HeldAt(h.cells, h.free, held[k], ids[k]);
    ghost var was := h.mem;
    WholeBuffer(h, ids[k], held[k]);
    h.Write(held[k].ptr + offset, b, ids[k]);
    ButOne(was, h.mem, h.heapBase, h.cells, ids[k]);
    OthersSame(was, h.mem, h.cells, held, ids, k);
    assert Buffer(h.mem, held[k]) == Stored(Buffer(was, held[k]), offset, b);
    assert Buffers(h.mem, held) == Buffers(was, held)[k := Stored(Buffers(was, held)[k], offset, b)];
  }

  /** Tags are not part of a buffer. */
  method DoMark(h: Heap, k: nat, mark: bool, held: seq<Held>, ghost ids: seq<nat>)
    requires h.Valid() && Holds(h, held, ids) && k < |held|
    modifies h
    ensures h.Valid() && Holds(h, held, ids) && Evolves(old(h.owner), old(h.Handles()), h.owner, h.Handles())
    ensures Buffers(h.mem, held) == old(Buffers(h.mem, held)) && h.Now() == old(h.Now())
  {
    hide KeptBut, Good, Sound, Tagged, SameCell, SameBytes, Buffer;
    assert HeldAt(h.cells, h.free, held[k], ids[k]);
    ghost var was := h.mem;
    if mark {
      var _ := h.Issue(held[k].ptr, ids[k]);
      forall j | 0 <= j < |ids| && j != k ensures SameBytes(was, h.mem, h.cells[ids[j]]) {
        CellBytes(was, h.mem, h.cells[ids[j]]);
      }
    } else {
      h.Clear(held[k].ptr, ids[k]);
      ButOne(was, h.mem, h.heapBase, h.cells, ids[k]);
    }
    OthersSame(was, h.mem, h.cells, held, ids, k);
    SameBuffer(was, h.mem, h.cells[ids[k]], held[k]);
    assert Buffers(h.mem, held) == Buffers(was, held);
  }

  /** Does what the operation asks for, when it names a cell the program holds. */
  method Do(h: Heap, op: Op, held: seq<Held>, ghost ids: seq<nat>)
    returns (held': seq<Held>, ghost ids': seq<nat>)
    requires h.Valid() && Holds(h, held, ids)
    modifies h
    ensures h.Valid() && Holds(h, held', ids') && Evolves(old(h.owner), old(h.Handles()), h.owner, h.Handles())
    ensures Listed(old(h.cells), old(h.free))
    ensures Does(op, Stops(op, old(h.Now()), |ids|), old(Buffers(h.mem, held)), Buffers(h.mem, held'))
    ensures Steps(op, old(h.Now()), ids, h.Now(), ids')
  {
    hide KeptBut, Good, Sound, Tagged, SameCell, Buffer, Listed, Allocates, Fails;
    FreeListed(h);
    held', ids' := held, ids;
    match op
    case Allocate(size, canGrow) =>
      if size < WORD {
        held', ids' := DoAllocate(h, size, canGrow, held, ids);
      }
    case Release(k) =>
      if k < |held| {
        held', ids' := DoRelease(h, k, held, ids);
      }
    case Store(k, offset, b) =>
      if k < |held| && offset < held[k].size {
        DoStore(h, k, offset, b, held, ids);
      } else if k < |held| {
        assert HeldAt(h.cells, h.free, held[k], ids[k]);
        WholeBuffer(h, ids[k], held[k]);
      }
    case Mark(k) =>
      if k < |held| {
        DoMark(h, k, true, held, ids);
      }
    case Unmark(k) =>
      if k < |held| {
        DoMark(h, k, false, held, ids);
      }
    case Resize(k, align, size, canGrow) =>
      if k < |held| && size < WORD {
        held', ids' := DoResize(h, k, align, size, canGrow, held, ids);
      }
  }

  // ---- many ----

  ghost function Now(h: Heap): Moment
    requires h.Valid()
    reads h
  {
    Moment(h.owner, h.Handles())
  }

  /** The heap, the cells the program holds, and what it finds in them. */
  datatype Scene = Scene(state: State, ids: seq<nat>, buffers: seq<seq<Byte>>)

  ghost predicate Leads(op: Op, was: Scene, now: Scene) {
    && Listed(was.state.cells, was.state.free)
    && Steps(op, was.state, was.ids, now.state, now.ids)
    && Does(op, Stops(op, was.state, |was.ids|), was.buffers, now.buffers)
  }

  /** Runs a program from an empty hand. The heap stays valid throughout, takes the steps its operations
      say, and so do the program's buffers: what it stored and did not free or resize is still there. And a
      handle that had ended before some operation has ended for good: its generation is never among the
      good ones again. */
  method RunAll(h: Heap, ops: seq<Op>)
    returns (held: seq<Held>, ghost ids: seq<nat>, ghost run: seq<Moment>, ghost scenes: seq<Scene>)
    requires h.Valid()
    modifies h
    ensures h.Valid() && Holds(h, held, ids)
    ensures |scenes| == |ops| + 1 && scenes[0] == Scene(old(h.Now()), [], [])
    ensures scenes[|ops|] == Scene(h.Now(), ids, Buffers(h.mem, held))
    ensures forall n :: 0 <= n < |ops| ==> Leads(ops[n], scenes[n], scenes[n + 1])
    ensures |run| == |ops| + 1 && run[0] == old(Now(h)) && run[|ops|] == Now(h)
    ensures forall k, l, g: nat :: 0 <= k <= l < |run| && g <= |run[k].owner| && g !in run[k].good ==> g !in run[l].good
    ensures forall g: nat :: g <= |old(h.owner)| && g !in old(h.Handles()) ==> g !in h.Handles()
  {
    hide Good, Sound, Tagged, Does, Steps, Stops, Listed;
    held, ids, run, scenes := [], [], [Now(h)], [Scene(h.Now(), [], [])];
    assert Buffers(h.mem, held) == [];
    for n := 0 to |ops|
      invariant h.Valid() && Holds(h, held, ids)
      invariant |run| == n + 1 && run[0] == old(Now(h)) && run[n] == Now(h)
      invariant forall i :: 0 <= i < n ==> Evolves(run[i].owner, run[i].good, run[i + 1].owner, run[i + 1].good)
      invariant |scenes| == n + 1 && scenes[0] == Scene(old(h.Now()), [], [])
      invariant scenes[n] == Scene(h.Now(), ids, Buffers(h.mem, held))
      invariant forall i :: 0 <= i < n ==> Leads(ops[i], scenes[i], scenes[i + 1])
    {
      held, ids := Do(h, ops[n], held, ids);
      run := run + [Now(h)];
      scenes := scenes + [Scene(h.Now(), ids, Buffers(h.mem, held))];
    }
    forall k: nat, l: nat, g: nat | k <= l < |run| && g <= |run[k].owner| && g !in run[k].good
      ensures g !in run[l].good
    {
      StaleForever(run, k, l, g);
    }
    assert run[0].owner == old(h.owner);
  }
}
