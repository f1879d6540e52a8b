/** Generational references: which handles still name the cell they were issued for. */
module Handles {
  import opened LinearMemory
  import opened Cells

  // The word that counts the generations issued, and how many there can be.
  const COUNTER := 0x1FE8
  const LAST_GENERATION := 0x7FFF_FFFF

  /** The tag of a live generation: odd, so never the cleared word. */
  function Tag(g: nat): nat { 2 * g + 1 }

  /** Cell i holds no generation, or one that was issued for it: `owner` lists, for each
      generation issued so far, the cell it went to. */
  ghost predicate TagAt(w: nat, i: nat, owner: seq<nat>) {
    w == 0 || (w % 2 == 1 && 1 <= w / 2 <= |owner| && owner[w / 2 - 1] == i)
  }

  ghost predicate Tagged(m: Memory, cells: seq<Cell>, owner: seq<nat>)
    requires Headers(m, cells)
  {
    && COUNTER + 4 <= |m| && Load32(m, COUNTER) == |owner| <= LAST_GENERATION
    && (forall g :: 0 <= g < |owner| ==> owner[g] < |cells|)
    && forall i :: 0 <= i < |cells| ==> TagAt(GenerationOf(m, cells[i]), i, owner)
  }

  /** Generation g is the one its cell holds. */
  ghost predicate Current(m: Memory, cells: seq<Cell>, owner: seq<nat>, g: nat)
    requires Headers(m, cells) && Tagged(m, cells, owner)
  {
    1 <= g <= |owner| && GenerationOf(m, cells[owner[g - 1]]) == Tag(g)
  }

  /** The generations whose handles are still good. */
  ghost function Good(m: Memory, cells: seq<Cell>, owner: seq<nat>): (r: set<nat>)
    requires Headers(m, cells) && Tagged(m, cells, owner)
  {
    set g: nat | 1 <= g <= |owner| && Current(m, cells, owner, g)
  }

  /** Those of the given generations that were not issued for cell j. */
  ghost function Elsewhere(good: set<nat>, owner: seq<nat>, j: nat): set<nat> {
    set g | g in good && 1 <= g <= |owner| && owner[g - 1] != j
  }

  lemma KeptTags(m: Memory, n: Memory, lo: nat, cells: seq<Cell>, owner: seq<nat>)
    requires Headers(m, cells) && Tagged(m, cells, owner) && Headers(n, cells)
    requires Kept(m, n, lo, cells) && COUNTER + 4 <= lo
    ensures Tagged(n, cells, owner) && Good(n, cells, owner) == Good(m, cells, owner)
  {
    hide Contents, HeaderAt, GenerationOf, TagAt, Load32;
    SameLoad(m, n, 0, lo, COUNTER);
    assert forall i :: 0 <= i < |cells| ==> SameCell(m, n, cells[i]);
    hide SameCell;
    assert forall g :: Current(n, cells, owner, g) <==> Current(m, cells, owner, g);
  }

  /** Clearing the word of cell j ends the handles to it and no others. */
  lemma ClearedTags(m: Memory, n: Memory, lo: nat, cells: seq<Cell>, owner: seq<nat>, j: nat)
    requires Headers(m, cells) && Tagged(m, cells, owner) && Headers(n, cells) && j < |cells|
    requires KeptBut(m, n, lo, cells, j) && COUNTER + 4 <= lo && GenerationOf(n, cells[j]) == 0
    ensures Tagged(n, cells, owner)
    ensures Good(n, cells, owner) == Elsewhere(Good(m, cells, owner), owner, j)
  {
    hide Contents, HeaderAt, GenerationOf, Load32;
    SameLoad(m, n, 0, lo, COUNTER);
    assert forall i :: 0 <= i < |cells| && i != j ==> SameCell(m, n, cells[i]);
    forall g: nat
      ensures Current(n, cells, owner, g) <==> Current(m, cells, owner, g) && owner[g - 1] != j
    {
    }
  }

  /** A write inside the payload of cell j ends no handle. */
  lemma WrittenTags(m: Memory, n: Memory, lo: nat, cells: seq<Cell>, owner: seq<nat>, j: nat)
    requires Headers(m, cells) && Tagged(m, cells, owner) && Headers(n, cells) && j < |cells|
    requires KeptBut(m, n, lo, cells, j) && COUNTER + 4 <= lo
    requires GenerationOf(n, cells[j]) == GenerationOf(m, cells[j])
    ensures Tagged(n, cells, owner) && Good(n, cells, owner) == Good(m, cells, owner)
  {
    hide Contents, HeaderAt, GenerationOf, TagAt, Load32;
    SameLoad(m, n, 0, lo, COUNTER);
    assert forall i :: 0 <= i < |cells| && i != j ==> SameCell(m, n, cells[i]);
    assert forall g :: Current(n, cells, owner, g) <==> Current(m, cells, owner, g);
  }

  /** Tagging cell j with the next generation ends its older handles and starts a new one. */
  lemma IssuedTags(m: Memory, n: Memory, lo: nat, cells: seq<Cell>, owner: seq<nat>, j: nat)
    requires Headers(m, cells) && Tagged(m, cells, owner) && Headers(n, cells) && j < |cells|
    requires |owner| < LAST_GENERATION && COUNTER + 4 <= |n| && Load32(n, COUNTER) == |owner| + 1
    requires forall i :: 0 <= i < |cells| && i != j ==> SameCell(m, n, cells[i])
    requires GenerationOf(n, cells[j]) == Tag(|owner| + 1)
    ensures Tagged(n, cells, owner + [j])
    ensures Good(n, cells, owner + [j]) == Elsewhere(Good(m, cells, owner), owner, j) + {|owner| + 1}
  {
    hide Contents, HeaderAt, GenerationOf, Load32;
    var more := owner + [j];
    forall i | 0 <= i < |cells|
      ensures TagAt(GenerationOf(n, cells[i]), i, more)
    {
      if i != j {
        assert SameCell(m, n, cells[i]) && TagAt(GenerationOf(m, cells[i]), i, owner);
      }
    }
    assert Tagged(n, cells, more);
    forall g: nat
      ensures Current(n, cells, more, g) <==>
                (g in Good(m, cells, owner) && owner[g - 1] != j) || g == |owner| + 1
    {
      if 1 <= g <= |owner| && owner[g - 1] != j {
        assert SameCell(m, n, cells[owner[g - 1]]);
      }
    }
  }

  /** A new cell without a generation changes no handle. */
  lemma GrownTags(m: Memory, cells: seq<Cell>, c: Cell, owner: seq<nat>)
    requires Headers(m, cells) && Tagged(m, cells, owner)
    requires Headers(m, cells + [c]) && End(c) <= |m| && GenerationOf(m, c) == 0
    ensures Tagged(m, cells + [c], owner) && Good(m, cells + [c], owner) == Good(m, cells, owner)
  {
    hide HeaderAt, GenerationOf, Load32;
    assert forall i :: 0 <= i < |cells| ==> (cells + [c])[i] == cells[i];
    assert forall g :: Current(m, cells + [c], owner, g) <==> Current(m, cells, owner, g);
  }

  // ---- runs ----

  /** What any heap operation may do to the handles: end some, or start ones never issued before. */
  ghost predicate Evolves(owner: seq<nat>, good: set<nat>, owner': seq<nat>, good': set<nat>) {
    owner <= owner' && forall g :: g in good' ==> g in good || g > |owner|
  }

  datatype Moment = Moment(owner: seq<nat>, good: set<nat>)

  /** A stale handle stays stale: over any run of heap operations, a generation that was issued and
      is no longer good never becomes good again, whatever is freed, reused or issued later. */
  lemma {:induction false} StaleForever(run: seq<Moment>, k: nat, l: nat, g: nat)
    requires forall i :: 0 <= i < |run| - 1 ==>
               Evolves(run[i].owner, run[i].good, run[i + 1].owner, run[i + 1].good)
    requires k <= l < |run| && g <= |run[k].owner| && g !in run[k].good
    ensures g <= |run[l].owner| && g !in run[l].good
    decreases l
  {
    if k < l {
      StaleForever(run, k, l - 1, g);
      assert Evolves(run[l - 1].owner, run[l - 1].good, run[l].owner, run[l].good);
    }
  }
}
