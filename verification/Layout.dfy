/** What the emitted operations look like, and why running them walks the graph. */
module Layout {
  import opened Cfg
  import opened StructuredCode
  import opened Terminators
  import opened Wrappers

  /** The function, the order its blocks are emitted in, and the label of the shared
      return when there is more than one. */
  datatype Plan = Plan(f: Func, order: seq<Block>, rank: map<Block, nat>, epilogue: Option<Block>) {
    ghost predicate Valid() {
      && order != []
      && Closed(f, order)
      && Ranks(order, rank)
      && (epilogue.Some? ==> epilogue.value !in rank)
    }
  }

  /** The names of scopes, given where they begin. */
  function Names(ops: seq<Op>, scopes: seq<nat>): (r: seq<Block>)
    requires forall j :: 0 <= j < |scopes| ==> scopes[j] < |ops| && ops[scopes[j]].Opens()
    ensures |r| == |scopes|
  {
    seq(|scopes|, j requires 0 <= j < |scopes| => NameOf(ops[scopes[j]]))
  }

  function NameOf(op: Op): Block
    requires op.Opens()
  {
    if op.LoopBegin? then op.header else op.landing
  }

  ghost function NamesAt(ops: seq<Op>, p: nat): seq<Block>
    requires p <= |ops|
  {
    Names(ops, Enclosing(ops, p))
  }

  lemma OrderedSuccessors(pl: Plan, i: nat)
    requires pl.Valid() && i < |pl.order|
    ensures pl.order[i] < |pl.f| && pl.order[i] in pl.rank
    ensures forall s :: s in Successors(pl.f[pl.order[i]]) ==> s in pl.rank
  {
    assert pl.order[i] in pl.order;
    forall s | s in Successors(pl.f[pl.order[i]]) ensures s in pl.rank {
      assert s in pl.order;
      var k :| 0 <= k < |pl.order| && pl.order[k] == s;
    }
  }

  /** The branch operations of the i-th block when `names` are open around it. */
  ghost function Tail(pl: Plan, i: nat, names: seq<Block>): seq<Op>
    requires pl.Valid() && i < |pl.order|
  {
    OrderedSuccessors(pl, i);
    TerminatorOps(pl.f[pl.order[i]], pl.order[i], pl.rank, names, pl.epilogue)
  }

  /** The content of block i at pcs[i], its branch operations right behind, a label
      open for each successor, and only scope begins and ends before the next content. */
  ghost predicate BlockAt(pl: Plan, ops: seq<Op>, pcs: seq<nat>, i: nat)
    requires pl.Valid() && i < |pcs| <= |pl.order|
  {
    var p := pcs[i];
    && p < |ops| && ops[p] == BlockContent(pl.order[i])
    && var tail := Tail(pl, i, NamesAt(ops, p));
    && p + 1 + |tail| <= |ops| && ops[p + 1..p + 1 + |tail|] == tail
    && (forall s :: s in Successors(pl.f[pl.order[i]]) ==> s in NamesAt(ops, p))
    && (i + 1 < |pcs| ==>
          p + 1 + |tail| <= pcs[i + 1] <= |ops| && AllStructural(ops, p + 1 + |tail|, pcs[i + 1]))
  }

  /** From p only scope begins and ends lie before the content of block b. */
  ghost predicate LeadsTo(pl: Plan, ops: seq<Op>, pcs: seq<nat>, p: nat, b: Block) {
    && b in pl.rank && pl.rank[b] < |pcs|
    && p <= pcs[pl.rank[b]] <= |ops| && AllStructural(ops, p, pcs[pl.rank[b]])
  }

  /** All blocks in place, every block scope ending right before its target and every
      loop beginning right before its header. */
  ghost predicate LaidBlocks(pl: Plan, ops: seq<Op>, pcs: seq<nat>) {
    && pl.Valid()
    && |pcs| == |pl.order|
    && WellNested(ops) && Enclosing(ops, |ops|) == []
    && (forall i :: 0 <= i < |pcs| ==> BlockAt(pl, ops, pcs, i))
    && LeadsTo(pl, ops, pcs, 0, pl.order[0])
    && (forall e :: 0 <= e < |ops| && ops[e].BlockEnd? && ops[e].landing in pl.rank ==>
          LeadsTo(pl, ops, pcs, e + 1, ops[e].landing))
    && (forall b :: 0 <= b < |ops| && ops[b].LoopBegin? ==> LeadsTo(pl, ops, pcs, b, ops[b].header))
  }

  ghost predicate Laid(pl: Plan, ops: seq<Op>, pcs: seq<nat>) {
    LaidBlocks(pl, ops, pcs) && (pl.epilogue.Some? ==> Shared(pl, ops, pcs))
  }

  /** The shared return: its scope is around every block and the return follows it. */
  ghost predicate Shared(pl: Plan, ops: seq<Op>, pcs: seq<nat>)
    requires pl.epilogue.Some?
  {
    && ops != [] && ops[|ops| - 1] == Op.Return
    && (forall i :: 0 <= i < |pcs| ==> pcs[i] <= |ops| && pl.epilogue.value in NamesAt(ops, pcs[i]))
    && (forall b :: 0 <= b < |ops| && ops[b].LoopBegin? ==> ops[b].header != pl.epilogue.value)
    && (forall e :: 0 <= e < |ops| && ops[e] == BlockEnd(pl.epilogue.value) ==> e + 2 == |ops|)
  }

  // ---- branches arrive ----

  /** A branch by name behaves as the edge does: it ends at the target's content. */
  lemma BranchArrives(pl: Plan, ops: seq<Op>, pcs: seq<nat>, c: Config, p: nat, t: Block, args: seq<Operand>)
    returns (n: nat)
    requires Laid(pl, ops, pcs) && p < |ops| && At(ops, c, p)
    requires t in pl.rank && t in NamesAt(ops, p)
    ensures var d := Steps(ops, Jump(c, Depth(NamesAt(ops, p), t), args), n);
            && pl.rank[t] < |pcs| && pcs[pl.rank[t]] <= |ops| && At(ops, d, pcs[pl.rank[t]])
            && d.stored == args && d.inputs == c.inputs && d.trace == c.trace
  {
    hide Enclosing, WellNested, Matching, BlockAt, At, Jump, AllStructural, Shared;
    var s, depth := Enclosing(ops, p), Depth(NamesAt(ops, p), t);
    var begin := s[|s| - 1 - depth];
    var to := Continuation(ops, begin);
    JumpArrives(ops, c, p, depth, args);
    JumpKeeps(ops, c, p, depth, args);
    if ops[begin].BlockBegin? {
      EndNamed(ops, begin);
    }
    var q := pcs[pl.rank[t]];
    assert LeadsTo(pl, ops, pcs, to, t);
    n := q - to;
    Glide(ops, Jump(c, depth, args), to, q);
  }

  lemma JumpKeeps(ops: seq<Op>, c: Config, p: nat, depth: nat, args: seq<Operand>)
    requires p < |ops| && At(ops, c, p) && depth < |Enclosing(ops, p)|
    ensures var d := Jump(c, depth, args); d.stored == args && d.inputs == c.inputs && d.trace == c.trace
  {
  }

  /** The end of a block scope carries the name it was opened with. */
  lemma EndNamed(ops: seq<Op>, begin: nat)
    requires WellNested(ops) && Enclosing(ops, |ops|) == [] && begin < |ops| && ops[begin].BlockBegin?
    ensures var e := Matching(ops, begin, begin + 1); e < |ops| && ops[e] == BlockEnd(ops[begin].landing)
  {
    hide Enclosing, Matching, WellNested;
    EnclosingStep(ops, begin);
    MatchingCloses(ops, begin, begin + 1);
    var e := Matching(ops, begin, begin + 1);
    if e < |ops| {
      NestedAt(ops, e);
    }
  }
}
